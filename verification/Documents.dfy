/**
 Saving an installation's choices as two documents, one to share and one with the passwords, and
 loading them again after they have been written and read as JSON.
 */
module Documents {
  import opened Common

  // What a document or a setting can hold. JSON has lists but no tuples.
  datatype Value =
    | Null
    | Bool(b: bool)
    | Int(n: int)
    | Text(s: string)
    | List(items: seq<Value>, tuple: bool)
    | Object(members: map<string, Value>)

  // Writing a value as JSON and reading it back turns tuples into lists.
  function Json(v: Value): Value {
    match v
    case List(items, _) => List(seq(|items|, i requires 0 <= i < |items| => Json(items[i])), false)
    case Object(members) => Object(map k | k in members :: Json(members[k]))
    case _ => v
  }

  // The settings of InstallConfig, but for the additional users, which are objects of their own.
  datatype Setting =
    | Disk | Firmware | Hostname | Username | UserPassword | Timezone | Locale | GrantSudo | RootPassword
    | Filesystem | BtrfsSubvolumes | DiskPartitioned | DiskLayout | RootPartition | BootPartition | FormatBoot
    | ShrinkPartition | ShrinkSize | Encrypt | EncryptionPassphrase | Bootloader | Swap | KeyboardLayout
    | KeyboardVariant | MirrorCountry | KernelHeaders | Snapshots | Flatpak | GamingTweaks | NvidiaDriver
    | Fingerprint | Tpm2Unlock | SecureBoot | SshAuthorizedKeys | Cockpit | Netdata | Fail2ban
    | UpdateDownloads | SerialConsole | StaticAddress | StaticGateway | StaticDns | StaticInterface

  datatype User = User(username: Value, password: Value, sudo: Value)

  datatype Config = Config(settings: map<Setting, Value>, users: seq<User>)

  // What the documents keep of a plan.
  datatype Choices = Choices(persona: string, selections: map<string, seq<string>>, aur: bool)

  // The "install" object: its known settings, its additional users, and any other names in it. A
  // member that is absent or null is Null here, outside the settings.
  datatype Install = Install(settings: map<Setting, Value>, users: Value, unknown: set<string>)

  datatype Document = Document(version: Value, persona: Value, selections: Value, allowAur: Value, install: Install)

  // The credentials document: the secrets, and the users' passwords by name.
  datatype Credentials = Credentials(secrets: map<Setting, Value>, users: Value)

  datatype Loaded = Loaded(choices: Choices, config: Config)

  const NO_CREDENTIALS: Credentials := Credentials(map[], Null)

  const CONFIG_VERSION: int := 1

  predicate Secret(s: Setting) {
    s.UserPassword? || s.RootPassword? || s.EncryptionPassphrase?
  }

  predicate IsTuple(s: Setting) {
    s.SshAuthorizedKeys? || s.StaticDns?
  }

  predicate Required(s: Setting) {
    s.Disk? || s.Firmware? || s.Hostname? || s.Username? || s.UserPassword?
  }

  // The dataclass's defaults; the required settings have none.
  function Default(s: Setting): Value {
    match s
    case Timezone => Text("UTC")
    case Locale => Text("en_US.UTF-8")
    case Filesystem => Text("btrfs")
    case DiskLayout => Text("erase")
    case Bootloader => Text("grub")
    case Swap => Text("zram")
    case KeyboardLayout => Text("us")
    case NvidiaDriver => Text("nouveau")
    case KeyboardVariant => Text("")
    case MirrorCountry => Text("")
    case StaticAddress => Text("")
    case StaticGateway => Text("")
    case StaticInterface => Text("")
    case GrantSudo => Bool(true)
    case BtrfsSubvolumes => Bool(true)
    case DiskPartitioned => Bool(true)
    case ShrinkSize => Int(0)
    case SshAuthorizedKeys => List([], true)
    case StaticDns => List([], true)
    case Disk => Null
    case Firmware => Null
    case Hostname => Null
    case Username => Null
    case UserPassword => Null
    case RootPassword => Null
    case EncryptionPassphrase => Null
    case RootPartition => Null
    case BootPartition => Null
    case ShrinkPartition => Null
    case _ => Bool(false)
  }

  // -- JSON ---------------------------------------------------------------------------

  function JsonSettings(settings: map<Setting, Value>): map<Setting, Value> {
    map s | s in settings :: Json(settings[s])
  }

  function JsonDocument(d: Document): Document {
    Document(
      Json(d.version), Json(d.persona), Json(d.selections), Json(d.allowAur),
      Install(JsonSettings(d.install.settings), Json(d.install.users), d.install.unknown))
  }

  function JsonCredentials(c: Credentials): Credentials {
    Credentials(JsonSettings(c.secrets), Json(c.users))
  }

  // -- exporting ------------------------------------------------------------------------

  function UserEntry(u: User): Value {
    Object(map["username" := u.username, "sudo" := u.sudo])
  }

  function Entries(users: seq<User>): seq<Value> {
    seq(|users|, i requires 0 <= i < |users| => UserEntry(users[i]))
  }

  function Texts(items: seq<string>): Value {
    List(seq(|items|, i requires 0 <= i < |items| => Text(items[i])), false)
  }

  function SelectionsValue(selections: map<string, seq<string>>): Value {
    Object(map k | k in selections :: Texts(selections[k]))
  }

  // The settings that may be shared.
  function Shared(settings: map<Setting, Value>): map<Setting, Value> {
    map s | s in settings && !Secret(s) :: settings[s]
  }

  function ExportConfig(plan: Choices, c: Config): Document {
    Document(
      Int(CONFIG_VERSION), Text(plan.persona), SelectionsValue(plan.selections), Bool(plan.aur),
      Install(Shared(c.settings), List(Entries(c.users), false), {}))
  }

  // The password each user name is saved with: the last of that name wins.
  function Passwords(users: seq<User>): map<string, Value> {
    if users == [] then map[]
    else
      var last := users[|users| - 1];
      var init := Passwords(users[..|users| - 1]);
      if last.username.Text? then init[last.username.s := last.password] else init
  }

  function ExportCredentials(c: Config): Credentials {
    Credentials(map s | s in c.settings && Secret(s) :: c.settings[s], Object(Passwords(c.users)))
  }

  // -- loading ----------------------------------------------------------------------------

  // Python's truth of a value.
  predicate Truthy(v: Value) {
    match v
    case Null => false
    case Bool(b) => b
    case Int(n) => n != 0
    case Text(s) => s != ""
    case List(items, _) => items != []
    case Object(members) => members != map[]
  }

  // An object, where a missing or empty value stands for the empty object.
  function Members(v: Value): Result<map<string, Value>> {
    if !Truthy(v) then Ok(map[]) else if v.Object? then Ok(v.members) else Err("not an object")
  }

  // tuple(str(item) for item in values): a text is taken character by character.
  function Strings(v: Value, str: Value -> string): Result<seq<string>> {
    match v
    case List(items, _) => Ok(seq(|items|, i requires 0 <= i < |items| => str(items[i])))
    case Text(s) => Ok(seq(|s|, i requires 0 <= i < |s| => [s[i]]))
    case _ => Err("not iterable")
  }

  function Selections(raw: map<string, Value>, str: Value -> string): Result<map<string, seq<string>>> {
    if forall k <- raw.Keys :: Strings(raw[k], str).Ok? then
      Ok(map k | k in raw :: Strings(raw[k], str).value)
    else Err("selections must be lists")
  }

  predicate Given(credentials: Credentials, s: Setting) {
    s in credentials.secrets && credentials.secrets[s] != Null
  }

  // The settings with the secrets the credentials hold.
  function WithSecrets(settings: map<Setting, Value>, credentials: Credentials): map<Setting, Value> {
    var merged := settings + map s | s in credentials.secrets && Secret(s) && Given(credentials, s)
                                   :: credentials.secrets[s];
    if UserPassword in merged then merged else merged[UserPassword := Text("")]
  }

  function WithPassword(user: map<string, Value>, passwords: map<string, Value>): map<string, Value> {
    var password :=
      if "username" in user && user["username"].Text? && user["username"].s in passwords
      then passwords[user["username"].s]
      else Text("");
    user["password" := password]
  }

  // A user account from its saved entry: the name is required, sudo is off unless given.
  function MakeUser(entry: Value, passwords: map<string, Value>): Result<User> {
    if !entry.Object? then Err("not a user")
    else
      var user := WithPassword(entry.members, passwords);
      if user.Keys <= {"username", "password", "sudo"} && "username" in user then
        Ok(User(user["username"], user["password"], if "sudo" in user then user["sudo"] else Bool(false)))
      else Err("invalid install settings")
  }

  function MakeUsers(entries: seq<Value>, passwords: map<string, Value>): Result<seq<User>> {
    if forall e <- entries :: MakeUser(e, passwords).Ok? then
      Ok(seq(|entries|, i requires 0 <= i < |entries| =>
        assert entries[i] in entries; MakeUser(entries[i], passwords).value))
    else Err("invalid install settings")
  }

  function UserEntries(v: Value): Result<seq<Value>> {
    if !Truthy(v) then Ok([]) else if v.List? then Ok(v.items) else Err("not a list of users")
  }

  // Where the dataclass expects tuples, lists become tuples.
  function PostInit(s: Setting, v: Value): Value {
    if IsTuple(s) && v.List? then List(v.items, true) else v
  }

  // InstallConfig(**install), defaults filled in.
  function Settle(settings: map<Setting, Value>): map<Setting, Value> {
    map s: Setting | true :: if s in settings then PostInit(s, settings[s]) else Default(s)
  }

  // Unknown names are reported before anything the constructors object to.
  function Build(settings: map<Setting, Value>, unknown: set<string>, users: Result<seq<User>>): Result<Config> {
    if unknown != {} then Err("unknown install settings")
    else if users.Err? then Err(users.reason)
    else if exists s: Setting :: Required(s) && s !in settings then Err("invalid install settings")
    else Ok(Config(Settle(settings), users.value))
  }

  function LoadConfig(install: Install, credentials: Credentials): Result<Config> {
    var passwords := Members(credentials.users);
    var entries := UserEntries(install.users);
    if entries.Err? then Err(entries.reason)
    else if passwords.Err? && entries.value != [] then Err(passwords.reason)
    else if exists e <- entries.value :: !e.Object? then Err("not a user")
    else
      Build(WithSecrets(install.settings, credentials), install.unknown,
            MakeUsers(entries.value, if passwords.Ok? then passwords.value else map[]))
  }

  predicate Supported(version: Value) {
    version == Int(CONFIG_VERSION) || version == Bool(true)
  }

  function Load(d: Document, credentials: Credentials, str: Value -> string): Result<Loaded> {
    if !Supported(d.version) then Err("configuration must be an object with version 1")
    else if !d.persona.Text? then Err("configuration is missing persona")
    else
      var raw := Members(d.selections);
      if raw.Err? then Err("selections must be an object")
      else
        var selections := Selections(raw.value, str);
        if selections.Err? then Err(selections.reason)
        else
          var config := LoadConfig(d.install, credentials);
          if config.Err? then Err(config.reason)
          else Ok(Loaded(Choices(d.persona.s, selections.value, Truthy(d.allowAur)), config.value))
  }

  // -- configurations the installer runs with -------------------------------------------------

  predicate Scalar(v: Value) {
    v.Null? || v.Bool? || v.Int? || v.Text?
  }

  predicate TextTuple(v: Value) {
    v.List? && v.tuple && forall item <- v.items :: item.Text?
  }

  // The declared types of the settings.
  ghost predicate Typed(c: Config) {
    && (forall s: Setting :: s in c.settings)
    && (forall s: Setting :: if IsTuple(s) then TextTuple(c.settings[s]) else Scalar(c.settings[s]))
    && c.settings[UserPassword].Text?
    && (forall u <- c.users :: u.username.Text? && u.password.Text? && u.sudo.Bool?)
  }

  // No two users of one name have different passwords.
  ghost predicate OnePasswordEach(users: seq<User>) {
    forall u <- users, v <- users | u.username == v.username :: u.password == v.password
  }

  // The loop of _validate_additional_users over the names: each is new, and none is the main user's
  // or root.
  predicate NamesAreFree(users: seq<User>, seen: set<Value>) {
    users != [] ==>
      users[0].username !in seen && NamesAreFree(users[1..], seen + {users[0].username})
  }

  method ValidateNames(username: Value, users: seq<User>) returns (ok: bool)
    ensures ok == NamesAreFree(users, {username, Text("root")})
  {
    var seen := {username, Text("root")};
    for i := 0 to |users|
      invariant NamesAreFree(users, {username, Text("root")}) == NamesAreFree(users[i..], seen)
    {
      assert users[i..][1..] == users[i + 1..];
      if users[i].username in seen {
        return false;
      }
      seen := seen + {users[i].username};
    }
    return true;
  }

  lemma {:induction false} FreeNamesDiffer(users: seq<User>, seen: set<Value>)
    requires NamesAreFree(users, seen)
    ensures forall u <- users :: u.username !in seen
    ensures forall i, j | 0 <= i < j < |users| :: users[i].username != users[j].username
  {
    if users != [] {
      FreeNamesDiffer(users[1..], seen + {users[0].username});
      assert forall j | 0 < j < |users| :: users[j] in users[1..];
      forall i, j | 0 <= i < j < |users| ensures users[i].username != users[j].username {
        if i > 0 {
          assert users[1..][i - 1].username != users[1..][j - 1].username;
        }
      }
    }
  }

  // Validated users have one password for each name.
  lemma ValidatedHaveOnePassword(users: seq<User>, seen: set<Value>)
    requires NamesAreFree(users, seen)
    ensures OnePasswordEach(users)
  {
    FreeNamesDiffer(users, seen);
    forall u, v | u in users && v in users && u.username == v.username
      ensures u == v
    {
      var i :| 0 <= i < |users| && users[i] == u;
      var j :| 0 <= j < |users| && users[j] == v;
      assert i == j || i < j || j < i;
    }
  }

  // -- users ---------------------------------------------------------------------------------------

  // The saved passwords are those of some user of each name.
  lemma {:induction false} PasswordsHold(users: seq<User>)
    requires forall u <- users :: u.username.Text? && u.password.Text?
    ensures forall u <- users :: u.username.s in Passwords(users)
    ensures forall k <- Passwords(users).Keys ::
              exists u <- users :: u.username.s == k && u.password == Passwords(users)[k]
  {
    if users != [] {
      var init, last := users[..|users| - 1], users[|users| - 1];
      PasswordsHold(init);
      assert users == init + [last];
    }
  }

  // Of two users with one name the later one's password is saved.
  lemma {:induction false} LaterPasswordIsSaved(users: seq<User>, i: nat)
    requires i < |users| && users[i].username.Text?
    requires forall j | i < j < |users| :: users[j].username != users[i].username
    ensures users[i].username.s in Passwords(users) && Passwords(users)[users[i].username.s] == users[i].password
  {
    var n := |users| - 1;
    if i < n {
      LaterPasswordIsSaved(users[..n], i);
    }
  }

  lemma PasswordIsSaved(users: seq<User>, u: User)
    requires forall u <- users :: u.username.Text? && u.password.Text?
    requires OnePasswordEach(users) && u in users
    ensures u.username.s in Passwords(users) && Passwords(users)[u.username.s] == u.password
  {
    PasswordsHold(users);
    var v :| v in users && v.username.s == u.username.s && v.password == Passwords(users)[u.username.s];
  }

  lemma PasswordsSurvive(users: seq<User>)
    requires forall u <- users :: u.username.Text? && u.password.Text?
    ensures Json(Object(Passwords(users))) == Object(Passwords(users))
  {
    PasswordsHold(users);
    var passwords := Passwords(users);
    assert (map k | k in passwords :: Json(passwords[k])) == passwords;
  }

  // A saved user loads with the password saved under the name.
  lemma UserLoads(u: User, passwords: map<string, Value>)
    requires u.username.Text? && u.sudo.Bool?
    ensures Json(UserEntry(u)) == UserEntry(u)
    ensures MakeUser(UserEntry(u), passwords)
         == Ok(u.(password := if u.username.s in passwords then passwords[u.username.s] else Text("")))
  {
  }

  // The users as they come back from their entries and the saved passwords.
  function Reloaded(users: seq<User>): seq<User>
    requires forall u <- users :: u.username.Text? && u.password.Text?
  {
    PasswordsHold(users);
    seq(|users|, i requires 0 <= i < |users| =>
      assert users[i] in users; users[i].(password := Passwords(users)[users[i].username.s]))
  }

  lemma UsersLoad(users: seq<User>)
    requires forall u <- users :: u.username.Text? && u.password.Text? && u.sudo.Bool?
    ensures MakeUsers(Entries(users), Passwords(users)) == Ok(Reloaded(users))
  {
    PasswordsHold(users);
    forall i | 0 <= i < |users|
      ensures MakeUser(Entries(users)[i], Passwords(users)) == Ok(Reloaded(users)[i])
    {
      assert users[i] in users;
      UserLoads(users[i], Passwords(users));
    }
    assert MakeUsers(Entries(users), Passwords(users)).Ok?;
    assert MakeUsers(Entries(users), Passwords(users)).value == Reloaded(users);
  }

  // The users load back exactly when users of one name share a password.
  lemma UsersLoadIff(users: seq<User>)
    requires forall u <- users :: u.username.Text? && u.password.Text? && u.sudo.Bool?
    ensures Reloaded(users) == users <==> OnePasswordEach(users)
  {
    if OnePasswordEach(users) {
      forall i | 0 <= i < |users| ensures Reloaded(users)[i] == users[i] {
        PasswordIsSaved(users, users[i]);
      }
    }
    if Reloaded(users) == users {
      forall u, v | u in users && v in users && u.username == v.username
        ensures u.password == v.password
      {
        var i :| 0 <= i < |users| && users[i] == u;
        var j :| 0 <= j < |users| && users[j] == v;
        assert Reloaded(users)[i].password == Reloaded(users)[j].password;
      }
    }
  }
}
