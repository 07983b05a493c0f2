/** Loading what was saved gives the same choices back, and the shared document holds no secret. */
module Replay {
  import opened Common
  import opened Documents
  import Profiles

  // -- the program's own steps ---------------------------------------------------------

  const SECRET_FIELDS: seq<Setting> := [UserPassword, RootPassword, EncryptionPassphrase]

  lemma SecretFields(s: Setting)
    ensures s in SECRET_FIELDS <==> Secret(s)
  {
    assert SECRET_FIELDS[0] == UserPassword && SECRET_FIELDS[1] == RootPassword;
    assert SECRET_FIELDS[2] == EncryptionPassphrase;
  }

  // export_config: the settings as a dictionary, the secrets popped, the users rewritten.
  method SaveConfig(plan: Choices, c: Config) returns (document: Document)
    ensures document == ExportConfig(plan, c)
  {
    var settings := c.settings;
    for i := 0 to |SECRET_FIELDS|
      invariant settings == map s | s in c.settings && s !in SECRET_FIELDS[..i] :: c.settings[s]
    {
      settings := settings - {SECRET_FIELDS[i]};
    }
    assert SECRET_FIELDS[..|SECRET_FIELDS|] == SECRET_FIELDS;
    assert settings == Shared(c.settings) by {
      forall s: Setting ensures s in SECRET_FIELDS <==> Secret(s) { SecretFields(s); }
    }
    document :=
      Document(
        Int(CONFIG_VERSION), Text(plan.persona), SelectionsValue(plan.selections), Bool(plan.aur),
        Install(settings, List(Entries(c.users), false), {}));
  }

  // The secrets of the credentials among the given names.
  function Taken(names: seq<Setting>, credentials: Credentials): map<Setting, Value> {
    map s | s in credentials.secrets && s in names && Given(credentials, s) :: credentials.secrets[s]
  }

  // The dictionary after some of the names.
  function Merged(saved: map<Setting, Value>, names: seq<Setting>, credentials: Credentials): map<Setting, Value> {
    saved + Taken(names, credentials)
  }

  lemma MergedNext(saved: map<Setting, Value>, names: seq<Setting>, s: Setting, credentials: Credentials)
    ensures Merged(saved, [], credentials) == saved
    ensures var merged := Merged(saved, names, credentials);
            Merged(saved, names + [s], credentials)
            == if Given(credentials, s) then merged[s := credentials.secrets[s]] else merged
  {
  }

  lemma MergedAll(saved: map<Setting, Value>, credentials: Credentials)
    ensures var merged := Merged(saved, SECRET_FIELDS, credentials);
            WithSecrets(saved, credentials)
            == if UserPassword in merged then merged else merged[UserPassword := Text("")]
  {
    forall s: Setting ensures s in SECRET_FIELDS <==> Secret(s) { SecretFields(s); }
    assert Taken(SECRET_FIELDS, credentials)
        == map s | s in credentials.secrets && Secret(s) && Given(credentials, s) :: credentials.secrets[s];
  }

  // The middle of load_documents: the secrets are assigned into the install dictionary.
  method TakeSecrets(saved: map<Setting, Value>, credentials: Credentials) returns (settings: map<Setting, Value>)
    ensures settings == WithSecrets(saved, credentials)
  {
    settings := saved;
    MergedNext(saved, [], UserPassword, credentials);
    for i := 0 to |SECRET_FIELDS|
      invariant settings == Merged(saved, SECRET_FIELDS[..i], credentials)
    {
      var name := SECRET_FIELDS[i];
      MergedNext(saved, SECRET_FIELDS[..i], name, credentials);
      assert SECRET_FIELDS[..i + 1] == SECRET_FIELDS[..i] + [name];
      if name in credentials.secrets && credentials.secrets[name] != Null {
        settings := settings[name := credentials.secrets[name]];
      }
    }
    assert SECRET_FIELDS[..|SECRET_FIELDS|] == SECRET_FIELDS;
    MergedAll(saved, credentials);
    if UserPassword !in settings {
      settings := settings[UserPassword := Text("")];
    }
  }

  // load_documents, step by step.
  method LoadDocuments(d: Document, given: Option<Credentials>, str: Value -> string) returns (r: Result<Loaded>)
    ensures r == Load(d, if given.Some? then given.value else NO_CREDENTIALS, str)
  {
    if !Supported(d.version) {
      return Err("configuration must be an object with version 1");
    }
    if !d.persona.Text? {
      return Err("configuration is missing persona");
    }
    var raw := Members(d.selections);
    if raw.Err? {
      return Err("selections must be an object");
    }
    var selections := Selections(raw.value, str);
    if selections.Err? {
      return Err(selections.reason);
    }
    var credentials := if given.Some? then given.value else NO_CREDENTIALS;
    var settings := TakeSecrets(d.install.settings, credentials);
    var passwords := Members(credentials.users);
    var entries := UserEntries(d.install.users);
    if entries.Err? {
      return Err(entries.reason);
    }
    if passwords.Err? && entries.value != [] {
      return Err(passwords.reason);
    }
    if exists e <- entries.value :: !e.Object? {
      return Err("not a user");
    }
    var users := MakeUsers(entries.value, if passwords.Ok? then passwords.value else map[]);
    var config := Build(settings, d.install.unknown, users);
    if config.Err? {
      return Err(config.reason);
    }
    return Ok(Loaded(Choices(d.persona.s, selections.value, Truthy(d.allowAur)), config.value));
  }

  // -- settings -------------------------------------------------------------------------

  lemma JsonOfTextTuple(v: Value)
    requires TextTuple(v)
    ensures Json(v) == List(v.items, false)
  {
    var items := seq(|v.items|, i requires 0 <= i < |v.items| => Json(v.items[i]));
    forall i | 0 <= i < |v.items| ensures items[i] == v.items[i] {
      assert v.items[i] in v.items;
    }
    assert items == v.items;
  }

  // A setting survives JSON and the dataclass's own conversions.
  lemma SettingSurvives(c: Config, s: Setting)
    requires Typed(c)
    ensures PostInit(s, Json(c.settings[s])) == c.settings[s]
  {
    if IsTuple(s) {
      JsonOfTextTuple(c.settings[s]);
    } else {
      assert Scalar(c.settings[s]);
    }
  }

  // The settings with the secrets as some credentials give them.
  function Disclosed(c: Config, credentials: Credentials): map<Setting, Value> {
    map s | s in c.settings ::
      if !Secret(s) then c.settings[s]
      else if Given(credentials, s) then credentials.secrets[s]
      else if s == UserPassword then Text("")
      else Null
  }

  lemma SettingsLoad(c: Config, credentials: Credentials)
    requires Typed(c)
    ensures var settings := WithSecrets(JsonSettings(Shared(c.settings)), credentials);
            && (forall s: Setting | Required(s) :: s in settings)
            && Settle(settings) == Disclosed(c, credentials)
  {
    var settings := WithSecrets(JsonSettings(Shared(c.settings)), credentials);
    forall s: Setting
      ensures Required(s) ==> s in settings
      ensures Settle(settings)[s] == Disclosed(c, credentials)[s]
    {
      SettingSurvives(c, s);
      if Secret(s) {
        assert s in settings <==> Given(credentials, s) || s == UserPassword;
        assert !IsTuple(s) && (s == UserPassword || Default(s) == Null);
      } else {
        assert s in settings && settings[s] == Json(c.settings[s]);
      }
    }
  }

  // -- users --------------------------------------------------------------------------------

  lemma EntriesSurvive(users: seq<User>)
    requires forall u <- users :: u.username.Text? && u.sudo.Bool?
    ensures Json(List(Entries(users), false)) == List(Entries(users), false)
  {
    var entries := Entries(users);
    var items := seq(|entries|, i requires 0 <= i < |entries| => Json(entries[i]));
    forall i | 0 <= i < |entries| ensures items[i] == entries[i] {
      assert users[i] in users;
      UserLoads(users[i], map[]);
    }
    assert items == entries;
  }

  // -- replay ----------------------------------------------------------------------------------

  lemma SecretsSurvive(c: Config)
    requires Typed(c)
    ensures Disclosed(c, JsonCredentials(ExportCredentials(c))) == c.settings
  {
    var credentials := JsonCredentials(ExportCredentials(c));
    forall s: Setting ensures Disclosed(c, credentials)[s] == c.settings[s] {
      assert Secret(s) ==> Scalar(c.settings[s]) && credentials.secrets[s] == c.settings[s];
    }
  }

  lemma ConfigLoads(c: Config)
    requires Typed(c)
    ensures LoadConfig(SavedInstall(c), JsonCredentials(ExportCredentials(c)))
         == Ok(Config(c.settings, Reloaded(c.users)))
  {
    var credentials := JsonCredentials(ExportCredentials(c));
    SavedUsersLoad(c);
    SecretsSurvive(c);
    SettingsLoad(c, credentials);
  }

  lemma SavedUsersLoad(c: Config)
    requires Typed(c)
    ensures UserEntries(SavedInstall(c).users) == Ok(Entries(c.users))
    ensures Members(JsonCredentials(ExportCredentials(c)).users) == Ok(Passwords(c.users))
    ensures forall e <- Entries(c.users) :: e.Object?
    ensures MakeUsers(Entries(c.users), Passwords(c.users)) == Ok(Reloaded(c.users))
  {
    EntriesSurvive(c.users);
    PasswordsSurvive(c.users);
    UsersLoad(c.users);
  }

  // str() of a text is the text.
  ghost predicate KeepsTexts(str: Value -> string) {
    forall s :: str(Text(s)) == s
  }

  lemma TextsLoad(items: seq<string>, str: Value -> string)
    requires KeepsTexts(str)
    ensures Json(Texts(items)) == Texts(items)
    ensures Strings(Texts(items), str) == Ok(items)
  {
    var texts := Texts(items).items;
    assert seq(|texts|, i requires 0 <= i < |texts| => Json(texts[i])) == texts;
    assert seq(|texts|, i requires 0 <= i < |texts| => str(texts[i])) == items;
  }

  lemma SelectionsSurvive(selections: map<string, seq<string>>, str: Value -> string)
    requires KeepsTexts(str)
    ensures Json(SelectionsValue(selections)) == SelectionsValue(selections)
  {
    var raw := SelectionsValue(selections).members;
    forall k | k in raw ensures Json(raw[k]) == raw[k] {
      TextsLoad(selections[k], str);
    }
    assert (map k | k in raw :: Json(raw[k])) == raw;
  }

  lemma SelectionsLoad(selections: map<string, seq<string>>, str: Value -> string)
    requires KeepsTexts(str)
    ensures Members(SelectionsValue(selections)) == Ok(SelectionsValue(selections).members)
    ensures Selections(SelectionsValue(selections).members, str) == Ok(selections)
  {
    var raw := SelectionsValue(selections).members;
    forall k | k in raw ensures Strings(raw[k], str) == Ok(selections[k]) {
      TextsLoad(selections[k], str);
    }
    assert (map k | k in raw :: Strings(raw[k], str).value) == selections;
  }

  // The "install" object of the shared document, after a JSON pass.
  function SavedInstall(c: Config): Install {
    Install(JsonSettings(Shared(c.settings)), Json(List(Entries(c.users), false)), {})
  }

  // The rest of the shared document always loads; the configuration decides.
  lemma ConfigDecides(plan: Choices, c: Config, credentials: Credentials, str: Value -> string)
    requires KeepsTexts(str)
    ensures var config := LoadConfig(SavedInstall(c), credentials);
            Load(JsonDocument(ExportConfig(plan, c)), credentials, str)
            == if config.Err? then Err(config.reason) else Ok(Loaded(plan, config.value))
  {
    SelectionsSurvive(plan.selections, str);
    SelectionsLoad(plan.selections, str);
    assert JsonDocument(ExportConfig(plan, c)).install == SavedInstall(c);
  }

  // Loading the two saved documents gives back the same persona, selections, AUR consent and
  // configuration exactly when no two users of one name have different passwords.
  lemma ReplayIff(plan: Choices, c: Config, str: Value -> string)
    requires Typed(c) && KeepsTexts(str)
    ensures Load(JsonDocument(ExportConfig(plan, c)), JsonCredentials(ExportCredentials(c)), str) == Ok(Loaded(plan, c))
       <==> OnePasswordEach(c.users)
  {
    ConfigDecides(plan, c, JsonCredentials(ExportCredentials(c)), str);
    ConfigLoads(c);
    UsersLoadIff(c.users);
  }

  // In particular every configuration with validated users replays.
  lemma ValidatedReplays(plan: Choices, c: Config, str: Value -> string)
    requires Typed(c) && KeepsTexts(str)
    requires NamesAreFree(c.users, {c.settings[Username], Text("root")})
    ensures Load(JsonDocument(ExportConfig(plan, c)), JsonCredentials(ExportCredentials(c)), str) == Ok(Loaded(plan, c))
  {
    ValidatedHaveOnePassword(c.users, {c.settings[Username], Text("root")});
    ReplayIff(plan, c, str);
  }

  // -- secrets --------------------------------------------------------------------------------

  // The configuration with every password taken out.
  function Blanked(c: Config): Config {
    Config(
      Disclosed(c, NO_CREDENTIALS),
      seq(|c.users|, i requires 0 <= i < |c.users| => c.users[i].(password := Text(""))))
  }

  lemma UsersLoadBlank(c: Config)
    requires Typed(c)
    ensures MakeUsers(Entries(c.users), map[]) == Ok(Blanked(c).users)
  {
    forall i | 0 <= i < |c.users|
      ensures MakeUser(Entries(c.users)[i], map[]) == Ok(Blanked(c).users[i])
    {
      assert c.users[i] in c.users;
      UserLoads(c.users[i], map[]);
    }
    assert MakeUsers(Entries(c.users), map[]).Ok?;
    assert MakeUsers(Entries(c.users), map[]).value == Blanked(c).users;
  }

  // The shared document loads without credentials, to the same configuration without a password.
  lemma LoadsWithoutSecrets(plan: Choices, c: Config, str: Value -> string)
    requires Typed(c) && KeepsTexts(str)
    ensures Load(JsonDocument(ExportConfig(plan, c)), NO_CREDENTIALS, str) == Ok(Loaded(plan, Blanked(c)))
  {
    ConfigDecides(plan, c, NO_CREDENTIALS, str);
    EntriesSurvive(c.users);
    SettingsLoad(c, NO_CREDENTIALS);
    UsersLoadBlank(c);
  }

  // Configurations that differ only in passwords are saved as the same shared document: it tells
  // nothing about them.
  lemma SharedHidesSecrets(plan: Choices, c: Config, d: Config)
    requires Blanked(c) == Blanked(d)
    ensures ExportConfig(plan, c) == ExportConfig(plan, d)
  {
    assert Disclosed(c, NO_CREDENTIALS).Keys == c.settings.Keys;
    assert Disclosed(d, NO_CREDENTIALS).Keys == d.settings.Keys;
    forall s | s in c.settings && !Secret(s) ensures c.settings[s] == d.settings[s] {
      assert Disclosed(c, NO_CREDENTIALS)[s] == Disclosed(d, NO_CREDENTIALS)[s];
    }
    assert Shared(c.settings) == Shared(d.settings);
    assert |c.users| == |Blanked(c).users| == |d.users|;
    forall i | 0 <= i < |c.users| ensures Entries(c.users)[i] == Entries(d.users)[i] {
      assert Blanked(c).users[i] == Blanked(d).users[i];
    }
    assert Entries(c.users) == Entries(d.users);
  }

  // -- which documents load, and as what ---------------------------------------------------

  // What Python takes for nothing.
  predicate Empty(v: Value) {
    || v == Null || v == Bool(false) || v == Int(0) || v == Text("") || v == Object(map[])
    || (v.List? && v.items == [])
  }

  // A user account: a name, and nothing but a password and the right to sudo besides.
  predicate IsUser(v: Value) {
    && v.Object? && "username" in v.members
    && forall k <- v.members :: k == "username" || k == "password" || k == "sudo"
  }

  predicate UsersMayLoad(users: Value, credentials: Credentials) {
    || Empty(users)
    || (users.List? && (forall u <- users.items :: IsUser(u))
        && (Empty(credentials.users) || credentials.users.Object?))
  }

  predicate SelectionsMayLoad(v: Value) {
    Empty(v) || (v.Object? && forall k <- v.members :: v.members[k].List? || v.members[k].Text?)
  }

  lemma EmptyIsFalse(v: Value)
    ensures Empty(v) <==> !Truthy(v)
  {
  }

  lemma UserMayLoad(v: Value, passwords: map<string, Value>)
    ensures MakeUser(v, passwords).Ok? <==> IsUser(v)
  {
    if v.Object? {
      var user := WithPassword(v.members, passwords);
      assert user.Keys == v.members.Keys + {"password"};
    }
  }

  lemma UsersLoadWhen(users: Value, credentials: Credentials)
    ensures UsersMayLoad(users, credentials) <==>
            var entries, passwords := UserEntries(users), Members(credentials.users);
            && entries.Ok? && (passwords.Ok? || entries.value == [])
            && (forall e <- entries.value :: e.Object?)
            && MakeUsers(entries.value, if passwords.Ok? then passwords.value else map[]).Ok?
  {
    EmptyIsFalse(users);
    EmptyIsFalse(credentials.users);
    var entries, passwords := UserEntries(users), Members(credentials.users);
    if entries.Ok? {
      var known := if passwords.Ok? then passwords.value else map[];
      forall e | e in entries.value ensures MakeUser(e, known).Ok? <==> IsUser(e) { UserMayLoad(e, known); }
    }
  }

  lemma SelectionsLoadWhen(v: Value, str: Value -> string)
    ensures SelectionsMayLoad(v) <==> Members(v).Ok? && Selections(Members(v).value, str).Ok?
  {
    EmptyIsFalse(v);
  }

  lemma RequiredAre(saved: map<Setting, Value>, credentials: Credentials)
    ensures (forall s: Setting | Required(s) :: s in WithSecrets(saved, credentials)) <==>
            Disk in saved && Firmware in saved && Hostname in saved && Username in saved
  {
    var settings := WithSecrets(saved, credentials);
    assert UserPassword in settings;
    forall s: Setting | !Secret(s) ensures s in settings <==> s in saved {
    }
  }

  // Exactly which documents load.
  lemma LoadsIff(d: Document, credentials: Credentials, str: Value -> string)
    ensures Load(d, credentials, str).Ok? <==>
            && (d.version == Int(1) || d.version == Bool(true))
            && d.persona.Text?
            && SelectionsMayLoad(d.selections)
            && UsersMayLoad(d.install.users, credentials)
            && d.install.unknown == {}
            && Disk in d.install.settings && Firmware in d.install.settings
            && Hostname in d.install.settings && Username in d.install.settings
  {
    SelectionsLoadWhen(d.selections, str);
    UsersLoadWhen(d.install.users, credentials);
    RequiredAre(d.install.settings, credentials);
  }

  predicate SwitchedOff(s: Setting) {
    || s.FormatBoot? || s.Encrypt? || s.KernelHeaders? || s.Snapshots? || s.Flatpak? || s.GamingTweaks?
    || s.Fingerprint? || s.Tpm2Unlock? || s.SecureBoot? || s.Cockpit? || s.Netdata? || s.Fail2ban?
    || s.UpdateDownloads? || s.SerialConsole?
  }

  predicate SwitchedOn(s: Setting) {
    s.GrantSudo? || s.BtrfsSubvolumes? || s.DiskPartitioned?
  }

  predicate Unset(s: Setting) {
    s.RootPassword? || s.EncryptionPassphrase? || s.RootPartition? || s.BootPartition? || s.ShrinkPartition?
  }

  predicate Blank(s: Setting) {
    s.KeyboardVariant? || s.MirrorCountry? || s.StaticAddress? || s.StaticGateway? || s.StaticInterface?
  }

  // What a setting is when it is not saved; the disk, firmware and names have to be.
  predicate IsDefault(s: Setting, v: Value) {
    if SwitchedOff(s) then v == Bool(false)
    else if SwitchedOn(s) then v == Bool(true)
    else if Unset(s) then v == Null
    else if Blank(s) then v == Text("")
    else NamedDefault(s, v)
  }

  predicate NamedDefault(s: Setting, v: Value) {
    && (s.SshAuthorizedKeys? || s.StaticDns? ==> v == List([], true))
    && (s.UserPassword? ==> v == Text("")) && (s.ShrinkSize? ==> v == Int(0))
    && (s.Timezone? ==> v == Text("UTC")) && (s.Locale? ==> v == Text("en_US.UTF-8"))
    && (s.Filesystem? ==> v == Text("btrfs")) && (s.DiskLayout? ==> v == Text("erase"))
    && (s.Bootloader? ==> v == Text("grub")) && (s.Swap? ==> v == Text("zram"))
    && (s.KeyboardLayout? ==> v == Text("us")) && (s.NvidiaDriver? ==> v == Text("nouveau"))
  }

  lemma NamedDefaultIs(s: Setting, v: Value)
    requires !s.UserPassword? && v == Default(s)
    ensures NamedDefault(s, v)
  {
  }

  lemma FlagDefaultIs(s: Setting)
    ensures SwitchedOff(s) ==> Default(s) == Bool(false)
    ensures SwitchedOn(s) ==> Default(s) == Bool(true)
  {
  }

  lemma EmptyDefaultIs(s: Setting)
    ensures Unset(s) ==> Default(s) == Null
    ensures Blank(s) ==> Default(s) == Text("")
  {
  }

  lemma DefaultIs(s: Setting, v: Value)
    requires !s.UserPassword? && v == Default(s)
    ensures IsDefault(s, v)
  {
    if SwitchedOff(s) || SwitchedOn(s) {
      FlagDefaultIs(s);
    } else if Unset(s) || Blank(s) {
      EmptyDefaultIs(s);
    } else {
      NamedDefaultIs(s, v);
    }
  }

  lemma SettledIs(settings: map<Setting, Value>, s: Setting)
    ensures s in Settle(settings)
    ensures s in settings ==>
              Settle(settings)[s] == if (s.SshAuthorizedKeys? || s.StaticDns?) && settings[s].List?
                                     then List(settings[s].items, true) else settings[s]
    ensures s !in settings ==> Settle(settings)[s] == Default(s)
  {
  }

  lemma SecretsAre(saved: map<Setting, Value>, credentials: Credentials, s: Setting)
    ensures var settings := WithSecrets(saved, credentials);
            if s in {UserPassword, RootPassword, EncryptionPassphrase}
                  && s in credentials.secrets && credentials.secrets[s] != Null then
              s in settings && settings[s] == credentials.secrets[s]
            else if s in saved then s in settings && settings[s] == saved[s]
            else if s == UserPassword then s in settings && settings[s] == Text("")
            else s !in settings
  {
  }

  lemma LoadedSettings(d: Document, credentials: Credentials, str: Value -> string)
    requires Load(d, credentials, str).Ok?
    ensures Load(d, credentials, str).value.config.settings == Settle(WithSecrets(d.install.settings, credentials))
  {
  }

  // What each setting loads as: a secret the credentials hold, else what was saved, with lists for the
  // two tuples, else its default.
  lemma SettingsLoadAs(d: Document, credentials: Credentials, str: Value -> string, s: Setting)
    requires Load(d, credentials, str).Ok?
    ensures var settings, saved := Load(d, credentials, str).value.config.settings, d.install.settings;
            && s in settings
            && if s in {UserPassword, RootPassword, EncryptionPassphrase}
                  && s in credentials.secrets && credentials.secrets[s] != Null then
                 settings[s] == credentials.secrets[s]
               else if s in saved then
                 settings[s] == if (s.SshAuthorizedKeys? || s.StaticDns?) && saved[s].List?
                                then List(saved[s].items, true) else saved[s]
               else IsDefault(s, settings[s])
  {
    LoadedSettings(d, credentials, str);
    SecretsAre(d.install.settings, credentials, s);
    SettledIs(WithSecrets(d.install.settings, credentials), s);
    if !s.UserPassword? { DefaultIs(s, Default(s)); }
  }

  // What each user loads as.
  lemma UsersLoadAs(d: Document, credentials: Credentials, str: Value -> string, i: nat)
    requires Load(d, credentials, str).Ok? && d.install.users.List? && i < |d.install.users.items|
    ensures var users, entry := Load(d, credentials, str).value.config.users, d.install.users.items[i];
            && |users| == |d.install.users.items| && IsUser(entry)
            && users[i].username == entry.members["username"]
            && users[i].sudo == (if "sudo" in entry.members then entry.members["sudo"] else Bool(false))
            && users[i].password ==
                 if && credentials.users.Object? && entry.members["username"].Text?
                    && entry.members["username"].s in credentials.users.members
                 then credentials.users.members[entry.members["username"].s] else Text("")
  {
    LoadsIff(d, credentials, str);
    EmptyIsFalse(d.install.users);
    EmptyIsFalse(credentials.users);
    assert d.install.users.items[i] in d.install.users.items;
  }

  // The rest: the persona, the selections as texts, and consent to the AUR for anything but nothing.
  lemma ChoicesLoadAs(d: Document, credentials: Credentials, str: Value -> string)
    requires Load(d, credentials, str).Ok?
    ensures var choices := Load(d, credentials, str).value.choices;
            && d.persona == Text(choices.persona)
            && (choices.aur <==> !Empty(d.allowAur))
            && (Empty(d.selections) ==> choices.selections == map[])
            && (!Empty(d.selections) ==>
                  && d.selections.Object? && choices.selections.Keys == d.selections.members.Keys
                  && forall k <- choices.selections | d.selections.members[k].List? ::
                       && |choices.selections[k]| == |d.selections.members[k].items|
                       && forall i | 0 <= i < |choices.selections[k]| ::
                            choices.selections[k][i] == str(d.selections.members[k].items[i]))
  {
    LoadsIff(d, credentials, str);
    EmptyIsFalse(d.allowAur);
    EmptyIsFalse(d.selections);
  }

  // -- the plan ---------------------------------------------------------------------------------

  // What the saved documents keep of a resolved plan.
  function ChoicesOf(plan: Profiles.Plan): Choices {
    Choices(plan.persona, plan.selections, plan.aurPackages != [])
  }

  // An unattended run from the saved documents: it uses the same configuration, and resolves what it
  // loads to the same plan, package for package.
  lemma SavedInstallReplays(
      repo: Profiles.Repository, persona: string, requested: map<string, seq<string>>, c: Config, str: Value -> string)
    requires Profiles.Resolve(repo, persona, requested).Ok?
    requires Typed(c) && KeepsTexts(str)
    requires NamesAreFree(c.users, {c.settings[Username], Text("root")})
    ensures var plan := Profiles.Resolve(repo, persona, requested).value;
            var document, credentials := ExportConfig(ChoicesOf(plan), c), ExportCredentials(c);
            var loaded := Load(JsonDocument(document), JsonCredentials(credentials), str);
            && loaded.Ok? && loaded.value.config == c
            && Profiles.Resolve(repo, loaded.value.choices.persona, loaded.value.choices.selections)
               == Profiles.Resolve(repo, persona, requested)
            && loaded.value.choices.aur == (plan.aurPackages != [])
  {
    Profiles.ResolveIsFixed(repo, persona, requested);
    ValidatedReplays(ChoicesOf(Profiles.Resolve(repo, persona, requested).value), c, str);
  }
}
