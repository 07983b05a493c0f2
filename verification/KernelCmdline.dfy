/** The kernel command line, and its agreement with the initramfs the hooks build. */
module KernelCmdline {
  import opened Common
  import opened HookLists
  import opened HookText
  import opened Sequences
  import opened Words

  const MAPPER: string := "cryptroot"

  // What kernel_cmdline is called with; luksUuid is empty for an unencrypted root.
  datatype Settings = Settings(
    rootUuid: string, filesystem: string, subvolumes: bool, luksUuid: string, tpm2: bool, systemd: bool,
    zram: bool, serialConsole: bool, splash: bool, includeRoot: bool)

  function LuksParameters(uuid: string, systemd: bool): seq<string> {
    if systemd then ["rd.luks.name=" + uuid + "=" + MAPPER]
    else ["cryptdevice=UUID=" + uuid + ":" + MAPPER]
  }

  function UnlockParameters(s: Settings): seq<string> {
    if s.luksUuid == "" then []
    else
      LuksParameters(s.luksUuid, s.systemd)
      + if s.tpm2 && s.systemd then ["rd.luks.options=" + s.luksUuid + "=tpm2-device=auto"] else []
  }

  function RootParameters(s: Settings): seq<string> {
    if !s.includeRoot then []
    else
      [if s.luksUuid != "" then "root=/dev/mapper/" + MAPPER else "root=UUID=" + s.rootUuid]
      + (if s.filesystem == "btrfs" && s.subvolumes then ["rootflags=subvol=@"] else [])
      + ["rw"]
  }

  function ExtraParameters(s: Settings): seq<string> {
    (if s.zram then ["zswap.enabled=0"] else [])
    + (if s.serialConsole then ["console=tty0", "console=ttyS0,115200"] else [])
    + if s.splash then ["quiet", "splash"] else []
  }

  function Parameters(s: Settings): seq<string> {
    UnlockParameters(s) + RootParameters(s) + ExtraParameters(s)
  }

  method BuildCmdline(s: Settings) returns (line: string)
    ensures line == Join(Parameters(s))
  {
    var parameters: seq<string> := [];
    if s.luksUuid != "" {
      parameters := parameters + LuksParameters(s.luksUuid, s.systemd);
      if s.tpm2 && s.systemd {
        parameters := parameters + ["rd.luks.options=" + s.luksUuid + "=tpm2-device=auto"];
      }
    }
    ghost var unlock, root := UnlockParameters(s), RootParameters(s);
    Associates(unlock, [], []);
    assert parameters == unlock;
    if s.includeRoot {
      var place := if s.luksUuid != "" then "root=/dev/mapper/" + MAPPER else "root=UUID=" + s.rootUuid;
      parameters := parameters + [place];
      ghost var options := if s.filesystem == "btrfs" && s.subvolumes then ["rootflags=subvol=@"] else [];
      if s.filesystem == "btrfs" && s.subvolumes {
        parameters := parameters + ["rootflags=subvol=@"];
      }
      parameters := parameters + ["rw"];
      Grown(unlock, [place], options, ["rw"]);
      assert root == [place] + options + ["rw"];
    }
    ghost var front := parameters;
    assert front == unlock + root;
    ghost var zswap := if s.zram then ["zswap.enabled=0"] else [];
    ghost var serial := if s.serialConsole then ["console=tty0", "console=ttyS0,115200"] else [];
    ghost var quiet := if s.splash then ["quiet", "splash"] else [];
    if s.zram {
      parameters := parameters + ["zswap.enabled=0"];
    }
    if s.serialConsole {
      parameters := parameters + ["console=tty0", "console=ttyS0,115200"];
    }
    if s.splash {
      parameters := parameters + ["quiet", "splash"];
    }
    Grown(front, zswap, serial, quiet);
    line := Join(parameters);
  }

  // A list grown in three steps, some of which may add nothing.
  lemma Grown(front: seq<string>, a: seq<string>, b: seq<string>, c: seq<string>)
    ensures front + a + b + c == front + (a + b + c)
    ensures front + [] == front && front + a + [] == front + a && front + a + b + [] == front + a + b
  {
    Associates(front, a, b);
    Associates(front, a + b, c);
  }

  // -- what stands on the line ---------------------------------------------------------

  predicate UnlockWanted(s: Settings, p: string) {
    s.luksUuid != ""
    && (|| (s.systemd && p == "rd.luks.name=" + s.luksUuid + "=cryptroot")
        || (!s.systemd && p == "cryptdevice=UUID=" + s.luksUuid + ":cryptroot")
        || (s.systemd && s.tpm2 && p == "rd.luks.options=" + s.luksUuid + "=tpm2-device=auto"))
  }

  predicate RootWanted(s: Settings, p: string) {
    s.includeRoot
    && (|| (s.luksUuid == "" && p == "root=UUID=" + s.rootUuid)
        || (s.luksUuid != "" && p == "root=/dev/mapper/cryptroot")
        || (s.filesystem == "btrfs" && s.subvolumes && p == "rootflags=subvol=@")
        || p == "rw")
  }

  predicate ExtraWanted(s: Settings, p: string) {
    || (s.zram && p == "zswap.enabled=0")
    || (s.serialConsole && (p == "console=tty0" || p == "console=ttyS0,115200"))
    || (s.splash && (p == "quiet" || p == "splash"))
  }

  lemma UnlockAre(s: Settings, p: string)
    ensures p in UnlockParameters(s) <==> UnlockWanted(s, p)
  {
    Associates("rd.luks.name=" + s.luksUuid, "=", MAPPER);
    Associates("cryptdevice=UUID=" + s.luksUuid, ":", MAPPER);
    assert "=" + MAPPER == "=cryptroot" && ":" + MAPPER == ":cryptroot";
  }

  lemma RootAre(s: Settings, p: string)
    ensures p in RootParameters(s) <==> RootWanted(s, p)
  {
    assert "root=/dev/mapper/" + MAPPER == "root=/dev/mapper/cryptroot";
  }

  lemma ExtraAre(s: Settings, p: string)
    ensures p in ExtraParameters(s) <==> ExtraWanted(s, p)
  {
  }

  // The two consoles stand at i, and none is named later.
  ghost predicate SerialAt(all: seq<string>, i: nat) {
    && i + 1 < |all| && all[i] == "console=tty0" && all[i + 1] == "console=ttyS0,115200"
    && forall p <- all[i + 2..] :: !StartsWith(p, "console=")
  }

  lemma SerialIsLast(s: Settings)
    requires s.serialConsole
    ensures exists i: nat :: SerialAt(Parameters(s), i)
  {
    var all := Parameters(s);
    var front := UnlockParameters(s) + RootParameters(s) + if s.zram then ["zswap.enabled=0"] else [];
    var quiet := if s.splash then ["quiet", "splash"] else [];
    assert all == front + ["console=tty0", "console=ttyS0,115200"] + quiet;
    assert all[|front| + 2..] == quiet;
    forall p | p in quiet ensures !StartsWith(p, "console=") {
      Differs(p, "console=", 0);
    }
    assert SerialAt(all, |front|);
  }

  // Exactly which parameters the line has, and that the serial console is the last one named.
  lemma ParametersAre(s: Settings)
    ensures forall p :: p in Parameters(s) <==> UnlockWanted(s, p) || RootWanted(s, p) || ExtraWanted(s, p)
    ensures s.serialConsole ==> exists i: nat :: SerialAt(Parameters(s), i)
  {
    if s.serialConsole { SerialIsLast(s); }
    forall p ensures p in Parameters(s) <==> UnlockWanted(s, p) || RootWanted(s, p) || ExtraWanted(s, p) {
      UnlockAre(s, p);
      RootAre(s, p);
      ExtraAre(s, p);
    }
  }

  // uses_systemd_initramfs
  predicate UsesSystemd(text: string) {
    "systemd" in HooksIn(text)
  }

  // An encrypted root always has a nonempty UUID.
  function LuksUuid(encrypt: bool, prepared: string): string {
    if !encrypt then "" else if prepared == "" then "DRY-RUN-LUKS-UUID" else prepared
  }

  // The installer's call: a missing mkinitcpio.conf counts as a systemd initramfs.
  function SettingsFor(s: Settings, encrypt: bool, prepared: string, conf: Option<string>): Settings {
    s.(systemd := conf.None? || UsesSystemd(conf.value), luksUuid := LuksUuid(encrypt, prepared))
  }

  // -- what the initramfs can unlock --------------------------------------------------

  // Parameters starting with a prefix, in order.
  function Starting(parameters: seq<string>, prefix: string): seq<string> {
    if parameters == [] then []
    else (if StartsWith(parameters[0], prefix) then [parameters[0]] else []) + Starting(parameters[1..], prefix)
  }

  lemma StartingOne(p: string, prefix: string)
    ensures Starting([p], prefix) == if StartsWith(p, prefix) then [p] else []
  {
    assert Starting([p][1..], prefix) == [];
  }

  lemma {:induction false} StartingIn(first: seq<string>, second: seq<string>, prefix: string)
    ensures Starting(first + second, prefix) == Starting(first, prefix) + Starting(second, prefix)
  {
    if first == [] {
      assert first + second == second;
    } else {
      StartingIn(first[1..], second, prefix);
      assert (first + second)[1..] == first[1..] + second && (first + second)[0] == first[0];
      var head := if StartsWith(first[0], prefix) then [first[0]] else [];
      Associates(head, Starting(first[1..], prefix), Starting(second, prefix));
    }
  }

  lemma {:induction false} NoneStarting(parameters: seq<string>, prefix: string)
    requires forall p <- parameters :: !StartsWith(p, prefix)
    ensures Starting(parameters, prefix) == []
  {
    if parameters != [] {
      NoneStarting(parameters[1..], prefix);
    }
  }

  lemma Begins(prefix: string, rest: string)
    ensures StartsWith(prefix + rest, prefix)
  {
  }

  lemma Differs(p: string, prefix: string, i: nat)
    requires i < |p| && i < |prefix| && p[i] != prefix[i]
    ensures !StartsWith(p, prefix)
  {
    assert |prefix| <= |p| ==> p[..|prefix|][i] == p[i];
  }

  // The hooks and the command line name the same way to unlock the root: the systemd initramfs is
  // told by exactly one rd.luks.name= and no cryptdevice=, the busybox one the other way round.
  ghost predicate Unlocks(hooks: seq<string>, parameters: seq<string>, uuid: string) {
    if "systemd" in hooks then
      && "sd-encrypt" in hooks
      && Starting(parameters, "rd.luks.name=") == ["rd.luks.name=" + uuid + "=" + MAPPER]
      && Starting(parameters, "cryptdevice=") == []
    else
      && "encrypt" in hooks
      && Starting(parameters, "cryptdevice=") == ["cryptdevice=UUID=" + uuid + ":" + MAPPER]
      && Starting(parameters, "rd.luks") == []
  }

  lemma PlainParameters(s: Settings, prefix: string)
    requires prefix == "rd.luks.name=" || prefix == "rd.luks" || prefix == "cryptdevice="
    ensures forall p <- RootParameters(s) + ExtraParameters(s) :: !StartsWith(p, prefix)
  {
    forall p | p in RootParameters(s) + ExtraParameters(s)
      ensures !StartsWith(p, prefix)
    {
      assert |p| > 1;
      if p[0] != prefix[0] {
        Differs(p, prefix, 0);
      } else {
        Differs(p, prefix, 1);
      }
    }
  }

  lemma UnlockStarting(s: Settings)
    requires s.luksUuid != ""
    ensures s.systemd ==>
              && Starting(UnlockParameters(s), "rd.luks.name=") == LuksParameters(s.luksUuid, true)
              && Starting(UnlockParameters(s), "cryptdevice=") == []
    ensures !s.systemd ==>
              && Starting(UnlockParameters(s), "cryptdevice=") == LuksParameters(s.luksUuid, false)
              && Starting(UnlockParameters(s), "rd.luks") == []
  {
    if s.systemd {
      var name := "rd.luks.name=" + s.luksUuid + "=" + MAPPER;
      var options := "rd.luks.options=" + s.luksUuid + "=tpm2-device=auto";
      var tail := if s.tpm2 then [options] else [];
      assert UnlockParameters(s) == [name] + tail;
      assert name == "rd.luks.name=" + (s.luksUuid + "=" + MAPPER);
      Begins("rd.luks.name=", s.luksUuid + "=" + MAPPER);
      Differs(options, "rd.luks.name=", 8);
      StartingIn([name], tail, "rd.luks.name=");
      StartingOne(name, "rd.luks.name=");
      StartingOne(options, "rd.luks.name=");
      Differs(name, "cryptdevice=", 0);
      Differs(options, "cryptdevice=", 0);
      NoneStarting([name] + tail, "cryptdevice=");
    } else {
      var name := "cryptdevice=UUID=" + s.luksUuid + ":" + MAPPER;
      assert UnlockParameters(s) == [name];
      assert name[..12] == "cryptdevice=";
      StartingOne(name, "cryptdevice=");
      Differs(name, "rd.luks", 0);
      StartingOne(name, "rd.luks");
    }
  }

  lemma ParametersStarting(s: Settings, prefix: string)
    requires prefix == "rd.luks.name=" || prefix == "rd.luks" || prefix == "cryptdevice="
    ensures Starting(Parameters(s), prefix) == Starting(UnlockParameters(s), prefix)
  {
    var rest := RootParameters(s) + ExtraParameters(s);
    assert Parameters(s) == UnlockParameters(s) + rest;
    StartingIn(UnlockParameters(s), rest, prefix);
    PlainParameters(s, prefix);
    NoneStarting(rest, prefix);
  }

  // With an unlock hook of the right kind in the file, the command line built from that file agrees.
  lemma HookDecides(s: Settings, luksUuid: string, text: string)
    requires EncryptHook(HooksIn(text)) in HooksIn(text)
    ensures var made := SettingsFor(s, true, luksUuid, Some(text));
            Unlocks(HooksIn(text), Parameters(made), made.luksUuid)
  {
    var made := SettingsFor(s, true, luksUuid, Some(text));
    ParametersStarting(made, "rd.luks.name=");
    ParametersStarting(made, "rd.luks");
    ParametersStarting(made, "cryptdevice=");
    UnlockStarting(made);
  }

  // Without a mkinitcpio.conf the encrypted root is named as a systemd initramfs expects it.
  lemma MissingConfNamesSystemd(s: Settings, luksUuid: string)
    ensures var made := SettingsFor(s, true, luksUuid, None);
            && Starting(Parameters(made), "rd.luks.name=") == ["rd.luks.name=" + made.luksUuid + "=" + MAPPER]
            && Starting(Parameters(made), "cryptdevice=") == []
  {
    var made := SettingsFor(s, true, luksUuid, None);
    ParametersStarting(made, "rd.luks.name=");
    ParametersStarting(made, "cryptdevice=");
    UnlockStarting(made);
  }

  lemma EncryptHookIsThere(c: Choices, hooks: seq<string>)
    requires c.encrypt
    ensures var configured := Applied(EditsFor(c), hooks);
            EncryptHook(configured) == EncryptHook(hooks) && EncryptHook(hooks) in configured
  {
    ConfiguringConserves(c, hooks);
    Placing.MinusHolds(hooks, Dropped(c));
  }

  lemma Wordy(a: string, b: string, c: string)
    requires IsWord(a) && forall x <- b + c :: !IsSpace(x)
    ensures IsWord(a + b + c)
  {
    forall x | x in a + b + c ensures !IsSpace(x) {
      assert x in a || x in b + c;
    }
  }

  lemma UnlockWords(s: Settings)
    requires forall c <- s.luksUuid :: !IsSpace(c)
    ensures forall p <- UnlockParameters(s) :: IsWord(p)
  {
    Wordy("rd.luks.name=", s.luksUuid, "=" + MAPPER);
    Wordy("cryptdevice=UUID=", s.luksUuid, ":" + MAPPER);
    Wordy("rd.luks.options=", s.luksUuid, "=tpm2-device=auto");
    assert "rd.luks.name=" + s.luksUuid + "=" + MAPPER == "rd.luks.name=" + s.luksUuid + ("=" + MAPPER);
    assert "cryptdevice=UUID=" + s.luksUuid + ":" + MAPPER == "cryptdevice=UUID=" + s.luksUuid + (":" + MAPPER);
  }

  lemma RootWords(s: Settings)
    requires forall c <- s.rootUuid :: !IsSpace(c)
    ensures forall p <- RootParameters(s) :: IsWord(p)
  {
    Wordy("root=UUID=", s.rootUuid, "");
    assert "root=UUID=" + s.rootUuid + "" == "root=UUID=" + s.rootUuid;
  }

  lemma ExtraWords(s: Settings)
    ensures forall p <- ExtraParameters(s) :: IsWord(p)
  {
  }

  lemma ParametersAreWords(s: Settings)
    requires forall c <- s.luksUuid :: !IsSpace(c)
    requires forall c <- s.rootUuid :: !IsSpace(c)
    ensures forall p <- Parameters(s) :: IsWord(p)
  {
    UnlockWords(s);
    RootWords(s);
    ExtraWords(s);
  }

  lemma CmdlineIsItsWords(s: Settings)
    requires forall c <- s.luksUuid :: !IsSpace(c)
    requires forall c <- s.rootUuid :: !IsSpace(c)
    ensures Split(Join(Parameters(s))) == Parameters(s)
  {
    ParametersAreWords(s);
    SplitJoin(Parameters(s));
  }

  lemma RootIsNamed(s: Settings)
    requires s.includeRoot && s.luksUuid != ""
    ensures "root=/dev/mapper/" + MAPPER in Parameters(s)
  {
    assert RootParameters(s)[0] in RootParameters(s);
  }

  lemma ConfiguredUnlocks(c: Choices, text: string)
    requires c.encrypt && Parse(text).Some?
    ensures EditText(EditsFor(c), text).Ok?
    ensures var hooks := HooksIn(EditText(EditsFor(c), text).value); EncryptHook(hooks) in hooks
  {
    EditTextIs(EditsFor(c), text);
    EncryptHookIsThere(c, HooksIn(text));
  }

  lemma UuidIsWord(prepared: string)
    requires forall x <- prepared :: !IsSpace(x)
    ensures IsWord(LuksUuid(true, prepared))
  {
  }

  // Whatever hooks line the file had, once the installation has configured it for encryption, the
  // hooks it then lists and the command line it is booted with agree on how to unlock the root; and
  // a command line for a loader that names the root names the unlocked mapping.
  lemma UnlockAgrees(c: Choices, text: string, s: Settings, luksUuid: string)
    requires c.encrypt && Parse(text).Some?
    requires forall x <- luksUuid :: !IsSpace(x)
    requires forall x <- s.rootUuid :: !IsSpace(x)
    ensures var configured := EditText(EditsFor(c), text).value;
            var made := SettingsFor(s, true, luksUuid, Some(configured));
            var booted := Split(Join(Parameters(made)));
            && Unlocks(HooksIn(configured), booted, made.luksUuid)
            && (s.includeRoot ==> "root=/dev/mapper/" + MAPPER in booted)
  {
    ConfiguredUnlocks(c, text);
    var configured := EditText(EditsFor(c), text).value;
    HookDecides(s, luksUuid, configured);
    var made := SettingsFor(s, true, luksUuid, Some(configured));
    UuidIsWord(luksUuid);
    CmdlineIsItsWords(made);
    if s.includeRoot { RootIsNamed(made); }
  }
}
