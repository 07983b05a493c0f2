/**
 Edits of the initramfs hook list. Each edit places a hook next to an anchor or drops a hook;
 the lists the installer starts from are arbitrary.
 */
module HookLists {
  import opened Common
  import opened Folding
  import opened Placing

  // add_plymouth_hook, add_encrypt_hook and remove_hook.
  datatype Edit = Plymouth | Encrypt | Drop(hook: string)

  // What decides which edits an installation makes.
  datatype Choices = Choices(splash: bool, encrypt: bool, nvidiaOpen: bool)

  // Every name an edit looks for or inserts. "kms" is not one of them.
  const NAMED: set<string> :=
    {"systemd", "udev", "base", "autodetect", "filesystems", "plymouth", "keyboard", "encrypt", "sd-encrypt"}

  ghost predicate Independent(e: Edit) {
    e.Drop? ==> e.hook !in NAMED
  }

  // -- the edits ------------------------------------------------------------

  // Where plymouth goes: after systemd, else after udev, else after base.
  function Anchor(hooks: seq<string>): (anchor: Option<string>)
    ensures anchor.Some? ==> anchor.value in hooks && anchor.value in NAMED
  {
    if "systemd" in hooks then Some("systemd")
    else if "udev" in hooks then Some("udev")
    else if "base" in hooks then Some("base")
    else None
  }

  function EncryptHook(hooks: seq<string>): string {
    if "systemd" in hooks then "sd-encrypt" else "encrypt"
  }

  function WithKeyboard(hooks: seq<string>): seq<string> {
    if "keyboard" in hooks then hooks else PlaceBefore(hooks, "autodetect", "keyboard")
  }

  // The edit finds nothing to do, and leaves even the spelling of the line alone.
  predicate Settled(e: Edit, hooks: seq<string>) {
    match e
    case Plymouth => "plymouth" in hooks
    case Encrypt => EncryptHook(hooks) in hooks
    case Drop(_) => false
  }

  function Edited(e: Edit, hooks: seq<string>): seq<string> {
    if Settled(e, hooks) then hooks
    else
      match e
      case Plymouth =>
        if Anchor(hooks).Some? then PlaceAfter(hooks, Anchor(hooks).value, "plymouth") else ["plymouth"] + hooks
      case Encrypt => PlaceBefore(WithKeyboard(hooks), "filesystems", EncryptHook(hooks))
      case Drop(hook) => Minus(hooks, {hook})
  }

  // The hooks an edit adds.
  function Adds(e: Edit, hooks: seq<string>): set<string> {
    if Settled(e, hooks) then {}
    else
      match e
      case Plymouth => {"plymouth"}
      case Encrypt => {EncryptHook(hooks)} + if "keyboard" in hooks then {} else {"keyboard"}
      case Drop(_) => {}
  }

  // -- what one edit changes ---------------------------------------------------

  // plymouth or encryption adds exactly its hooks, each once, none of them there before.
  lemma PlymouthGrows(hooks: seq<string>)
    ensures Grown(hooks, Edited(Plymouth, hooks), Adds(Plymouth, hooks))
  {
    if Settled(Plymouth, hooks) {
      NotGrown(hooks);
    } else if Anchor(hooks).Some? {
      GrownAfter(hooks, Anchor(hooks).value, "plymouth");
    } else {
      GrownFront(hooks, "plymouth");
    }
  }

  lemma EncryptGrows(hooks: seq<string>)
    ensures Grown(hooks, Edited(Encrypt, hooks), Adds(Encrypt, hooks))
  {
    var hook, keyed := EncryptHook(hooks), WithKeyboard(hooks);
    if Settled(Encrypt, hooks) {
      NotGrown(hooks);
    } else if "keyboard" in hooks {
      GrownBefore(hooks, "filesystems", hook);
      assert Adds(Encrypt, hooks) == {hook};
    } else {
      GrownBefore(hooks, "autodetect", "keyboard");
      GrownBefore(keyed, "filesystems", hook);
      GrownTwice(hooks, keyed, Edited(Encrypt, hooks), {"keyboard"}, {hook});
      assert Adds(Encrypt, hooks) == {"keyboard"} + {hook};
    }
  }

  // Which hooks are there after an edit.
  lemma EditMembers(e: Edit, hooks: seq<string>)
    ensures forall h :: h in Edited(e, hooks)
                   <==> h in Adds(e, hooks) || (h in hooks && !(e.Drop? && h == e.hook))
  {
    match e
    case Plymouth => PlymouthGrows(hooks);
    case Encrypt => EncryptGrows(hooks);
    case Drop(hook) => MinusHolds(hooks, {hook});
  }

  lemma EditedDecidesAlike(e: Edit, d: Edit, hooks: seq<string>)
    requires Independent(e) && Independent(d) && e != d
    ensures Settled(e, Edited(d, hooks)) == Settled(e, hooks)
    ensures Anchor(Edited(d, hooks)) == Anchor(hooks)
    ensures EncryptHook(Edited(d, hooks)) == EncryptHook(hooks)
    ensures d != Encrypt ==> ("keyboard" in Edited(d, hooks) <==> "keyboard" in hooks)
  {
    EditMembers(d, hooks);
  }

  // -- the edits keep what was there, commute and are idempotent -------------

  lemma EditIsIdempotent(e: Edit, hooks: seq<string>)
    ensures Edited(e, Edited(e, hooks)) == Edited(e, hooks)
    ensures !e.Drop? ==> Settled(e, Edited(e, hooks))
  {
    EditMembers(e, hooks);
    if e.Drop? {
      MinusNothing(Edited(e, hooks), {e.hook});
    }
  }

  lemma PlymouthAndEncryptCommute(hooks: seq<string>)
    ensures Edited(Plymouth, Edited(Encrypt, hooks)) == Edited(Encrypt, Edited(Plymouth, hooks))
  {
    EditedDecidesAlike(Plymouth, Encrypt, hooks);
    EditedDecidesAlike(Encrypt, Plymouth, hooks);
    if !Settled(Plymouth, hooks) && !Settled(Encrypt, hooks) {
      var keyed := WithKeyboard(hooks);
      var hook := EncryptHook(hooks);
      if Anchor(hooks).Some? {
        var a := Anchor(hooks).value;
        PlaceBeforeHolds(hooks, "autodetect", "keyboard");
        PlacingCommutes(hooks, a, "plymouth", "autodetect", "keyboard");
        PlacingCommutes(keyed, a, "plymouth", "filesystems", hook);
      } else {
        BeforeFront(hooks, "plymouth", "autodetect", "keyboard");
        BeforeFront(keyed, "plymouth", "filesystems", hook);
      }
    }
  }

  lemma DropCommutes(e: Edit, hook: string, hooks: seq<string>)
    requires Independent(e) && Independent(Drop(hook))
    ensures Edited(e, Edited(Drop(hook), hooks)) == Edited(Drop(hook), Edited(e, hooks))
  {
    var gone := {hook};
    if e.Drop? {
      MinusMinus(hooks, gone, {e.hook});
      MinusMinus(hooks, {e.hook}, gone);
      assert gone + {e.hook} == {e.hook} + gone;
    } else {
      EditedDecidesAlike(e, Drop(hook), hooks);
      if !Settled(e, hooks) {
        if e.Plymouth? {
          MinusFront(hooks, "plymouth", gone);
          if Anchor(hooks).Some? {
            MinusAfter(hooks, Anchor(hooks).value, "plymouth", gone);
          }
        } else {
          MinusBefore(WithKeyboard(hooks), "filesystems", EncryptHook(hooks), gone);
          MinusBefore(hooks, "autodetect", "keyboard", gone);
        }
      }
    }
  }

  // Any two of the installer's edits give the same list in either order.
  lemma EditsCommute(e: Edit, d: Edit, hooks: seq<string>)
    requires Independent(e) && Independent(d)
    ensures Edited(e, Edited(d, hooks)) == Edited(d, Edited(e, hooks))
  {
    if d.Drop? {
      DropCommutes(e, d.hook, hooks);
    } else if e.Drop? {
      DropCommutes(d, e.hook, hooks);
    } else {
      PlymouthAndEncryptCommute(hooks);
    }
  }

  // -- a whole installation's edits ------------------------------------------

  function EditsFor(c: Choices): seq<Edit> {
    (if c.splash then [Plymouth] else []) + (if c.encrypt then [Encrypt] else [])
    + if c.nvidiaOpen then [Drop("kms")] else []
  }

  function Applied(edits: seq<Edit>, hooks: seq<string>): seq<string> {
    Fold(Edited, edits, hooks)
  }

  function Added(c: Choices, hooks: seq<string>): set<string> {
    (if c.splash then Adds(Plymouth, hooks) else {}) + if c.encrypt then Adds(Encrypt, hooks) else {}
  }

  function Dropped(c: Choices): set<string> {
    if c.nvidiaOpen then {"kms"} else {}
  }

  // The three optional stages, written out.
  lemma {:induction false} AppliedInStages(c: Choices, hooks: seq<string>)
    ensures var keyed := Keyed(c, hooks);
            Applied(EditsFor(c), hooks) == if c.nvidiaOpen then Edited(Drop("kms"), keyed) else keyed
  {
    var edits := EditsFor(c);
    var one := if c.splash then Edited(Plymouth, hooks) else hooks;
    var rest := if c.splash then edits[1..] else edits;
    assert Applied(edits, hooks) == Applied(rest, one);
    var two := if c.encrypt then Edited(Encrypt, one) else one;
    var last := if c.encrypt then rest[1..] else rest;
    assert Applied(rest, one) == Applied(last, two);
    assert last == if c.nvidiaOpen then [Drop("kms")] else [];
    assert c.nvidiaOpen ==> Applied(last[1..], Edited(Drop("kms"), two)) == Edited(Drop("kms"), two);
  }

  // What the two inserting stages make of a list.
  function Keyed(c: Choices, hooks: seq<string>): seq<string> {
    var one := if c.splash then Edited(Plymouth, hooks) else hooks;
    if c.encrypt then Edited(Encrypt, one) else one
  }

  lemma KeyedGrows(c: Choices, hooks: seq<string>)
    ensures Grown(hooks, Keyed(c, hooks), Added(c, hooks))
  {
    if c.splash { PlymouthGrows(hooks); } else { NotGrown(hooks); }
    if c.encrypt {
      var one := if c.splash then Edited(Plymouth, hooks) else hooks;
      EditedDecidesAlike(Encrypt, Plymouth, hooks);
      assert Adds(Encrypt, one) == Adds(Encrypt, hooks);
      EncryptGrows(one);
      GrownTwice(hooks, one, Keyed(c, hooks), if c.splash then Adds(Plymouth, hooks) else {}, Adds(Encrypt, hooks));
    }
  }

  lemma AddedIsNamed(c: Choices, hooks: seq<string>)
    ensures Added(c, hooks) <= {"plymouth", "keyboard", EncryptHook(hooks)}
    ensures Added(c, hooks) !! Dropped(c)
  {
  }

  lemma AppliedDrops(c: Choices, hooks: seq<string>)
    ensures Applied(EditsFor(c), hooks) == Minus(Keyed(c, hooks), Dropped(c))
  {
    AppliedInStages(c, hooks);
    MinusNothing(Keyed(c, hooks), {});
  }

  // The edits keep every original hook but kms, in order and as often as it stood there; what they
  // add is plymouth, keyboard and one encrypt hook, each at most once and only if it was missing.
  lemma ConfiguringConserves(c: Choices, hooks: seq<string>)
    ensures Added(c, hooks) <= {"plymouth", "keyboard", EncryptHook(hooks)}
    ensures Grown(Minus(hooks, Dropped(c)), Applied(EditsFor(c), hooks), Added(c, hooks))
  {
    AddedIsNamed(c, hooks);
    AppliedDrops(c, hooks);
    KeyedGrows(c, hooks);
    GrownMinus(hooks, Keyed(c, hooks), Added(c, hooks), Dropped(c));
  }

  // -- where the splash stands -------------------------------------------------

  const ENCRYPT_HOOKS: set<string> := {"encrypt", "sd-encrypt"}

  // Where an encrypt hook stands: at its own place, or at filesystems if it has yet to be added.
  function HookPosition(hooks: seq<string>, hook: string): nat {
    if hook in hooks then IndexOf(hooks, hook) else IndexOf(hooks, "filesystems")
  }

  lemma PlacingKeepsPrecedence(items: seq<string>, anchor: string, x: string, y: string, z: string)
    requires x !in items && y in items && z in items
    ensures var r := PlaceBefore(items, anchor, x);
            IndexOf(r, y) < IndexOf(r, z) <==> IndexOf(items, y) < IndexOf(items, z)
  {
    IndexAfterPlacing(items, anchor, x, y);
    IndexAfterPlacing(items, anchor, x, z);
  }

  // Adding an encrypt hook leaves two hooks in the order they had.
  lemma EncryptKeepsPrecedence(hooks: seq<string>, y: string, z: string)
    requires y in hooks && z in hooks
    ensures var keyed := Edited(Encrypt, hooks);
            IndexOf(keyed, y) < IndexOf(keyed, z) <==> IndexOf(hooks, y) < IndexOf(hooks, z)
  {
    var hook, keyed := EncryptHook(hooks), WithKeyboard(hooks);
    if !Settled(Encrypt, hooks) {
      if "keyboard" !in hooks {
        PlaceBeforeHolds(hooks, "autodetect", "keyboard");
        PlacingKeepsPrecedence(hooks, "autodetect", "keyboard", y, z);
      }
      PlacingKeepsPrecedence(keyed, "filesystems", hook, y, z);
    }
  }

  // A newly added encrypt hook stands behind the hooks that stand before filesystems.
  lemma EncryptBeside(hooks: seq<string>, y: string)
    requires !Settled(Encrypt, hooks) && y in hooks
    ensures var keyed := Edited(Encrypt, hooks);
            IndexOf(keyed, y) < IndexOf(keyed, EncryptHook(hooks))
            <==> IndexOf(hooks, y) < IndexOf(hooks, "filesystems")
  {
    var hook, keyed := EncryptHook(hooks), WithKeyboard(hooks);
    if "keyboard" !in hooks {
      PlaceBeforeHolds(hooks, "autodetect", "keyboard");
      IndexAfterPlacing(hooks, "autodetect", "keyboard", "filesystems");
      IndexAfterPlacing(hooks, "autodetect", "keyboard", y);
    }
    IndexAfterPlacing(keyed, "filesystems", hook, y);
  }

  // A newly added encrypt hook runs before filesystems, and a newly added keyboard before autodetect,
  // which would otherwise drop the drivers the passphrase prompt needs.
  lemma EncryptIsReady(hooks: seq<string>)
    requires !Settled(Encrypt, hooks)
    ensures var keyed := Edited(Encrypt, hooks);
            && IndexOf(keyed, EncryptHook(hooks)) < |keyed|
            && IndexOf(keyed, EncryptHook(hooks)) < IndexOf(keyed, "filesystems")
            && ("keyboard" !in hooks && "autodetect" in hooks ==>
                  IndexOf(keyed, "keyboard") < IndexOf(keyed, "autodetect"))
  {
    var hook, spot := EncryptHook(hooks), WithKeyboard(hooks);
    if "keyboard" !in hooks {
      PlaceBeforeHolds(hooks, "autodetect", "keyboard");
      IndexAfterPlacing(hooks, "autodetect", "keyboard", "autodetect");
      IndexAfterPlacing(spot, "filesystems", hook, "keyboard");
    }
    IndexAfterPlacing(spot, "filesystems", hook, "filesystems");
    IndexAfterPlacing(spot, "filesystems", hook, "autodetect");
    PlaceBeforeHolds(spot, "filesystems", hook);
  }

  // The list before plymouth is placed, encryption's hooks already in it.
  function Unlocking(c: Choices, hooks: seq<string>): seq<string> {
    if c.encrypt then Edited(Encrypt, hooks) else hooks
  }

  lemma UnlockingKeepsPrecedence(c: Choices, hooks: seq<string>, y: string, hook: string)
    requires y in hooks && hook in ENCRYPT_HOOKS && hook in Unlocking(c, hooks)
    ensures IndexOf(Unlocking(c, hooks), y) < IndexOf(Unlocking(c, hooks), hook)
       <==> IndexOf(hooks, y) < HookPosition(hooks, hook)
  {
    if c.encrypt {
      EditMembers(Encrypt, hooks);
      if hook in hooks {
        EncryptKeepsPrecedence(hooks, y, hook);
      } else {
        EncryptBeside(hooks, y);
      }
    }
  }

  // Placed in a list, plymouth precedes exactly the hooks its anchor precedes.
  lemma PlymouthPrecedes(hooks: seq<string>, hook: string)
    requires "plymouth" !in hooks && hook in hooks && hook in ENCRYPT_HOOKS
    ensures var splashed := Edited(Plymouth, hooks);
            IndexOf(splashed, "plymouth") < IndexOf(splashed, hook)
            <==> (Anchor(hooks).Some? ==> IndexOf(hooks, Anchor(hooks).value) < IndexOf(hooks, hook))
  {
    if Anchor(hooks).Some? {
      IndexAfterAnchor(hooks, Anchor(hooks).value, "plymouth", hook);
    }
  }

  // The splash comes before this encrypt hook: it stands there already, or its anchor does, or it
  // has no anchor and goes to the front.
  predicate SplashLeads(hooks: seq<string>, hook: string) {
    if "plymouth" in hooks then IndexOf(hooks, "plymouth") < HookPosition(hooks, hook)
    else Anchor(hooks).Some? ==> IndexOf(hooks, Anchor(hooks).value) < HookPosition(hooks, hook)
  }

  // Which encrypt hooks an installation leaves in the list.
  predicate Unlocks(c: Choices, hooks: seq<string>, hook: string) {
    hook in hooks || (c.encrypt && hook == EncryptHook(hooks))
  }

  lemma KeyedIsSplashed(c: Choices, hooks: seq<string>)
    requires c.splash
    ensures Keyed(c, hooks) == Edited(Plymouth, Unlocking(c, hooks))
    ensures Anchor(Unlocking(c, hooks)) == Anchor(hooks)
    ensures "plymouth" in Unlocking(c, hooks) <==> "plymouth" in hooks
  {
    PlymouthAndEncryptCommute(hooks);
    EditedDecidesAlike(Plymouth, Encrypt, hooks);
  }

  lemma KeyedPrecedes(c: Choices, hooks: seq<string>, hook: string)
    requires c.splash && hook in ENCRYPT_HOOKS && hook in Unlocking(c, hooks)
    ensures IndexOf(Keyed(c, hooks), "plymouth") < IndexOf(Keyed(c, hooks), hook) <==> SplashLeads(hooks, hook)
  {
    var listed, a := Unlocking(c, hooks), Anchor(hooks);
    KeyedIsSplashed(c, hooks);
    if "plymouth" in hooks {
      UnlockingKeepsPrecedence(c, hooks, "plymouth", hook);
    } else {
      PlymouthPrecedes(listed, hook);
      if a.Some? {
        UnlockingKeepsPrecedence(c, hooks, a.value, hook);
      }
    }
  }

  lemma UnlockingMembers(c: Choices, hooks: seq<string>, hook: string)
    requires hook in ENCRYPT_HOOKS
    ensures hook in Unlocking(c, hooks) <==> Unlocks(c, hooks, hook)
  {
    if c.encrypt {
      EditMembers(Encrypt, hooks);
    }
  }

  lemma KeyedUnlocks(c: Choices, hooks: seq<string>, hook: string)
    requires c.splash && hook in ENCRYPT_HOOKS
    ensures "plymouth" in Keyed(c, hooks) && (hook in Keyed(c, hooks) <==> hook in Unlocking(c, hooks))
  {
    KeyedIsSplashed(c, hooks);
    EditMembers(Plymouth, Unlocking(c, hooks));
  }

  lemma AppliedKeeps(c: Choices, hooks: seq<string>, hook: string)
    requires hook != "kms"
    ensures hook in Applied(EditsFor(c), hooks) <==> hook in Keyed(c, hooks)
  {
    AppliedDrops(c, hooks);
    MinusHolds(Keyed(c, hooks), Dropped(c));
  }

  // With the splash configured, for every list and each of its encrypt hooks, old or added: plymouth
  // stands before it exactly when plymouth did already, or when newly placed its anchor does (for an
  // added encrypt hook, before filesystems or the end) or there is no anchor.
  lemma PlymouthPrecedesEncrypt(c: Choices, hooks: seq<string>, hook: string)
    requires c.splash && hook in ENCRYPT_HOOKS
    ensures var configured := Applied(EditsFor(c), hooks);
            && "plymouth" in configured
            && (hook in configured <==> Unlocks(c, hooks, hook))
            && (hook in configured ==>
                  (IndexOf(configured, "plymouth") < IndexOf(configured, hook) <==> SplashLeads(hooks, hook)))
  {
    UnlockingMembers(c, hooks, hook);
    KeyedUnlocks(c, hooks, hook);
    AppliedKeeps(c, hooks, "plymouth");
    AppliedKeeps(c, hooks, hook);
    if Unlocks(c, hooks, hook) {
      KeyedPrecedes(c, hooks, hook);
      AppliedDrops(c, hooks);
      MinusKeepsPrecedence(Keyed(c, hooks), Dropped(c), "plymouth", hook);
    }
  }

  // Plymouth comes before every encrypt hook of the configured list exactly when it leads each of them.
  lemma SplashComesFirstIff(c: Choices, hooks: seq<string>)
    requires c.splash
    ensures var configured := Applied(EditsFor(c), hooks);
            (forall hook | hook in ENCRYPT_HOOKS && hook in configured ::
               IndexOf(configured, "plymouth") < IndexOf(configured, hook))
            <==> (forall hook | hook in ENCRYPT_HOOKS && Unlocks(c, hooks, hook) :: SplashLeads(hooks, hook))
  {
    forall hook | hook in ENCRYPT_HOOKS
      ensures var configured := Applied(EditsFor(c), hooks);
              && (hook in configured <==> Unlocks(c, hooks, hook))
              && (hook in configured ==>
                    (IndexOf(configured, "plymouth") < IndexOf(configured, hook) <==> SplashLeads(hooks, hook)))
    {
      PlymouthPrecedesEncrypt(c, hooks, hook);
    }
  }

  // -- where the hooks stand, in plain words ------------------------------------------

  // A newly placed plymouth: directly behind the first systemd, else the first udev, else the first
  // base, else in front.
  ghost predicate PlymouthInPlace(before: seq<string>, after: seq<string>) {
    if "systemd" in before then DirectlyBehind(after, "plymouth", "systemd")
    else if "udev" in before then DirectlyBehind(after, "plymouth", "udev")
    else if "base" in before then DirectlyBehind(after, "plymouth", "base")
    else after != [] && after[0] == "plymouth"
  }

  // The encrypt hook, sd-encrypt for systemd: added only if missing, directly before the first
  // filesystems or last; keyboard with it, only if missing, directly before the first autodetect or last.
  ghost predicate EncryptInPlace(before: seq<string>, after: seq<string>) {
    var hook := if "systemd" in before then "sd-encrypt" else "encrypt";
    if hook in before then after == before
    else
      && (if "filesystems" in before then DirectlyBefore(after, hook, "filesystems")
          else after != [] && after[|after| - 1] == hook)
      && ("keyboard" !in before ==>
            if "autodetect" in before then DirectlyBefore(after, "keyboard", "autodetect")
            else if "filesystems" in before then after[|after| - 1] == "keyboard"
            else |after| > 1 && after[|after| - 2] == "keyboard")
  }

  lemma PlymouthStands(hooks: seq<string>)
    requires "plymouth" !in hooks
    ensures PlymouthInPlace(hooks, Edited(Plymouth, hooks))
  {
    if "systemd" in hooks {
      PlacedBehind(hooks, "systemd", "plymouth");
    } else if "udev" in hooks {
      PlacedBehind(hooks, "udev", "plymouth");
    } else if "base" in hooks {
      PlacedBehind(hooks, "base", "plymouth");
    }
  }

  lemma EncryptStands(hooks: seq<string>)
    ensures EncryptInPlace(hooks, Edited(Encrypt, hooks))
  {
    var hook, keyed := if "systemd" in hooks then "sd-encrypt" else "encrypt", WithKeyboard(hooks);
    if hook !in hooks {
      if "keyboard" in hooks {
        HookStands(hooks, hook);
      } else {
        PlaceBeforeHolds(hooks, "autodetect", "keyboard");
        HookStands(keyed, hook);
        KeyboardStands(hooks, hook);
      }
    }
  }

  lemma HookStands(keyed: seq<string>, hook: string)
    requires hook in ENCRYPT_HOOKS
    ensures var after := PlaceBefore(keyed, "filesystems", hook);
            if "filesystems" in keyed then DirectlyBefore(after, hook, "filesystems")
            else after != [] && after[|after| - 1] == hook
  {
    if "filesystems" in keyed {
      PlacedBefore(keyed, "filesystems", hook);
    } else {
      PlacedLast(keyed, "filesystems", hook);
    }
  }

  lemma KeyboardStands(hooks: seq<string>, hook: string)
    requires "keyboard" !in hooks && hook in ENCRYPT_HOOKS
    ensures var after := PlaceBefore(PlaceBefore(hooks, "autodetect", "keyboard"), "filesystems", hook);
            if "autodetect" in hooks then DirectlyBefore(after, "keyboard", "autodetect")
            else if "filesystems" in hooks then after[|after| - 1] == "keyboard"
            else |after| > 1 && after[|after| - 2] == "keyboard"
  {
    var keyed := PlaceBefore(hooks, "autodetect", "keyboard");
    if "autodetect" in hooks {
      PlacedBefore(hooks, "autodetect", "keyboard");
      PlacingKeepsBefore(keyed, "keyboard", "autodetect", "filesystems", hook);
    } else {
      PlacedLast(hooks, "autodetect", "keyboard");
      if "filesystems" in hooks {
        InsertingBefore(keyed, "filesystems", hook);
        assert IndexOf(keyed, "filesystems") < |hooks| by {
          var i := IndexOf(hooks, "filesystems");
          assert keyed[i] == "filesystems";
        }
      } else {
        PlacedLast(keyed, "filesystems", hook);
      }
    }
  }

  // Neither the encrypt hook nor the loss of kms comes between plymouth and what it was placed behind.
  lemma ConfiguredPlymouthStands(c: Choices, hooks: seq<string>)
    requires c.splash && "plymouth" !in hooks
    ensures PlymouthInPlace(hooks, Applied(EditsFor(c), hooks))
  {
    var listed, keyed := Unlocking(c, hooks), Keyed(c, hooks);
    KeyedIsSplashed(c, hooks);
    PlymouthStands(listed);
    UnlockingKeepsAnchors(c, hooks);
    AppliedDrops(c, hooks);
    if "systemd" in hooks {
      MinusKeepsBehind(keyed, Dropped(c), "plymouth", "systemd");
    } else if "udev" in hooks {
      MinusKeepsBehind(keyed, Dropped(c), "plymouth", "udev");
    } else if "base" in hooks {
      MinusKeepsBehind(keyed, Dropped(c), "plymouth", "base");
    } else {
      assert Minus(keyed, Dropped(c))[0] == "plymouth";
    }
  }

  lemma UnlockingKeepsAnchors(c: Choices, hooks: seq<string>)
    ensures forall h | h in {"systemd", "udev", "base"} :: h in Unlocking(c, hooks) <==> h in hooks
  {
    if c.encrypt {
      EditMembers(Encrypt, hooks);
    }
  }

  // Two lists on which the splash comes too late whatever else is chosen. In the first an encrypt hook
  // of the other kind stands before the anchor; plymouth still precedes the hook that is added.
  lemma PlymouthCanFollowEncrypt(c: Choices)
    requires c.splash
    ensures var configured := Applied(EditsFor(c), ["encrypt", "systemd", "filesystems"]);
            && "encrypt" in configured && IndexOf(configured, "encrypt") < IndexOf(configured, "plymouth")
            && (c.encrypt ==> IndexOf(configured, "plymouth") < IndexOf(configured, "sd-encrypt"))
    ensures var configured := Applied(EditsFor(c), ["encrypt", "base"]);
            "encrypt" in configured && IndexOf(configured, "encrypt") < IndexOf(configured, "plymouth")
  {
    var mixed, early := ["encrypt", "systemd", "filesystems"], ["encrypt", "base"];
    MixedLeads(mixed);
    EarlyLeads(early);
    Follows(c, mixed, "encrypt");
    PlymouthPrecedesEncrypt(c, mixed, "sd-encrypt");
    Follows(c, early, "encrypt");
  }

  lemma Follows(c: Choices, hooks: seq<string>, hook: string)
    requires c.splash && hook in ENCRYPT_HOOKS && Unlocks(c, hooks, hook) && !SplashLeads(hooks, hook)
    ensures var configured := Applied(EditsFor(c), hooks);
            hook in configured && IndexOf(configured, hook) < IndexOf(configured, "plymouth")
  {
    PlymouthPrecedesEncrypt(c, hooks, hook);
    var configured := Applied(EditsFor(c), hooks);
    assert configured[IndexOf(configured, hook)] == hook && configured[IndexOf(configured, "plymouth")] == "plymouth";
  }

  lemma MixedLeads(hooks: seq<string>)
    requires hooks == ["encrypt", "systemd", "filesystems"]
    ensures "encrypt" in hooks && EncryptHook(hooks) == "sd-encrypt"
    ensures !SplashLeads(hooks, "encrypt") && SplashLeads(hooks, "sd-encrypt")
  {
    assert hooks[0] == "encrypt" && hooks[1] == "systemd" && hooks[2] == "filesystems";
  }

  lemma EarlyLeads(hooks: seq<string>)
    requires hooks == ["encrypt", "base"]
    ensures "encrypt" in hooks && !SplashLeads(hooks, "encrypt")
  {
    assert hooks[0] == "encrypt" && hooks[1] == "base";
  }
}
