/**
 mkinitcpio.conf as text: finding the HOOKS=(...) line and rewriting the hooks between its
 parentheses. The edits of HookLists are carried to the text here.
 */
module HookText {
  import opened Common
  import opened Folding
  import opened HookLists
  import opened Placing
  import opened Words

  const OPENING: string := "HOOKS=("
  const NO_HOOKS_LINE: string := "mkinitcpio.conf has no HOOKS=(...) line"

  // -- the search for ^HOOKS=\(([^)]*)\) in multi-line mode -----------------------

  predicate Opens(text: string, p: nat) {
    && p + |OPENING| <= |text|
    && (p == 0 || text[p - 1] == '\n')
    && text[p..p + |OPENING|] == OPENING
  }

  // The first closing parenthesis at or after a position, or the text's length.
  function Closing(text: string, from: nat): (k: nat)
    requires from <= |text|
    ensures from <= k <= |text|
    ensures ')' !in text[from..k]
    ensures k < |text| ==> text[k] == ')'
    decreases |text| - from
  {
    if from == |text| || text[from] == ')' then from
    else
      var k := Closing(text, from + 1);
      assert text[from..k] == [text[from]] + text[from + 1..k];
      k
  }

  predicate MatchesAt(text: string, p: nat) {
    Opens(text, p) && Closing(text, p + |OPENING|) < |text|
  }

  function SearchFrom(text: string, p: nat): (m: Option<nat>)
    requires p <= |text|
    ensures m.Some? ==> p <= m.value && MatchesAt(text, m.value)
    ensures forall q | p <= q :: MatchesAt(text, q) ==> m.Some? && m.value <= q
    decreases |text| - p
  {
    if MatchesAt(text, p) then Some(p)
    else if p == |text| then None
    else SearchFrom(text, p + 1)
  }

  // A file with a hooks line: what is before the line, between its parentheses, and after them.
  datatype Conf = Conf(before: string, spelling: string, after: string)

  function Parse(text: string): Option<Conf> {
    var m := SearchFrom(text, 0);
    if m.None? then None
    else
      var p := m.value;
      var k := Closing(text, p + |OPENING|);
      Some(Conf(text[..p], text[p + |OPENING|..k], text[k + 1..]))
  }

  function Text(conf: Conf): string {
    conf.before + OPENING + conf.spelling + ")" + conf.after
  }

  // The hooks line starts a line, is the first that does, and its hooks end at the first ')'.
  ghost predicate First(conf: Conf) {
    && (conf.before == [] || conf.before[|conf.before| - 1] == '\n')
    && ')' !in conf.spelling
    && forall p: nat | p < |conf.before| :: !Opens(conf.before, p)
  }

  lemma OpeningIsUnbroken(text: string, p: nat, i: nat)
    requires Opens(text, p) && p <= i < p + |OPENING|
    ensures text[i] != '\n'
  {
    assert text[i] == text[p..p + |OPENING|][i - p];
  }

  lemma OpensInFront(before: string, rest: string, p: nat)
    requires p < |before| && before[|before| - 1] == '\n'
    ensures Opens(before + rest, p) <==> Opens(before, p)
  {
    var text := before + rest;
    var end := p + |OPENING|;
    if end <= |before| {
      assert text[p..end] == before[p..end];
    } else if Opens(text, p) {
      OpeningIsUnbroken(text, p, |before| - 1);
    }
  }

  lemma {:induction false} ClosingAt(text: string, from: nat, k: nat)
    requires from <= k < |text| && text[k] == ')' && ')' !in text[from..k]
    ensures Closing(text, from) == k
    decreases k - from
  {
    if from < k {
      assert text[from] == text[from..k][0];
      assert text[from + 1..k] == text[from..k][1..];
      ClosingAt(text, from + 1, k);
    }
  }

  lemma MatchAtOpening(conf: Conf)
    requires First(conf)
    ensures Closing(Text(conf), |conf.before| + |OPENING|) == |conf.before| + |OPENING| + |conf.spelling|
    ensures MatchesAt(Text(conf), |conf.before|)
  {
    var text, p := Text(conf), |conf.before|;
    var from := p + |OPENING|;
    var end := from + |conf.spelling|;
    assert text[p..from] == OPENING;
    assert text[from..end] == conf.spelling && text[end] == ')';
    ClosingAt(text, from, end);
  }

  lemma Pieces(a: string, b: string, c: string, d: string, e: string)
    ensures var text := a + b + c + d + e;
            && text[..|a|] == a
            && text[|a| + |b|..|a| + |b| + |c|] == c
            && text[|a| + |b| + |c| + |d|..] == e
            && text == a + (b + c + d + e)
  {
  }

  lemma Reassembled(text: string, p: nat, q: nat, k: nat)
    requires p <= q <= k < |text|
    ensures text == text[..p] + text[p..q] + text[q..k] + [text[k]] + text[k + 1..]
    ensures text == text[..p] + text[p..]
  {
  }

  lemma NoEarlierMatch(conf: Conf, q: nat)
    requires First(conf) && q < |conf.before|
    ensures !MatchesAt(Text(conf), q)
  {
    var rest := OPENING + conf.spelling + ")" + conf.after;
    assert Text(conf) == conf.before + rest;
    OpensInFront(conf.before, rest, q);
  }

  lemma SearchIs(text: string, p: nat)
    requires MatchesAt(text, p) && forall q: nat | q < p :: !MatchesAt(text, q)
    ensures SearchFrom(text, 0) == Some(p)
  {
  }

  lemma ParseAt(text: string, p: nat, conf: Conf)
    requires SearchFrom(text, 0) == Some(p)
    requires text[..p] == conf.before
    requires text[p + |OPENING|..Closing(text, p + |OPENING|)] == conf.spelling
    requires text[Closing(text, p + |OPENING|) + 1..] == conf.after
    ensures Parse(text) == Some(conf)
  {
  }

  lemma SearchOpening(conf: Conf)
    requires First(conf)
    ensures SearchFrom(Text(conf), 0) == Some(|conf.before|)
  {
    var p := |conf.before|;
    MatchAtOpening(conf);
    forall q: nat | q < p ensures !MatchesAt(Text(conf), q) { NoEarlierMatch(conf, q); }
    SearchIs(Text(conf), p);
  }

  // Writing a file and searching it gives its parts back.
  lemma ParseText(conf: Conf)
    requires First(conf)
    ensures Parse(Text(conf)) == Some(conf)
  {
    SearchOpening(conf);
    MatchAtOpening(conf);
    Pieces(conf.before, OPENING, conf.spelling, ")", conf.after);
    ParseAt(Text(conf), |conf.before|, conf);
  }

  lemma {:induction false} ClosingIsNearest(text: string, from: nat, k: nat)
    requires from <= k < |text| && text[k] == ')'
    ensures Closing(text, from) <= k
    decreases k - from
  {
    if text[from] != ')' {
      ClosingIsNearest(text, from + 1, k);
    }
  }

  lemma FirstFound(text: string, p: nat)
    requires SearchFrom(text, 0) == Some(p)
    ensures p == 0 || text[p - 1] == '\n'
    ensures forall q: nat | q < p :: !Opens(text[..p], q)
  {
    forall q: nat | q < p
      ensures !Opens(text[..p], q)
    {
      assert text == text[..p] + text[p..];
      OpensInFront(text[..p], text[p..], q);
      assert MatchesAt(text, q) ==> p <= q;
      if Opens(text, q) {
        ClosingIsNearest(text, q + |OPENING|, Closing(text, p + |OPENING|));
      }
    }
  }

  // The search splits a file into parts that spell it.
  lemma TextParse(text: string)
    requires Parse(text).Some?
    ensures Text(Parse(text).value) == text && First(Parse(text).value)
  {
    var p := SearchFrom(text, 0).value;
    var k := Closing(text, p + |OPENING|);
    Reassembled(text, p, p + |OPENING|, k);
    FirstFound(text, p);
  }

  // A file without a match has no hooks line at all.
  lemma NoParse(text: string, conf: Conf)
    requires Parse(text).None? && First(conf)
    ensures text != Text(conf)
  {
    ParseText(conf);
  }

  // -- edits of the text -----------------------------------------------------------

  function HooksIn(text: string): seq<string> {
    if Parse(text).Some? then Split(Parse(text).value.spelling) else []
  }

  function EditSpelling(e: Edit, spelling: string): string {
    if Settled(e, Split(spelling)) then spelling else Join(Edited(e, Split(spelling)))
  }

  function Spelled(edits: seq<Edit>, spelling: string): string {
    Fold(EditSpelling, edits, spelling)
  }

  lemma SpelledOnce(e: Edit, spelling: string)
    ensures Spelled([e], spelling) == EditSpelling(e, spelling)
  {
    FoldOnce(EditSpelling, e, spelling);
  }

  function EditText(edits: seq<Edit>, text: string): Result<string> {
    if Parse(text).None? then Err(NO_HOOKS_LINE)
    else
      var conf := Parse(text).value;
      Ok(Text(conf.(spelling := Spelled(edits, conf.spelling))))
  }

  lemma NamedWords()
    ensures forall h <- NAMED :: IsWord(h) && ')' !in h
  {
  }

  lemma AddsNamed(e: Edit, hooks: seq<string>)
    ensures Adds(e, hooks) <= NAMED
  {
  }

  // Every hook an edit leaves can stand between the parentheses.
  lemma EditedWords(e: Edit, spelling: string)
    ensures forall h <- Edited(e, Split(spelling)) :: IsWord(h)
    ensures ')' !in spelling ==> forall h <- Edited(e, Split(spelling)) :: ')' !in h
  {
    SplitYieldsWords(spelling);
    EditMembers(e, Split(spelling));
    NamedWords();
    AddsNamed(e, Split(spelling));
  }

  // Splitting the edited spelling gives the edited list, and no ')' gets in.
  lemma EditSpellingIs(e: Edit, spelling: string)
    ensures Split(EditSpelling(e, spelling)) == Edited(e, Split(spelling))
    ensures ')' !in spelling ==> ')' !in EditSpelling(e, spelling)
  {
    if !Settled(e, Split(spelling)) {
      var hooks := Edited(e, Split(spelling));
      EditedWords(e, spelling);
      SplitJoin(hooks);
      if ')' !in spelling {
        JoinAvoids(hooks, ')');
      }
    }
  }

  lemma {:induction false} SpelledIs(edits: seq<Edit>, spelling: string)
    ensures Split(Spelled(edits, spelling)) == Applied(edits, Split(spelling))
    ensures ')' !in spelling ==> ')' !in Spelled(edits, spelling)
  {
    if edits != [] {
      EditSpellingIs(edits[0], spelling);
      SpelledIs(edits[1..], EditSpelling(edits[0], spelling));
    }
  }

  // Editing a file edits its hook list and leaves every character outside the parentheses alone.
  lemma EditTextIs(edits: seq<Edit>, text: string)
    ensures EditText(edits, text).Ok? <==> Parse(text).Some?
    ensures EditText(edits, text).Ok? ==>
              var edited := EditText(edits, text).value;
              && Parse(edited).Some?
              && Parse(edited).value.before == Parse(text).value.before
              && Parse(edited).value.after == Parse(text).value.after
              && HooksIn(edited) == Applied(edits, HooksIn(text))
  {
    if Parse(text).Some? {
      TextParse(text);
      var conf := Parse(text).value;
      SpelledIs(edits, conf.spelling);
      ParseText(conf.(spelling := Spelled(edits, conf.spelling)));
    }
  }

  lemma EditTextAfter(first: seq<Edit>, second: seq<Edit>, text: string)
    requires Parse(text).Some?
    ensures EditText(second, EditText(first, text).value) == EditText(first + second, text)
  {
    TextParse(text);
    var conf := Parse(text).value;
    SpelledIs(first, conf.spelling);
    ParseText(conf.(spelling := Spelled(first, conf.spelling)));
    FoldAfter(EditSpelling, first, second, conf.spelling);
  }

  // -- the order and number of edits does not matter, down to the last character ------

  lemma SpellingsCommute(e: Edit, d: Edit, spelling: string)
    requires Independent(e) && Independent(d)
    ensures EditSpelling(e, EditSpelling(d, spelling)) == EditSpelling(d, EditSpelling(e, spelling))
  {
    var hooks := Split(spelling);
    EditSpellingIs(e, spelling);
    EditSpellingIs(d, spelling);
    EditsCommute(e, d, hooks);
    if e != d {
      EditedDecidesAlike(e, d, hooks);
      EditedDecidesAlike(d, e, hooks);
    }
  }

  lemma SpellingIsIdempotent(e: Edit, spelling: string)
    ensures EditSpelling(e, EditSpelling(e, spelling)) == EditSpelling(e, spelling)
  {
    EditSpellingIs(e, spelling);
    EditIsIdempotent(e, Split(spelling));
  }

  // Two runs of edits that make the same edits, in any order and any number of times, write the
  // same file. In particular a run repeated changes nothing.
  lemma OrderNeverMatters(first: seq<Edit>, second: seq<Edit>, text: string)
    requires forall d <- first :: Independent(d)
    requires forall d :: d in first <==> d in second
    ensures EditText(first, text) == EditText(second, text)
  {
    if Parse(text).Some? {
      assert Mergeable(EditSpelling, first) by {
        forall e, d, spelling: string | e in first && d in first
          ensures EditSpelling(e, EditSpelling(d, spelling)) == EditSpelling(d, EditSpelling(e, spelling))
        {
          SpellingsCommute(e, d, spelling);
        }
        forall e, spelling: string | e in first
          ensures EditSpelling(e, EditSpelling(e, spelling)) == EditSpelling(e, spelling)
        {
          SpellingIsIdempotent(e, spelling);
        }
      }
      SameEdits(EditSpelling, first, second, Parse(text).value.spelling);
    }
  }

  lemma EditedOnce(e: Edit, text: string)
    ensures EditText([e], text).Ok? ==> HooksIn(EditText([e], text).value) == Edited(e, HooksIn(text))
  {
    EditTextIs([e], text);
    FoldOnce(Edited, e, HooksIn(text));
  }

  lemma PlymouthTextStands(text: string)
    ensures var r := EditText([Plymouth], text);
            r.Ok? ==> if "plymouth" in HooksIn(text) then r.value == text
                      else PlymouthInPlace(HooksIn(text), HooksIn(r.value))
  {
    EditedOnce(Plymouth, text);
    if Parse(text).Some? && "plymouth" in HooksIn(text) {
      TextParse(text);
      SpelledOnce(Plymouth, Parse(text).value.spelling);
    } else {
      PlymouthStands(HooksIn(text));
    }
  }

  lemma EncryptTextStands(text: string)
    ensures var r := EditText([Encrypt], text);
            r.Ok? ==> EncryptInPlace(HooksIn(text), HooksIn(r.value))
  {
    EditedOnce(Encrypt, text);
    EncryptStands(HooksIn(text));
  }

  lemma ConfiguredTextStands(c: Choices, text: string)
    requires c.splash && "plymouth" !in HooksIn(text)
    ensures var r := EditText(EditsFor(c), text);
            r.Ok? ==> PlymouthInPlace(HooksIn(text), HooksIn(r.value))
  {
    EditTextIs(EditsFor(c), text);
    ConfiguredPlymouthStands(c, HooksIn(text));
  }

  // -- the functions of the program --------------------------------------------------

  method AddEncryptHook(text: string) returns (r: Result<string>)
    ensures r == EditText([Encrypt], text)
    ensures r.Ok? ==> EncryptInPlace(HooksIn(text), HooksIn(r.value))
  {
    EncryptTextStands(text);
    var found := Parse(text);
    if found.None? {
      return Err(NO_HOOKS_LINE);
    }
    var conf := found.value;
    TextParse(text);
    var hooks := Split(conf.spelling);
    var encryptHook := if "systemd" in hooks then "sd-encrypt" else "encrypt";
    if encryptHook in hooks {
      return Ok(text);
    }
    InsertingBefore(hooks, "autodetect", "keyboard");
    InsertingBefore(WithKeyboard(hooks), "filesystems", encryptHook);
    if "keyboard" !in hooks {
      hooks := Inserted(hooks, IndexOf(hooks, "autodetect"), "keyboard");
    }
    hooks := Inserted(hooks, IndexOf(hooks, "filesystems"), encryptHook);
    return Ok(conf.before + OPENING + Join(hooks) + ")" + conf.after);
  }

  method AddPlymouthHook(text: string) returns (r: Result<string>)
    ensures r == EditText([Plymouth], text)
    ensures r.Ok? ==> if "plymouth" in HooksIn(text) then r.value == text
                      else PlymouthInPlace(HooksIn(text), HooksIn(r.value))
  {
    PlymouthTextStands(text);
    var found := Parse(text);
    if found.None? {
      return Err(NO_HOOKS_LINE);
    }
    var conf := found.value;
    TextParse(text);
    var hooks := Split(conf.spelling);
    if "plymouth" in hooks {
      return Ok(text);
    }
    var anchor := Anchor(hooks);
    if anchor.Some? {
      InsertingAfter(hooks, anchor.value, "plymouth");
      hooks := Inserted(hooks, IndexOf(hooks, anchor.value) + 1, "plymouth");
    } else {
      hooks := Inserted(hooks, 0, "plymouth");
    }
    assert hooks == Edited(Plymouth, Split(conf.spelling));
    return Ok(conf.before + OPENING + Join(hooks) + ")" + conf.after);
  }

  method RemoveHook(text: string, hook: string) returns (r: Result<string>)
    ensures r == EditText([Drop(hook)], text)
    ensures r.Ok? ==> forall h :: multiset(HooksIn(r.value))[h] ==
                                    if h == hook then 0 else multiset(HooksIn(text))[h]
  {
    var found := Parse(text);
    if found.None? {
      return Err(NO_HOOKS_LINE);
    }
    var conf := found.value;
    SpelledOnce(Drop(hook), conf.spelling);
    EditedOnce(Drop(hook), text);
    MinusHolds(HooksIn(text), {hook});
    return Ok(conf.before + OPENING + Join(Minus(Split(conf.spelling), {hook})) + ")" + conf.after);
  }

  // _configure_initramfs: the file is read and written back only when some edit is due.
  method ConfigureInitramfs(text: string, c: Choices) returns (r: Result<string>)
    ensures r == if EditsFor(c) == [] then Ok(text) else EditText(EditsFor(c), text)
    ensures r.Ok? && c.splash && "plymouth" !in HooksIn(text) ==>
              PlymouthInPlace(HooksIn(text), HooksIn(r.value))
  {
    if c.splash && "plymouth" !in HooksIn(text) { ConfiguredTextStands(c, text); }
    if !c.encrypt && !c.nvidiaOpen && !c.splash {
      return Ok(text);
    }
    var content := text;
    ghost var done: seq<Edit> := [];
    if Parse(text).Some? {
      TextParse(text);
      assert Spelled([], Parse(text).value.spelling) == Parse(text).value.spelling;
    }
    if c.splash {
      var edited := AddPlymouthHook(content);
      if edited.Err? { return edited; }
      content := edited.value;
      done := [Plymouth];
    }
    if c.encrypt {
      if Parse(text).Some? { EditTextAfter(done, [Encrypt], text); }
      var edited := AddEncryptHook(content);
      if edited.Err? { return edited; }
      content := edited.value;
      done := done + [Encrypt];
    }
    if c.nvidiaOpen {
      if Parse(text).Some? { EditTextAfter(done, [Drop("kms")], text); }
      var edited := RemoveHook(content, "kms");
      if edited.Err? { return edited; }
      content := edited.value;
      done := done + [Drop("kms")];
    }
    assert done == EditsFor(c);
    return Ok(content);
  }
}
