/**
 Turning a log line with terminal escapes into styled segments. The reference meaning is given
 character by character: what is not part of an escape sequence is shown in the style that the
 preceding SGR codes (section 8.3.117 of ECMA-48) leave.
 */
module Ansi {
  import opened Common
  import opened Numerals
  import opened Sequences

  const ANSI_COLORS: seq<string> :=
    ["#6f6469", "#ff5f73", "#7fd88f", "#f2c14e", "#6fb3ff", "#d28cff", "#5fd7d7", "#e6dfe1"]
  const ANSI_BRIGHT_COLORS: seq<string> :=
    ["#9a8f94", "#ff8795", "#a3ecb0", "#ffd97a", "#9ccbff", "#e3b3ff", "#8ceaea", "#ffffff"]

  const ESC: char := '\U{1B}'
  const BEL: char := '\U{7}'

  datatype Style = Style(color: Option<string>, bold: bool)

  const PLAIN: Style := Style(None, false)

  datatype Segment = Segment(text: string, style: Style)

  // -- escape sequences ---------------------------------------------------------

  predicate IsParameter(c: char) { IsDigit(c) || c == ';' || c == '?' }

  predicate IsLetter(c: char) { 'A' <= c <= 'Z' || 'a' <= c <= 'z' }

  // The first position at or after p whose character is no CSI parameter.
  function ParametersEnd(text: string, p: nat): (q: nat)
    requires p <= |text|
    ensures p <= q <= |text|
    decreases |text| - p
  {
    if p < |text| && IsParameter(text[p]) then ParametersEnd(text, p + 1) else p
  }

  // The first position at or after p that holds BEL or ESC.
  function StringEnd(text: string, p: nat): (q: nat)
    requires p <= |text|
    ensures p <= q <= |text|
    decreases |text| - p
  {
    if p < |text| && text[p] != BEL && text[p] != ESC then StringEnd(text, p + 1) else p
  }

  // A matched escape sequence: where it ends, and its parameters when it sets colours.
  datatype Escape = Escape(end: nat, sgr: Option<string>)

  function EscapeAt(text: string, p: nat): (e: Option<Escape>)
    ensures e.Some? ==> p < e.value.end <= |text|
  {
    if p + 1 < |text| && text[p] == ESC && text[p + 1] == '[' then
      var q := ParametersEnd(text, p + 2);
      if q < |text| && IsLetter(text[q]) then
        Some(Escape(q + 1, if text[q] == 'm' then Some(text[p + 2..q]) else None))
      else None
    else if p + 1 < |text| && text[p] == ESC && text[p + 1] == ']' then
      var q := StringEnd(text, p + 2);
      if q < |text| && text[q] == BEL then Some(Escape(q + 1, None))
      else if q + 1 < |text| && text[q + 1] == '\\' then Some(Escape(q + 2, None))
      else None
    else None
  }

  const PARAMETERS: string := "0123456789;?"

  // ESC [ parameters letter, and the parameters when the letter is m.
  predicate IsCsi(s: string, sgr: Option<string>) {
    && |s| >= 3 && s[0] == ESC && s[1] == '['
    && (forall c <- s[2..|s| - 1] :: c in PARAMETERS)
    && IsLetter(s[|s| - 1])
    && sgr == if s[|s| - 1] == 'm' then Some(s[2..|s| - 1]) else None
  }

  // ESC ] text and BEL or ESC \, with neither BEL nor ESC in the text.
  predicate IsOsc(s: string) {
    && |s| >= 3 && s[0] == ESC && s[1] == ']'
    && (|| (s[|s| - 1] == BEL && BEL !in s[2..|s| - 1] && ESC !in s[2..|s| - 1])
        || (|s| >= 4 && s[|s| - 2] == ESC && s[|s| - 1] == '\\' && BEL !in s[2..|s| - 2] && ESC !in s[2..|s| - 2]))
  }

  lemma ParameterChars(c: char)
    ensures IsParameter(c) <==> c in PARAMETERS
  {
    if '0' <= c <= '9' {
      assert PARAMETERS[c as int - '0' as int] == c;
    } else {
      assert PARAMETERS[10] == ';' && PARAMETERS[11] == '?';
    }
  }

  lemma {:induction false} ParametersEndIs(text: string, p: nat, q: nat)
    requires p <= q <= |text| && (forall k | p <= k < q :: IsParameter(text[k]))
    requires q < |text| ==> !IsParameter(text[q])
    ensures ParametersEnd(text, p) == q
    decreases q - p
  {
    if p < q {
      ParametersEndIs(text, p + 1, q);
    }
  }

  lemma {:induction false} ParametersEndFacts(text: string, p: nat)
    requires p <= |text|
    ensures forall k | p <= k < ParametersEnd(text, p) :: IsParameter(text[k])
    ensures ParametersEnd(text, p) < |text| ==> !IsParameter(text[ParametersEnd(text, p)])
    decreases |text| - p
  {
    if p < |text| && IsParameter(text[p]) {
      ParametersEndFacts(text, p + 1);
    }
  }

  lemma {:induction false} StringEndIs(text: string, p: nat, q: nat)
    requires p <= q <= |text| && (forall k | p <= k < q :: text[k] != BEL && text[k] != ESC)
    requires q < |text| ==> text[q] == BEL || text[q] == ESC
    ensures StringEnd(text, p) == q
    decreases q - p
  {
    if p < q {
      StringEndIs(text, p + 1, q);
    }
  }

  lemma {:induction false} StringEndFacts(text: string, p: nat)
    requires p <= |text|
    ensures forall k | p <= k < StringEnd(text, p) :: text[k] != BEL && text[k] != ESC
    ensures StringEnd(text, p) < |text| ==> text[StringEnd(text, p)] == BEL || text[StringEnd(text, p)] == ESC
    decreases |text| - p
  {
    if p < |text| && text[p] != BEL && text[p] != ESC {
      StringEndFacts(text, p + 1);
    }
  }

  lemma Within(text: string, p: nat, q: nat, a: nat, b: nat)
    requires p <= q <= |text| && a <= b <= q - p
    ensures text[p..q][a..b] == text[p + a..p + b]
    ensures p < q ==> text[p..q][q - p - 1] == text[q - 1]
  {
    var s, inner := text[p..q], text[p + a..p + b];
    assert forall k | 0 <= k < q - p :: s[k] == text[p + k];
    assert s[a..b] == inner by {
      forall k | 0 <= k < b - a ensures s[a..b][k] == inner[k] {
        assert s[a..b][k] == s[a + k] && inner[k] == text[p + a + k];
      }
    }
  }

  lemma CsiMatches(text: string, p: nat, q: nat, sgr: Option<string>)
    requires p <= q <= |text| && IsCsi(text[p..q], sgr)
    ensures EscapeAt(text, p) == Some(Escape(q, sgr))
  {
    var s := text[p..q];
    assert forall k | 0 <= k < |s| :: s[k] == text[p + k];
    forall k | p + 2 <= k < q - 1 ensures IsParameter(text[k]) {
      assert text[k] == s[2..|s| - 1][k - p - 2];
      ParameterChars(text[k]);
    }
    ParametersEndIs(text, p + 2, q - 1);
    Within(text, p, q, 2, |s| - 1);
  }

  lemma OscMatches(text: string, p: nat, q: nat)
    requires p <= q <= |text| && IsOsc(text[p..q])
    ensures EscapeAt(text, p) == Some(Escape(q, None))
  {
    var s := text[p..q];
    assert forall k | 0 <= k < |s| :: s[k] == text[p + k];
    var end := if s[|s| - 1] == BEL && BEL !in s[2..|s| - 1] && ESC !in s[2..|s| - 1] then q - 1 else q - 2;
    forall k | p + 2 <= k < end ensures text[k] != BEL && text[k] != ESC {
      assert text[k] == s[2..end - p][k - p - 2];
    }
    StringEndIs(text, p + 2, end);
  }

  lemma MatchedCsi(text: string, p: nat, e: Escape)
    requires EscapeAt(text, p) == Some(e) && text[p + 1] == '['
    ensures IsCsi(text[p..e.end], e.sgr)
  {
    var s := text[p..e.end];
    ParametersEndFacts(text, p + 2);
    Within(text, p, e.end, 2, |s| - 1);
    forall c | c in s[2..|s| - 1] ensures c in PARAMETERS { ParameterChars(c); }
  }

  lemma MatchedOsc(text: string, p: nat, e: Escape)
    requires EscapeAt(text, p) == Some(e) && text[p + 1] == ']'
    ensures IsOsc(text[p..e.end]) && e.sgr == None
  {
    var s, q := text[p..e.end], StringEnd(text, p + 2);
    StringEndFacts(text, p + 2);
    Within(text, p, e.end, 2, q - p);
  }

  // What is cut out of a line: exactly these sequences, in the extent they have.
  lemma EscapesAre(text: string, p: nat, q: nat, sgr: Option<string>)
    requires p <= q <= |text|
    ensures EscapeAt(text, p) == Some(Escape(q, sgr)) <==>
            IsCsi(text[p..q], sgr) || (IsOsc(text[p..q]) && sgr == None)
  {
    if IsCsi(text[p..q], sgr) {
      CsiMatches(text, p, q, sgr);
    } else if IsOsc(text[p..q]) && sgr == None {
      OscMatches(text, p, q);
    } else if EscapeAt(text, p) == Some(Escape(q, sgr)) {
      if text[p + 1] == '[' { MatchedCsi(text, p, Escape(q, sgr)); } else { MatchedOsc(text, p, Escape(q, sgr)); }
    }
  }

  // The next match of the scan: the leftmost escape sequence at or after p.
  function NextEscape(text: string, p: nat): (m: Option<nat>)
    requires p <= |text|
    ensures m.Some? ==> p <= m.value < |text| && EscapeAt(text, m.value).Some?
    ensures forall q | p <= q < (if m.Some? then m.value else |text|) :: EscapeAt(text, q).None?
    decreases |text| - p
  {
    if p == |text| then None
    else if EscapeAt(text, p).Some? then Some(p)
    else NextEscape(text, p + 1)
  }

  // -- SGR codes -------------------------------------------------------------------

  // A code as JavaScript reads it: a '?' inside makes it NaN, and past the list it is undefined.
  datatype Code = Num(n: nat) | NaN | Undefined

  function ReadCode(s: string): Code {
    if forall c <- s :: IsDigit(c) then Num(Numeral(s)) else NaN
  }

  // The pieces between semicolons.
  function Pieces(s: string): (r: seq<string>)
    ensures r != []
  {
    if s == [] then [[]]
    else
      var rest := Pieces(s[1..]);
      if s[0] == ';' then [[]] + rest else [[s[0]] + rest[0]] + rest[1..]
  }

  function Codes(parameters: string): seq<Code> {
    var pieces := Pieces(parameters);
    seq(|pieces|, i requires 0 <= i < |pieces| => ReadCode(pieces[i]))
  }

  function Joined(pieces: seq<string>): string {
    if pieces == [] then []
    else if |pieces| == 1 then pieces[0]
    else pieces[0] + [';'] + Joined(pieces[1..])
  }

  lemma {:induction false} PiecesOfJoined(pieces: seq<string>)
    requires pieces != [] && forall piece <- pieces :: ';' !in piece
    ensures Pieces(Joined(pieces)) == pieces
    decreases |pieces|, |pieces[0]|
  {
    var first, rest := pieces[0], pieces[1..];
    if first == [] {
      if rest != [] {
        PiecesOfJoined(rest);
        assert Joined(pieces)[1..] == Joined(rest);
      }
      assert pieces == [[]] + rest;
    } else {
      var shorter := [first[1..]] + rest;
      assert shorter[1..] == rest && first == [first[0]] + first[1..];
      assert first in pieces && first[0] in first && forall c <- first[1..] :: c in first;
      assert Joined(pieces) == [first[0]] + Joined(shorter);
      PiecesOfJoined(shorter);
      assert pieces == [[first[0]] + shorter[0]] + rest;
    }
  }

  function Printed(ns: seq<Option<nat>>): seq<string> {
    seq(|ns|, i requires 0 <= i < |ns| => if ns[i].Some? then Decimal(ns[i].value) else "")
  }

  // Numbers between semicolons read back as the codes they are, and an empty place as 0.
  lemma CodesReadBack(ns: seq<Option<nat>>)
    requires ns != []
    ensures Codes(Joined(Printed(ns))) ==
            seq(|ns|, i requires 0 <= i < |ns| => if ns[i].Some? then Num(ns[i].value) else Num(0))
  {
    PiecesOfJoined(Printed(ns));
    forall i | 0 <= i < |ns|
      ensures ReadCode(Printed(ns)[i]) == if ns[i].Some? then Num(ns[i].value) else Num(0)
    {
      if ns[i].Some? { NumeralOfDecimal(ns[i].value); }
    }
  }

  function CodeAt(codes: seq<Code>, i: nat): Code {
    if i < |codes| then codes[i] else Undefined
  }

  function Show(code: Code): string {
    match code
    case Num(n) => Decimal(n)
    case NaN => "NaN"
    case Undefined => "undefined"
  }

  function Rgb(r: Code, g: Code, b: Code): string {
    "rgb(" + Show(r) + ", " + Show(g) + ", " + Show(b) + ")"
  }

  // How many codes the one in front takes with it.
  function Taken(codes: seq<Code>): (n: nat)
    requires codes != []
    ensures n > 0
  {
    if codes[0] == Num(38) || codes[0] == Num(48) then
      if CodeAt(codes, 1) == Num(5) then 3 else if CodeAt(codes, 1) == Num(2) then 5 else 2
    else 1
  }

  // The colour an extended foreground code selects; other extended codes select none.
  function Extended(codes: seq<Code>): Option<string>
    requires codes != []
  {
    if codes[0] != Num(38) then None
    else if CodeAt(codes, 1) == Num(5) then
      match CodeAt(codes, 2)
      case Num(n) =>
        if n < 8 then Some(ANSI_COLORS[n]) else if n < 16 then Some(ANSI_BRIGHT_COLORS[n - 8]) else None
      case _ => None
    else if CodeAt(codes, 1) == Num(2) then
      Some(Rgb(CodeAt(codes, 2), CodeAt(codes, 3), CodeAt(codes, 4)))
    else None
  }

  // The style after the code in front.
  function Styled1(codes: seq<Code>, style: Style): Style
    requires codes != []
  {
    match codes[0]
    case Num(n) =>
      if n == 0 then PLAIN
      else if n == 1 then style.(bold := true)
      else if n == 22 then style.(bold := false)
      else if 30 <= n <= 37 then style.(color := Some(ANSI_COLORS[n - 30]))
      else if 90 <= n <= 97 then style.(color := Some(ANSI_BRIGHT_COLORS[n - 90]))
      else if n == 39 then style.(color := None)
      else if Extended(codes).Some? then style.(color := Extended(codes))
      else style
    case _ => style
  }

  // The style after a whole list of codes.
  function Sgr(codes: seq<Code>, style: Style): Style
    decreases |codes|
  {
    if codes == [] then style
    else if Taken(codes) >= |codes| then Styled1(codes, style)
    else Sgr(codes[Taken(codes)..], Styled1(codes, style))
  }

  // -- what the codes mean ----------------------------------------------------------

  // A list of codes cut into what each code takes: 38 and 48 take the next code, and with a 5 there
  // one more, with a 2 three more; every other code stands alone. The last cut may fall short.
  predicate WholeItem(item: seq<Code>, last: bool) {
    && item != []
    && var n := if item[0] != Num(38) && item[0] != Num(48) then 1
                else if |item| > 1 && item[1] == Num(5) then 3
                else if |item| > 1 && item[1] == Num(2) then 5
                else 2;
       |item| == n || (last && |item| < n)
  }

  function Flat(items: seq<seq<Code>>): seq<Code> {
    if items == [] then [] else items[0] + Flat(items[1..])
  }

  function CutOf(codes: seq<Code>): (items: seq<seq<Code>>)
    ensures Flat(items) == codes
    ensures forall i | 0 <= i < |items| :: WholeItem(items[i], i == |items| - 1)
    decreases |codes|
  {
    if codes == [] then []
    else
      var n := if Taken(codes) < |codes| then Taken(codes) else |codes|;
      var rest := CutOf(codes[n..]);
      assert codes == codes[..n] + codes[n..];
      assert n < |codes| ==> rest != [];
      assert ([codes[..n]] + rest)[1..] == rest;
      [codes[..n]] + rest
  }

  predicate SetsBold(item: seq<Code>) {
    item != [] && (item[0] == Num(0) || item[0] == Num(1) || item[0] == Num(22))
  }

  // Bold is on exactly when the last of the codes 0, 1 and 22 is a 1, or it was on and none occurs.
  predicate BoldBy(items: seq<seq<Code>>, before: bool) {
    || (exists i :: 0 <= i < |items| && items[i] != [] && items[i][0] == Num(1)
                    && forall j | i < j < |items| :: !SetsBold(items[j]))
    || (before && forall j | 0 <= j < |items| :: !SetsBold(items[j]))
  }

  // The colour this item leaves: 0 and 39 none, 30 + k and 90 + k entry k of their palettes, 38;5;n
  // the same entries as 30 + n and 82 + n, 38;2;r;g;b that mixture. Nothing else selects a colour.
  predicate Colours(item: seq<Code>, c: Option<string>) {
    || ((item == [Num(0)] || item == [Num(39)]) && c == None)
    || (exists k: nat | k < 8 ::
          && c == Some(ANSI_COLORS[k]) && (item == [Num(30 + k)] || item == [Num(38), Num(5), Num(k)]))
    || (exists k: nat | k < 8 ::
          && c == Some(ANSI_BRIGHT_COLORS[k]) && (item == [Num(90 + k)] || item == [Num(38), Num(5), Num(8 + k)]))
    || (&& |item| >= 2 && item[0] == Num(38) && item[1] == Num(2)
        && c == Some("rgb(" + Show(CodeAt(item, 2)) + ", " + Show(CodeAt(item, 3)) + ", "
                     + Show(CodeAt(item, 4)) + ")"))
  }

  ghost predicate Colourless(item: seq<Code>) {
    forall c :: !Colours(item, c)
  }

  // The colour is the one of the last item that has one, or as it was when none has.
  ghost predicate ColourBy(items: seq<seq<Code>>, before: Option<string>, c: Option<string>) {
    || (exists i :: 0 <= i < |items| && Colours(items[i], c) && forall j | i < j < |items| :: Colourless(items[j]))
    || (c == before && forall j | 0 <= j < |items| :: Colourless(items[j]))
  }

  ghost predicate Meant(items: seq<seq<Code>>, before: Style, after: Style) {
    (after.bold <==> BoldBy(items, before.bold)) && ColourBy(items, before.color, after.color)
  }

  lemma MeantTogether(a: seq<seq<Code>>, b: seq<seq<Code>>, s: Style, m: Style, r: Style)
    requires Meant(a, s, m) && Meant(b, m, r)
    ensures Meant(a + b, s, r)
  {
    BoldTogether(a, b, s.bold);
    ColourTogether(a, b, s.color, m.color, r.color);
  }

  lemma BoldTogether(a: seq<seq<Code>>, b: seq<seq<Code>>, before: bool)
    ensures BoldBy(a + b, before) <==> BoldBy(b, BoldBy(a, before))
  {
    var all := a + b;
    assert forall j | 0 <= j < |a| :: all[j] == a[j];
    assert forall j | 0 <= j < |b| :: all[|a| + j] == b[j];
    if forall j | 0 <= j < |b| :: !SetsBold(b[j]) {
      assert forall j | |a| <= j < |all| :: !SetsBold(all[j]);
    } else {
      var j :| 0 <= j < |b| && SetsBold(b[j]);
      assert SetsBold(all[|a| + j]);
      if BoldBy(b, BoldBy(a, before)) {
        var i :| 0 <= i < |b| && b[i] != [] && b[i][0] == Num(1) && forall j | i < j < |b| :: !SetsBold(b[j]);
        assert all[|a| + i][0] == Num(1);
        assert forall j | |a| + i < j < |all| :: !SetsBold(all[j]);
      }
      if BoldBy(all, before) {
        var i :| 0 <= i < |all| && all[i] != [] && all[i][0] == Num(1) && forall j | i < j < |all| :: !SetsBold(all[j]);
        assert b[i - |a|][0] == Num(1);
        assert forall j | i - |a| < j < |b| :: !SetsBold(b[j]);
      }
    }
  }

  lemma ColourTogether(
      a: seq<seq<Code>>, b: seq<seq<Code>>, s: Option<string>, m: Option<string>, r: Option<string>)
    requires ColourBy(a, s, m) && ColourBy(b, m, r)
    ensures ColourBy(a + b, s, r)
  {
    var all := a + b;
    assert forall j | 0 <= j < |a| :: all[j] == a[j];
    assert forall j | 0 <= j < |b| :: all[|a| + j] == b[j];
    if i :| 0 <= i < |b| && Colours(b[i], r) && forall j | i < j < |b| :: Colourless(b[j]) {
      assert Colours(all[|a| + i], r);
      assert forall j | |a| + i < j < |all| :: Colourless(all[j]);
    } else {
      assert forall j | |a| <= j < |all| :: Colourless(all[j]);
      if i :| 0 <= i < |a| && Colours(a[i], m) && forall j | i < j < |a| :: Colourless(a[j]) {
        assert Colours(all[i], r);
      }
    }
  }

  lemma AloneMeans(item: seq<Code>, before: Style, after: Style)
    requires item != []
    requires after.bold <==> item[0] == Num(1) || (before.bold && item[0] != Num(0) && item[0] != Num(22))
    requires Colours(item, after.color) || (Colourless(item) && after.color == before.color)
    ensures Meant([item], before, after)
  {
    assert [item][0] == item;
  }

  lemma PlainColour(codes: seq<Code>, style: Style)
    requires codes != [] && codes[0] != Num(38) && codes[0] != Num(48)
    ensures Colours([codes[0]], Styled1(codes, style).color)
         || (Colourless([codes[0]]) && Styled1(codes, style).color == style.color)
  {
  }

  lemma ExtendedColour(codes: seq<Code>, item: seq<Code>, style: Style)
    requires codes != [] && (codes[0] == Num(38) || codes[0] == Num(48))
    requires item == codes[..if Taken(codes) < |codes| then Taken(codes) else |codes|]
    ensures Colours(item, Styled1(codes, style).color)
         || (Colourless(item) && Styled1(codes, style).color == style.color)
  {
    assert forall k: nat | k < |item| :: item[k] == codes[k];
  }

  lemma FirstMeans(codes: seq<Code>, item: seq<Code>, style: Style)
    requires codes != [] && item == codes[..if Taken(codes) < |codes| then Taken(codes) else |codes|]
    ensures Meant([item], style, Styled1(codes, style))
  {
    if codes[0] == Num(38) || codes[0] == Num(48) {
      ExtendedColour(codes, item, style);
    } else {
      assert item == [codes[0]];
      PlainColour(codes, style);
    }
    AloneMeans(item, style, Styled1(codes, style));
  }

  // The style a list of codes leaves is the one its items mean.
  lemma {:induction false} SgrMeans(codes: seq<Code>, style: Style)
    ensures Meant(CutOf(codes), style, Sgr(codes, style))
    decreases |codes|
  {
    if codes != [] {
      var n := if Taken(codes) < |codes| then Taken(codes) else |codes|;
      var item, rest := codes[..n], codes[n..];
      FirstMeans(codes, item, style);
      SgrMeans(rest, Styled1(codes, style));
      MeantTogether([item], CutOf(rest), style, Styled1(codes, style), Sgr(codes, style));
    }
  }

  // -- the reference meaning of a line ------------------------------------------------

  function StyleAfter(e: Escape, style: Style): Style {
    if e.sgr.Some? then Sgr(Codes(e.sgr.value), style) else style
  }

  // The characters shown from position p on, each with its style.
  function Shown(text: string, p: nat, style: Style): seq<(char, Style)>
    requires p <= |text|
    decreases |text| - p
  {
    if p == |text| then []
    else
      match EscapeAt(text, p)
      case Some(e) => Shown(text, e.end, StyleAfter(e, style))
      case None => [(text[p], style)] + Shown(text, p + 1, style)
  }

  function ItemsOf(e: Escape): seq<seq<Code>> {
    if e.sgr.Some? then CutOf(Codes(e.sgr.value)) else []
  }

  // The same characters, each with the items of all codes before it.
  function Instructed(text: string, p: nat, items: seq<seq<Code>>): seq<(char, seq<seq<Code>>)>
    requires p <= |text|
    decreases |text| - p
  {
    if p == |text| then []
    else
      match EscapeAt(text, p)
      case Some(e) =>
        Instructed(text, e.end, items + ItemsOf(e))
      case None => [(text[p], items)] + Instructed(text, p + 1, items)
  }

  // Each character is shown as the items before it mean.
  ghost predicate Rendered(instructed: seq<(char, seq<seq<Code>>)>, shown: seq<(char, Style)>) {
    && |shown| == |instructed|
    && forall k | 0 <= k < |shown| ::
         shown[k].0 == instructed[k].0 && Meant(instructed[k].1, PLAIN, shown[k].1)
  }

  lemma {:induction false} ShownIsMeant(text: string, p: nat, items: seq<seq<Code>>, style: Style)
    requires p <= |text| && Meant(items, PLAIN, style)
    ensures Rendered(Instructed(text, p, items), Shown(text, p, style))
    decreases |text| - p
  {
    if p < |text| {
      match EscapeAt(text, p)
      case Some(e) =>
        EscapeIsMeant(e, items, style);
        ShownIsMeant(text, e.end, items + ItemsOf(e), StyleAfter(e, style));
      case None =>
        ShownIsMeant(text, p + 1, items, style);
        RenderedNext(text[p], items, style, Instructed(text, p + 1, items), Shown(text, p + 1, style));
    }
  }

  lemma EscapeIsMeant(e: Escape, items: seq<seq<Code>>, style: Style)
    requires Meant(items, PLAIN, style)
    ensures Meant(items + ItemsOf(e), PLAIN, StyleAfter(e, style))
  {
    if e.sgr.Some? {
      SgrMeans(Codes(e.sgr.value), style);
      MeantTogether(items, ItemsOf(e), PLAIN, style, StyleAfter(e, style));
    } else {
      assert items + [] == items;
    }
  }

  lemma RenderedNext(
      c: char, items: seq<seq<Code>>, style: Style, instructed: seq<(char, seq<seq<Code>>)>, shown: seq<(char, Style)>)
    requires Meant(items, PLAIN, style) && Rendered(instructed, shown)
    ensures Rendered([(c, items)] + instructed, [(c, style)] + shown)
  {
  }

  // The line with its escape sequences taken out.
  function Unescaped(text: string, p: nat): string
    requires p <= |text|
    decreases |text| - p
  {
    if p == |text| then []
    else
      match EscapeAt(text, p)
      case Some(e) => Unescaped(text, e.end)
      case None => [text[p]] + Unescaped(text, p + 1)
  }

  function Paint(text: string, style: Style): seq<(char, Style)> {
    seq(|text|, i requires 0 <= i < |text| => (text[i], style))
  }

  function Expand(segments: seq<Segment>): seq<(char, Style)> {
    if segments == [] then []
    else
      var last := segments[|segments| - 1];
      Expand(segments[..|segments| - 1]) + Paint(last.text, last.style)
  }

  // No segment is empty, and neighbours differ in colour or boldness.
  ghost predicate RunLengths(segments: seq<Segment>) {
    && (forall s <- segments :: s.text != [])
    && (forall i | 0 < i < |segments| :: segments[i - 1].style != segments[i].style)
  }

  function PlainText(segments: seq<Segment>): string {
    if segments == [] then []
    else PlainText(segments[..|segments| - 1]) + segments[|segments| - 1].text
  }

  // -- lemmas ----------------------------------------------------------------------------

  // Up to the next escape sequence the characters are shown as they stand.
  lemma {:induction false} ShownUntil(text: string, p: nat, q: nat, style: Style)
    requires p <= q <= |text| && forall k | p <= k < q :: EscapeAt(text, k).None?
    ensures Shown(text, p, style) == Paint(text[p..q], style) + Shown(text, q, style)
    decreases q - p
  {
    if p < q {
      ShownUntil(text, p + 1, q, style);
      assert Paint(text[p..q], style) == [(text[p], style)] + Paint(text[p + 1..q], style);
    }
  }

  lemma PaintTogether(a: string, b: string, style: Style)
    ensures Paint(a + b, style) == Paint(a, style) + Paint(b, style)
  {
  }

  function Characters(shown: seq<(char, Style)>): string {
    seq(|shown|, i requires 0 <= i < |shown| => shown[i].0)
  }

  // The characters shown are the line without its escape sequences.
  lemma {:induction false} ShownIsUnescaped(text: string, p: nat, style: Style)
    requires p <= |text|
    ensures Characters(Shown(text, p, style)) == Unescaped(text, p)
    decreases |text| - p
  {
    if p < |text| {
      match EscapeAt(text, p)
      case Some(e) =>
        ShownIsUnescaped(text, e.end, StyleAfter(e, style));
      case None =>
        ShownIsUnescaped(text, p + 1, style);
        assert Characters(Shown(text, p, style)) == [text[p]] + Characters(Shown(text, p + 1, style));
    }
  }

  lemma {:induction false} PlainIsExpanded(segments: seq<Segment>)
    ensures PlainText(segments) == Characters(Expand(segments))
  {
    if segments != [] {
      PlainIsExpanded(segments[..|segments| - 1]);
    }
  }

  // The segment is the longest run of one style at the end of the characters shown.
  ghost predicate EndsIn(shown: seq<(char, Style)>, s: Segment) {
    var start := |shown| - |s.text|;
    && 0 <= start < |shown|
    && (forall j | start <= j < |shown| :: shown[j] == (s.text[j - start], s.style))
    && (start > 0 ==> shown[start - 1].1 != s.style)
  }

  lemma EndsInPaint(before: seq<(char, Style)>, s: Segment)
    requires s.text != [] && (before != [] ==> before[|before| - 1].1 != s.style)
    ensures EndsIn(before + Paint(s.text, s.style), s)
  {
  }

  lemma LastRun(segments: seq<Segment>)
    requires RunLengths(segments) && segments != []
    ensures var last := segments[|segments| - 1];
            && EndsIn(Expand(segments), last)
            && Expand(segments)[..|Expand(segments)| - |last.text|] == Expand(segments[..|segments| - 1])
  {
    var init, last := segments[..|segments| - 1], segments[|segments| - 1];
    if init != [] {
      var before := init[|init| - 1];
      assert before.style != last.style;
      assert Expand(init) == Expand(init[..|init| - 1]) + Paint(before.text, before.style);
    }
    EndsInPaint(Expand(init), last);
  }

  lemma SameEnd(shown: seq<(char, Style)>, s: Segment, t: Segment)
    requires EndsIn(shown, s) && EndsIn(shown, t)
    ensures s == t
  {
    var n := |shown|;
    assert shown[n - 1].1 == s.style == t.style;
    assert |s.text| == |t.text|;
    forall i | 0 <= i < |s.text| ensures s.text[i] == t.text[i] {
      assert shown[n - |s.text| + i].0 == s.text[i];
    }
  }

  // A styled text has only one run-length form.
  lemma {:induction false} RunLengthsAreUnique(a: seq<Segment>, b: seq<Segment>)
    requires RunLengths(a) && RunLengths(b) && Expand(a) == Expand(b)
    ensures a == b
  {
    if a != [] { LastRun(a); }
    if b != [] { LastRun(b); }
    if a != [] && b != [] {
      var s, t := a[|a| - 1], b[|b| - 1];
      SameEnd(Expand(a), s, t);
      RunLengthsAreUnique(a[..|a| - 1], b[..|b| - 1]);
      assert a == a[..|a| - 1] + [s] && b == b[..|b| - 1] + [t];
    }
  }

  // -- the interpreter ----------------------------------------------------------------------

  // The loop over one sequence's codes.
  method ApplyCodes(codes: seq<Code>, style: Style) returns (r: Style)
    ensures r == Sgr(codes, style)
  {
    var color, bold := style.color, style.bold;
    var i := 0;
    while i < |codes|
      invariant 0 <= i
      invariant Sgr(codes, style)
             == if i < |codes| then Sgr(codes[i..], Style(color, bold)) else Style(color, bold)
      decreases |codes| - i
    {
      ghost var rest, before := codes[i..], Style(color, bold);
      ghost var from := i;
      var code := codes[i];
      if code == Num(0) {
        color := None;
        bold := false;
      } else if code == Num(1) {
        bold := true;
      } else if code == Num(22) {
        bold := false;
      } else if code.Num? && code.n >= 30 && code.n <= 37 {
        color := Some(ANSI_COLORS[code.n - 30]);
      } else if code.Num? && code.n >= 90 && code.n <= 97 {
        color := Some(ANSI_BRIGHT_COLORS[code.n - 90]);
      } else if code == Num(39) {
        color := None;
      } else if code == Num(38) || code == Num(48) {
        var mode := CodeAt(codes, i + 1);
        assert forall k: nat | k < 5 :: CodeAt(codes, i + k) == CodeAt(rest, k);
        if code == Num(38) && mode == Num(5) {
          var index := CodeAt(codes, i + 2);
          if index.Num? && index.n < 8 {
            color := Some(ANSI_COLORS[index.n]);
          } else if index.Num? && index.n < 16 {
            color := Some(ANSI_BRIGHT_COLORS[index.n - 8]);
          }
        } else if code == Num(38) && mode == Num(2) {
          color := Some(Rgb(CodeAt(codes, i + 2), CodeAt(codes, i + 3), CodeAt(codes, i + 4)));
        }
        i := i + if mode == Num(5) then 2 else if mode == Num(2) then 4 else 1;
      }
      i := i + 1;
      assert Style(color, bold) == Styled1(rest, before) && i == from + Taken(rest);
      assert i < |codes| ==> codes[i..] == rest[Taken(rest)..];
    }
    r := Style(color, bold);
  }

  // The last segment with a chunk appended.
  function Lengthened(segments: seq<Segment>, chunk: string): seq<Segment>
    requires segments != []
  {
    var last := segments[|segments| - 1];
    segments[..|segments| - 1] + [last.(text := last.text + chunk)]
  }

  lemma LengthenedShows(segments: seq<Segment>, chunk: string)
    requires segments != []
    ensures Expand(Lengthened(segments, chunk))
         == Expand(segments) + Paint(chunk, segments[|segments| - 1].style)
  {
    var n := |segments|;
    var last, front := segments[n - 1], segments[..n - 1];
    PaintTogether(last.text, chunk, last.style);
    assert Lengthened(segments, chunk)[..n - 1] == front;
    Associates(Expand(front), Paint(last.text, last.style), Paint(chunk, last.style));
  }

  lemma LengthenedRuns(segments: seq<Segment>, chunk: string)
    requires segments != [] && RunLengths(segments)
    ensures RunLengths(Lengthened(segments, chunk))
  {
    var r := Lengthened(segments, chunk);
    forall i | 0 <= i < |r| ensures r[i].text != [] && r[i].style == segments[i].style {
      assert segments[i] in segments;
    }
  }

  lemma AddedShows(segments: seq<Segment>, s: Segment)
    ensures Expand(segments + [s]) == Expand(segments) + Paint(s.text, s.style)
  {
    assert (segments + [s])[..|segments|] == segments;
  }

  lemma AddedRuns(segments: seq<Segment>, s: Segment)
    requires RunLengths(segments) && s.text != []
    requires segments != [] ==> segments[|segments| - 1].style != s.style
    ensures RunLengths(segments + [s])
  {
  }

  // Appending a chunk extends the last segment when the style is the same.
  method Push(segments: seq<Segment>, chunk: string, color: Option<string>, bold: bool) returns (r: seq<Segment>)
    requires RunLengths(segments)
    ensures RunLengths(r)
    ensures Expand(r) == Expand(segments) + Paint(chunk, Style(color, bold))
  {
    if chunk == [] {
      return segments;
    }
    var n := |segments|;
    if n > 0 && segments[n - 1].style.color == color && segments[n - 1].style.bold == bold {
      var previous := segments[n - 1];
      r := segments[..n - 1] + [previous.(text := previous.text + chunk)];
      LengthenedShows(segments, chunk);
      LengthenedRuns(segments, chunk);
    } else {
      r := segments + [Segment(chunk, Style(color, bold))];
      AddedShows(segments, Segment(chunk, Style(color, bold)));
      AddedRuns(segments, Segment(chunk, Style(color, bold)));
    }
  }

  // The segments are the run-length form of the line's shown characters.
  method ParseAnsi(text: string) returns (segments: seq<Segment>)
    ensures Expand(segments) == Shown(text, 0, PLAIN)
    ensures Rendered(Instructed(text, 0, []), Expand(segments))
    ensures RunLengths(segments)
  {
    ShownIsMeant(text, 0, [], PLAIN);
    segments := [];
    var style := PLAIN;
    var last := 0;
    var found := NextEscape(text, 0);
    while found.Some?
      invariant last <= |text| && found == NextEscape(text, last)
      invariant RunLengths(segments)
      invariant Expand(segments) + Shown(text, last, style) == Shown(text, 0, PLAIN)
      decreases |text| - last
    {
      var escape := EscapeAt(text, found.value).value;
      ShownUntil(text, last, found.value, style);
      Associates(Expand(segments), Paint(text[last..found.value], style), Shown(text, found.value, style));
      segments := Push(segments, text[last..found.value], style.color, style.bold);
      last := escape.end;
      if escape.sgr.Some? {
        style := ApplyCodes(Codes(escape.sgr.value), style);
      }
      found := NextEscape(text, last);
    }
    ShownUntil(text, last, |text|, style);
    assert text[last..] == text[last..|text|] && Shown(text, |text|, style) == [];
    segments := Push(segments, text[last..], style.color, style.bold);
  }

  // The text a line is classified by is the line without its escape sequences.
  method FormatLogLine(text: string) returns (segments: seq<Segment>, plain: string)
    ensures plain == Unescaped(text, 0)
    ensures RunLengths(segments) && Expand(segments) == Shown(text, 0, PLAIN)
    ensures Rendered(Instructed(text, 0, []), Expand(segments))
  {
    segments := ParseAnsi(text);
    plain := PlainText(segments);
    PlainIsExpanded(segments);
    ShownIsUnescaped(text, 0, PLAIN);
  }
}
