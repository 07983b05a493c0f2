/** Whitespace splitting and space joining, as Python's str.split() and " ".join() do them. */
module Words {

  // str.split() separates at every Unicode whitespace character.
  predicate IsSpace(c: char) {
    var p := c as int;
    || 0x09 <= p <= 0x0D || 0x1C <= p <= 0x20 || p == 0x85 || p == 0xA0 || p == 0x1680
    || 0x2000 <= p <= 0x200A || p == 0x2028 || p == 0x2029 || p == 0x202F || p == 0x205F || p == 0x3000
  }

  ghost predicate IsWord(w: string) {
    w != [] && forall c <- w :: !IsSpace(c)
  }

  // How many characters stand before the first whitespace.
  function WordLength(s: string): (n: nat)
    ensures n <= |s|
    ensures forall i | 0 <= i < n :: !IsSpace(s[i])
    ensures n < |s| ==> IsSpace(s[n])
  {
    if s == [] || IsSpace(s[0]) then 0 else 1 + WordLength(s[1..])
  }

  function Split(s: string): seq<string>
    decreases |s|
  {
    if s == [] then []
    else if IsSpace(s[0]) then Split(s[1..])
    else [s[..WordLength(s)]] + Split(s[WordLength(s)..])
  }

  function Join(words: seq<string>): string {
    if words == [] then []
    else if |words| == 1 then words[0]
    else words[0] + " " + Join(words[1..])
  }

  // Splitting yields nonempty words without whitespace, made of the text's own characters.
  lemma {:induction false} SplitYieldsWords(s: string)
    ensures forall w <- Split(s) :: IsWord(w) && forall c <- w :: c in s
    decreases |s|
  {
    if s != [] {
      if IsSpace(s[0]) {
        SplitYieldsWords(s[1..]);
      } else {
        SplitYieldsWords(s[WordLength(s)..]);
      }
    }
  }

  lemma {:induction false} WordLengthOf(w: string, rest: string)
    requires forall c <- w :: !IsSpace(c)
    requires rest == [] || IsSpace(rest[0])
    ensures WordLength(w + rest) == |w|
  {
    if w == [] {
      assert w + rest == rest;
    } else {
      WordLengthOf(w[1..], rest);
      assert (w + rest)[1..] == w[1..] + rest;
    }
  }

  lemma WordStandsAlone(w: string)
    requires IsWord(w)
    ensures Split(w) == [w]
  {
    WordLengthOf(w, []);
    assert w + [] == w && w[|w|..] == [];
  }

  // A whitespace character separates, whatever stands on either side of it.
  lemma {:induction false} SplitsAtSpace(a: string, space: char, b: string)
    requires IsSpace(space)
    ensures Split(a + [space] + b) == Split(a) + Split(b)
    decreases |a|
  {
    var s := a + [space] + b;
    if a == [] {
      assert s[1..] == b;
    } else if IsSpace(a[0]) {
      SplitsAtSpace(a[1..], space, b);
      assert s[1..] == a[1..] + [space] + b;
    } else {
      var n := WordLength(a);
      var tail := a[n..] + [space] + b;
      SplitsAtSpace(a[n..], space, b);
      WordLengthOf(a[..n], tail);
      assert s == a[..n] + tail && s[..n] == a[..n] && s[n..] == tail;
    }
  }

  // Joining words and splitting the text again gives the words back.
  lemma {:induction false} SplitJoin(words: seq<string>)
    requires forall w <- words :: IsWord(w)
    ensures Split(Join(words)) == words
  {
    if words != [] {
      var w, rest := words[0], words[1..];
      SplitJoin(rest);
      assert IsWord(w);
      if rest == [] {
        WordLengthOf(w, []);
        assert w + [] == w && words == [w];
      } else {
        var tail := " " + Join(rest);
        assert Join(words) == w + tail;
        assert IsSpace(tail[0]);
        assert tail[1..] == Join(rest) && Split(tail) == rest;
        WordLengthOf(w, tail);
        assert (w + tail)[..|w|] == w && (w + tail)[|w|..] == tail;
        assert words == [w] + rest;
      }
    }
  }

  lemma {:induction false} JoinAvoids(words: seq<string>, c: char)
    requires c != ' '
    requires forall w <- words :: c !in w
    ensures c !in Join(words)
  {
    if |words| > 1 {
      JoinAvoids(words[1..], c);
    }
  }
}
