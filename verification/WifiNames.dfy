/** How a Wi-Fi network joined live is named on disk, and how its keyfile spells the SSID. */
module WifiNames {
  import opened Common
  import opened Numerals
  import opened Sequences
  import opened Utf8

  // -- iwd's file names --------------------------------------------------------------

  predicate IsPlain(c: char) {
    'a' <= c <= 'z' || 'A' <= c <= 'Z' || '0' <= c <= '9' || c == '-' || c == '_' || c == ' '
  }

  function FileStem(ssid: string): string {
    if ssid != "" && forall c <- ssid :: IsPlain(c) then ssid else "=" + Hex(Encode(ssid))
  }

  function IwdFileName(ssid: string, security: string): string {
    FileStem(ssid) + "." + security
  }

  function SsidFromStem(stem: string): Option<string> {
    if stem != "" && stem[0] == '=' then
      var bytes := FromHex(stem[1..]);
      if bytes.None? then None else Decode(bytes.value)
    else Some(stem)
  }

  // str.rfind: the last position of a character, or -1.
  function LastIndex(s: string, c: char): (i: int)
    ensures -1 <= i < |s|
    ensures i >= 0 ==> s[i] == c
    ensures forall j | i < j < |s| :: s[j] != c
  {
    if s == [] then -1
    else if s[|s| - 1] == c then |s| - 1
    else LastIndex(s[..|s| - 1], c)
  }

  // A path's stem and suffix: they meet at the last dot that is neither first nor last.
  function DotAt(name: string): (i: nat)
    ensures i <= |name|
  {
    var i := LastIndex(name, '.');
    if 0 < i < |name| - 1 then i else |name|
  }

  function PathStem(name: string): string { name[..DotAt(name)] }

  function PathSuffix(name: string): string { name[DotAt(name)..] }

  lemma StemHasNoDot(ssid: string)
    ensures FileStem(ssid) != "" && forall c <- FileStem(ssid) :: c != '.' && c != '/' && c != '\0'
  {
    assert forall c <- FileStem(ssid) :: IsPlain(c) || c == '=' || IsHexDigit(c);
  }

  lemma StemReadsBack(ssid: string)
    ensures SsidFromStem(FileStem(ssid)) == Some(ssid)
  {
    if ssid != "" && forall c <- ssid :: IsPlain(c) {
      assert IsPlain(ssid[0]);
    } else {
      assert FileStem(ssid)[1..] == Hex(Encode(ssid));
      FromHexOfHex(Encode(ssid));
      DecodeEncode(ssid);
    }
  }

  // Every SSID is read back from the file name it is stored under, and the name is one path
  // component whose suffix is the security type.
  lemma NameReadsBack(ssid: string, security: string)
    requires security != "" && '.' !in security
    ensures var name := IwdFileName(ssid, security);
            && PathStem(name) == FileStem(ssid) && PathSuffix(name) == "." + security
            && SsidFromStem(PathStem(name)) == Some(ssid)
            && ('/' !in security ==> '/' !in name)
  {
    StemHasNoDot(ssid);
    StemReadsBack(ssid);
    var stem, name := FileStem(ssid), IwdFileName(ssid, security);
    var i := LastIndex(name, '.');
    assert name[|stem|] == '.';
    assert forall j | |stem| < j < |name| :: name[j] == security[j - |stem| - 1];
    assert i == |stem|;
    assert name[..i] == stem && name[i..] == "." + security;
  }

  // A name stands for itself exactly when it is made of letters, digits, blanks, - and _; any other
  // is spelled in hex.
  lemma FileNameIs(ssid: string, security: string)
    ensures var plain := ssid != "" && forall c <- ssid ::
                           'a' <= c <= 'z' || 'A' <= c <= 'Z' || '0' <= c <= '9' || c in "-_ ";
            IwdFileName(ssid, security) ==
            if plain then ssid + "." + security else "=" + Hex(Encode(ssid)) + "." + security
  {
    assert forall c :: IsPlain(c) <==>
           'a' <= c <= 'z' || 'A' <= c <= 'Z' || '0' <= c <= '9' || c in "-_ ";
  }

  // Different networks never share a file.
  lemma NamesAreDistinct(a: string, b: string, sa: string, sb: string)
    requires sa != "" && '.' !in sa && sb != "" && '.' !in sb
    requires IwdFileName(a, sa) == IwdFileName(b, sb)
    ensures a == b && sa == sb
  {
    NameReadsBack(a, sa);
    NameReadsBack(b, sb);
    assert ("." + sa)[1..] == sa && ("." + sb)[1..] == sb;
  }

  // -- the keyfile's SSID ----------------------------------------------------------------

  predicate IsPrintable(c: char) {
    32 <= c as int < 127 && c != ';' && c != '\\'
  }

  function ByteList(bytes: seq<byte>): string {
    if bytes == [] then [] else Decimal(bytes[0]) + ";" + ByteList(bytes[1..])
  }

  function SsidValue(ssid: string): string {
    if forall c <- ssid :: IsPrintable(c) then ssid else ByteList(Encode(ssid))
  }

  // Printable ASCII without ; and \\ is spelled as it is, anything else as the bytes of its UTF-8.
  lemma SsidValueIs(ssid: string)
    ensures SsidValue(ssid) ==
            if forall c <- ssid :: ' ' <= c <= '~' && c != ';' && c != '\\' then ssid
            else ByteList(Encode(ssid))
  {
    assert forall c :: IsPrintable(c) <==> ' ' <= c <= '~' && c != ';' && c != '\\';
  }

  // The leading digits of a list item.
  function DigitsEnd(s: string): (n: nat)
    ensures n <= |s| && (forall i | 0 <= i < n :: IsDigit(s[i])) && (n < |s| ==> !IsDigit(s[n]))
  {
    if s == [] || !IsDigit(s[0]) then 0 else 1 + DigitsEnd(s[1..])
  }

  function ReadByteList(s: string): Option<seq<byte>>
    decreases |s|
  {
    if s == [] then Some([])
    else
      var n := DigitsEnd(s);
      if n == 0 || n == |s| || s[n] != ';' || Numeral(s[..n]) > 255 then None
      else
        var rest := ReadByteList(s[n + 1..]);
        if rest.None? then None else Some([Numeral(s[..n])] + rest.value)
  }

  // A keyfile value with a semicolon is a list of bytes, and any other is the text itself.
  function ReadSsid(value: string): Option<string> {
    if ';' in value then
      var bytes := ReadByteList(value);
      if bytes.None? then None else Decode(bytes.value)
    else Some(value)
  }

  lemma {:induction false} DigitsEndAt(digits: string, rest: string)
    requires forall c <- digits :: IsDigit(c)
    requires rest != [] && !IsDigit(rest[0])
    ensures DigitsEnd(digits + rest) == |digits|
  {
    if digits == [] {
      assert digits + rest == rest;
    } else {
      DigitsEndAt(digits[1..], rest);
      assert (digits + rest)[1..] == digits[1..] + rest;
    }
  }

  lemma {:induction false} ReadListItem(digits: string, rest: string)
    requires digits != [] && (forall c <- digits :: IsDigit(c)) && Numeral(digits) < 256
    requires ReadByteList(rest).Some?
    ensures ReadByteList(digits + ";" + rest) == Some([Numeral(digits)] + ReadByteList(rest).value)
  {
    var s := digits + ";" + rest;
    assert s == digits + (";" + rest);
    DigitsEndAt(digits, ";" + rest);
    assert s[|digits|] == ';' && s[..|digits|] == digits && s[|digits| + 1..] == rest;
    var n := DigitsEnd(s);
    assert n == |digits| && Numeral(s[..n]) < 256 && ReadByteList(s[n + 1..]) == ReadByteList(rest);
  }

  lemma {:induction false} ByteListReadsBack(bytes: seq<byte>)
    ensures ReadByteList(ByteList(bytes)) == Some(bytes)
  {
    if bytes != [] {
      ByteListReadsBack(bytes[1..]);
      NumeralOfDecimal(bytes[0]);
      ReadListItem(Decimal(bytes[0]), ByteList(bytes[1..]));
      assert bytes == [bytes[0]] + bytes[1..];
    }
  }

  lemma {:induction false} ByteListLooks(bytes: seq<byte>)
    ensures bytes != [] ==> ';' in ByteList(bytes)
    ensures forall c <- ByteList(bytes) :: IsDigit(c) || c == ';'
  {
    if bytes != [] {
      ByteListLooks(bytes[1..]);
    }
  }

  // The two spellings cannot be confused, and each reads back as the SSID.
  lemma SsidValueReadsBack(ssid: string)
    ensures ReadSsid(SsidValue(ssid)) == Some(ssid)
    ensures ';' in SsidValue(ssid) <==> exists c <- ssid :: !IsPrintable(c)
    ensures forall c <- SsidValue(ssid) :: IsPrintable(c) || c == ';'
  {
    if exists c <- ssid :: !IsPrintable(c) {
      assert Encode(ssid) != [];
      ByteListReadsBack(Encode(ssid));
      ByteListLooks(Encode(ssid));
      DecodeEncode(ssid);
    }
  }

  // -- readers that trim values ---------------------------------------------------------

  predicate IsBlank(c: char) { c == ' ' || '\t' <= c <= '\r' }

  function Trimmed(s: string): string
    decreases |s|
  {
    if s != [] && IsBlank(s[0]) then Trimmed(s[1..])
    else if s != [] && IsBlank(s[|s| - 1]) then Trimmed(s[..|s| - 1])
    else s
  }

  lemma {:induction false} TrimmedShorter(s: string)
    ensures |Trimmed(s)| <= |s|
    ensures |Trimmed(s)| == |s| <==> s == [] || (!IsBlank(s[0]) && !IsBlank(s[|s| - 1]))
    ensures |Trimmed(s)| == |s| ==> Trimmed(s) == s
    ensures ';' in Trimmed(s) ==> ';' in s
    decreases |s|
  {
    if s != [] && IsBlank(s[0]) {
      TrimmedShorter(s[1..]);
    } else if s != [] && IsBlank(s[|s| - 1]) {
      TrimmedShorter(s[..|s| - 1]);
    }
  }

  lemma {:induction false} ByteListEnds(bytes: seq<byte>)
    requires bytes != []
    ensures var s := ByteList(bytes); s != [] && IsDigit(s[0]) && s[|s| - 1] == ';'
  {
    if |bytes| > 1 {
      ByteListEnds(bytes[1..]);
    }
    assert IsDigit(Decimal(bytes[0])[0]);
  }

  // A list of bytes begins with a digit and ends in a semicolon, so nothing is trimmed.
  lemma ListIsUntrimmed(ssid: string)
    requires exists c <- ssid :: !IsPrintable(c)
    ensures ReadSsid(Trimmed(SsidValue(ssid))) == Some(ssid)
  {
    SsidValueReadsBack(ssid);
    TrimmedShorter(SsidValue(ssid));
    assert Encode(ssid) != [];
    ByteListEnds(Encode(ssid));
  }

  lemma TextIsTrimmed(ssid: string)
    requires ssid != "" && forall c <- ssid :: IsPrintable(c)
    ensures ReadSsid(Trimmed(SsidValue(ssid))) == Some(ssid) <==> ssid[0] != ' ' && ssid[|ssid| - 1] != ' '
  {
    TrimmedShorter(ssid);
    assert SsidValue(ssid) == ssid && ReadSsid(Trimmed(ssid)) == Some(Trimmed(ssid));
    assert IsPrintable(ssid[0]) && IsPrintable(ssid[|ssid| - 1]);
  }

  // A reader that trims blanks around values gets the SSID back exactly when it is not printable
  // text with a space at either end.
  lemma TrimmedReadsBackIff(ssid: string)
    ensures ReadSsid(Trimmed(SsidValue(ssid))) == Some(ssid)
       <==> (exists c <- ssid :: !IsPrintable(c)) || ssid == "" || (ssid[0] != ' ' && ssid[|ssid| - 1] != ' ')
  {
    if exists c <- ssid :: !IsPrintable(c) {
      ListIsUntrimmed(ssid);
    } else if ssid != "" {
      TextIsTrimmed(ssid);
    }
  }

  // -- the whole keyfile --------------------------------------------------------------------

  datatype Credential = Credential(ssid: string, security: string, secret: string)

  function WifiLines(value: string): seq<string> {
    ["[connection]", "id=" + value, "type=wifi", "", "[wifi]", "mode=infrastructure", "ssid=" + value, ""]
  }

  function SecurityLines(c: Credential): seq<string> {
    if c.security == "psk" && c.secret != "" then ["[wifi-security]", "key-mgmt=wpa-psk", "psk=" + c.secret, ""] else []
  }

  function AddressLines(): seq<string> {
    ["[ipv4]", "method=auto", "", "[ipv6]", "method=auto", ""]
  }

  function KeyfileLines(c: Credential): seq<string> {
    WifiLines(SsidValue(c.ssid)) + SecurityLines(c) + AddressLines()
  }

  function JoinLines(lines: seq<string>): string {
    if lines == [] then []
    else if |lines| == 1 then lines[0]
    else lines[0] + "\n" + JoinLines(lines[1..])
  }

  function SplitLines(s: string): (r: seq<string>)
    ensures r != []
  {
    if s == [] then [[]]
    else
      var rest := SplitLines(s[1..]);
      if s[0] == '\n' then [[]] + rest else [[s[0]] + rest[0]] + rest[1..]
  }

  method RenderKeyfile(c: Credential) returns (text: string)
    ensures text == JoinLines(KeyfileLines(c))
  {
    var value := SsidValue(c.ssid);
    var lines :=
      ["[connection]", "id=" + value, "type=wifi", "", "[wifi]", "mode=infrastructure", "ssid=" + value, ""];
    assert lines + [] == lines;
    if c.security == "psk" && c.secret != "" {
      lines := lines + ["[wifi-security]", "key-mgmt=wpa-psk", "psk=" + c.secret, ""];
    }
    lines := lines + ["[ipv4]", "method=auto", "", "[ipv6]", "method=auto", ""];
    text := JoinLines(lines);
  }

  lemma {:induction false} SplitFirst(line: string, rest: string)
    requires '\n' !in line
    ensures SplitLines(line + "\n" + rest) == [line] + SplitLines(rest)
    ensures SplitLines(line) == [line]
  {
    var s := line + "\n" + rest;
    if line == [] {
      assert s[1..] == rest;
    } else {
      SplitFirst(line[1..], rest);
      assert s[1..] == line[1..] + "\n" + rest;
      assert line == [line[0]] + line[1..];
    }
  }

  lemma {:induction false} SplitOfJoined(lines: seq<string>)
    requires lines != [] && forall line <- lines :: '\n' !in line
    ensures SplitLines(JoinLines(lines)) == lines
  {
    SplitFirst(lines[0], JoinLines(lines[1..]));
    if |lines| > 1 {
      SplitOfJoined(lines[1..]);
      assert lines == [lines[0]] + lines[1..];
    } else {
      assert lines == [lines[0]];
    }
  }

  // The value of the first line that starts with a key.
  function ValueOf(lines: seq<string>, key: string): Option<string> {
    if lines == [] then None
    else if StartsWith(lines[0], key) then Some(lines[0][|key|..])
    else ValueOf(lines[1..], key)
  }

  lemma SsidLineIsFirst(c: Credential)
    ensures ValueOf(KeyfileLines(c), "ssid=") == Some(SsidValue(c.ssid))
  {
    var lines := KeyfileLines(c);
    assert lines[0][0] == '[' && lines[1][0] == 'i' && lines[2][0] == 't' && lines[3] == "";
    assert lines[4][0] == '[' && lines[5][0] == 'm' && lines[6] == "ssid=" + SsidValue(c.ssid);
    assert lines[6][..5] == "ssid=" && lines[6][5..] == SsidValue(c.ssid);
    SkipLine(lines, 0);
    SkipLine(lines, 1);
    SkipLine(lines, 2);
    SkipLine(lines, 3);
    SkipLine(lines, 4);
    SkipLine(lines, 5);
    assert lines[6..][0] == lines[6];
  }

  lemma {:induction false} ValueAt(lines: seq<string>, key: string, k: nat)
    requires k < |lines| && StartsWith(lines[k], key) && forall j | 0 <= j < k :: !StartsWith(lines[j], key)
    ensures ValueOf(lines, key) == Some(lines[k][|key|..])
  {
    if k > 0 {
      ValueAt(lines[1..], key, k - 1);
    }
  }

  lemma {:induction false} NoValue(lines: seq<string>, key: string)
    requires forall line <- lines :: !StartsWith(line, key)
    ensures ValueOf(lines, key) == None
  {
    if lines != [] {
      NoValue(lines[1..], key);
    }
  }

  lemma OtherLetter(line: string, key: string)
    requires key != [] && (line == [] || line[0] != key[0])
    ensures !StartsWith(line, key)
  {
    assert |key| <= |line| ==> line[..|key|][0] == line[0];
  }

  // Only one kind of line starts with p or k.
  lemma SecuredLines(c: Credential, key: string)
    requires c.security == "psk" && c.secret != "" && (key == "psk=" || key == "key-mgmt=")
    ensures ValueOf(KeyfileLines(c), key) == Some(if key == "psk=" then c.secret else "wpa-psk")
  {
    var lines := KeyfileLines(c);
    var k := if key == "psk=" then 10 else 9;
    assert lines[9] == "key-mgmt=wpa-psk" && lines[10] == "psk=" + c.secret;
    forall j | 0 <= j < k ensures !StartsWith(lines[j], key) {
      OtherLetter(lines[j], key);
    }
    assert lines[k][..|key|] == key;
    ValueAt(lines, key, k);
  }

  lemma OpenLines(c: Credential, key: string)
    requires !(c.security == "psk" && c.secret != "") && (key == "psk=" || key == "key-mgmt=")
    ensures ValueOf(KeyfileLines(c), key) == None
  {
    var lines := KeyfileLines(c);
    assert lines == WifiLines(SsidValue(c.ssid)) + AddressLines();
    forall j | 0 <= j < |lines| ensures !StartsWith(lines[j], key) {
      OtherLetter(lines[j], key);
    }
    NoValue(lines, key);
  }

  // The text of the keyfile holds the passphrase, and asks for it, exactly for a secured network with
  // a passphrase.
  lemma SecretReadsBack(c: Credential)
    requires '\n' !in c.secret
    ensures var lines := SplitLines(JoinLines(KeyfileLines(c)));
            var secured := c.security == "psk" && c.secret != "";
            && ValueOf(lines, "psk=") == (if secured then Some(c.secret) else None)
            && ValueOf(lines, "key-mgmt=") == (if secured then Some("wpa-psk") else None)
  {
    SsidValueReadsBack(c.ssid);
    assert '\n' !in SsidValue(c.ssid);
    LinesAreUnbroken(c);
    SplitOfJoined(KeyfileLines(c));
    if c.security == "psk" && c.secret != "" {
      SecuredLines(c, "psk=");
      SecuredLines(c, "key-mgmt=");
    } else {
      OpenLines(c, "psk=");
      OpenLines(c, "key-mgmt=");
    }
  }

  // -- sections ---------------------------------------------------------------------

  predicate IsHeader(line: string) {
    line != [] && line[0] == '['
  }

  // The lines of a section: from its header to the next.
  function Section(lines: seq<string>, name: string): seq<string> {
    if lines == [] then []
    else if lines[0] == "[" + name + "]" then Body(lines[1..])
    else Section(lines[1..], name)
  }

  function Body(lines: seq<string>): seq<string> {
    if lines == [] || IsHeader(lines[0]) then [] else [lines[0]] + Body(lines[1..])
  }

  lemma {:induction false} BodyAt(lines: seq<string>, j: nat)
    requires j <= |lines| && (forall k | 0 <= k < j :: !IsHeader(lines[k])) && (j < |lines| ==> IsHeader(lines[j]))
    ensures Body(lines) == lines[..j]
  {
    if j > 0 {
      BodyAt(lines[1..], j - 1);
      assert lines[..j] == [lines[0]] + lines[1..][..j - 1];
    }
  }

  lemma {:induction false} SectionAt(lines: seq<string>, name: string, i: nat, j: nat)
    requires i < j <= |lines| && lines[i] == "[" + name + "]" && forall k | 0 <= k < i :: lines[k] != "[" + name + "]"
    requires (forall k | i < k < j :: !IsHeader(lines[k])) && (j < |lines| ==> IsHeader(lines[j]))
    ensures Section(lines, name) == lines[i + 1..j]
  {
    if i > 0 {
      SectionAt(lines[1..], name, i - 1, j - 1);
      assert lines[1..][i..j - 1] == lines[i + 1..j];
    } else {
      BodyAt(lines[1..], j - 1);
      assert lines[1..][..j - 1] == lines[1..j];
    }
  }

  lemma ConnectionSection(c: Credential)
    ensures Section(KeyfileLines(c), "connection") == ["id=" + SsidValue(c.ssid), "type=wifi", ""]
  {
    var lines := KeyfileLines(c);
    assert lines[0] == "[connection]" && lines[4] == "[wifi]";
    assert "[" + "connection" + "]" == "[connection]";
    assert lines[1] != [] && lines[2] != [] && lines[3] == [];
    SectionAt(lines, "connection", 0, 4);
    assert lines[1..4] == [lines[1], lines[2], lines[3]];
  }

  lemma WifiSection(c: Credential)
    ensures Section(KeyfileLines(c), "wifi") == ["mode=infrastructure", "ssid=" + SsidValue(c.ssid), ""]
  {
    var lines := KeyfileLines(c);
    assert lines[0] == "[connection]" && lines[4] == "[wifi]";
    assert "[" + "wifi" + "]" == "[wifi]";
    assert lines[8..9] == [lines[8]] && IsHeader(lines[8]) && |"[connection]"| != |"[wifi]"|;
    assert !IsHeader(lines[1]) && !IsHeader(lines[2]) && !IsHeader(lines[3]);
    assert lines[5] != [] && lines[6] != [] && lines[7] == [];
    forall k | 0 <= k < 4 ensures lines[k] != "[wifi]" { assert IsHeader("[wifi]"); }
    SectionAt(lines, "wifi", 4, 8);
    assert lines[5..8] == [lines[5], lines[6], lines[7]];
  }

  lemma {:induction false} NoSection(lines: seq<string>, name: string)
    requires "[" + name + "]" !in lines
    ensures Section(lines, name) == []
  {
    if lines != [] {
      NoSection(lines[1..], name);
    }
  }

  // Headers are told apart by their second character, and [wifi] by its length.
  lemma HeadersBefore(c: Credential, k: nat)
    requires k < 8 + |SecurityLines(c)| && IsHeader(KeyfileLines(c)[k])
    ensures var line := KeyfileLines(c)[k];
            |line| > 5 && (line[1] == 'c' || line[1] == 'w') && (k < 8 && line[1] == 'w' ==> |line| == 6)
  {
    var lines := KeyfileLines(c);
    if k < 8 {
      assert lines[k] == WifiLines(SsidValue(c.ssid))[k];
    } else {
      assert lines[k] == SecurityLines(c)[k - 8];
    }
  }

  lemma SecuredSection(c: Credential)
    requires c.security == "psk" && c.secret != ""
    requires forall k | 0 <= k < 8 :: KeyfileLines(c)[k] != "[wifi-security]"
    ensures Section(KeyfileLines(c), "wifi-security") == SecurityLines(c)[1..]
  {
    var lines := KeyfileLines(c);
    assert "[" + "wifi-security" + "]" == "[wifi-security]";
    assert lines[8..12] == SecurityLines(c) && lines[12] == AddressLines()[0];
    forall k | 8 <= k < 12 ensures lines[k] == SecurityLines(c)[k - 8] { assert lines[k] == lines[8..12][k - 8]; }
    SectionAt(lines, "wifi-security", 8, 12);
  }

  lemma OpenSection(c: Credential)
    requires SecurityLines(c) == []
    requires forall k | 0 <= k < 8 :: KeyfileLines(c)[k] != "[wifi-security]"
    ensures Section(KeyfileLines(c), "wifi-security") == []
  {
    var lines, header := KeyfileLines(c), "[wifi-security]";
    assert "[" + "wifi-security" + "]" == header && |header| == 15;
    forall k | 8 <= k < |lines| ensures lines[k] != header {
      assert lines[k] == AddressLines()[k - 8] && |lines[k]| < 15;
    }
    NoSection(lines, "wifi-security");
  }

  // The section asking for the passphrase is there exactly for a secured network with one.
  lemma SecuritySection(c: Credential)
    ensures Section(KeyfileLines(c), "wifi-security") ==
            if c.security == "psk" && c.secret != "" then ["key-mgmt=wpa-psk", "psk=" + c.secret, ""] else []
  {
    var header := "[wifi-security]";
    forall k | 0 <= k < 8 ensures KeyfileLines(c)[k] != header {
      assert header[1] == 'w' && |header| == 15;
      if IsHeader(KeyfileLines(c)[k]) { HeadersBefore(c, k); }
    }
    if c.security == "psk" && c.secret != "" {
      SecuredSection(c);
    } else {
      OpenSection(c);
    }
  }

  lemma AddressSection(c: Credential, name: string, at: nat)
    requires (name == "ipv4" && at == 0) || (name == "ipv6" && at == 3)
    ensures Section(KeyfileLines(c), name) == ["method=auto", ""]
  {
    var lines, n, header := KeyfileLines(c), 8 + |SecurityLines(c)|, "[" + name + "]";
    assert header[1] == 'i' && lines[n..] == AddressLines();
    forall k | 0 <= k < n + at ensures lines[k] != header {
      if k < n {
        if IsHeader(lines[k]) { HeadersBefore(c, k); }
      } else {
        assert lines[k] == AddressLines()[k - n] && "[ipv6]"[4] != "[ipv4]"[4];
      }
    }
    assert lines[n + at] == header && forall k | 0 <= k < 6 :: lines[n + k] == AddressLines()[k];
    SectionAt(lines, name, n + at, n + at + 3);
    assert lines[n + at + 1..n + at + 3] == [lines[n + at + 1], lines[n + at + 2]];
  }

  lemma SkipLine(lines: seq<string>, i: nat)
    requires i < |lines| && (lines[i] == "" || lines[i][0] != 's')
    ensures ValueOf(lines[i..], "ssid=") == ValueOf(lines[i + 1..], "ssid=")
  {
    assert lines[i..][0] == lines[i] && lines[i..][1..] == lines[i + 1..];
    assert lines[i] != "" ==> |"ssid="| <= |lines[i]| ==> lines[i][..5][0] == lines[i][0];
  }

  ghost predicate Unbroken(lines: seq<string>) {
    forall line <- lines :: '\n' !in line
  }

  lemma UnbrokenJoin(a: seq<string>, b: seq<string>)
    requires Unbroken(a) && Unbroken(b)
    ensures Unbroken(a + b)
  {
  }

  lemma WifiIsUnbroken(value: string)
    requires '\n' !in value
    ensures Unbroken(WifiLines(value))
  {
  }

  lemma SecurityIsUnbroken(c: Credential)
    requires '\n' !in c.secret
    ensures Unbroken(SecurityLines(c))
  {
  }

  lemma LinesAreUnbroken(c: Credential)
    requires '\n' !in c.secret && '\n' !in SsidValue(c.ssid)
    ensures Unbroken(KeyfileLines(c))
  {
    var wifi, security := WifiLines(SsidValue(c.ssid)), SecurityLines(c);
    WifiIsUnbroken(SsidValue(c.ssid));
    SecurityIsUnbroken(c);
    UnbrokenJoin(wifi, security);
    UnbrokenJoin(wifi + security, AddressLines());
  }

  // The SSID is read back from the text of the whole keyfile, whatever the network is called.
  lemma KeyfileReadsBack(c: Credential)
    requires '\n' !in c.secret
    ensures var value := ValueOf(SplitLines(JoinLines(KeyfileLines(c))), "ssid=");
            value.Some? && ReadSsid(value.value) == Some(c.ssid)
  {
    SsidValueReadsBack(c.ssid);
    assert '\n' !in SsidValue(c.ssid);
    LinesAreUnbroken(c);
    SplitOfJoined(KeyfileLines(c));
    SsidLineIsFirst(c);
  }
}
