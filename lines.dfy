/**
 * The text format of `questions.csv`: one question per line, written with
 * `"%s, %s, %s, %d, %s\n"` and read back with `readlines()`,
 * `strip()`, `split(", ")` and `int()`.
 */
module Lines {
  import opened Wrappers

  /** The characters Python's `str.isspace()` accepts, which `strip()` removes from both ends. */
  predicate IsSpace(c: char) {
    || c == ' ' || '\t' <= c <= '\r' || '\U{1C}' <= c <= '\U{1F}'
    || c == '\U{85}' || c == '\U{A0}' || c == '\U{1680}' || '\U{2000}' <= c <= '\U{200A}'
    || c == '\U{2028}' || c == '\U{2029}' || c == '\U{202F}' || c == '\U{205F}' || c == '\U{3000}'
  }

  /**
   * The characters `int()` skips around a number. CPython keeps the ASCII
   * characters of the text as they are and then skips only the six C
   * whitespace characters, so the separators U+001C to U+001F, which
   * `str.isspace()` accepts, are not skipped; the other whitespace characters,
   * all beyond ASCII, become a space first and are skipped.
   */
  predicate IntSpace(c: char) {
    IsSpace(c) && !('\U{1C}' <= c <= '\U{1F}')
  }

  /** `s` without its leading characters in `space`. */
  function TrimLeft(s: string, space: char -> bool): (r: string)
    ensures |r| <= |s| && r == s[|s| - |r|..]
    ensures forall k :: 0 <= k < |s| - |r| ==> space(s[k])
    ensures |r| > 0 ==> !space(r[0])
  {
    if |s| > 0 && space(s[0]) then
      var r := TrimLeft(s[1..], space);
      assert s[1..][|s| - 1 - |r|..] == s[|s| - |r|..];
      r
    else s
  }

  /** `s` without its trailing characters in `space`. */
  function TrimRight(s: string, space: char -> bool): (r: string)
    ensures |r| <= |s| && r == s[..|r|]
    ensures forall k :: |r| <= k < |s| ==> space(s[k])
    ensures |r| > 0 ==> !space(r[|r| - 1])
  {
    if |s| > 0 && space(s[|s| - 1]) then
      var r := TrimRight(s[..|s| - 1], space);
      assert s[..|s| - 1][..|r|] == s[..|r|];
      r
    else s
  }

  /** `r` is `s[i..i + |r|]` and everything of `s` outside that piece is in `space`. */
  predicate StrippedAt(s: string, r: string, i: nat, space: char -> bool) {
    && i + |r| <= |s|
    && r == s[i..i + |r|]
    && (forall k :: 0 <= k < i ==> space(s[k]))
    && (forall k :: i + |r| <= k < |s| ==> space(s[k]))
  }

  lemma TrimmedPiece(s: string, space: char -> bool)
    ensures var right := TrimRight(s, space);
      TrimLeft(right, space) == s[|right| - |TrimLeft(right, space)|..|right|]
  {
    var right := TrimRight(s, space);
    var i := |right| - |TrimLeft(right, space)|;
    assert right == s[..|right|];
    assert right[i..] == s[i..|right|];
  }

  lemma TrimmedLeftSpaces(s: string, space: char -> bool)
    ensures var right := TrimRight(s, space);
      forall k :: 0 <= k < |right| - |TrimLeft(right, space)| ==> space(s[k])
  {
    var right := TrimRight(s, space);
    forall k | 0 <= k < |right| - |TrimLeft(right, space)| ensures space(s[k]) {
      assert s[k] == right[k];
    }
  }

  /** Trimming the right end, then the left end, leaves a piece of `s` with only `space` around it. */
  lemma TrimmedAt(s: string, space: char -> bool)
    ensures StrippedAt(s, TrimLeft(TrimRight(s, space), space),
                       |TrimRight(s, space)| - |TrimLeft(TrimRight(s, space), space)|, space)
  {
    TrimmedPiece(s, space);
    TrimmedLeftSpaces(s, space);
  }

  /**
   * The piece of `s` left after removing the characters in `space` from both
   * ends: `s.strip()` with `space` as `IsSpace`, and what `int()` parses with
   * `space` as `IntSpace`.
   */
  function Strip(s: string, space: char -> bool): (r: string)
    ensures exists i: nat :: StrippedAt(s, r, i, space)
    ensures |r| > 0 ==> !space(r[0]) && !space(r[|r| - 1])
  {
    TrimmedAt(s, space);
    TrimLeft(TrimRight(s, space), space)
  }

  /** No occurrence of the separator `", "`. */
  predicate NoSep(s: string) {
    forall i :: 0 <= i < |s| - 1 ==> !(s[i] == ',' && s[i + 1] == ' ')
  }

  /**
   * `s.split(", ")`: the pieces between the separator's occurrences, found
   * left to right without overlap.
   */
  function Split(s: string): (pieces: seq<string>)
    ensures |pieces| >= 1
    ensures |pieces[0]| <= |s| && pieces[0] == s[..|pieces[0]|]
    decreases |s|
  {
    if |s| >= 2 && s[0] == ',' && s[1] == ' ' then [""] + Split(s[2..])
    else if s == [] then [""]
    else
      var rest := Split(s[1..]);
      [[s[0]] + rest[0]] + rest[1..]
  }

  /** `", ".join(pieces)`. */
  function Join(pieces: seq<string>): string
    requires |pieces| >= 1
  {
    if |pieces| == 1 then pieces[0] else pieces[0] + ", " + Join(pieces[1..])
  }

  /** Putting a character in front of the first piece puts it in front of the join. */
  lemma JoinInFront(c: char, pieces: seq<string>)
    requires |pieces| >= 1
    ensures Join([[c] + pieces[0]] + pieces[1..]) == [c] + Join(pieces)
  {
    var longer := [[c] + pieces[0]] + pieces[1..];
    if |pieces| > 1 {
      assert longer[1..] == pieces[1..];
      PrependAssoc(c, pieces[0], Join(pieces[1..]));
    }
  }

  lemma PrependAssoc(c: char, p: string, t: string)
    ensures [c] + p + ", " + t == [c] + (p + ", " + t)
  {
  }

  /** Joining the pieces of a split gives the text back. */
  lemma {:induction false} SplitJoin(s: string)
    ensures Join(Split(s)) == s
    decreases |s|
  {
    if |s| >= 2 && s[0] == ',' && s[1] == ' ' {
      SplitJoin(s[2..]);
      var rest := Split(s[2..]);
      assert ([""] + rest)[1..] == rest;
      assert s == "" + ", " + s[2..];
    } else if s != [] {
      SplitJoin(s[1..]);
      JoinInFront(s[0], Split(s[1..]));
      assert s == [s[0]] + s[1..];
    }
  }

  lemma NoSepCons(c: char, f: string)
    requires NoSep(f) && (|f| > 0 ==> !(c == ',' && f[0] == ' '))
    ensures NoSep([c] + f)
  {
    var g := [c] + f;
    forall i | 0 <= i < |g| - 1 ensures !(g[i] == ',' && g[i + 1] == ' ') {
      if i > 0 {
        assert g[i] == f[i - 1] && g[i + 1] == f[i];
      }
    }
  }

  /** No piece of a split holds the separator. */
  lemma {:induction false} SplitPieces(s: string)
    ensures forall i :: 0 <= i < |Split(s)| ==> NoSep(Split(s)[i])
    decreases |s|
  {
    if |s| >= 2 && s[0] == ',' && s[1] == ' ' {
      SplitPieces(s[2..]);
      assert Split(s) == [""] + Split(s[2..]);
    } else if s != [] {
      var rest := Split(s[1..]);
      SplitPieces(s[1..]);
      var first := [s[0]] + rest[0];
      assert |rest[0]| > 0 ==> rest[0][0] == s[1];
      NoSepCons(s[0], rest[0]);
      assert Split(s) == [first] + rest[1..];
      forall i | 0 <= i < |Split(s)| ensures NoSep(Split(s)[i]) {
        if i > 0 {
          assert Split(s)[i] == rest[i];
        }
      }
    }
  }

  lemma {:induction false} SplitAfterField(f: string, rest: string)
    requires NoSep(f)
    ensures Split(f + ", " + rest) == [f] + Split(rest)
    decreases |f|
  {
    var s := f + ", " + rest;
    if f == [] {
      assert s == ", " + rest;
      assert s[2..] == rest;
    } else {
      assert s[1..] == f[1..] + ", " + rest;
      SplitAfterField(f[1..], rest);
      assert !(s[0] == ',' && s[1] == ' ') by {
        if |f| >= 2 {
          assert s[1] == f[1];
        } else {
          assert s[1] == ',';
        }
      }
      assert [f[0]] + f[1..] == f;
    }
  }

  lemma {:induction false} SplitField(f: string)
    requires NoSep(f)
    ensures Split(f) == [f]
    decreases |f|
  {
    if f != [] {
      SplitField(f[1..]);
      assert [f[0]] + f[1..] == f;
    }
  }

  /** Splitting a join gives the pieces back, provided no piece holds the separator. */
  lemma {:induction false} JoinSplit(pieces: seq<string>)
    requires |pieces| >= 1
    requires forall i :: 0 <= i < |pieces| ==> NoSep(pieces[i])
    ensures Split(Join(pieces)) == pieces
  {
    if |pieces| == 1 {
      SplitField(pieces[0]);
    } else {
      JoinSplit(pieces[1..]);
      SplitAfterField(pieces[0], Join(pieces[1..]));
    }
  }

  predicate IsDigit(c: char) {
    '0' <= c <= '9'
  }

  predicate AllDigits(s: string) {
    forall i :: 0 <= i < |s| ==> IsDigit(s[i])
  }

  function DigitChar(d: nat): (c: char)
    requires d < 10
    ensures IsDigit(c) && c as int - '0' as int == d
  {
    ('0' as int + d) as char
  }

  /** The decimal digits of `k`, most significant first, without leading zeros. */
  function NatToDecimal(k: nat): (s: string)
    ensures |s| >= 1 && AllDigits(s)
  {
    if k < 10 then [DigitChar(k)] else NatToDecimal(k / 10) + [DigitChar(k % 10)]
  }

  /** `"%d" % b`. */
  function IntToDecimal(b: int): (s: string)
    ensures |s| >= 1 && (s[0] == '-' || IsDigit(s[0])) && IsDigit(s[|s| - 1])
    ensures forall i :: 1 <= i < |s| ==> IsDigit(s[i])
  {
    if b < 0 then "-" + NatToDecimal(-b) else NatToDecimal(b)
  }

  /** The value of a string of decimal digits (leading zeros allowed). */
  function DigitsValue(s: string): nat
    requires AllDigits(s)
  {
    if s == [] then 0 else DigitsValue(s[..|s| - 1]) * 10 + (s[|s| - 1] as int - '0' as int)
  }

  /** `int(s)`: surrounding whitespace, an optional sign, then at least one decimal digit. */
  function ParseInt(s: string): Option<int> {
    ParseSigned(Strip(s, IntSpace))
  }

  /** The optional sign and the digits `int()` accepts once the whitespace is gone. */
  function ParseSigned(t: string): Option<int> {
    if |t| > 0 && (t[0] == '-' || t[0] == '+') then
      if |t| > 1 && AllDigits(t[1..]) then
        var magnitude: int := DigitsValue(t[1..]);
        Some(if t[0] == '-' then -magnitude else magnitude)
      else None
    else if |t| > 0 && AllDigits(t) then Some(DigitsValue(t))
    else None
  }

  lemma {:induction false} DecimalValue(k: nat)
    ensures DigitsValue(NatToDecimal(k)) == k
  {
    if k >= 10 {
      DecimalValue(k / 10);
      var s := NatToDecimal(k);
      assert s[..|s| - 1] == NatToDecimal(k / 10);
    }
  }

  lemma TrimRightKeeps(s: string, space: char -> bool)
    requires |s| > 0 && !space(s[|s| - 1])
    ensures TrimRight(s, space) == s
  {
  }

  lemma TrimLeftKeeps(s: string, space: char -> bool)
    requires |s| > 0 && !space(s[0])
    ensures TrimLeft(s, space) == s
  {
  }

  lemma NoSpaceStrip(s: string, space: char -> bool)
    requires |s| > 0 && !space(s[0]) && !space(s[|s| - 1])
    ensures Strip(s, space) == s
  {
    TrimRightKeeps(s, space);
    TrimLeftKeeps(s, space);
  }

  /** `"%d" % b` read back by `int()` once stripped. */
  lemma SignedDecimal(b: int)
    ensures ParseSigned(IntToDecimal(b)) == Some(b)
  {
    var t := IntToDecimal(b);
    if b < 0 {
      var digits := NatToDecimal(-b);
      DecimalValue(-b);
      assert t == "-" + digits && t[1..] == digits;
      assert t[0] == '-' && |t| > 1 && AllDigits(t[1..]);
      assert DigitsValue(t[1..]) == -b;
    } else {
      var digits := NatToDecimal(b);
      DecimalValue(b);
      assert t == digits && IsDigit(t[0]);
    }
  }

  /** `int("%d" % b) == b`. */
  lemma IntRoundTrip(b: int)
    ensures ParseInt(IntToDecimal(b)) == Some(b)
  {
    NoSpaceStrip(IntToDecimal(b), IntSpace);
    SignedDecimal(b);
  }

  /**
   * `strip()` removes a leading U+001C, but `int()` does not skip it: the text
   * U+001C followed by `5` is not a number, while the six C whitespace
   * characters and non-ASCII spaces around a number are skipped.
   */
  lemma IntSpaces()
    ensures Strip(['\U{1C}', '5'], IsSpace) == "5"
    ensures ParseInt(['\U{1C}', '5']) == None
    ensures ParseInt(['\t', '\U{A0}', '5', '\n']) == Some(5)
  {
    StripSeparator();
    IntSeparator();
    IntSkipsSpaces();
  }

  lemma StripSeparator()
    ensures Strip(['\U{1C}', '5'], IsSpace) == "5"
  {
    var u := ['\U{1C}', '5'];
    TrimRightKeeps(u, IsSpace);
    assert IsSpace(u[0]) && u[1..] == "5";
    assert TrimLeft(u, IsSpace) == TrimLeft("5", IsSpace);
    TrimLeftKeeps("5", IsSpace);
  }

  lemma IntSeparator()
    ensures ParseInt(['\U{1C}', '5']) == None
  {
    var u := ['\U{1C}', '5'];
    NoSpaceStrip(u, IntSpace);
    assert !IsDigit(u[0]) && u[0] != '-' && u[0] != '+';
  }

  lemma IntSkipsSpaces()
    ensures ParseInt(['\t', '\U{A0}', '5', '\n']) == Some(5)
  {
    var t := ['\t', '\U{A0}', '5', '\n'];
    assert IntSpace(t[3]) && t[..3] == ['\t', '\U{A0}', '5'];
    assert TrimRight(t, IntSpace) == TrimRight(t[..3], IntSpace);
    TrimRightKeeps(t[..3], IntSpace);
    var v := t[..3];
    assert IntSpace(v[0]) && IntSpace(v[1]) && v[1..] == ['\U{A0}', '5'] && v[2..] == "5";
    assert TrimLeft(v, IntSpace) == TrimLeft(v[1..], IntSpace) == TrimLeft(v[2..], IntSpace);
    TrimLeftKeeps("5", IntSpace);
    assert Strip(t, IntSpace) == "5";
    SignedFive();
  }

  lemma SignedFive()
    ensures ParseSigned("5") == Some(5)
  {
    var five := "5";
    assert AllDigits(five) && five[..0] == [];
    assert DigitsValue(five) == DigitsValue([]) * 10 + 5;
  }

  /** One line of `questions.csv` as `generate` writes it. */
  function FormatLine(png: string, json: string, anchor: string, hops: int, target: string): string {
    png + ", " + json + ", " + anchor + ", " + IntToDecimal(hops) + ", " + target + "\n"
  }

  /** `l.strip().split(", ")` of `load_data`. */
  function ParseLine(line: string): seq<string> {
    Split(Strip(line, IsSpace))
  }

  lemma StripLine(body: string)
    requires |body| > 0 && !IsSpace(body[0]) && !IsSpace(body[|body| - 1])
    ensures Strip(body + "\n", IsSpace) == body
  {
    var t := body + "\n";
    assert IsSpace(t[|t| - 1]) && t[..|t| - 1] == body;
    assert TrimRight(t, IsSpace) == TrimRight(body, IsSpace);
    TrimRightKeeps(body, IsSpace);
    TrimLeftKeeps(body, IsSpace);
  }

  lemma JoinFive(a: string, b: string, c: string, d: string, e: string)
    ensures Join([a, b, c, d, e]) == a + ", " + b + ", " + c + ", " + d + ", " + e
  {
    var de := d + ", " + e;
    assert [d, e][1..] == [e];
    assert Join([d, e]) == de;
    var cde := c + ", " + de;
    assert [c, d, e][1..] == [d, e];
    assert Join([c, d, e]) == cde;
    var bcde := b + ", " + cde;
    assert [b, c, d, e][1..] == [c, d, e];
    assert Join([b, c, d, e]) == bcde;
    assert [a, b, c, d, e][1..] == [b, c, d, e];
    assert Join([a, b, c, d, e]) == a + ", " + bcde;
  }

  lemma FieldsEnds(a: string, b: string, c: string, d: string, e: string)
    requires |a| > 0 ==> !IsSpace(a[0])
    requires |e| > 0 && !IsSpace(e[|e| - 1])
    ensures var body := a + ", " + b + ", " + c + ", " + d + ", " + e;
      |body| > 0 && !IsSpace(body[0]) && !IsSpace(body[|body| - 1])
  {
    var body := a + ", " + b + ", " + c + ", " + d + ", " + e;
    assert body == a + (", " + b + ", " + c + ", " + d + ", " + e);
    assert body[|body| - 1] == e[|e| - 1];
    if |a| == 0 {
      assert body[0] == ',';
    } else {
      assert body[0] == a[0];
    }
  }

  lemma ParseJoined(fields: seq<string>)
    requires |fields| >= 1 && forall i :: 0 <= i < |fields| ==> NoSep(fields[i])
    requires |Join(fields)| > 0 && !IsSpace(Join(fields)[0]) && !IsSpace(Join(fields)[|Join(fields)| - 1])
    ensures ParseLine(Join(fields) + "\n") == fields
  {
    StripLine(Join(fields));
    JoinSplit(fields);
  }

  /** Stripping and splitting five fields joined by `", "` and a newline gives the fields back. */
  lemma ParseFields(a: string, b: string, c: string, d: string, e: string)
    requires NoSep(a) && NoSep(b) && NoSep(c) && NoSep(d) && NoSep(e)
    requires |a| > 0 ==> !IsSpace(a[0])
    requires |e| > 0 && !IsSpace(e[|e| - 1])
    ensures ParseLine(a + ", " + b + ", " + c + ", " + d + ", " + e + "\n") == [a, b, c, d, e]
  {
    var fields := [a, b, c, d, e];
    JoinFive(a, b, c, d, e);
    FieldsEnds(a, b, c, d, e);
    forall i | 0 <= i < |fields| ensures NoSep(fields[i]) {
    }
    ParseJoined(fields);
  }

  /**
   * Parsing a written line gives back its five fields, the fourth being the
   * decimal text of the hop count, which `int()` turns back into it.
   * It needs that no field holds `", "`, that the first field does not start
   * and the last field does not end with whitespace, and that the last field
   * is not empty (else `strip()` would eat the space of the last separator).
   */
  lemma LineRoundTrip(png: string, json: string, anchor: string, hops: int, target: string)
    requires NoSep(png) && NoSep(json) && NoSep(anchor) && NoSep(target)
    requires |png| > 0 ==> !IsSpace(png[0])
    requires |target| > 0 && !IsSpace(target[|target| - 1])
    ensures ParseLine(FormatLine(png, json, anchor, hops, target)) == [png, json, anchor, IntToDecimal(hops), target]
    ensures ParseInt(ParseLine(FormatLine(png, json, anchor, hops, target))[3]) == Some(hops)
  {
    var digits := IntToDecimal(hops);
    assert NoSep(digits);
    ParseFields(png, json, anchor, digits, target);
    IntRoundTrip(hops);
  }

  /** The text `f.writelines(lines)` leaves in a file. */
  function Concat(lines: seq<string>): string {
    if lines == [] then "" else lines[0] + Concat(lines[1..])
  }

  /** The length of the first line of `text`, its newline included. */
  function FirstLineLength(text: string): (k: nat)
    requires |text| > 0
    ensures 1 <= k <= |text|
    ensures forall i :: 0 <= i < k - 1 ==> text[i] != '\n'
    ensures k < |text| ==> text[k - 1] == '\n'
  {
    if text[0] == '\n' || |text| == 1 then 1 else 1 + FirstLineLength(text[1..])
  }

  /** `f.readlines()`: the text cut after every newline, a last line without one kept as it is. */
  function ReadLines(text: string): seq<string>
    decreases |text|
  {
    if text == [] then [] else
      var k := FirstLineLength(text);
      [text[..k]] + ReadLines(text[k..])
  }

  /** A line that ends with its only newline. */
  predicate IsLine(line: string) {
    |line| > 0 && line[|line| - 1] == '\n' && forall i :: 0 <= i < |line| - 1 ==> line[i] != '\n'
  }

  lemma {:induction false} FirstLineOf(line: string, rest: string)
    requires IsLine(line)
    ensures FirstLineLength(line + rest) == |line|
    decreases |line|
  {
    if |line| > 1 {
      assert (line + rest)[1..] == line[1..] + rest;
      FirstLineOf(line[1..], rest);
    }
  }

  /** Reading back what `writelines` wrote gives the same lines, when each ends with its only newline. */
  lemma {:induction false} ReadWrittenLines(lines: seq<string>)
    requires forall i :: 0 <= i < |lines| ==> IsLine(lines[i])
    ensures ReadLines(Concat(lines)) == lines
  {
    if lines != [] {
      FirstLineOf(lines[0], Concat(lines[1..]));
      var text := Concat(lines);
      assert text[..|lines[0]|] == lines[0];
      assert text[|lines[0]|..] == Concat(lines[1..]);
      ReadWrittenLines(lines[1..]);
    }
  }

  /** A written line ends with its only newline when no field holds one. */
  lemma FormattedIsLine(png: string, json: string, anchor: string, hops: int, target: string)
    requires '\n' !in png && '\n' !in json && '\n' !in anchor && '\n' !in target
    ensures IsLine(FormatLine(png, json, anchor, hops, target))
  {
    var digits := IntToDecimal(hops);
    assert '\n' !in digits by {
      forall i | 0 <= i < |digits| ensures digits[i] != '\n' {
        if i == 0 { assert digits[0] == '-' || IsDigit(digits[0]); }
      }
    }
  }

  function Zeros(k: nat): (s: string)
    ensures |s| == k && AllDigits(s)
  {
    seq(k, i => '0')
  }

  /** `"%05d" % i` for `i >= 0`: the decimal digits, padded with zeros to at least five. */
  function Padded(i: nat): (s: string)
    ensures |s| >= 5 && AllDigits(s)
  {
    var digits := NatToDecimal(i);
    if |digits| < 5 then Zeros(5 - |digits|) + digits else digits
  }

  /** `'%05d.png' % i`. */
  function ImageName(i: nat): string {
    Padded(i) + ".png"
  }

  /** `'%05d.json' % i`. */
  function StateName(i: nat): string {
    Padded(i) + ".json"
  }

  lemma {:induction false} LeadingZero(s: string)
    requires AllDigits(s)
    ensures AllDigits("0" + s) && DigitsValue("0" + s) == DigitsValue(s)
    decreases |s|
  {
    if s != [] {
      var t := "0" + s;
      assert t[..|t| - 1] == "0" + s[..|s| - 1];
      LeadingZero(s[..|s| - 1]);
    }
  }

  lemma {:induction false} LeadingZeros(k: nat, s: string)
    requires AllDigits(s)
    ensures DigitsValue(Zeros(k) + s) == DigitsValue(s)
  {
    if k > 0 {
      LeadingZeros(k - 1, s);
      assert Zeros(k) + s == "0" + (Zeros(k - 1) + s);
      assert AllDigits(Zeros(k - 1) + s);
      LeadingZero(Zeros(k - 1) + s);
    } else {
      assert Zeros(k) + s == s;
    }
  }

  /** The padded number reads back as the number: `int('%05d' % i) == i`. */
  lemma PaddedValue(i: nat)
    ensures DigitsValue(Padded(i)) == i
  {
    DecimalValue(i);
    var digits := NatToDecimal(i);
    if |digits| < 5 {
      LeadingZeros(5 - |digits|, digits);
    }
  }

  /** Distinct scene numbers get distinct image and state file names. */
  lemma NamesDistinct(i: nat, j: nat)
    ensures ImageName(i) == ImageName(j) ==> i == j
    ensures StateName(i) == StateName(j) ==> i == j
  {
    PaddedValue(i);
    PaddedValue(j);
    if ImageName(i) == ImageName(j) {
      assert Padded(i) == ImageName(i)[..|ImageName(i)| - 4];
      assert Padded(j) == ImageName(j)[..|ImageName(j)| - 4];
    }
    if StateName(i) == StateName(j) {
      assert Padded(i) == StateName(i)[..|StateName(i)| - 5];
      assert Padded(j) == StateName(j)[..|StateName(j)| - 5];
    }
  }

  /** A field `generate` can write and `load_data` reads back unchanged. */
  predicate SafeField(f: string) {
    && |f| > 0
    && NoSep(f)
    && '\n' !in f
    && !IsSpace(f[0])
    && !IsSpace(f[|f| - 1])
  }

  /** A field of printable, non-blank ASCII without a comma is safe. */
  lemma PlainFieldSafe(f: string)
    requires |f| > 0 && forall k :: 0 <= k < |f| ==> '!' <= f[k] <= '~' && f[k] != ','
    ensures SafeField(f)
  {
  }

  lemma SuffixedDigitsSafe(digits: string, suffix: string)
    requires |digits| > 0 && AllDigits(digits)
    requires |suffix| > 0 && NoSep(suffix) && '\n' !in suffix && !IsSpace(suffix[|suffix| - 1])
    requires forall k :: 0 <= k < |suffix| ==> suffix[k] != ','
    ensures SafeField(digits + suffix)
  {
    var f := digits + suffix;
    forall k | 0 <= k < |f| - 1 ensures !(f[k] == ',' && f[k + 1] == ' ') {
      if k < |digits| {
        assert IsDigit(f[k]);
      } else {
        assert f[k] == suffix[k - |digits|];
      }
    }
    forall k | 0 <= k < |f| ensures f[k] != '\n' {
      if k < |digits| {
        assert IsDigit(f[k]);
      } else {
        assert f[k] == suffix[k - |digits|];
      }
    }
  }

  /** The file names `generate` writes into question lines are safe fields. */
  lemma NamesSafe(i: nat)
    ensures SafeField(ImageName(i)) && SafeField(StateName(i))
  {
    SuffixedDigitsSafe(Padded(i), ".png");
    SuffixedDigitsSafe(Padded(i), ".json");
  }
}
