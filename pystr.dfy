/** The Python `str` operations used by the assembler and by `int()`, for
    ASCII text: whitespace is what `str.isspace()` accepts among the ASCII
    characters, and upper-casing maps only 'a'..'z'. */
module PyStr {
  import opened Py

  /** `c.isspace()` for an ASCII character: space, tab, line feed, vertical
      tab, form feed, carriage return and the separators 0x1c..0x1f. */
  predicate IsSpace(c: char) {
    var k := c as int;
    k == 32 || 9 <= k <= 13 || 28 <= k <= 31
  }

  predicate AllSpace(s: string) {
    forall k :: 0 <= k < |s| ==> IsSpace(s[k])
  }

  predicate NoSpace(s: string) {
    forall k :: 0 <= k < |s| ==> !IsSpace(s[k])
  }

  /** Neither end of s is whitespace: what `strip()` returns. */
  predicate Stripped(s: string) {
    s == [] || (!IsSpace(s[0]) && !IsSpace(s[|s| - 1]))
  }

  /** `s.lstrip()` */
  function LStrip(s: string): (r: string)
    ensures |r| <= |s|
    ensures r == [] || !IsSpace(r[0])
    ensures AllSpace(s[..|s| - |r|])
  {
    if s != [] && IsSpace(s[0]) then LStrip(s[1..]) else s
  }

  /** What `lstrip()` keeps is a suffix of s. (A lemma rather than a
      postcondition: as a postcondition it feeds the solver an endless
      chain of index terms.) */
  lemma {:induction false} LStripSuffix(s: string)
    ensures LStrip(s) == s[|s| - |LStrip(s)|..]
  {
    if s != [] && IsSpace(s[0]) {
      LStripSuffix(s[1..]);
      assert s[1..][|s| - 1 - |LStrip(s)|..] == s[|s| - |LStrip(s)|..];
    }
  }

  /** `s.rstrip()` */
  function RStrip(s: string): (r: string)
    ensures |r| <= |s| && r == s[..|r|]
    ensures r == [] || !IsSpace(r[|r| - 1])
    ensures AllSpace(s[|r|..])
  {
    if s != [] && IsSpace(s[|s| - 1]) then RStrip(s[..|s| - 1]) else s
  }

  /** `s.strip()`: s without its leading and trailing whitespace. */
  function Strip(s: string): (r: string)
    ensures Stripped(r)
    ensures |r| <= |s|
  {
    var l := LStrip(s);
    var r := RStrip(l);
    assert r != [] ==> r[0] == l[0];
    r
  }

  /** A string that is already stripped is left alone by `strip()`. */
  lemma StripOfStripped(s: string)
    requires Stripped(s)
    ensures Strip(s) == s
  {
  }

  /** Whitespace in front of a string does not change what `lstrip()` keeps. */
  lemma {:induction false} LStripSpacePrefix(x: string, y: string)
    requires AllSpace(x)
    ensures LStrip(x + y) == LStrip(y)
  {
    if x != [] {
      var xy := x + y;
      assert xy[0] == x[0];
      assert xy[1..] == x[1..] + y;
      assert LStrip(xy) == LStrip(xy[1..]);
      LStripSpacePrefix(x[1..], y);
    } else {
      assert x + y == y;
    }
  }

  /** `s.split(";", 1)[0]`: the text before the first ';', or all of s. */
  function BeforeSemicolon(s: string): (r: string)
    ensures |r| <= |s| && r == s[..|r|]
    ensures ';' !in r
    ensures |r| < |s| ==> s[|r|] == ';'
  {
    if s == [] || s[0] == ';' then [] else [s[0]] + BeforeSemicolon(s[1..])
  }

  /** The longest prefix of s without whitespace. */
  function Word(s: string): (r: string)
    ensures |r| <= |s| && r == s[..|r|]
    ensures NoSpace(r)
    ensures |r| < |s| ==> IsSpace(s[|r|])
  {
    if s == [] || IsSpace(s[0]) then [] else [s[0]] + Word(s[1..])
  }

  /** `s.split()`: the maximal runs of non-whitespace characters, in order. */
  function Split(s: string): (r: seq<string>)
    ensures forall k :: 0 <= k < |r| ==> r[k] != [] && NoSpace(r[k])
    decreases |s|
  {
    var t := LStrip(s);
    if t == [] then []
    else
      var w := Word(t);
      [w] + Split(t[|w|..])
  }

  /** `s.replace(",", " ")` */
  function ReplaceCommas(s: string): (r: string)
    ensures |r| == |s| && ',' !in r
    ensures forall k :: 0 <= k < |s| && s[k] != ',' ==> r[k] == s[k]
  {
    seq(|s|, k requires 0 <= k < |s| => if s[k] == ',' then ' ' else s[k])
  }

  function UpperChar(c: char): char {
    if 'a' <= c <= 'z' then (c as int - 32) as char else c
  }

  /** `s.upper()` for ASCII text. */
  function Upper(s: string): (r: string)
    ensures |r| == |s|
    ensures forall k :: 0 <= k < |s| ==> r[k] == UpperChar(s[k])
  {
    seq(|s|, k requires 0 <= k < |s| => UpperChar(s[k]))
  }

  predicate IsDigit(c: char) {
    '0' <= c <= '9'
  }

  /** `s.isdigit()` for ASCII text: non-empty and only '0'..'9'. */
  predicate IsDigits(s: string) {
    |s| > 0 && forall k :: 0 <= k < |s| ==> IsDigit(s[k])
  }

  /** `s.lstrip("-")` */
  function LStripMinus(s: string): (r: string)
    ensures |r| <= |s|
    ensures r == [] || r[0] != '-'
    ensures forall k :: 0 <= k < |s| - |r| ==> s[k] == '-'
  {
    if s != [] && s[0] == '-' then LStripMinus(s[1..]) else s
  }

  predicate EndsWithColon(s: string) {
    |s| > 0 && s[|s| - 1] == ':'
  }

  /** The digits of a decimal literal as `int()` accepts them: '0'..'9',
      with single underscores allowed between digits. */
  predicate DigitGroups(s: string) {
    && |s| > 0
    && IsDigit(s[0])
    && IsDigit(s[|s| - 1])
    && (forall k :: 0 <= k < |s| ==> IsDigit(s[k]) || s[k] == '_')
    && NoDoubleUnderscore(s)
  }

  /** No two '_' in a row. */
  predicate NoDoubleUnderscore(s: string) {
    |s| < 2 || (!(s[0] == '_' && s[1] == '_') && NoDoubleUnderscore(s[1..]))
  }

  lemma NoUnderscoreAtAll(s: string)
    requires forall k :: 0 <= k < |s| ==> IsDigit(s[k])
    ensures NoDoubleUnderscore(s)
  {
    if |s| >= 2 {
      NoUnderscoreAtAll(s[1..]);
    }
  }

  /** The number written by the digits of s, underscores ignored. */
  function DecimalValue(s: string): nat {
    if s == [] then 0
    else if IsDigit(s[|s| - 1]) then DecimalValue(s[..|s| - 1]) * 10 + (s[|s| - 1] as int - '0' as int)
    else DecimalValue(s[..|s| - 1])
  }

  /** Python's `int(s)` on a string, base 10: surrounding whitespace is
      ignored, an optional sign may lead, and None stands for the ValueError
      it raises on anything else. */
  function PyInt(s: string): (r: Option<int>)
    ensures r.Some? ==> Strip(s) != []
  {
    var t := Strip(s);
    if |t| > 0 && (t[0] == '+' || t[0] == '-') then
      if DigitGroups(t[1..]) then
        var n := DecimalValue(t[1..]);
        Some(if t[0] == '-' then -(n as int) else n)
      else None
    else if DigitGroups(t) then Some(DecimalValue(t))
    else None
  }

  lemma DigitsAreGroups(s: string)
    requires IsDigits(s)
    ensures DigitGroups(s)
  {
    NoUnderscoreAtAll(s);
  }

  /** `int()` accepts every string of ASCII digits. */
  lemma PyIntOfDigits(s: string)
    requires IsDigits(s)
    ensures PyInt(s) == Some(DecimalValue(s))
  {
    DigitsAreGroups(s);
    StripOfStripped(s);
  }

  /** `int()` accepts one '-' in front of a string of digits ... */
  lemma PyIntOfNegativeDigits(t: string)
    requires |t| > 0 && t[0] == '-' && IsDigits(t[1..])
    ensures PyInt(t) == Some(-(DecimalValue(t[1..]) as int))
  {
    DigitsAreGroups(t[1..]);
    assert Stripped(t);
    StripOfStripped(t);
  }

  /** ... but not two. */
  lemma PyIntOfDoubleMinus(t: string)
    requires |t| > 1 && t[0] == '-' && t[1] == '-'
    ensures PyInt(t).None?
  {
    var u := Strip(t);
    if Stripped(t) {
      StripOfStripped(t);
      assert t[1..][0] == '-';
    } else {
      assert t[0] == u[0] by { assert LStrip(t) == t; }
      assert t[1..][0] == '-';
    }
  }
}
