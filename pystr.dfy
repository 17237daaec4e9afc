/**
 * The Python string built-ins the storage service relies on, on `string` (`seq<char>`):
 * `str.find`/`rfind`, slicing with negative and out-of-range bounds, `split(sep)`,
 * `strip()`, `isdigit()`, `int(str)`, ASCII `lower()`/`upper()`, and the POSIX
 * `os.path.splitext` and `os.path.basename` string rules.
 */
module PyStr {
  import opened Wrappers

  // ---------------------------------------------------------------------------
  // Searching

  /** `s.find(c)`: the first index of `c`, or -1. */
  function Find(s: string, c: char): (r: int)
    ensures -1 <= r < |s|
    ensures r == -1 <==> c !in s
    ensures r >= 0 ==> s[r] == c
    ensures forall j :: 0 <= j < |s| && (r == -1 || j < r) ==> s[j] != c
  {
    if |s| == 0 then -1
    else if s[0] == c then 0
    else
      var k := Find(s[1..], c);
      if k == -1 then -1 else k + 1
  }

  /** `s.rfind(c)`: the last index of `c`, or -1. */
  function RFind(s: string, c: char): (r: int)
    ensures -1 <= r < |s|
    ensures r == -1 <==> c !in s
    ensures r >= 0 ==> s[r] == c
    ensures forall j :: r < j < |s| ==> s[j] != c
  {
    if |s| == 0 then -1
    else if s[|s| - 1] == c then |s| - 1
    else
      var k := RFind(s[..|s| - 1], c);
      assert s == s[..|s| - 1] + [s[|s| - 1]];
      k
  }

  /** `rfind` over a concatenation looks in the right part first. */
  lemma RFindConcat(a: string, b: string, c: char)
    ensures RFind(a + b, c) == if c in b then |a| + RFind(b, c) else RFind(a, c)
  {
    var ab := a + b;
    assert forall i :: 0 <= i < |b| ==> ab[|a| + i] == b[i];
    assert forall i :: 0 <= i < |a| ==> ab[i] == a[i];
    if c in b {
      var k := RFind(b, c);
      assert ab[|a| + k] == c;
      assert forall j :: |a| + k < j < |ab| ==> ab[j] != c by {
        assert forall j :: |a| + k < j < |ab| ==> ab[j] == b[j - |a|];
      }
    } else {
      var k := RFind(a, c);
      assert forall j :: |a| <= j < |ab| ==> ab[j] != c by {
        assert forall j :: |a| <= j < |ab| ==> ab[j] == b[j - |a|];
      }
      assert k >= 0 ==> ab[k] == c;
    }
  }

  // ---------------------------------------------------------------------------
  // Slicing

  /** Python's normalisation of one slice bound against a length `n`. */
  function SliceBound(i: int, n: nat): (b: nat)
    ensures b <= n
    ensures 0 <= i <= n ==> b == i
    ensures i > n ==> b == n
    ensures i < 0 <= i + n ==> b == i + n
    ensures i + n < 0 ==> b == 0
  {
    if i < 0 then (if i + n < 0 then 0 else i + n)
    else if i > n then n
    else i
  }

  /** `s[start:stop]` with Python's rules for negative and out-of-range bounds. */
  function Slice(s: string, start: int, stop: int): (r: string)
    ensures |r| <= |s|
    ensures SliceBound(start, |s|) < SliceBound(stop, |s|) ==>
              r == s[SliceBound(start, |s|)..SliceBound(stop, |s|)]
    ensures SliceBound(start, |s|) >= SliceBound(stop, |s|) ==> r == []
  {
    var a, b := SliceBound(start, |s|), SliceBound(stop, |s|);
    if a < b then s[a..b] else []
  }

  // ---------------------------------------------------------------------------
  // Prefixes and suffixes

  /** `s.removeprefix(p)`. */
  function RemovePrefix(s: string, p: string): (r: string)
    ensures p <= s ==> p + r == s
    ensures !(p <= s) ==> r == s
  {
    if p <= s then s[|p|..] else s
  }

  /** `s.endswith(suffix)`. */
  predicate EndsWith(s: string, suffix: string) {
    |suffix| <= |s| && s[|s| - |suffix|..] == suffix
  }

  // ---------------------------------------------------------------------------
  // Splitting and joining on one separator character

  /** `sep.join(parts)`. */
  function JoinWith(parts: seq<string>, sep: char): string
    requires |parts| >= 1
  {
    if |parts| == 1 then parts[0] else parts[0] + [sep] + JoinWith(parts[1..], sep)
  }

  /** `s.split(sep)`: every part is free of `sep` and joining them back gives `s`. */
  function Split(s: string, sep: char): (parts: seq<string>)
    ensures |parts| >= 1
    ensures forall i :: 0 <= i < |parts| ==> sep !in parts[i]
    ensures JoinWith(parts, sep) == s
    decreases |s|
  {
    var i := Find(s, sep);
    if i == -1 then [s]
    else
      var rest := Split(s[i + 1..], sep);
      var parts := [s[..i]] + rest;
      assert parts[1..] == rest;
      assert JoinWith(parts, sep) == s[..i] + [sep] + s[i + 1..];
      assert s == s[..i] + [sep] + s[i + 1..];
      assert forall j :: 0 <= j < i ==> s[..i][j] == s[j];
      parts
  }

  /** In `p0 + [sep] + tail` with `sep` not in `p0`, the first `sep` ends `p0`. */
  lemma FindAfterPart(p0: string, sep: char, tail: string)
    requires sep !in p0
    ensures Find(p0 + [sep] + tail, sep) == |p0|
    ensures (p0 + [sep] + tail)[..|p0|] == p0 && (p0 + [sep] + tail)[|p0| + 1..] == tail
  {
    var s := p0 + [sep] + tail;
    assert forall j :: 0 <= j < |p0| ==> s[j] == p0[j];
    assert s[|p0|] == sep;
  }

  /** Splitting undoes joining: `sep.join(parts).split(sep) == parts` when no part holds `sep`. */
  lemma {:induction false} SplitJoin(parts: seq<string>, sep: char)
    requires |parts| >= 1
    requires forall i :: 0 <= i < |parts| ==> sep !in parts[i]
    ensures Split(JoinWith(parts, sep), sep) == parts
  {
    if |parts| > 1 {
      var tail := JoinWith(parts[1..], sep);
      assert JoinWith(parts, sep) == parts[0] + [sep] + tail;
      FindAfterPart(parts[0], sep, tail);
      SplitJoin(parts[1..], sep);
      assert Split(JoinWith(parts, sep), sep) == [parts[0]] + Split(tail, sep);
    }
  }

  // ---------------------------------------------------------------------------
  // Whitespace

  /** `c.isspace()`: the characters Python's `str.strip()` removes. */
  predicate IsSpace(c: char) {
    || c == ' ' || c == '\t' || c == '\n' || c == '\r' || c == '\U{B}' || c == '\U{C}'
    || ('\U{1C}' <= c <= '\U{1F}') || c == '\U{85}' || c == '\U{A0}' || c == '\U{1680}'
    || ('\U{2000}' <= c <= '\U{200A}') || c == '\U{2028}' || c == '\U{2029}'
    || c == '\U{202F}' || c == '\U{205F}' || c == '\U{3000}'
  }

  /** `s.lstrip()`: a suffix of `s` whose dropped prefix is all whitespace. */
  function StripLeft(s: string): (r: string)
    ensures |r| <= |s| && r == s[|s| - |r|..]
    ensures forall i :: 0 <= i < |s| - |r| ==> IsSpace(s[i])
    ensures r == [] || !IsSpace(r[0])
  {
    if |s| > 0 && IsSpace(s[0]) then StripLeft(s[1..]) else s
  }

  /** `s.rstrip()`: a prefix of `s` whose dropped suffix is all whitespace. */
  function StripRight(s: string): (r: string)
    ensures |r| <= |s| && r == s[..|r|]
    ensures forall i :: |r| <= i < |s| ==> IsSpace(s[i])
    ensures r == [] || !IsSpace(r[|r| - 1])
  {
    if |s| > 0 && IsSpace(s[|s| - 1]) then StripRight(s[..|s| - 1]) else s
  }

  /** `s.strip()`: the text between the leading and the trailing whitespace. */
  function Strip(s: string): (r: string)
    ensures |r| <= |s|
    ensures r == [] || (!IsSpace(r[0]) && !IsSpace(r[|r| - 1]))
    ensures r == [] <==> forall i :: 0 <= i < |s| ==> IsSpace(s[i])
  {
    var l := StripLeft(s);
    assert forall i :: 0 <= i < |l| ==> l[i] == s[|s| - |l| + i];
    StripRight(l)
  }

  /** Text with no surrounding whitespace is its own `strip()`. */
  lemma StripUnpadded(s: string)
    requires s != [] && !IsSpace(s[0]) && !IsSpace(s[|s| - 1])
    ensures Strip(s) == s
  {
    assert StripLeft(s) == s;
  }

  // ---------------------------------------------------------------------------
  // Case mapping (ASCII letters only)

  function LowerChar(c: char): char {
    if 'A' <= c <= 'Z' then (c as int + 32) as char else c
  }

  function UpperChar(c: char): char {
    if 'a' <= c <= 'z' then (c as int - 32) as char else c
  }

  /** `s.lower()` on ASCII letters. */
  function Lower(s: string): (r: string)
    ensures |r| == |s|
    ensures forall i :: 0 <= i < |s| ==> r[i] == LowerChar(s[i])
  {
    seq(|s|, i requires 0 <= i < |s| => LowerChar(s[i]))
  }

  /** `s.upper()` on ASCII letters. */
  function Upper(s: string): (r: string)
    ensures |r| == |s|
    ensures forall i :: 0 <= i < |s| ==> r[i] == UpperChar(s[i])
  {
    seq(|s|, i requires 0 <= i < |s| => UpperChar(s[i]))
  }

  // ---------------------------------------------------------------------------
  // Decimal digits and integers

  predicate IsDigit(c: char) { '0' <= c <= '9' }

  /** `s.isdigit()` on ASCII digits: non-empty and every character a digit. */
  predicate IsDigits(s: string) {
    |s| > 0 && forall i :: 0 <= i < |s| ==> IsDigit(s[i])
  }

  /** The value of a string of decimal digits, most significant first. */
  function DigitsValue(s: string): nat
    requires forall i :: 0 <= i < |s| ==> IsDigit(s[i])
  {
    if |s| == 0 then 0
    else
      var d := s[|s| - 1] as int - '0' as int;
      assert IsDigit(s[|s| - 1]);
      DigitsValue(s[..|s| - 1]) * 10 + d
  }

  function DigitChar(d: nat): char
    requires d < 10
  {
    ('0' as int + d) as char
  }

  /** `str(n)` for a natural number. */
  function NatToString(n: nat): (s: string)
    ensures IsDigits(s)
  {
    if n < 10 then [DigitChar(n)] else NatToString(n / 10) + [DigitChar(n % 10)]
  }

  /** Reading back the decimal text of `n` gives `n`. */
  lemma {:induction false} NatToStringValue(n: nat)
    ensures DigitsValue(NatToString(n)) == n
  {
    var s := NatToString(n);
    if n >= 10 {
      assert s[..|s| - 1] == NatToString(n / 10);
      NatToStringValue(n / 10);
    }
  }

  /** `str(n)` for an integer. */
  function IntToString(n: int): (s: string)
    ensures n >= 0 ==> s == NatToString(n)
    ensures n < 0 ==> s == "-" + NatToString(-n)
  {
    if n >= 0 then NatToString(n) else "-" + NatToString(-n)
  }

  /** The digit groups Python's `int()` accepts in base 10: digits with single underscores between them. */
  predicate IsDigitGroups(s: string) {
    && |s| > 0
    && IsDigit(s[0]) && IsDigit(s[|s| - 1])
    && (forall i :: 0 <= i < |s| ==> IsDigit(s[i]) || s[i] == '_')
    && (forall i :: 0 <= i < |s| - 1 ==> s[i] == '_' ==> s[i + 1] != '_')
  }

  /** The digits of `s` with every underscore dropped. */
  function DropUnderscores(s: string): (r: string)
    ensures |r| <= |s|
    ensures (forall i :: 0 <= i < |s| ==> IsDigit(s[i]) || s[i] == '_') ==>
              forall i :: 0 <= i < |r| ==> IsDigit(r[i])
    ensures (forall i :: 0 <= i < |s| ==> IsDigit(s[i])) ==> r == s
  {
    if |s| == 0 then []
    else if s[0] == '_' then DropUnderscores(s[1..])
    else [s[0]] + DropUnderscores(s[1..])
  }

  /** `int(s)` in base 10: whitespace around, an optional sign, digit groups; `None` where Python raises `ValueError`. */
  function PyInt(s: string): (r: Option<int>)
  {
    var t := Strip(s);
    var negative := |t| > 0 && t[0] == '-';
    var body := if |t| > 0 && (t[0] == '+' || t[0] == '-') then t[1..] else t;
    if IsDigitGroups(body) then
      var v: int := DigitsValue(DropUnderscores(body));
      var n: int := if negative then -v else v;
      Some(n)
    else None
  }

  /** Python's `int()` reads back the decimal text of a natural number. */
  lemma PyIntOfNatString(n: nat)
    ensures PyInt(NatToString(n)) == Some(n)
  {
    var s := NatToString(n);
    assert IsDigit(s[0]) && IsDigit(s[|s| - 1]);
    StripUnpadded(s);
    assert s[0] != '+' && s[0] != '-';
    assert IsDigitGroups(s);
    assert DropUnderscores(s) == s;
    NatToStringValue(n);
  }

  /** `int()` refuses any text that has no decimal digit in it. */
  lemma PyIntNeedsADigit(s: string)
    requires forall i :: 0 <= i < |s| ==> !IsDigit(s[i])
    ensures PyInt(s) == None
  {
    var l := StripLeft(s);
    var t := StripRight(l);
    assert Strip(s) == t;
    var off := if |t| > 0 && (t[0] == '+' || t[0] == '-') then 1 else 0;
    var body := t[off..];
    if |body| > 0 {
      assert body[0] == t[off] == l[off] == s[|s| - |l| + off];
    }
    assert !IsDigitGroups(body);
  }

  // ---------------------------------------------------------------------------
  // POSIX path strings

  /** The index where `os.path.splitext` cuts `p`, if it finds an extension. */
  function ExtStart(p: string): (r: Option<nat>)
    ensures r.Some? ==> r.value < |p| && p[r.value] == '.'
    ensures r.Some? ==> r.value == RFind(p, '.') && r.value > RFind(p, '/')
  {
    var sepIndex := RFind(p, '/');
    var dotIndex := RFind(p, '.');
    if dotIndex > sepIndex && HasNonDot(p, sepIndex + 1, dotIndex)
    then Some(dotIndex) else None
  }

  /** Some character of `p[lo:hi]` is not a dot (the file name is not all leading dots). */
  predicate HasNonDot(p: string, lo: int, hi: int) {
    exists k :: lo <= k < hi && 0 <= k < |p| && p[k] != '.'
  }

  /** `os.path.splitext(p)`: a root and an extension that together give `p` back. */
  function SplitExt(p: string): (r: (string, string))
    ensures r.0 + r.1 == p
    ensures r.1 == [] || (r.1[0] == '.' && '.' !in r.1[1..] && '/' !in r.1)
  {
    match ExtStart(p)
    case None => (p, [])
    case Some(i) =>
      var ext := p[i..];
      assert forall j :: 0 <= j < |ext| ==> ext[j] == p[i + j];
      assert forall j :: 1 <= j < |ext| ==> ext[j] != '.';
      assert forall j :: 0 <= j < |ext| ==> ext[j] != '/';
      (p[..i], ext)
  }

  /** The extension of `p`, `os.path.splitext(p)[1]`. */
  function Ext(p: string): string { SplitExt(p).1 }

  /** The root of `p`, `os.path.splitext(p)[0]`. */
  function Root(p: string): string { SplitExt(p).0 }

  /** `os.path.basename(p)`: what follows the last `/`. */
  function Basename(p: string): (r: string)
    ensures '/' !in r
    ensures |r| <= |p| && r == p[|p| - |r|..]
  {
    p[RFind(p, '/') + 1..]
  }

  /** Shifting a window past a prefix `a` does not change whether it holds a non-dot. */
  lemma HasNonDotShift(a: string, rel: string, lo: int, hi: int)
    requires 0 <= lo && hi <= |rel|
    ensures HasNonDot(a + rel, |a| + lo, |a| + hi) == HasNonDot(rel, lo, hi)
  {
    var p := a + rel;
    if HasNonDot(p, |a| + lo, |a| + hi) {
      var k :| |a| + lo <= k < |a| + hi && 0 <= k < |p| && p[k] != '.';
      assert rel[k - |a|] == p[k];
    }
    if HasNonDot(rel, lo, hi) {
      var k :| lo <= k < hi && 0 <= k < |rel| && rel[k] != '.';
      assert p[k + |a|] == rel[k];
    }
  }

  /** The last `/` of `dir + "/" + rel` and the last `.` when `rel` has none. */
  lemma JoinedSeparators(dir: string, rel: string)
    ensures RFind(dir + "/" + rel, '/') == if '/' in rel then |dir| + 1 + RFind(rel, '/') else |dir|
    ensures '.' in rel ==> RFind(dir + "/" + rel, '.') == |dir| + 1 + RFind(rel, '.')
    ensures '.' !in rel ==> RFind(dir + "/" + rel, '.') < |dir|
  {
    var a := dir + "/";
    assert dir + "/" + rel == a + rel;
    RFindConcat(a, rel, '/');
    RFindConcat(a, rel, '.');
    RFindConcat(dir, "/", '/');
    RFindConcat(dir, "/", '.');
  }

  /** `ExtStart` of `dir + "/" + rel` is that of `rel`, shifted. */
  lemma ExtStartUnderDirectory(dir: string, rel: string)
    ensures ExtStart(dir + "/" + rel) ==
            match ExtStart(rel) case None => None case Some(i) => Some(|dir| + 1 + i)
  {
    var a := dir + "/";
    var p := dir + "/" + rel;
    assert p == a + rel;
    JoinedSeparators(dir, rel);
    var sepR, dotR := RFind(rel, '/'), RFind(rel, '.');
    if '.' in rel {
      HasNonDotShift(a, rel, sepR + 1, dotR);
    }
  }

  /**
   * `os.path.splitext` sees only the last path component: joining a directory in front
   * of a relative path keeps its extension and puts the directory in front of its root.
   */
  lemma SplitExtUnderDirectory(dir: string, rel: string)
    ensures Ext(dir + "/" + rel) == Ext(rel)
    ensures Root(dir + "/" + rel) == dir + "/" + Root(rel)
  {
    var p := dir + "/" + rel;
    ExtStartUnderDirectory(dir, rel);
    match ExtStart(rel)
    case None =>
    case Some(i) =>
      assert p[|dir| + 1 + i..] == rel[i..];
      assert p[..|dir| + 1 + i] == dir + "/" + rel[..i];
  }

}
