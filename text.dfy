/** String helpers that mirror the Python `str` operations the core relies on. */
module Text {
  import opened Wrappers

  /** The characters for which Python's `str.isspace()` holds (what `strip()` removes). */
  predicate IsSpace(c: char) {
    || c == ' ' || ('\t' <= c <= '\r') || ('\U{1C}' <= c <= '\U{1F}') || c == '\U{85}' || c == '\U{A0}'
    || c == '\U{1680}' || ('\U{2000}' <= c <= '\U{200A}') || c == '\U{2028}' || c == '\U{2029}'
    || c == '\U{202F}' || c == '\U{205F}' || c == '\U{3000}'
  }

  /** A string made only of whitespace (the empty string included). */
  predicate IsBlank(s: string) {
    forall i :: 0 <= i < |s| ==> IsSpace(s[i])
  }

  /** Number of whitespace characters at the start of `s`. */
  function LeadingSpaces(s: string): (k: nat)
    ensures k <= |s|
    ensures forall i :: 0 <= i < k ==> IsSpace(s[i])
    ensures k < |s| ==> !IsSpace(s[k])
  {
    if s != [] && IsSpace(s[0]) then 1 + LeadingSpaces(s[1..]) else 0
  }

  /** Index where the trailing whitespace of `s` begins. */
  function TrailingStart(s: string): (k: nat)
    ensures k <= |s|
    ensures forall i :: k <= i < |s| ==> IsSpace(s[i])
    ensures k > 0 ==> !IsSpace(s[k - 1])
  {
    if s != [] && IsSpace(s[|s| - 1]) then TrailingStart(s[..|s| - 1]) else |s|
  }

  /** Python's `s.strip()`: drops leading and trailing whitespace. */
  function Strip(s: string): (r: string)
    ensures LeadingSpaces(s) + |r| <= |s|
    ensures r == s[LeadingSpaces(s)..LeadingSpaces(s) + |r|]
    ensures r == [] || (!IsSpace(r[0]) && !IsSpace(r[|r| - 1]))
    ensures r == [] <==> IsBlank(s)
  {
    var a := LeadingSpaces(s);
    var t := s[a..];
    var r := t[..TrailingStart(t)];
    r
  }

  /** `kw in text` for strings: `kw` occurs as a contiguous substring. */
  predicate Contains(text: string, kw: string) {
    exists i | 0 <= i <= |text| :: kw <= text[i..]
  }

  /** Lower-cases the ASCII letters and leaves every other character alone. */
  function LowerAscii(s: string): (r: string)
    ensures |r| == |s|
    ensures forall i :: 0 <= i < |s| ==> r[i] == (if 'A' <= s[i] <= 'Z' then (s[i] as int + 32) as char else s[i])
  {
    seq(|s|, i requires 0 <= i < |s| => if 'A' <= s[i] <= 'Z' then (s[i] as int + 32) as char else s[i])
  }

  /** `sep.join(parts)`. */
  function Join(parts: seq<string>, sep: string): string
  {
    if parts == [] then ""
    else if |parts| == 1 then parts[0]
    else parts[0] + sep + Join(parts[1..], sep)
  }

  /** Index of the first `sep` in `s`, or `|s|` when there is none. */
  function FirstIndexOf(s: string, sep: char): (i: nat)
    ensures i <= |s|
    ensures i < |s| ==> s[i] == sep
    ensures forall j :: 0 <= j < i ==> s[j] != sep
  {
    if s == [] then 0
    else if s[0] == sep then 0
    else 1 + FirstIndexOf(s[1..], sep)
  }

  /** Python's `s.split(sep)` for a one-character separator. */
  function SplitOn(s: string, sep: char): (parts: seq<string>)
    ensures |parts| >= 1
    ensures forall k :: 0 <= k < |parts| ==> sep !in parts[k]
    decreases |s|
  {
    var i := FirstIndexOf(s, sep);
    if i == |s| then [s] else [s[..i]] + SplitOn(s[i + 1..], sep)
  }

  /** Splitting at a separator and joining back with it gives the original string. */
  lemma {:induction false} JoinSplit(s: string, sep: char)
    ensures Join(SplitOn(s, sep), [sep]) == s
    decreases |s|
  {
    var i := FirstIndexOf(s, sep);
    if i < |s| {
      JoinSplit(s[i + 1..], sep);
      assert s == s[..i] + [sep] + s[i + 1..];
    }
  }

  /** Joining separator-free parts and splitting again gives the parts back. */
  lemma {:induction false} SplitJoin(parts: seq<string>, sep: char)
    requires |parts| >= 1
    requires forall k :: 0 <= k < |parts| ==> sep !in parts[k]
    ensures SplitOn(Join(parts, [sep]), sep) == parts
    decreases |parts|
  {
    if |parts| == 1 {
      assert FirstIndexOf(parts[0], sep) == |parts[0]|;
    } else {
      var rest := parts[1..];
      var t := Join(rest, [sep]);
      assert Join(parts, [sep]) == parts[0] + ([sep] + t);
      SplitStep(parts[0], sep, t);
      SplitJoin(rest, sep);
      assert parts == [parts[0]] + rest;
    }
  }

  /** A separator-free piece followed by the separator splits off as the first part. */
  lemma SplitStep(p: string, sep: char, t: string)
    requires sep !in p
    ensures SplitOn(p + ([sep] + t), sep) == [p] + SplitOn(t, sep)
  {
    var s := p + ([sep] + t);
    FirstIndexAfterFree(p, sep, [sep] + t);
    assert s[|p| + 1..] == t;
    assert s[..|p|] == p;
  }

  lemma {:induction false} FirstIndexAfterFree(p: string, sep: char, rest: string)
    requires sep !in p
    requires rest != [] && rest[0] == sep
    ensures FirstIndexOf(p + rest, sep) == |p|
    decreases |p|
  {
    if p != [] {
      assert (p + rest)[1..] == p[1..] + rest;
      FirstIndexAfterFree(p[1..], sep, rest);
    }
  }

  predicate IsDigit(c: char) { '0' <= c <= '9' }

  function DigitValue(c: char): nat requires IsDigit(c) { c as int - '0' as int }

  function DigitChar(d: nat): (c: char)
    requires d < 10
    ensures IsDigit(c) && DigitValue(c) == d
  {
    ('0' as int + d) as char
  }

  /** The value of a string of decimal digits (most significant first). */
  function DigitsValue(s: string): nat
    requires forall i :: 0 <= i < |s| ==> IsDigit(s[i])
  {
    if s == [] then 0 else DigitsValue(s[..|s| - 1]) * 10 + DigitValue(s[|s| - 1])
  }

  /** `str(n)` for a natural number. */
  function NatToString(n: nat): (r: string)
    ensures |r| >= 1
    ensures forall i :: 0 <= i < |r| ==> IsDigit(r[i])
    ensures DigitsValue(r) == n
    ensures n >= 10 ==> r[0] != '0'
  {
    if n < 10 then [DigitChar(n)]
    else
      var r := NatToString(n / 10) + [DigitChar(n % 10)];
      assert r[..|r| - 1] == NatToString(n / 10);
      r
  }

  /** `str(n)` for any integer. */
  function IntToString(n: int): (r: string)
    ensures |r| >= 1
  {
    if n < 0 then "-" + NatToString(-n) else NatToString(n)
  }

  /** Digits with single underscores between them, as Python's `int()` accepts them. */
  predicate IsDigitGroup(s: string) {
    && |s| >= 1 && IsDigit(s[0]) && IsDigit(s[|s| - 1])
    && (forall i :: 0 <= i < |s| ==> IsDigit(s[i]) || s[i] == '_')
    && (forall i :: 0 <= i < |s| - 1 ==> !(s[i] == '_' && s[i + 1] == '_'))
  }

  function StripUnderscores(s: string): (r: string)
    requires forall i :: 0 <= i < |s| ==> IsDigit(s[i]) || s[i] == '_'
    ensures forall i :: 0 <= i < |r| ==> IsDigit(r[i])
    ensures (forall i :: 0 <= i < |s| ==> IsDigit(s[i])) ==> r == s
  {
    if s == [] then []
    else (if s[0] == '_' then [] else [s[0]]) + StripUnderscores(s[1..])
  }

  /** Python's `int(s)` on a string: `None` where it raises ValueError. */
  function PyInt(s: string): (r: Option<int>)
    ensures IsBlank(s) ==> r == None
  {
    var t := Strip(s);
    if t == [] then None
    else
      var neg := t[0] == '-';
      var body := if t[0] == '-' || t[0] == '+' then t[1..] else t;
      if !IsDigitGroup(body) then None
      else
        var v := DigitsValue(StripUnderscores(body)) as int;
        Some(if neg then -v else v)
  }

  lemma {:induction false} NoSpaceStrip(s: string)
    requires forall i :: 0 <= i < |s| ==> !IsSpace(s[i])
    ensures Strip(s) == s
  {
    assert LeadingSpaces(s) == 0;
    if s != [] { assert TrailingStart(s) == |s|; }
  }

  lemma {:induction false} DigitsHaveNoUnderscore(s: string)
    requires forall i :: 0 <= i < |s| ==> IsDigit(s[i])
    ensures StripUnderscores(s) == s
  {
  }

  /** `int()` of an unsigned digit string without whitespace is its decimal value. */
  lemma {:induction false} PyIntOfDigits(d: string)
    requires |d| >= 1
    requires forall i :: 0 <= i < |d| ==> IsDigit(d[i])
    ensures PyInt(d) == Some(DigitsValue(d) as int)
  {
    assert forall i :: 0 <= i < |d| ==> !IsSpace(d[i]);
    NoSpaceStrip(d);
    var t := Strip(d);
    assert t == d;
    assert t[0] != '-' && t[0] != '+';
    assert IsDigitGroup(d);
    DigitsHaveNoUnderscore(d);
  }

  /** Parsing what `str` prints for a natural number gives the number back. */
  lemma {:induction false} NatRoundTrip(n: nat)
    ensures PyInt(NatToString(n)) == Some(n)
  {
    PyIntOfDigits(NatToString(n));
  }

  /** Parsing what `str` prints for an integer gives the integer back. */
  lemma {:induction false} IntRoundTrip(n: int)
    ensures PyInt(IntToString(n)) == Some(n)
  {
    if n >= 0 {
      NatRoundTrip(n);
    } else {
      var d := NatToString(-n);
      PyIntOfNegDigits(d);
      assert -(DigitsValue(d) as int) == n;
      assert IntToString(n) == "-" + d;
    }
  }

  /** `int()` of a minus sign followed by digits is the negated decimal value. */
  lemma PyIntOfNegDigits(d: string)
    requires |d| >= 1 && forall i :: 0 <= i < |d| ==> IsDigit(d[i])
    ensures PyInt("-" + d) == Some(-(DigitsValue(d) as int))
  {
    assert IsDigitGroup(d);
    DigitsHaveNoUnderscore(d);
    NegNoSpace(d);
    PyIntSigned("-" + d, d);
  }

  /** A minus sign followed by digits has no whitespace to strip. */
  lemma NegNoSpace(d: string)
    requires |d| >= 1 && forall i :: 0 <= i < |d| ==> IsDigit(d[i])
    ensures Strip("-" + d) == "-" + d && |"-" + d| >= 2 && ("-" + d)[0] == '-' && ("-" + d)[1..] == d
  {
    var s := "-" + d;
    assert s[1..] == d;
    forall i | 0 <= i < |s| ensures !IsSpace(s[i]) {
      if i > 0 { assert s[i] == d[i - 1]; }
    }
    NoSpaceStrip(s);
  }

  /** `int()` of a stripped string made of a minus sign and a digit group. */
  lemma PyIntSigned(s: string, d: string)
    requires Strip(s) == s && |s| >= 2 && s[0] == '-' && s[1..] == d
    requires IsDigitGroup(d) && StripUnderscores(d) == d
    ensures PyInt(s) == Some(-(DigitsValue(d) as int))
  {
  }

  /** `s.rfind(c)`: the last index of `c` in `s`, or -1. */
  function LastIndexOf(s: string, c: char): (r: int)
    ensures -1 <= r < |s|
    ensures r >= 0 ==> s[r] == c
    ensures forall j :: r < j < |s| ==> s[j] != c
    ensures r == -1 <==> c !in s
  {
    if s == [] then -1
    else if s[|s| - 1] == c then |s| - 1
    else LastIndexOf(s[..|s| - 1], c)
  }

  /** Zero-pads the decimal form of `n` on the left to at least `width` characters. */
  function ZeroPad(n: nat, width: nat): (r: string)
    ensures |r| == if |NatToString(n)| >= width then |NatToString(n)| else width
    ensures forall i :: 0 <= i < |r| ==> IsDigit(r[i])
    ensures DigitsValue(r) == n
  {
    var d := NatToString(n);
    if |d| >= width then d
    else
      LeadingZerosValue(width - |d|, d);
      seq(width - |d|, _ => '0') + d
  }

  /** Leading zeros do not change the value of a digit string. */
  lemma {:induction false} LeadingZerosValue(k: nat, d: string)
    requires forall i :: 0 <= i < |d| ==> IsDigit(d[i])
    ensures var s := seq(k, _ => '0') + d;
      (forall i :: 0 <= i < |s| ==> IsDigit(s[i])) && DigitsValue(s) == DigitsValue(d)
  {
    var z := seq(k, _ => '0');
    var s := z + d;
    assert forall i :: 0 <= i < |s| ==> IsDigit(s[i]) by {
      forall i | 0 <= i < |s| ensures IsDigit(s[i]) {
        if i >= k { assert s[i] == d[i - k]; }
      }
    }
    if d == [] {
      assert s == z;
      ZerosValue(k);
    } else {
      var d' := d[..|d| - 1];
      assert s[..|s| - 1] == z + d';
      assert s[|s| - 1] == d[|d| - 1];
      LeadingZerosValue(k, d');
    }
  }

  /** A string of zeros is worth nothing. */
  lemma {:induction false} ZerosValue(k: nat)
    ensures var z := seq(k, _ => '0');
      (forall i :: 0 <= i < |z| ==> IsDigit(z[i])) && DigitsValue(z) == 0
  {
    if k > 0 {
      var z := seq(k, _ => '0');
      assert z[..k - 1] == seq(k - 1, _ => '0');
      ZerosValue(k - 1);
    }
  }

  function Pow10(w: nat): (p: nat)
    ensures p >= 1
  {
    if w == 0 then 1 else 10 * Pow10(w - 1)
  }

  /** A number below `10^w` prints with at most `w` digits. */
  lemma {:induction false} NatToStringWidth(n: nat, w: nat)
    requires 1 <= w && n < Pow10(w)
    ensures |NatToString(n)| <= w
  {
    if n >= 10 {
      assert w >= 2;
      assert n / 10 < Pow10(w - 1);
      NatToStringWidth(n / 10, w - 1);
    }
  }
}
