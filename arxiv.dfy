/**
 * The arXiv retriever (`ArxivRetriever`): ID extraction from free text, version stripping, and
 * the cache-first metadata lookup.
 *
 * The pattern `(?:arxiv\.org/(?:abs|pdf)/)?(\d{4}\.\d{4,5}(?:v\d+)?)` only differs from its bare
 * ID part by a non-capturing prefix made of non-digits, so `findall` captures exactly the
 * matches of the bare ID pattern, which `FindAll` scans for here.
 */
module Arxiv {
  import opened Wrappers
  import opened JsonValues
  import opened Text
  import opened DateTimes
  import opened Cache

  // ---------------------------------------------------------------- the ID pattern

  predicate AllDigits(s: string) {
    forall i :: 0 <= i < |s| ==> IsDigit(s[i])
  }

  /** `v\d+` under IGNORECASE: a `v` or `V` and at least one digit. */
  predicate IsVersionTag(t: string) {
    |t| >= 2 && (t[0] == 'v' || t[0] == 'V') && AllDigits(t[1..])
  }

  /** What one capture of the pattern looks like: `\d{4}\.\d{4,5}` and an optional version tag. */
  predicate IsIdShape(m: string) {
    && |m| >= 9 && AllDigits(m[..4]) && m[4] == '.' && AllDigits(m[5..9])
    && (m[9..] == [] || IsVersionTag(m[9..])
        || (IsDigit(m[9]) && (m[10..] == [] || IsVersionTag(m[10..]))))
  }

  /** `n` digits starting at `i`. */
  predicate DigitsAt(s: string, i: nat, n: nat)
    decreases n
  {
    n == 0 || (i < |s| && IsDigit(s[i]) && DigitsAt(s, i + 1, n - 1))
  }

  lemma {:induction false} DigitsAtAll(s: string, i: nat, n: nat)
    requires i <= |s|
    ensures DigitsAt(s, i, n) <==> i + n <= |s| && AllDigits(s[i..i + n])
    decreases n
  {
    if n > 0 && i < |s| {
      DigitsAtAll(s, i + 1, n - 1);
      if i + n <= |s| {
        var w := s[i..i + n];
        assert w[1..] == s[i + 1..i + n];
        if IsDigit(s[i]) && AllDigits(w[1..]) {
          forall k | 0 <= k < |w| ensures IsDigit(w[k]) {
            if k > 0 { assert w[k] == w[1..][k - 1]; }
          }
        }
      }
    }
  }

  /** Length of the run of digits starting at `i`. */
  function DigitRun(s: string, i: nat): (n: nat)
    requires i <= |s|
    ensures i + n <= |s|
    decreases |s| - i
  {
    if i < |s| && IsDigit(s[i]) then 1 + DigitRun(s, i + 1) else 0
  }

  lemma {:induction false} DigitRunFacts(s: string, i: nat)
    requires i <= |s|
    ensures AllDigits(s[i..i + DigitRun(s, i)])
    ensures i + DigitRun(s, i) == |s| || !IsDigit(s[i + DigitRun(s, i)])
    decreases |s| - i
  {
    if i < |s| && IsDigit(s[i]) {
      var n := DigitRun(s, i);
      DigitRunFacts(s, i + 1);
      assert s[i..i + n] == [s[i]] + s[i + 1..i + n];
    }
  }

  /** `\d{4}\.\d{4}` at `p`: the part every match starts with. */
  predicate IdHead(s: string, p: nat) {
    p + 9 <= |s| && DigitsAt(s, p, 4) && s[p + 4] == '.' && DigitsAt(s, p + 5, 4)
  }

  /** The length of the optional version tag `[vV]\d+` at `q`, or 0 when there is none. */
  function TagLen(s: string, q: nat): (n: nat)
    ensures q <= |s| ==> q + n <= |s|
  {
    if q < |s| && (s[q] == 'v' || s[q] == 'V') && DigitsAt(s, q + 1, 1) then 1 + DigitRun(s, q + 1) else 0
  }

  /**
   * The length of the match starting exactly at `p`, if any: the greedy `\d{4,5}` takes a fifth
   * digit when there is one, and the optional version tag takes every digit that follows.
   */
  function IdAt(s: string, p: nat): (r: Option<nat>)
    requires p <= |s|
    ensures r.Some? ==> 9 <= r.value && p + r.value <= |s|
  {
    if IdHead(s, p) then
      var n := if DigitsAt(s, p + 9, 1) then 10 else 9;
      Some(n + TagLen(s, p + n))
    else None
  }

  /** Every match has the shape of an ID. */
  lemma IdAtShape(s: string, p: nat)
    requires p <= |s| && IdAt(s, p).Some?
    ensures IsIdShape(s[p..p + IdAt(s, p).value])
  {
    var len := IdAt(s, p).value;
    var n := if DigitsAt(s, p + 9, 1) then 10 else 9;
    HeadParts(s, p, n);
    TagPart(s, p + n);
    assert len == n + TagLen(s, p + n);
    MatchFromParts(s[p..p + len], s[p..p + n], s[p + n..p + len], n);
  }

  /** The first `n` characters of a match: four digits, a dot, then four digits or five. */
  lemma HeadParts(s: string, p: nat, n: nat)
    requires IdHead(s, p) && n == (if DigitsAt(s, p + 9, 1) then 10 else 9)
    ensures p + n <= |s|
    ensures var h := s[p..p + n];
      AllDigits(h[..4]) && h[4] == '.' && AllDigits(h[5..9]) && (n == 10 ==> IsDigit(h[9]))
  {
    DigitsAtAll(s, p, 4);
    DigitsAtAll(s, p + 5, 4);
    DigitsAtAll(s, p + 9, 1);
    var h := s[p..p + n];
    assert h[..4] == s[p..p + 4];
    assert h[5..9] == s[p + 5..p + 9];
    if n == 10 { assert h[9] == s[p + 9] && s[p + 9..p + 10] == [s[p + 9]]; }
  }

  /** What `TagLen` measures is empty or a version tag. */
  lemma TagPart(s: string, q: nat)
    requires q <= |s|
    ensures var t := s[q..q + TagLen(s, q)]; t == [] || IsVersionTag(t)
  {
    var k := TagLen(s, q);
    if k > 0 {
      DigitsAtAll(s, q + 1, 1);
      DigitRunFacts(s, q + 1);
      var t := s[q..q + k];
      assert t[1..] == s[q + 1..q + k];
    }
  }

  /** A head of 9 or 10 characters followed by an empty tail or a version tag has the shape of an ID. */
  lemma MatchFromParts(m: string, h: string, t: string, n: nat)
    requires m == h + t && |h| == n && (n == 9 || n == 10)
    requires AllDigits(h[..4]) && h[4] == '.' && AllDigits(h[5..9]) && (n == 10 ==> IsDigit(h[9]))
    requires t == [] || IsVersionTag(t)
    ensures IsIdShape(m)
  {
    assert m[..4] == h[..4] && m[5..9] == h[5..9] && m[n..] == t;
    if n == 10 { assert m[9] == h[9]; }
  }

  /** `findall` from position `p`: leftmost matches, each search resuming where the last match ended. */
  function Matches(s: string, p: nat): seq<string>
    requires p <= |s|
    decreases |s| - p
  {
    if p == |s| then []
    else
      match IdAt(s, p)
      case Some(n) => [s[p..p + n]] + Matches(s, p + n)
      case None => Matches(s, p + 1)
  }

  lemma {:induction false} MatchesShape(s: string, p: nat)
    requires p <= |s|
    ensures forall i :: 0 <= i < |Matches(s, p)| ==> IsIdShape(Matches(s, p)[i])
    decreases |s| - p
  {
    if p < |s| {
      match IdAt(s, p)
      case Some(n) =>
        IdAtShape(s, p);
        MatchesShape(s, p + n);
        var rest := Matches(s, p + n);
        assert forall i :: 1 <= i < |Matches(s, p)| ==> Matches(s, p)[i] == rest[i - 1];
      case None =>
        MatchesShape(s, p + 1);
    }
  }

  function FindAll(text: string): (ms: seq<string>)
    ensures forall i :: 0 <= i < |ms| ==> IsIdShape(ms[i])
  {
    MatchesShape(text, 0);
    Matches(text, 0)
  }

  /** No digit in `s[p..q]`. */
  predicate NoDigitBetween(s: string, p: nat, q: nat) {
    forall k :: p <= k < q && k < |s| ==> !IsDigit(s[k])
  }

  /** Positions without a digit are skipped over. */
  lemma {:induction false} MatchesSkip(s: string, p: nat, q: nat)
    requires p <= q <= |s|
    requires NoDigitBetween(s, p, q)
    ensures Matches(s, p) == Matches(s, q)
    decreases q - p
  {
    if p < q {
      assert IdAt(s, p) == None;
      MatchesSkip(s, p + 1, q);
    }
  }

  /** A match at `p` is the next capture. */
  lemma MatchesHere(s: string, p: nat, n: nat)
    requires p < |s| && IdAt(s, p) == Some(n)
    ensures Matches(s, p) == [s[p..p + n]] + Matches(s, p + n)
  {
  }

  lemma SliceShift(a: string, b: string, i: nat, j: nat)
    requires i <= j <= |b|
    ensures (a + b)[|a| + i..|a| + j] == b[i..j]
  {
  }

  /** No match at `p`: the search moves on by one. */
  lemma MatchesMiss(s: string, p: nat)
    requires p < |s| && IdAt(s, p) == None
    ensures Matches(s, p) == Matches(s, p + 1)
  {
  }

  // ---------------------------------------------------------------- version stripping

  /** Where `$` can match for a trailing suffix: the end, or just before a final newline. */
  function SuffixEnd(s: string): (e: nat)
    ensures e <= |s|
  {
    if |s| > 0 && s[|s| - 1] == '\n' then |s| - 1 else |s|
  }

  /** The start of the maximal run of digits that ends at `e`. */
  function DigitsBackFrom(s: string, e: nat): (d: nat)
    requires e <= |s|
    ensures d <= e
    ensures AllDigits(s[d..e])
    ensures d == 0 || !IsDigit(s[d - 1])
  {
    if e > 0 && IsDigit(s[e - 1]) then
      var d := DigitsBackFrom(s, e - 1);
      assert s[d..e] == s[d..e - 1] + [s[e - 1]];
      d
    else e
  }

  /**
   * `re.sub(r'v\d+$', '', s)`: a lower-case `v` followed by digits up to the end (or up to a final
   * newline) is removed; the substitution is case-sensitive, so `V` stays.
   */
  function StripVersion(s: string): (r: string)
    ensures |r| <= |s|
  {
    var e := SuffixEnd(s);
    var d := DigitsBackFrom(s, e);
    if d < e && d >= 1 && s[d - 1] == 'v' then s[..d - 1] + s[e..] else s
  }

  /** Stripping removes exactly a trailing `v<digits>` from a string with no final newline, and nothing otherwise. */
  lemma StripVersionRemovesTag(s: string)
    requires s == [] || s[|s| - 1] != '\n'
    ensures var r := StripVersion(s);
      r <= s && (r == s || (s[|r|] == 'v' && |s| >= |r| + 2 && AllDigits(s[|r| + 1..])))
  {
    var e := SuffixEnd(s);
    assert e == |s|;
    var d := DigitsBackFrom(s, e);
    if d < e && d >= 1 && s[d - 1] == 'v' {
      assert s[e..] == [];
      assert StripVersion(s) == s[..d - 1];
      assert s[d..] == s[d..e];
    }
  }

  /** A lower-case version tag is stripped from an ID; an unversioned ID or an upper-case tag is kept. */
  lemma StripVersionOfIds(core: string, digits: string)
    requires |core| >= 9 && AllDigits(core[..4]) && core[4] == '.' && AllDigits(core[5..])
    requires |digits| >= 1 && AllDigits(digits)
    ensures StripVersion(core) == core
    ensures StripVersion(core + "v" + digits) == core
    ensures StripVersion(core + "V" + digits) == core + "V" + digits
  {
    StripUnversioned(core);
    StripTagged(core, 'v', digits);
    StripTagged(core, 'V', digits);
  }

  /** An ID ending in `.` and digits, with no tag, is its own key. */
  lemma StripUnversioned(core: string)
    requires |core| >= 9 && core[4] == '.' && AllDigits(core[5..])
    ensures StripVersion(core) == core
  {
    assert core[4] == '.' && !IsDigit(core[4]);
    assert SuffixEnd(core) == |core|;
    DigitsBackWithin(core, 5);
    assert core[4] != 'v';
  }

  /** A string, a non-digit `c` and digits: the tag goes exactly when `c` is `v`. */
  lemma StripTagged(core: string, c: char, digits: string)
    requires !IsDigit(c) && |digits| >= 1 && AllDigits(digits)
    ensures StripVersion(core + [c] + digits) == if c == 'v' then core else core + [c] + digits
  {
    var s := core + [c] + digits;
    assert s[|core|] == c && s[..|core|] == core && s[|core| + 1..] == digits;
    DigitsBackExact(s, |core| + 1);
    assert SuffixEnd(s) == |s|;
    assert s[|s|..] == [];
  }

  lemma {:induction false} DigitsBackExact(s: string, d: nat)
    requires 1 <= d <= |s| && !IsDigit(s[d - 1]) && AllDigits(s[d..])
    ensures SuffixEnd(s) == |s| || d == |s|
    ensures DigitsBackFrom(s, |s|) == d
    decreases |s| - d
  {
    if d < |s| {
      DigitsBackExactAt(s, d, |s|);
    }
  }

  lemma {:induction false} DigitsBackExactAt(s: string, d: nat, e: nat)
    requires 1 <= d <= e <= |s| && !IsDigit(s[d - 1]) && AllDigits(s[d..e])
    ensures DigitsBackFrom(s, e) == d
    decreases e - d
  {
    if d < e {
      assert s[d..e - 1] == s[d..e][..e - 1 - d];
      assert s[e - 1] == s[d..e][e - 1 - d];
      DigitsBackExactAt(s, d, e - 1);
    }
  }

  /** In `ddddd.dddd…` the backward digit run from the end stops after the dot. */
  lemma DigitsBackWithin(core: string, d: nat)
    requires d == 5 && |core| >= 9 && core[4] == '.' && AllDigits(core[5..])
    ensures DigitsBackFrom(core, |core|) == 5
  {
    assert core[d..|core|] == core[5..];
    DigitsBackExactAt(core, 5, |core|);
  }

  // ---------------------------------------------------------------- extract_arxiv_ids

  /** The keys of a list of strings, in order (`[re.sub(r'v\d+$', '', i) for i in ids]` for the version key). */
  function KeysOf(ids: seq<string>, key: string -> string): (ks: seq<string>)
    ensures |ks| == |ids| && forall i :: 0 <= i < |ids| ==> ks[i] == key(ids[i])
  {
    seq(|ids|, i requires 0 <= i < |ids| => key(ids[i]))
  }

  /** Keep an element unless an earlier kept one has its key. */
  function DedupBy(ms: seq<string>, key: string -> string): seq<string> {
    if ms == [] then []
    else
      var prev := DedupBy(ms[..|ms| - 1], key);
      var m := ms[|ms| - 1];
      if key(m) in KeysOf(prev, key) then prev else prev + [m]
  }

  /** The index of the first element with key `b`, or `|ms|`. */
  function FirstWithKey(ms: seq<string>, key: string -> string, b: string): (i: nat)
    ensures i <= |ms|
    ensures i < |ms| ==> key(ms[i]) == b
    ensures forall j :: 0 <= j < i ==> key(ms[j]) != b
  {
    if ms == [] then 0
    else if key(ms[0]) == b then 0
    else
      var k := FirstWithKey(ms[1..], key, b);
      assert forall j :: 1 <= j < 1 + k ==> ms[j] == ms[1..][j - 1];
      1 + k
  }

  lemma FirstWithKeyAppend(ms: seq<string>, m: string, key: string -> string, b: string)
    ensures FirstWithKey(ms + [m], key, b) == if FirstWithKey(ms, key, b) < |ms| then FirstWithKey(ms, key, b)
                                              else if key(m) == b then |ms| else |ms| + 1
  {
    var all := ms + [m];
    var j := FirstWithKey(ms, key, b);
    forall k | 0 <= k < |ms| ensures all[k] == ms[k] { }
    assert all[|ms|] == m;
    if j < |ms| {
      assert key(all[j]) == b;
      forall k | 0 <= k < j ensures key(all[k]) != b { }
    } else {
      forall k | 0 <= k < |ms| ensures key(all[k]) != b { }
    }
  }

  /** The facts that pin down the result of deduplicating `ms` by `key`. */
  predicate DedupSpec(ms: seq<string>, ids: seq<string>, key: string -> string) {
    // every element's key is represented
    && (forall k :: 0 <= k < |ms| ==> key(ms[k]) in KeysOf(ids, key))
    // no two kept elements share a key
    && (forall i, j :: 0 <= i < j < |ids| ==> key(ids[i]) != key(ids[j]))
    // each kept element is the first one with its key
    && (forall i :: 0 <= i < |ids| ==>
          FirstWithKey(ms, key, key(ids[i])) < |ms| && ms[FirstWithKey(ms, key, key(ids[i]))] == ids[i])
    // first-appearance order
    && (forall i, j :: 0 <= i < j < |ids| ==>
          FirstWithKey(ms, key, key(ids[i])) < FirstWithKey(ms, key, key(ids[j])))
  }

  lemma {:induction false} DedupMeetsSpec(ms: seq<string>, key: string -> string)
    ensures DedupSpec(ms, DedupBy(ms, key), key)
    decreases |ms|
  {
    if ms != [] {
      var init := ms[..|ms| - 1];
      var m := ms[|ms| - 1];
      assert ms == init + [m];
      DedupMeetsSpec(init, key);
      var prev := DedupBy(init, key);
      var ids := DedupBy(ms, key);
      forall c ensures FirstWithKey(ms, key, c) == if FirstWithKey(init, key, c) < |init| then FirstWithKey(init, key, c)
                                                 else if key(m) == c then |init| else |init| + 1 {
        FirstWithKeyAppend(init, m, key, c);
      }
      if key(m) in KeysOf(prev, key) {
        DedupKeep(ms, init, m, prev, key);
      } else {
        DedupAdd(ms, init, m, prev, key);
      }
    }
  }

  lemma DedupKeep(ms: seq<string>, init: seq<string>, m: string, prev: seq<string>, key: string -> string)
    requires ms == init + [m] && DedupSpec(init, prev, key) && key(m) in KeysOf(prev, key)
    requires forall c :: FirstWithKey(ms, key, c) == if FirstWithKey(init, key, c) < |init| then FirstWithKey(init, key, c)
                                                    else if key(m) == c then |init| else |init| + 1
    ensures DedupSpec(ms, prev, key)
  {
    forall k | 0 <= k < |ms| ensures key(ms[k]) in KeysOf(prev, key) {
      if k < |init| { assert ms[k] == init[k]; }
    }
    forall i | 0 <= i < |prev| ensures FirstWithKey(ms, key, key(prev[i])) == FirstWithKey(init, key, key(prev[i])) { }
  }

  lemma DedupAdd(ms: seq<string>, init: seq<string>, m: string, prev: seq<string>, key: string -> string)
    requires ms == init + [m] && DedupSpec(init, prev, key) && key(m) !in KeysOf(prev, key)
    requires forall c :: FirstWithKey(ms, key, c) == if FirstWithKey(init, key, c) < |init| then FirstWithKey(init, key, c)
                                                    else if key(m) == c then |init| else |init| + 1
    ensures DedupSpec(ms, prev + [m], key)
  {
    var ids := prev + [m];
    DedupAddCovers(ms, init, m, prev, key);
    DedupAddDistinct(prev, m, key);
    DedupAddFirst(ms, init, m, prev, key);
    forall i | 0 <= i < |ids| ensures ids[i] == (if i < |prev| then prev[i] else m) { }
    forall i | 0 <= i < |ids|
      ensures FirstWithKey(ms, key, key(ids[i])) < |ms| && ms[FirstWithKey(ms, key, key(ids[i]))] == ids[i]
    {
      if i < |prev| { assert ms[FirstWithKey(init, key, key(prev[i]))] == init[FirstWithKey(init, key, key(prev[i]))]; }
    }
  }

  lemma DedupAddDistinct(prev: seq<string>, m: string, key: string -> string)
    requires forall i, j :: 0 <= i < j < |prev| ==> key(prev[i]) != key(prev[j])
    requires key(m) !in KeysOf(prev, key)
    ensures forall i, j :: 0 <= i < j < |prev + [m]| ==> key((prev + [m])[i]) != key((prev + [m])[j])
  {
    var ids := prev + [m];
    forall i | 0 <= i < |prev| ensures key(prev[i]) != key(m) {
      assert KeysOf(prev, key)[i] == key(prev[i]);
    }
    forall i, j | 0 <= i < j < |ids| ensures key(ids[i]) != key(ids[j]) {
      assert ids[i] == prev[i];
    }
  }

  /** Where the first occurrences of the kept keys sit once `m` is appended. */
  lemma DedupAddFirst(ms: seq<string>, init: seq<string>, m: string, prev: seq<string>, key: string -> string)
    requires ms == init + [m] && DedupSpec(init, prev, key) && key(m) !in KeysOf(prev, key)
    requires forall c :: FirstWithKey(ms, key, c) == if FirstWithKey(init, key, c) < |init| then FirstWithKey(init, key, c)
                                                    else if key(m) == c then |init| else |init| + 1
    ensures forall i :: 0 <= i < |prev| ==> FirstWithKey(ms, key, key(prev[i])) == FirstWithKey(init, key, key(prev[i]))
    ensures FirstWithKey(ms, key, key(m)) == |init|
  {
    assert FirstWithKey(init, key, key(m)) == |init|;
  }

  lemma DedupAddCovers(ms: seq<string>, init: seq<string>, m: string, prev: seq<string>, key: string -> string)
    requires ms == init + [m] && DedupSpec(init, prev, key)
    ensures forall k :: 0 <= k < |ms| ==> key(ms[k]) in KeysOf(prev + [m], key)
  {
    var ids := prev + [m];
    forall k | 0 <= k < |ms| ensures key(ms[k]) in KeysOf(ids, key) {
      if k < |init| {
        assert ms[k] == init[k];
        var w :| 0 <= w < |prev| && KeysOf(prev, key)[w] == key(init[k]);
        assert KeysOf(ids, key)[w] == KeysOf(prev, key)[w];
      } else {
        assert KeysOf(ids, key)[|prev|] == key(m);
      }
    }
  }

  /** The keys of the kept elements are exactly the keys of the input. */
  lemma DedupKeysExact(ms: seq<string>, key: string -> string, b: string)
    ensures b in KeysOf(DedupBy(ms, key), key) <==> exists k :: 0 <= k < |ms| && key(ms[k]) == b
  {
    var ids := DedupBy(ms, key);
    DedupMeetsSpec(ms, key);
    if b in KeysOf(ids, key) {
      var i :| 0 <= i < |ids| && KeysOf(ids, key)[i] == b;
      assert key(ms[FirstWithKey(ms, key, b)]) == b;
    }
  }

  /**
   * `extract_arxiv_ids`: the captures, keeping the first one seen for each version-stripped base.
   * The source rebuilds the list of bases of the kept IDs before each membership test.
   */
  method ExtractArxivIds(text: string) returns (ids: seq<string>)
    ensures ids == DedupBy(FindAll(text), StripVersion)
    ensures DedupSpec(FindAll(text), ids, StripVersion)
    ensures forall i :: 0 <= i < |ids| ==> IsIdShape(ids[i])
  {
    var matches := FindAll(text);
    ids := [];
    var i := 0;
    while i < |matches|
      invariant 0 <= i <= |matches|
      invariant ids == DedupBy(matches[..i], StripVersion)
    {
      DedupByStep(matches, i, StripVersion);
      var baseId := StripVersion(matches[i]);
      var seen := KeysOf(ids, StripVersion);
      if baseId !in seen {
        ids := ids + [matches[i]];
      }
      i := i + 1;
    }
    assert matches[..i] == matches;
    DedupMeetsSpec(matches, StripVersion);
    DedupKeepsElements(matches, StripVersion);
  }

  /** One more element: kept when its key is new, skipped otherwise. */
  lemma DedupByStep(ms: seq<string>, i: nat, key: string -> string)
    requires i < |ms|
    ensures var prev := DedupBy(ms[..i], key);
      DedupBy(ms[..i + 1], key) == if key(ms[i]) in KeysOf(prev, key) then prev else prev + [ms[i]]
  {
    assert ms[..i + 1][..i] == ms[..i];
  }

  /** Every kept element is one of the input's. */
  lemma DedupKeepsElements(ms: seq<string>, key: string -> string)
    ensures forall k :: 0 <= k < |DedupBy(ms, key)| ==> DedupBy(ms, key)[k] in ms
  {
    var ids := DedupBy(ms, key);
    DedupMeetsSpec(ms, key);
    forall k | 0 <= k < |ids| ensures ids[k] in ms {
      var f := FirstWithKey(ms, key, key(ids[k]));
      assert ids[k] == ms[f];
    }
  }

  // ---------------------------------------------------------------- examples

  lemma DedupSingle(x: string, key: string -> string)
    ensures DedupBy([x], key) == [x]
  {
    assert [x][..0] == [];
  }

  /** The scan looks only forward: a prefix does not change what is matched after it. */
  lemma {:induction false} DigitsAtShift(a: string, b: string, i: nat, n: nat)
    ensures DigitsAt(a + b, |a| + i, n) == DigitsAt(b, i, n)
    decreases n
  {
    if n > 0 {
      DigitsAtShift(a, b, i + 1, n - 1);
      if i < |b| { assert (a + b)[|a| + i] == b[i]; }
    }
  }

  lemma {:induction false} DigitRunShift(a: string, b: string, i: nat)
    requires i <= |b|
    ensures DigitRun(a + b, |a| + i) == DigitRun(b, i)
    decreases |b| - i
  {
    if i < |b| {
      assert (a + b)[|a| + i] == b[i];
      DigitRunShift(a, b, i + 1);
    }
  }

  lemma IdAtShift(a: string, b: string, p: nat)
    requires p <= |b|
    ensures IdAt(a + b, |a| + p) == IdAt(b, p)
  {
    IdHeadShift(a, b, p);
    DigitsAtShift(a, b, p + 9, 1);
    TagLenShift(a, b, p + 9);
    TagLenShift(a, b, p + 10);
  }

  lemma IdHeadShift(a: string, b: string, p: nat)
    requires p <= |b|
    ensures IdHead(a + b, |a| + p) == IdHead(b, p)
  {
    DigitsAtShift(a, b, p, 4);
    DigitsAtShift(a, b, p + 5, 4);
    if p + 4 < |b| { assert (a + b)[|a| + p + 4] == b[p + 4]; }
  }

  lemma TagLenShift(a: string, b: string, q: nat)
    ensures TagLen(a + b, |a| + q) == TagLen(b, q)
  {
    if q < |b| {
      assert (a + b)[|a| + q] == b[q];
      DigitsAtShift(a, b, q + 1, 1);
      DigitRunShift(a, b, q + 1);
    }
  }

  lemma {:induction false} MatchesShift(a: string, b: string, p: nat)
    requires p <= |b|
    ensures Matches(a + b, |a| + p) == Matches(b, p)
    decreases |b| - p
  {
    if p < |b| {
      IdAtShift(a, b, p);
      var r := IdAt(b, p);
      if r.Some? {
        var n := r.value;
        MatchesShift(a, b, p + n);
        MatchesShiftHit(a, b, p, n);
      } else {
        MatchesShift(a, b, p + 1);
        MatchesShiftMiss(a, b, p);
      }
    }
  }

  lemma MatchesShiftHit(a: string, b: string, p: nat, n: nat)
    requires p < |b| && IdAt(b, p) == Some(n) && IdAt(a + b, |a| + p) == Some(n)
    requires Matches(a + b, |a| + p + n) == Matches(b, p + n)
    ensures Matches(a + b, |a| + p) == Matches(b, p)
  {
    SliceShift(a, b, p, p + n);
    MatchesStep(a + b, |a| + p, b, p, n);
  }

  lemma MatchesStep(s: string, q: nat, t: string, p: nat, n: nat)
    requires q < |s| && p < |t| && IdAt(s, q) == Some(n) && IdAt(t, p) == Some(n)
    requires s[q..q + n] == t[p..p + n] && Matches(s, q + n) == Matches(t, p + n)
    ensures Matches(s, q) == Matches(t, p)
  {
    MatchesHere(s, q, n);
    MatchesHere(t, p, n);
  }

  lemma MatchesShiftMiss(a: string, b: string, p: nat)
    requires p < |b| && IdAt(b, p) == None && IdAt(a + b, |a| + p) == None
    requires Matches(a + b, |a| + p + 1) == Matches(b, p + 1)
    ensures Matches(a + b, |a| + p) == Matches(b, p)
  {
    MatchesMiss(a + b, |a| + p);
    MatchesMiss(b, p);
  }

  /** A digit-free prefix is skipped over. */
  lemma SkipPrefix(a: string, b: string)
    requires forall k :: 0 <= k < |a| ==> !IsDigit(a[k])
    ensures FindAll(a + b) == FindAll(b)
  {
    forall k | 0 <= k < |a| ensures (a + b)[k] == a[k] { }
    MatchesSkip(a + b, 0, |a|);
    MatchesShift(a, b, 0);
  }

  /** What follows a match cannot extend it when it is neither a digit nor a version letter. */
  predicate StopsMatch(post: string) {
    post == [] || (!IsDigit(post[0]) && post[0] != 'v' && post[0] != 'V')
  }

  lemma {:induction false} DigitsAtAppend(x: string, post: string, i: nat, n: nat)
    requires i + n <= |x|
    ensures DigitsAt(x + post, i, n) == DigitsAt(x, i, n)
    decreases n
  {
    if n > 0 {
      assert (x + post)[i] == x[i];
      DigitsAtAppend(x, post, i + 1, n - 1);
    }
  }

  lemma {:induction false} DigitRunAppend(x: string, post: string, i: nat)
    requires i <= |x| && StopsMatch(post)
    ensures DigitRun(x + post, i) == DigitRun(x, i)
    decreases |x| - i
  {
    if i < |x| {
      assert (x + post)[i] == x[i];
      DigitRunAppend(x, post, i + 1);
    } else if post != [] {
      assert (x + post)[i] == post[0];
    }
  }

  /** A whole match stays a whole match when followed by a stopping character. */
  lemma IdAtAppend(x: string, post: string)
    requires IdAt(x, 0) == Some(|x|) && StopsMatch(post)
    ensures IdAt(x + post, 0) == Some(|x|)
  {
    var s := x + post;
    DigitsAtAppend(x, post, 0, 4);
    DigitsAtAppend(x, post, 5, 4);
    assert s[4] == x[4];
    var n := if DigitsAt(x, 9, 1) then 10 else 9;
    if |x| >= 10 {
      DigitsAtAppend(x, post, 9, 1);
    } else {
      assert DigitsAt(x, 9, 1) == false;
      if post != [] { assert s[9] == post[0]; }
    }
    assert DigitsAt(s, 9, 1) == DigitsAt(x, 9, 1);
    if n < |x| {
      assert s[n] == x[n];
      DigitsAtAppend(x, post, n + 1, 1);
      DigitRunAppend(x, post, n + 1);
    } else if post != [] {
      assert s[n] == post[0];
    }
  }

  /** An ID alone is matched whole. */
  lemma BareIds()
    ensures FindAll("2401.01234") == ["2401.01234"]
    ensures FindAll("2401.01234v2") == ["2401.01234v2"]
  {
    assert IdAt("2401.01234", 0) == Some(10);
    MatchesHere("2401.01234", 0, 10);
    assert "2401.01234"[0..10] == "2401.01234";
    assert DigitRun("2401.01234v2", 11) == 1;
    assert IdAt("2401.01234v2", 0) == Some(12);
    MatchesHere("2401.01234v2", 0, 12);
    assert "2401.01234v2"[0..12] == "2401.01234v2";
  }

  /** A text that is one unversioned or versioned ID yields that ID. */
  lemma ExtractBareIds()
    ensures DedupBy(FindAll("2401.01234"), StripVersion) == ["2401.01234"]
    ensures DedupBy(FindAll("2401.01234v2"), StripVersion) == ["2401.01234v2"]
  {
    BareIds();
    DedupSingle("2401.01234", StripVersion);
    DedupSingle("2401.01234v2", StripVersion);
  }

  /** Text without any digit yields no ID. */
  lemma ExtractNone(text: string)
    requires NoDigitBetween(text, 0, |text|)
    ensures FindAll(text) == [] && DedupBy(FindAll(text), StripVersion) == []
  {
    MatchesSkip(text, 0, |text|);
  }

  /** An `/abs/` URL yields the ID it points to, alone. */
  lemma ExtractFromAbsUrl()
    ensures DedupBy(FindAll("https://arxiv.org/abs/" + "2401.01234"), StripVersion) == ["2401.01234"]
  {
    SkipPrefix("https://arxiv.org/abs/", "2401.01234");
    BareIds();
    DedupSingle("2401.01234", StripVersion);
  }

  /** A `/pdf/` URL yields the ID it points to, alone: the `.pdf` extension is not part of it. */
  lemma ExtractFromPdfUrl()
    ensures DedupBy(FindAll("https://arxiv.org/pdf/" + ("2401.01234" + ".pdf")), StripVersion) == ["2401.01234"]
  {
    SkipPrefix("https://arxiv.org/pdf/", "2401.01234" + ".pdf");
    assert IdAt("2401.01234", 0) == Some(10);
    FindAllIdThen("2401.01234", ".pdf");
    ExtractNone(".pdf");
    assert ["2401.01234"] + [] == ["2401.01234"];
    DedupSingle("2401.01234", StripVersion);
  }

  /** A whole-ID text followed by text that cannot extend it: the ID, then what follows yields. */
  lemma FindAllIdThen(x: string, post: string)
    requires |x| > 0 && IdAt(x, 0) == Some(|x|) && StopsMatch(post)
    ensures FindAll(x + post) == [x] + FindAll(post)
  {
    IdAtAppend(x, post);
    MatchesHere(x + post, 0, |x|);
    assert (x + post)[0..|x|] == x;
    MatchesShift(x, post, 0);
  }

  /** Two different IDs, one bare and one in a URL, yield both, in order of appearance. */
  lemma ExtractTwo()
    ensures DedupBy(FindAll("Check out " + ("2401.01234" + (" and https://arxiv.org/abs/" + "2402.56789"))), StripVersion)
            == ["2401.01234", "2402.56789"]
  {
    FindAllTwo();
    var ms := ["2401.01234", "2402.56789"];
    assert ms[..1] == ["2401.01234"];
    DedupSingle("2401.01234", StripVersion);
    assert StripVersion("2402.56789") == "2402.56789";
    assert StripVersion("2401.01234") == "2401.01234";
  }

  lemma FindAllTwo()
    ensures FindAll("Check out " + ("2401.01234" + (" and https://arxiv.org/abs/" + "2402.56789")))
            == ["2401.01234", "2402.56789"]
  {
    var tail := " and https://arxiv.org/abs/" + "2402.56789";
    SkipPrefix("Check out ", "2401.01234" + tail);
    assert IdAt("2401.01234", 0) == Some(10);
    FindAllIdThen("2401.01234", tail);
    FindAllUrlTail();
  }

  lemma FindAllUrlTail()
    ensures FindAll(" and https://arxiv.org/abs/" + "2402.56789") == ["2402.56789"]
  {
    SkipPrefix(" and https://arxiv.org/abs/", "2402.56789");
    assert IdAt("2402.56789", 0) == Some(10);
    MatchesHere("2402.56789", 0, 10);
    assert "2402.56789"[0..10] == "2402.56789";
  }

  // ---------------------------------------------------------------- get_paper

  /** One result of the arXiv API, with the fields the metadata uses. */
  datatype ArxivEntry = ArxivEntry(
    entryId: string,
    title: string,
    authors: seq<string>,
    primaryCategory: string,
    published: Instant,
    summary: string,
    pdfUrl: string)

  /** What the arXiv search for one ID gives: a first result, no result, or an exception. */
  datatype FetchOutcome = Found(entry: ArxivEntry) | NotFound | FetchFailed(error: string)

  /** `s.replace('\n', ' ')`. */
  function NewlinesToSpaces(s: string): (r: string)
    ensures |r| == |s|
    ensures forall i :: 0 <= i < |s| ==> r[i] == (if s[i] == '\n' then ' ' else s[i])
  {
    seq(|s|, i requires 0 <= i < |s| => if s[i] == '\n' then ' ' else s[i])
  }

  /** `entry_id.split('/')[-1]`. */
  function LastPathSegment(url: string): (r: string)
    ensures '/' !in r
    ensures |r| <= |url|
    ensures r <= url[|url| - |r|..] && (|r| == |url| || url[|url| - |r| - 1] == '/')
  {
    var parts := SplitOn(url, '/');
    JoinSplit(url, '/');
    LastPartIsSuffix(parts, '/');
    parts[|parts| - 1]
  }

  lemma {:induction false} LastPartIsSuffix(parts: seq<string>, sep: char)
    requires |parts| >= 1
    ensures var s := Join(parts, [sep]); var r := parts[|parts| - 1];
      |r| <= |s| && s[|s| - |r|..] == r && (|r| == |s| || s[|s| - |r| - 1] == sep)
    decreases |parts|
  {
    if |parts| > 1 {
      LastPartIsSuffix(parts[1..], sep);
      assert parts[1..][|parts[1..]| - 1] == parts[|parts| - 1];
    }
  }

  /** `s.replace('\n', ' ').strip()`: the abstract text the metadata keeps. */
  function FlatAbstract(s: string): (r: string)
    ensures '\n' !in r
  {
    var t := NewlinesToSpaces(s);
    var r := Strip(t);
    forall i | 0 <= i < |r| ensures r[i] != '\n' { assert r[i] == t[LeadingSpaces(t) + i]; }
    r
  }

  /** The metadata record `get_paper` builds from an API result. */
  function Metadata(e: ArxivEntry): Dict {
    map[
      "arxiv_id" := JStr(LastPathSegment(e.entryId)),
      "title" := JStr(e.title),
      "authors" := JArr(seq(|e.authors|, i requires 0 <= i < |e.authors| => JStr(e.authors[i]))),
      "primary_category" := JStr(e.primaryCategory),
      "published" := JStr(IsoFormat(e.published)),
      "abstract" := JStr(FlatAbstract(e.summary)),
      "pdf_url" := JStr(e.pdfUrl),
      "entry_url" := JStr(e.entryId)]
  }

  /**
   * The record is never empty (so a cached record is always truthy), its ID is the last path
   * segment of its entry URL, and its abstract is on one line.
   */
  lemma MetadataFacts(e: ArxivEntry)
    ensures var md := Metadata(e);
      && "arxiv_id" in md && "entry_url" in md && "abstract" in md && Truthy(JObj(md))
      && md["entry_url"].JStr? && md["arxiv_id"].JStr?
      && md["entry_url"].s[|md["entry_url"].s| - |md["arxiv_id"].s|..] == md["arxiv_id"].s
      && '/' !in md["arxiv_id"].s
      && md["abstract"].JStr? && '\n' !in md["abstract"].s
  {
    var md := Metadata(e);
    assert md["arxiv_id"] == JStr(LastPathSegment(e.entryId));
    assert md["entry_url"] == JStr(e.entryId);
    assert md["abstract"] == JStr(FlatAbstract(e.summary));
  }

  class ArxivRetriever {
    const cache: RedisCache

    constructor(cache: RedisCache)
      ensures this.cache == cache
    {
      this.cache := cache;
    }

    /**
     * `get_paper`, with the API's answer for each ID as a parameter. A truthy cached record for
     * the stripped ID is returned without fetching; otherwise a found record is built, stored under
     * the stripped ID and returned, and a missing result or a fetch error yields `None`.
     */
    method GetPaper(arxivId: string, api: string -> FetchOutcome) returns (r: Option<Json>)
      modifies cache
      ensures var key := MetaKey(StripVersion(arxivId));
        if key in old(cache.store) && Truthy(old(cache.store)[key]) then
          r == Some(old(cache.store)[key]) && cache.store == old(cache.store)
        else if api(arxivId).Found? then
          r == Some(JObj(Metadata(api(arxivId).entry))) && cache.store == old(cache.store)[key := r.value]
        else
          r == None && cache.store == old(cache.store)
      ensures var key := MetaKey(StripVersion(arxivId));
        cache.ttl == if !(key in old(cache.store) && Truthy(old(cache.store)[key])) && api(arxivId).Found?
                     then old(cache.ttl)[key := TtlMetadata] else old(cache.ttl)
      ensures r.Some? ==> Truthy(r.value)
      ensures cache.counters == old(cache.counters)
    {
      var baseId := StripVersion(arxivId);
      var cached := cache.GetPaperMetadata(baseId);
      if cached.Some? && Truthy(cached.value) {
        return cached;
      }
      match api(arxivId)
      case NotFound =>
        return None;
      case FetchFailed(_) =>
        return None;
      case Found(entry) =>
        var metadata := JObj(Metadata(entry));
        MetadataFacts(entry);
        cache.SetPaperMetadata(baseId, metadata);
        return Some(metadata);
    }

    /**
     * `get_papers_batch`: one entry per requested ID, filled in request order by `get_paper`, so the
     * answers, the store and the expiry times are those of `BatchRun`; every record found is truthy.
     */
    method GetPapersBatch(arxivIds: seq<string>, api: string -> FetchOutcome) returns (results: map<string, Option<Json>>)
      modifies cache
      ensures results.Keys == set x | x in arxivIds
      ensures forall x :: x in results && results[x].Some? ==> Truthy(results[x].value)
      ensures BatchRun(old(cache.store), old(cache.ttl), arxivIds, api)
              == BatchState(results, cache.store, cache.ttl)
      ensures old(cache.store).Keys <= cache.store.Keys
      ensures cache.counters == old(cache.counters)
    {
      results := map[];
      var i := 0;
      while i < |arxivIds|
        invariant 0 <= i <= |arxivIds|
        invariant results.Keys == set x | x in arxivIds[..i]
        invariant forall x :: x in results && results[x].Some? ==> Truthy(results[x].value)
        invariant BatchRun(old(cache.store), old(cache.ttl), arxivIds[..i], api)
                  == BatchState(results, cache.store, cache.ttl)
        invariant old(cache.store).Keys <= cache.store.Keys
        invariant cache.counters == old(cache.counters)
      {
        var paper := GetPaper(arxivIds[i], api);
        results := results[arxivIds[i] := paper];
        assert arxivIds[..i + 1] == arxivIds[..i] + [arxivIds[i]];
        assert arxivIds[..i + 1][..i] == arxivIds[..i];
        i := i + 1;
      }
      assert arxivIds[..i] == arxivIds;
    }
  }

  /** The answer `get_paper` gives for `arxivId` against the store `store`. */
  function PaperLookup(store: map<string, Json>, arxivId: string, api: string -> FetchOutcome): Option<Json> {
    var key := MetaKey(StripVersion(arxivId));
    if key in store && Truthy(store[key]) then Some(store[key])
    else if api(arxivId).Found? then Some(JObj(Metadata(api(arxivId).entry)))
    else None
  }

  /** Whether `get_paper` fetches `arxivId` and writes its record to the store. */
  predicate PaperWritten(store: map<string, Json>, arxivId: string, api: string -> FetchOutcome) {
    var key := MetaKey(StripVersion(arxivId));
    !(key in store && Truthy(store[key])) && api(arxivId).Found?
  }

  /** What `get_papers_batch` has built after a prefix of the IDs. */
  datatype BatchState = BatchState(results: map<string, Option<Json>>, store: map<string, Json>, ttl: map<string, int>)

  /** `get_paper` applied to each ID in turn, each call seeing the store the previous ones left. */
  function BatchRun(store: map<string, Json>, ttl: map<string, int>, ids: seq<string>,
                    api: string -> FetchOutcome): (b: BatchState)
    ensures b.results.Keys == set x | x in ids
  {
    if ids == [] then BatchState(map[], store, ttl)
    else
      var b := BatchRun(store, ttl, ids[..|ids| - 1], api);
      var id := ids[|ids| - 1];
      var key := MetaKey(StripVersion(id));
      var answer := PaperLookup(b.store, id, api);
      assert forall x :: x in ids <==> x in ids[..|ids| - 1] || x == id by {
        assert ids == ids[..|ids| - 1] + [id];
      }
      if PaperWritten(b.store, id, api) then
        BatchState(b.results[id := answer], b.store[key := answer.value], b.ttl[key := TtlMetadata])
      else
        BatchState(b.results[id := answer], b.store, b.ttl)
  }

  /**
   * The answer a batch records for an ID is the one `get_paper` gave at the ID's last occurrence,
   * against the store the earlier IDs left: a repeated ID is overwritten by its later lookup.
   */
  lemma {:induction false} BatchAnswerIsLastLookup(store: map<string, Json>, ttl: map<string, int>, ids: seq<string>,
                                                   api: string -> FetchOutcome, j: nat)
    requires j < |ids|
    requires forall k :: j < k < |ids| ==> ids[k] != ids[j]
    ensures BatchRun(store, ttl, ids, api).results[ids[j]]
            == PaperLookup(BatchRun(store, ttl, ids[..j], api).store, ids[j], api)
  {
    var n := |ids| - 1;
    var pre := ids[..n];
    var whole := BatchRun(store, ttl, ids, api);
    var before := BatchRun(store, ttl, pre, api);
    BatchLastAnswer(store, ttl, ids, api);
    assert whole.results == before.results[ids[n] := PaperLookup(before.store, ids[n], api)];
    if j < n {
      assert pre[j] == ids[j] && pre[..j] == ids[..j];
      assert ids[j] in before.results;
      BatchAnswerIsLastLookup(store, ttl, pre, api, j);
      assert whole.results[ids[j]] == before.results[ids[j]];
    } else {
      assert pre == ids[..j];
    }
  }

  /** The last ID of a batch gets its lookup against the store the others left; the rest keep theirs. */
  lemma BatchLastAnswer(store: map<string, Json>, ttl: map<string, int>, ids: seq<string>, api: string -> FetchOutcome)
    requires ids != []
    ensures var pre := BatchRun(store, ttl, ids[..|ids| - 1], api);
      BatchRun(store, ttl, ids, api).results
      == pre.results[ids[|ids| - 1] := PaperLookup(pre.store, ids[|ids| - 1], api)]
  {
  }

  /** A truthy cached record is never replaced during a batch. */
  lemma {:induction false} BatchKeepsTruthy(store: map<string, Json>, ttl: map<string, int>, ids: seq<string>,
                                            api: string -> FetchOutcome, key: string)
    requires key in store && Truthy(store[key])
    ensures var b := BatchRun(store, ttl, ids, api); key in b.store && b.store[key] == store[key]
  {
    if ids != [] {
      BatchKeepsTruthy(store, ttl, ids[..|ids| - 1], api, key);
    }
  }

  /**
   * Every requested ID whose stripped form has a truthy cached record is answered with that record,
   * whatever the API would say.
   */
  lemma {:induction false} BatchServesCached(store: map<string, Json>, ttl: map<string, int>, ids: seq<string>,
                                             api: string -> FetchOutcome, x: string)
    requires x in ids
    requires MetaKey(StripVersion(x)) in store && Truthy(store[MetaKey(StripVersion(x))])
    ensures BatchRun(store, ttl, ids, api).results[x] == Some(store[MetaKey(StripVersion(x))])
  {
    var n := |ids| - 1;
    if ids[n] == x {
      BatchKeepsTruthy(store, ttl, ids[..n], api, MetaKey(StripVersion(x)));
    } else {
      assert ids == ids[..n] + [ids[n]];
      assert x in ids[..n];
      BatchServesCached(store, ttl, ids[..n], api, x);
    }
  }
}
