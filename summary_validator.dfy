/**
 * The rule-based checker for Stage-B summaries (`SummaryValidator`): required keys, section
 * length and sentence counts, bullet-point counts, the CJK-script check, and the
 * truncate-to-sentence-boundary repair.
 */
module SummaryValidator {
  import opened Wrappers
  import opened JsonValues
  import opened Text

  const RequiredKeys: seq<string> := ["intro", "background", "method", "conclusion", "bullet_points", "limitations"]
  const SectionKeys: seq<string> := ["intro", "background", "method", "conclusion"]
  /** The fields the script check looks at: the four sections, then limitations. */
  const LanguageKeys: seq<string> := SectionKeys + ["limitations"]

  const MaxCharsPerSection := 900
  const MinSentences := 2
  const MaxSentences := 4
  const MinBulletPoints := 3
  const MaxBulletPoints := 5

  /** The boundary marks `truncate_sections` tries, in this priority order. */
  const Delimiters: string := "。！？.!?"

  // ---------------------------------------------------------------- sentences

  /** The characters of the class `[。!?！？.]` that `count_sentences` splits at. */
  predicate IsTerminator(c: char) {
    c == '。' || c == '!' || c == '?' || c == '！' || c == '？' || c == '.'
  }

  /** Drops the run of terminators at the start of `s`. */
  function SkipTerminators(s: string): (r: string)
    ensures |r| <= |s| && r == s[|s| - |r|..]
    ensures r == [] || !IsTerminator(r[0])
  {
    if s != [] && IsTerminator(s[0]) then SkipTerminators(s[1..]) else s
  }

  /** `re.split(r'[。!?！？.]+', s)`: the pieces between maximal runs of terminators. */
  function SplitSentences(s: string): (pieces: seq<string>)
    ensures |pieces| >= 1
    ensures forall k, i :: 0 <= k < |pieces| && 0 <= i < |pieces[k]| ==> !IsTerminator(pieces[k][i])
    decreases |s|
  {
    if s == [] then [""]
    else if IsTerminator(s[0]) then [""] + SplitSentences(SkipTerminators(s[1..]))
    else
      var rest := SplitSentences(s[1..]);
      [[s[0]] + rest[0]] + rest[1..]
  }

  /** Number of pieces that are not blank. */
  function CountNonBlank(pieces: seq<string>): nat {
    if pieces == [] then 0 else (if IsBlank(pieces[0]) then 0 else 1) + CountNonBlank(pieces[1..])
  }

  /** `count_sentences`: the non-blank pieces left after splitting at terminator runs. */
  function CountSentences(text: string): nat {
    CountNonBlank(SplitSentences(text))
  }

  lemma CountNonBlankCons(p: string, ps: seq<string>)
    ensures CountNonBlank([p] + ps) == (if IsBlank(p) then 0 else 1) + CountNonBlank(ps)
  {
    assert ([p] + ps)[1..] == ps;
  }

  /** A leading run of terminators does not change the count. */
  lemma {:induction false} CountSkip(s: string)
    ensures CountSentences(SkipTerminators(s)) == CountSentences(s)
    decreases |s|
  {
    if s != [] && IsTerminator(s[0]) {
      CountSkip(s[1..]);
      CountNonBlankCons("", SplitSentences(SkipTerminators(s[1..])));
      assert SkipTerminators(s) == SkipTerminators(s[1..]);
      assert SkipTerminators(SkipTerminators(s[1..])) == SkipTerminators(s[1..]);
    }
  }

  /** Prepending a non-terminator extends the first piece. */
  lemma CountCons(c: char, x: string)
    requires !IsTerminator(c)
    ensures CountSentences([c] + x)
         == CountSentences(x) + (if !IsSpace(c) && IsBlank(SplitSentences(x)[0]) then 1 else 0)
  {
    var s := [c] + x;
    assert s[1..] == x;
    var rest := SplitSentences(x);
    assert SplitSentences(s) == [[c] + rest[0]] + rest[1..];
    CountNonBlankCons([c] + rest[0], rest[1..]);
    CountNonBlankCons(rest[0], rest[1..]);
    assert rest == [rest[0]] + rest[1..];
    assert IsBlank([c] + rest[0]) <==> IsSpace(c) && IsBlank(rest[0]) by {
      if IsSpace(c) && IsBlank(rest[0]) {
        forall i | 0 <= i < |[c] + rest[0]| ensures IsSpace(([c] + rest[0])[i]) {
          if i > 0 { assert ([c] + rest[0])[i] == rest[0][i - 1]; }
        }
      }
      if IsBlank([c] + rest[0]) {
        assert ([c] + rest[0])[0] == c;
        forall i | 0 <= i < |rest[0]| ensures IsSpace(rest[0][i]) {
          assert ([c] + rest[0])[i + 1] == rest[0][i];
        }
      }
    }
  }

  /** The first piece only depends on the text before the first terminator. */
  lemma {:induction false} FirstPieceStable(a: string, t: char, b: string)
    requires IsTerminator(t)
    ensures SplitSentences(a + [t] + b)[0] == SplitSentences(a)[0]
    decreases |a|
  {
    var s := a + [t] + b;
    if a == [] {
      assert s[0] == t;
    } else if IsTerminator(a[0]) {
      assert s[0] == a[0];
    } else {
      assert s[0] == a[0] && s[1..] == a[1..] + [t] + b;
      FirstPieceStable(a[1..], t, b);
    }
  }

  /** A terminator between two texts separates their sentences: the counts add up. */
  lemma {:induction false} CountSplitsAtTerminator(a: string, t: char, b: string)
    requires IsTerminator(t)
    ensures CountSentences(a + [t] + b) == CountSentences(a) + CountSentences(b)
    decreases |a|
  {
    var s := a + [t] + b;
    if a == [] {
      assert s == [t] + b && s[1..] == b;
      CountNonBlankCons("", SplitSentences(SkipTerminators(b)));
      CountSkip(b);
    } else if IsTerminator(a[0]) {
      assert s[0] == a[0] && s[1..] == a[1..] + [t] + b;
      CountNonBlankCons("", SplitSentences(SkipTerminators(s[1..])));
      CountSkip(s[1..]);
      CountNonBlankCons("", SplitSentences(SkipTerminators(a[1..])));
      CountSkip(a[1..]);
      CountSplitsAtTerminator(a[1..], t, b);
    } else {
      assert s == [a[0]] + (a[1..] + [t] + b);
      assert a == [a[0]] + a[1..];
      CountCons(a[0], a[1..] + [t] + b);
      CountCons(a[0], a[1..]);
      FirstPieceStable(a[1..], t, b);
      CountSplitsAtTerminator(a[1..], t, b);
    }
  }

  /** Repeating a terminator adds nothing to the count. */
  lemma RepeatedTerminators(a: string, t: char, u: char, b: string)
    requires IsTerminator(t) && IsTerminator(u)
    ensures CountSentences(a + [t, u] + b) == CountSentences(a + [t] + b)
  {
    var ub := [u] + b;
    assert a + [t, u] + b == a + [t] + ub;
    CountSplitsAtTerminator(a, t, ub);
    LeadingTerminator(u, b);
    CountSplitsAtTerminator(a, t, b);
  }

  /** A text opening with a terminator counts as the text after it. */
  lemma LeadingTerminator(u: char, b: string)
    requires IsTerminator(u)
    ensures CountSentences([u] + b) == CountSentences(b)
  {
    var s := [u] + b;
    assert s[0] == u && s[1..] == b;
    CountNonBlankCons("", SplitSentences(SkipTerminators(b)));
    CountSkip(b);
  }

  /** A text without any terminator is a single piece: one sentence unless it is blank. */
  lemma {:induction false} CountWithoutTerminator(text: string)
    requires forall i :: 0 <= i < |text| ==> !IsTerminator(text[i])
    ensures CountSentences(text) == if IsBlank(text) then 0 else 1
    decreases |text|
  {
    if text != [] {
      CountWithoutTerminator(text[1..]);
      assert text == [text[0]] + text[1..];
      CountCons(text[0], text[1..]);
      NoTerminatorOnePiece(text[1..]);
      assert IsBlank(text) <==> IsSpace(text[0]) && IsBlank(text[1..]) by {
        if IsSpace(text[0]) && IsBlank(text[1..]) {
          forall i | 0 <= i < |text| ensures IsSpace(text[i]) { if i > 0 { assert text[i] == text[1..][i - 1]; } }
        }
      }
    }
  }

  lemma {:induction false} NoTerminatorOnePiece(text: string)
    requires forall i :: 0 <= i < |text| ==> !IsTerminator(text[i])
    ensures SplitSentences(text) == [text]
    decreases |text|
  {
    if text != [] {
      NoTerminatorOnePiece(text[1..]);
      assert text == [text[0]] + text[1..];
    }
  }

  /** Empty and all-whitespace text has no sentence. */
  lemma BlankHasNoSentence(text: string)
    requires IsBlank(text)
    ensures CountSentences(text) == 0
  {
    CountWithoutTerminator(text);
  }

  // ---------------------------------------------------------------- validate

  /** The `kind:field` tags `validate` reports, as a datatype; `Tag` renders the string. */
  datatype Violation =
    | Missing(key: string)
    | TooLong(section: string)
    | TooFewSentences(section: string)
    | TooManySentences(section: string)
    | BulletsInvalidType
    | BulletsTooFew
    | BulletsTooMany
    | NotChinese(field: string)

  function Tag(v: Violation): string {
    match v
    case Missing(k) => "missing:" + k
    case TooLong(s) => "too_long:" + s
    case TooFewSentences(s) => "too_few_sentences:" + s
    case TooManySentences(s) => "too_many_sentences:" + s
    case BulletsInvalidType => "invalid_type:bullet_points"
    case BulletsTooFew => "too_few:bullet_points"
    case BulletsTooMany => "too_many:bullet_points"
    case NotChinese(f) => "language:not_chinese:" + f
  }

  /** The `(is_valid, violations)` pair. */
  datatype Verdict = Verdict(ok: bool, violations: seq<Violation>)

  /** `re.search(r'[一-鿿]', text)` finds something. */
  predicate HasCjk(text: string) {
    exists i :: 0 <= i < |text| && '一' <= text[i] <= '鿿'
  }

  /** `missing:<key>` for each key of `keys` absent from the summary, in order. */
  function MissingKeys(summary: Dict, keys: seq<string>): seq<Violation> {
    if keys == [] then []
    else
      var k := keys[|keys| - 1];
      MissingKeys(summary, keys[..|keys| - 1]) + (if k !in summary then [Missing(k)] else [])
  }

  /** The length and sentence-count tags of one section. */
  function SectionViolations(name: string, text: string): seq<Violation> {
    var n := CountSentences(text);
    (if |text| > MaxCharsPerSection then [TooLong(name)] else [])
    + (if n < MinSentences then [TooFewSentences(name)]
       else if n > MaxSentences then [TooManySentences(name)]
       else [])
  }

  function SectionsViolations(summary: Dict, keys: seq<string>): seq<Violation>
    requires forall k :: k in keys ==> k in summary && summary[k].JStr?
  {
    if keys == [] then []
    else
      var k := keys[|keys| - 1];
      SectionsViolations(summary, keys[..|keys| - 1]) + SectionViolations(k, summary[k].s)
  }

  /** The bullet-point tag, if any. */
  function BulletViolations(v: Json): seq<Violation> {
    match v
    case JArr(items) =>
      if |items| < MinBulletPoints then [BulletsTooFew]
      else if |items| > MaxBulletPoints then [BulletsTooMany]
      else []
    case _ => [BulletsInvalidType]
  }

  /** The script tag of one field (a falsy non-string value is skipped). */
  function LanguageViolation(name: string, v: Json): seq<Violation> {
    match v
    case JStr(text) => if text != "" && !HasCjk(text) then [NotChinese(name)] else []
    case _ => []
  }

  function LanguageViolations(summary: Dict, keys: seq<string>): seq<Violation>
    requires forall k :: k in keys ==> k in summary
  {
    if keys == [] then []
    else
      var k := keys[|keys| - 1];
      LanguageViolations(summary, keys[..|keys| - 1]) + LanguageViolation(k, summary[k])
  }

  /**
   * With every key present, `validate` raises TypeError unless each section is a string
   * (`len` and `re.split` need one) and limitations is a string or falsy (`re.search`).
   */
  predicate WellTyped(summary: Dict)
    requires forall k :: k in RequiredKeys ==> k in summary
  {
    && (forall k :: k in SectionKeys ==> summary[k].JStr?)
    && (summary["limitations"].JStr? || !Truthy(summary["limitations"]))
  }

  /** What `validate` returns, or that it raises. */
  function Validation(summary: Dict): Result<Verdict> {
    var missing := MissingKeys(summary, RequiredKeys);
    if missing != [] then Ok(Verdict(false, missing))
    else
      MissingKeysNone(summary, RequiredKeys);
      if !WellTyped(summary) then Raised("TypeError")
      else
        var v := SectionsViolations(summary, SectionKeys) + BulletViolations(summary["bullet_points"])
                 + LanguageViolations(summary, LanguageKeys);
        Ok(Verdict(v == [], v))
  }

  lemma {:induction false} MissingKeysNone(summary: Dict, keys: seq<string>)
    ensures MissingKeys(summary, keys) == [] <==> forall k :: k in keys ==> k in summary
  {
    if keys != [] {
      var ks := keys[..|keys| - 1];
      MissingKeysNone(summary, ks);
      assert keys == ks + [keys[|keys| - 1]];
    }
  }

  /** The position of `k` in `keys`, or `|keys|`. */
  function IndexOf(keys: seq<string>, k: string): nat {
    if keys == [] then 0 else if keys[0] == k then 0 else 1 + IndexOf(keys[1..], k)
  }

  lemma {:induction false} MissingKeysExact(summary: Dict, keys: seq<string>)
    requires forall i, j :: 0 <= i < j < |keys| ==> keys[i] != keys[j]
    ensures var vs := MissingKeys(summary, keys);
      && (forall v :: v in vs ==> v.Missing? && v.key in keys)
      && (forall k :: Missing(k) in vs <==> k in keys && k !in summary)
      && (forall i, j :: 0 <= i < j < |vs| ==> IndexOf(keys, vs[i].key) < IndexOf(keys, vs[j].key))
    decreases |keys|
  {
    if keys != [] {
      var ks := keys[..|keys| - 1];
      var last := keys[|keys| - 1];
      MissingKeysExact(summary, ks);
      assert keys == ks + [last];
      var vs := MissingKeys(summary, keys);
      var ws := MissingKeys(summary, ks);
      forall k | k in ks ensures IndexOf(keys, k) == IndexOf(ks, k) && IndexOf(ks, k) < |ks| {
        IndexOfPrefix(ks, last, k);
      }
      IndexOfLast(ks, last);
      forall i, j | 0 <= i < j < |vs| ensures IndexOf(keys, vs[i].key) < IndexOf(keys, vs[j].key) {
        assert vs[i] in ws by { assert vs[i] == ws[i]; }
        if j < |ws| {
          assert vs[j] == ws[j];
        }
      }
    }
  }

  lemma {:induction false} IndexOfPrefix(ks: seq<string>, last: string, k: string)
    requires k in ks
    ensures IndexOf(ks + [last], k) == IndexOf(ks, k) < |ks|
    decreases |ks|
  {
    assert (ks + [last])[0] == ks[0];
    if ks[0] != k {
      assert (ks + [last])[1..] == ks[1..] + [last];
      IndexOfPrefix(ks[1..], last, k);
    }
  }

  lemma {:induction false} IndexOfLast(ks: seq<string>, last: string)
    requires last !in ks
    ensures IndexOf(ks + [last], last) == |ks|
    decreases |ks|
  {
    if ks != [] {
      assert (ks + [last])[0] == ks[0];
      assert (ks + [last])[1..] == ks[1..] + [last];
      IndexOfLast(ks[1..], last);
    }
  }

  /**
   * A summary with a required key absent gets exactly the `missing:<key>` tags, in
   * `REQUIRED_KEYS` order, and no other check runs.
   */
  lemma MissingKeysShortCircuit(summary: Dict)
    requires exists k :: k in RequiredKeys && k !in summary
    ensures Validation(summary).Ok? && !Validation(summary).value.ok
    ensures var vs := Validation(summary).value.violations;
      && vs != []
      && (forall v :: v in vs ==> v.Missing?)
      && (forall k :: Missing(k) in vs <==> k in RequiredKeys && k !in summary)
      && (forall i, j :: 0 <= i < j < |vs| ==> IndexOf(RequiredKeys, vs[i].key) < IndexOf(RequiredKeys, vs[j].key))
  {
    MissingKeysNone(summary, RequiredKeys);
    MissingKeysExact(summary, RequiredKeys);
  }

  /** When a section tag is due: its rule in `validate`. */
  predicate SectionRule(summary: Dict, keys: seq<string>, v: Violation)
    requires forall k :: k in keys ==> k in summary && summary[k].JStr?
  {
    match v
    case TooLong(s) => s in keys && |summary[s].s| > MaxCharsPerSection
    case TooFewSentences(s) => s in keys && CountSentences(summary[s].s) < MinSentences
    case TooManySentences(s) => s in keys && CountSentences(summary[s].s) > MaxSentences
    case _ => false
  }

  lemma {:induction false} SectionsViolationsIn(summary: Dict, keys: seq<string>, v: Violation)
    requires forall k :: k in keys ==> k in summary && summary[k].JStr?
    ensures v in SectionsViolations(summary, keys) <==> SectionRule(summary, keys, v)
    decreases |keys|
  {
    if keys != [] {
      var ks := keys[..|keys| - 1];
      assert keys == ks + [keys[|keys| - 1]];
      SectionsViolationsIn(summary, ks, v);
    }
  }

  /** When a script tag is due: its rule in `validate`. */
  predicate LanguageRule(summary: Dict, keys: seq<string>, v: Violation)
    requires forall k :: k in keys ==> k in summary
  {
    match v
    case NotChinese(f) => f in keys && summary[f].JStr? && summary[f].s != "" && !HasCjk(summary[f].s)
    case _ => false
  }

  lemma {:induction false} LanguageViolationsIn(summary: Dict, keys: seq<string>, v: Violation)
    requires forall k :: k in keys ==> k in summary
    ensures v in LanguageViolations(summary, keys) <==> LanguageRule(summary, keys, v)
    decreases |keys|
  {
    if keys != [] {
      var ks := keys[..|keys| - 1];
      assert keys == ks + [keys[|keys| - 1]];
      LanguageViolationsIn(summary, ks, v);
    }
  }

  /** When the bullet-point tag is due: its rule in `validate`. */
  predicate BulletRule(b: Json, v: Violation) {
    match v
    case BulletsInvalidType => !b.JArr?
    case BulletsTooFew => b.JArr? && |b.items| < MinBulletPoints
    case BulletsTooMany => b.JArr? && |b.items| > MaxBulletPoints
    case _ => false
  }

  /**
   * On a complete, well-typed summary a tag is reported exactly when its rule holds (too_long
   * iff over 900 characters, a sentence tag iff the count is outside 2..4, the script tag iff
   * non-empty text without a CJK ideograph, one bullet tag by type and count), never a
   * missing-key tag, and the flag is true iff there is no tag.
   */
  lemma ValidationRules(summary: Dict)
    requires forall k :: k in RequiredKeys ==> k in summary
    requires WellTyped(summary)
    ensures Validation(summary).Ok?
    ensures Validation(summary).value.ok <==> Validation(summary).value.violations == []
    ensures forall v :: v in Validation(summary).value.violations <==>
      SectionRule(summary, SectionKeys, v) || BulletRule(summary["bullet_points"], v)
      || LanguageRule(summary, LanguageKeys, v)
  {
    MissingKeysNone(summary, RequiredKeys);
    RequiredCovers();
    var vs := SectionsViolations(summary, SectionKeys) + BulletViolations(summary["bullet_points"])
              + LanguageViolations(summary, LanguageKeys);
    assert Validation(summary) == Ok(Verdict(vs == [], vs));
    forall v ensures v in vs <==>
      SectionRule(summary, SectionKeys, v) || BulletRule(summary["bullet_points"], v)
      || LanguageRule(summary, LanguageKeys, v)
    {
      SectionsViolationsIn(summary, SectionKeys, v);
      LanguageViolationsIn(summary, LanguageKeys, v);
    }
  }

  /** The section keys and the script-checked keys are all required keys. */
  lemma RequiredCovers()
    ensures forall k :: k in SectionKeys ==> k in RequiredKeys
    ensures forall k :: k in LanguageKeys ==> k in RequiredKeys
  {
  }

  /** The summary invariants: what an accepted summary satisfies. */
  predicate MeetsInvariants(summary: Dict) {
    && (forall k :: k in RequiredKeys ==> k in summary)
    && (forall k :: k in SectionKeys ==>
          && summary[k].JStr?
          && |summary[k].s| <= MaxCharsPerSection
          && MinSentences <= CountSentences(summary[k].s) <= MaxSentences
          && HasCjk(summary[k].s))
    && summary["bullet_points"].JArr?
    && MinBulletPoints <= |summary["bullet_points"].items| <= MaxBulletPoints
    && (summary["limitations"].JStr? ==> summary["limitations"].s == "" || HasCjk(summary["limitations"].s))
    && (summary["limitations"].JStr? || !Truthy(summary["limitations"]))
  }

  /** A summary `validate` accepts meets the invariants. */
  lemma AcceptedMeetsInvariants(summary: Dict)
    requires Validation(summary) == Ok(Verdict(true, []))
    ensures MeetsInvariants(summary)
  {
    MissingKeysNone(summary, RequiredKeys);
    assert forall k :: k in RequiredKeys ==> k in summary;
    assert WellTyped(summary);
    RequiredCovers();
    ValidationRules(summary);
    var vs := Validation(summary).value.violations;
    assert vs == [];
    forall k | k in SectionKeys
      ensures |summary[k].s| <= MaxCharsPerSection
      ensures MinSentences <= CountSentences(summary[k].s) <= MaxSentences
      ensures HasCjk(summary[k].s)
    {
      assert TooLong(k) !in vs && TooFewSentences(k) !in vs && TooManySentences(k) !in vs;
      assert NotChinese(k) !in vs;
      AcceptedSection(summary, k);
    }
    assert NotChinese("limitations") !in vs;
    assert BulletsInvalidType !in vs && BulletsTooFew !in vs && BulletsTooMany !in vs;
  }

  /** A section none of whose rules fires is short enough, has 2 to 4 sentences and is Chinese. */
  lemma AcceptedSection(summary: Dict, k: string)
    requires forall k :: k in RequiredKeys ==> k in summary
    requires WellTyped(summary) && k in SectionKeys
    requires !SectionRule(summary, SectionKeys, TooLong(k))
    requires !SectionRule(summary, SectionKeys, TooFewSentences(k))
    requires !SectionRule(summary, SectionKeys, TooManySentences(k))
    requires !LanguageRule(summary, LanguageKeys, NotChinese(k))
    ensures |summary[k].s| <= MaxCharsPerSection
    ensures MinSentences <= CountSentences(summary[k].s) <= MaxSentences
    ensures HasCjk(summary[k].s)
  {
    assert k in LanguageKeys;
    assert summary[k].s != "";
  }

  lemma {:induction false} SectionsWithinBounds(summary: Dict, keys: seq<string>)
    requires forall k :: k in keys ==> k in summary && summary[k].JStr?
    requires forall k :: k in keys ==> |summary[k].s| <= MaxCharsPerSection
    requires forall k :: k in keys ==> MinSentences <= CountSentences(summary[k].s) <= MaxSentences
    ensures SectionsViolations(summary, keys) == []
    decreases |keys|
  {
    if keys != [] {
      var ks := keys[..|keys| - 1];
      assert forall k :: k in ks ==> k in keys;
      SectionsWithinBounds(summary, ks);
    }
  }

  lemma {:induction false} LanguageAllChinese(summary: Dict, keys: seq<string>)
    requires forall k :: k in keys ==> k in summary
    requires forall k :: k in keys && summary[k].JStr? ==> summary[k].s == "" || HasCjk(summary[k].s)
    ensures LanguageViolations(summary, keys) == []
    decreases |keys|
  {
    if keys != [] {
      var ks := keys[..|keys| - 1];
      assert forall k :: k in ks ==> k in keys;
      LanguageAllChinese(summary, ks);
    }
  }

  /** A summary that meets the invariants is accepted with no tag. */
  lemma InvariantsAccepted(summary: Dict)
    requires MeetsInvariants(summary)
    ensures Validation(summary) == Ok(Verdict(true, []))
  {
    MissingKeysNone(summary, RequiredKeys);
    assert MissingKeys(summary, RequiredKeys) == [];
    assert WellTyped(summary);
    SectionsWithinBounds(summary, SectionKeys);
    assert BulletViolations(summary["bullet_points"]) == [];
    assert forall k :: k in LanguageKeys ==> k in SectionKeys || k == "limitations";
    LanguageAllChinese(summary, LanguageKeys);
  }

  /** `validate` accepts a summary (with no tag) exactly when it meets the invariants. */
  lemma AcceptsExactlyTheInvariants(summary: Dict)
    ensures Validation(summary) == Ok(Verdict(true, [])) <==> MeetsInvariants(summary)
  {
    if Validation(summary) == Ok(Verdict(true, [])) { AcceptedMeetsInvariants(summary); }
    if MeetsInvariants(summary) { InvariantsAccepted(summary); }
  }

  /** The required-keys loop of `validate`. */
  method CollectMissing(summary: Dict, keys: seq<string>) returns (violations: seq<Violation>)
    ensures violations == MissingKeys(summary, keys)
  {
    violations := [];
    var i := 0;
    while i < |keys|
      invariant 0 <= i <= |keys|
      invariant violations == MissingKeys(summary, keys[..i])
    {
      assert keys[..i + 1][..i] == keys[..i];
      if keys[i] !in summary {
        violations := violations + [Missing(keys[i])];
      }
      i := i + 1;
    }
    assert keys[..i] == keys;
  }

  /** The section loop of `validate`: `None` where `len` or `re.split` raises on a non-string. */
  method CollectSections(summary: Dict, keys: seq<string>) returns (r: Option<seq<Violation>>)
    requires forall k :: k in keys ==> k in summary
    ensures r.Some? <==> forall k :: k in keys ==> summary[k].JStr?
    ensures r.Some? ==> r.value == SectionsViolations(summary, keys)
  {
    var violations: seq<Violation> := [];
    var j := 0;
    while j < |keys|
      invariant 0 <= j <= |keys|
      invariant forall k :: k in keys[..j] ==> summary[k].JStr?
      invariant violations == SectionsViolations(summary, keys[..j])
    {
      assert keys[..j + 1][..j] == keys[..j];
      var text := summary[keys[j]];
      if !text.JStr? {
        return None;
      }
      var n := CountSentences(text.s);
      if |text.s| > MaxCharsPerSection {
        violations := violations + [TooLong(keys[j])];
      }
      if n < MinSentences {
        violations := violations + [TooFewSentences(keys[j])];
      } else if n > MaxSentences {
        violations := violations + [TooManySentences(keys[j])];
      }
      j := j + 1;
    }
    assert keys[..j] == keys;
    r := Some(violations);
  }

  /** The script loop of `validate`: `None` where `re.search` raises on a truthy non-string. */
  method CollectLanguage(summary: Dict, keys: seq<string>) returns (r: Option<seq<Violation>>)
    requires forall k :: k in keys ==> k in summary
    ensures r.Some? <==> forall k :: k in keys ==> summary[k].JStr? || !Truthy(summary[k])
    ensures r.Some? ==> r.value == LanguageViolations(summary, keys)
  {
    var violations: seq<Violation> := [];
    var m := 0;
    while m < |keys|
      invariant 0 <= m <= |keys|
      invariant forall k :: k in keys[..m] ==> summary[k].JStr? || !Truthy(summary[k])
      invariant violations == LanguageViolations(summary, keys[..m])
    {
      assert keys[..m + 1][..m] == keys[..m];
      var text := Get(summary, keys[m], JStr(""));
      if Truthy(text) {
        if !text.JStr? {
          return None;
        }
        if !HasCjk(text.s) {
          violations := violations + [NotChinese(keys[m])];
        }
      }
      m := m + 1;
    }
    assert keys[..m] == keys;
    r := Some(violations);
  }

  /** `validate` as the source writes it: loops that append to a local list of violations. */
  method Validate(summary: Dict) returns (r: Result<Verdict>)
    ensures r == Validation(summary)
  {
    var violations := CollectMissing(summary, RequiredKeys);
    if violations != [] {
      return Ok(Verdict(false, violations));
    }
    MissingKeysNone(summary, RequiredKeys);

    var sections := CollectSections(summary, SectionKeys);
    if sections.None? {
      return Raised("TypeError");
    }
    violations := sections.value;

    var bullets := Get(summary, "bullet_points", JArr([]));
    if !bullets.JArr? {
      violations := violations + [BulletsInvalidType];
    } else if |bullets.items| < MinBulletPoints {
      violations := violations + [BulletsTooFew];
    } else if |bullets.items| > MaxBulletPoints {
      violations := violations + [BulletsTooMany];
    }
    assert violations == sections.value + BulletViolations(summary["bullet_points"]);

    var language := CollectLanguage(summary, LanguageKeys);
    assert language.Some? <==> WellTyped(summary) by {
      assert "limitations" in LanguageKeys;
    }
    if language.None? {
      return Raised("TypeError");
    }
    violations := violations + language.value;
    r := Ok(Verdict(violations == [], violations));
  }

  // ---------------------------------------------------------------- truncate

  /** The delimiter loop: cut after the last occurrence (at an index above 0) of the first delimiter that has one. */
  function CutAtBoundary(t: string, delims: string): (r: string)
    ensures r <= t
  {
    if delims == [] then t
    else
      var idx := LastIndexOf(t, delims[0]);
      if idx > 0 then t[..idx + 1] else CutAtBoundary(t, delims[1..])
  }

  /** One section's text after `truncate_sections`. */
  function TruncateText(text: string): (r: string)
    ensures r <= text
    ensures |r| <= MaxCharsPerSection
    ensures |text| <= MaxCharsPerSection ==> r == text
  {
    if |text| > MaxCharsPerSection then CutAtBoundary(text[..MaxCharsPerSection], Delimiters) else text
  }

  /** A section value `truncate_sections` cannot handle (`len`, slicing or `rfind` raises). */
  predicate BreaksTruncation(v: Json) {
    match v
    case JStr(_) => false
    case JArr(xs) => |xs| > MaxCharsPerSection
    case JObj(m) => |m| > MaxCharsPerSection
    case _ => true
  }

  /**
   * The exception a breaking section raises: a long list slices fine and then has no `rfind`
   * (AttributeError); every other case fails in `len` or in the slice (TypeError).
   */
  function TruncationError(v: Json): string
    requires BreaksTruncation(v)
  {
    if v.JArr? then "AttributeError" else "TypeError"
  }

  /** The exception of the first section, in `keys` order, that truncation cannot handle. */
  function SectionsError(summary: Dict, keys: seq<string>): (e: Option<string>)
    ensures e.None? <==> forall k :: k in keys && k in summary ==> !BreaksTruncation(summary[k])
  {
    if keys == [] then None
    else if keys[0] in summary && BreaksTruncation(summary[keys[0]]) then Some(TruncationError(summary[keys[0]]))
    else
      var e := SectionsError(summary, keys[1..]);
      assert forall k :: k in keys ==> k == keys[0] || k in keys[1..];
      e
  }

  function TruncateSection(v: Json): Json {
    match v
    case JStr(text) => JStr(TruncateText(text))
    case _ => v
  }

  function Min(a: int, b: int): int { if a <= b then a else b }

  /** `bullet_points[:5]`, for the values that support slicing. */
  function SliceBullets(v: Json): Option<Json> {
    match v
    case JArr(items) => Some(JArr(items[..Min(|items|, MaxBulletPoints)]))
    case JStr(s) => Some(JStr(s[..Min(|s|, MaxBulletPoints)]))
    case _ => None
  }

  /** What `truncate_sections` returns, or that it raises. */
  function TruncateSections(summary: Dict): Result<Dict> {
    var sectionsError := SectionsError(summary, SectionKeys);
    if sectionsError.Some? then Raised(sectionsError.value)
    else if "bullet_points" in summary && SliceBullets(summary["bullet_points"]).None? then Raised("TypeError")
    else
      Ok(map k | k in summary ::
           if k in SectionKeys then TruncateSection(summary[k])
           else if k == "bullet_points" then SliceBullets(summary[k]).value
           else summary[k])
  }

  /**
   * The bounds `truncate_sections` guarantees: same keys; each string section becomes a prefix of
   * at most 900 characters and is untouched when already short enough; bullet_points keeps its
   * first min(len, 5) items; every other key is unchanged.
   */
  lemma TruncateBounds(summary: Dict)
    requires TruncateSections(summary).Ok?
    ensures var r := TruncateSections(summary).value;
      && r.Keys == summary.Keys
      && (forall k :: k in SectionKeys && k in summary && summary[k].JStr? ==>
            && r[k].JStr? && r[k].s <= summary[k].s && |r[k].s| <= MaxCharsPerSection
            && (|summary[k].s| <= MaxCharsPerSection ==> r[k] == summary[k]))
      && (forall k :: k in SectionKeys && k in summary && !summary[k].JStr? ==> r[k] == summary[k])
      && ("bullet_points" in summary && summary["bullet_points"].JArr? ==>
            var items := summary["bullet_points"].items;
            r["bullet_points"] == JArr(items[..Min(|items|, MaxBulletPoints)]))
      && (forall k :: k in summary && k !in SectionKeys && k != "bullet_points" ==> r[k] == summary[k])
  {
  }

  /** Where an oversized section is cut: after the first delimiter, in priority order, found at an index above 0. */
  lemma {:induction false} CutRule(t: string, delims: string, i: nat)
    requires i < |delims|
    requires LastIndexOf(t, delims[i]) > 0
    requires forall j :: 0 <= j < i ==> LastIndexOf(t, delims[j]) <= 0
    ensures CutAtBoundary(t, delims) == t[..LastIndexOf(t, delims[i]) + 1]
    decreases i
  {
    if i > 0 {
      assert LastIndexOf(t, delims[0]) <= 0;
      forall j | 0 <= j < i - 1 ensures LastIndexOf(t, delims[1..][j]) <= 0 {
        assert delims[1..][j] == delims[j + 1];
      }
      CutRule(t, delims[1..], i - 1);
    }
  }

  /** With no delimiter at an index above 0, the hard prefix is kept. */
  lemma {:induction false} NoBoundaryKeepsPrefix(t: string, delims: string)
    requires forall j :: 0 <= j < |delims| ==> LastIndexOf(t, delims[j]) <= 0
    ensures CutAtBoundary(t, delims) == t
    decreases |delims|
  {
    if delims != [] {
      forall j | 0 <= j < |delims| - 1 ensures LastIndexOf(t, delims[1..][j]) <= 0 {
        assert delims[1..][j] == delims[j + 1];
      }
      NoBoundaryKeepsPrefix(t, delims[1..]);
    }
  }

  /** The search follows priority, not proximity: an early '。' wins over a '.' right before the limit. */
  lemma PriorityNotNearest(text: string)
    requires |text| > MaxCharsPerSection
    requires text[1] == '。'
    requires forall i :: 2 <= i < MaxCharsPerSection ==> text[i] == '.'
    ensures TruncateText(text) == text[..2]
  {
    var t := text[..MaxCharsPerSection];
    var idx := LastIndexOf(t, '。');
    assert t[1] == '。';
    assert idx == 1;
    assert Delimiters[0] == '。';
    CutRule(t, Delimiters, 0);
  }

  /**
   * Truncation raises for the first section, in key order, that it cannot handle, with that
   * section's exception: AttributeError for a list of more than 900 items, TypeError otherwise.
   */
  lemma {:induction false} TruncateRaisesAtFirstBreak(summary: Dict, i: nat)
    requires i < |SectionKeys| && SectionKeys[i] in summary && BreaksTruncation(summary[SectionKeys[i]])
    requires forall j :: 0 <= j < i && SectionKeys[j] in summary ==> !BreaksTruncation(summary[SectionKeys[j]])
    ensures TruncateSections(summary)
            == Raised(if summary[SectionKeys[i]].JArr? then "AttributeError" else "TypeError")
  {
    var ks := SectionKeys;
    assert ks[1..] == ["background", "method", "conclusion"];
    assert ks[2..] == ["method", "conclusion"];
    assert ks[3..] == ["conclusion"];
    assert ks[1..][1..] == ks[2..] && ks[2..][1..] == ks[3..];
    if i == 0 {
    } else if i == 1 {
      assert SectionsError(summary, ks) == SectionsError(summary, ks[1..]);
    } else if i == 2 {
      assert SectionsError(summary, ks) == SectionsError(summary, ks[2..]);
    } else {
      assert SectionsError(summary, ks) == SectionsError(summary, ks[1..]);
      assert SectionsError(summary, ks[1..]) == SectionsError(summary, ks[2..]);
      assert SectionsError(summary, ks[2..]) == SectionsError(summary, ks[3..]);
    }
  }

  /** Truncating twice is the same as truncating once. */
  lemma TruncateIdempotent(summary: Dict)
    requires TruncateSections(summary).Ok?
    ensures TruncateSections(TruncateSections(summary).value) == TruncateSections(summary)
  {
    var r := TruncateSections(summary).value;
    assert !exists k :: k in SectionKeys && k in r && BreaksTruncation(r[k]) by {
      forall k | k in SectionKeys && k in r ensures !BreaksTruncation(r[k]) {
        SectionTwice(summary[k]);
      }
    }
    if "bullet_points" in r {
      BulletsTwice(summary["bullet_points"]);
    }
    var r2 := TruncateSections(r).value;
    forall k | k in r ensures r2[k] == r[k] {
      if k in SectionKeys {
        SectionTwice(summary[k]);
      } else if k == "bullet_points" {
        BulletsTwice(summary[k]);
      }
    }
    assert r2 == r;
  }

  /** A section value that truncation can handle stays handleable, and a second truncation keeps it. */
  lemma SectionTwice(v: Json)
    requires !BreaksTruncation(v)
    ensures !BreaksTruncation(TruncateSection(v))
    ensures TruncateSection(TruncateSection(v)) == TruncateSection(v)
  {
  }

  /** Slicing bullet points to five twice is slicing them once. */
  lemma BulletsTwice(v: Json)
    requires SliceBullets(v).Some?
    ensures SliceBullets(SliceBullets(v).value) == SliceBullets(v)
  {
    match v
    case JArr(items) =>
      var t := items[..Min(|items|, MaxBulletPoints)];
      assert t[..Min(|t|, MaxBulletPoints)] == t;
    case JStr(x) =>
      var t := x[..Min(|x|, MaxBulletPoints)];
      assert t[..Min(|t|, MaxBulletPoints)] == t;
  }

  /** `truncate_sections` succeeds on string sections and a list or string of bullet points. */
  lemma TruncateSucceeds(summary: Dict)
    requires forall k :: k in SectionKeys && k in summary ==> summary[k].JStr?
    requires "bullet_points" in summary ==> summary["bullet_points"].JArr? || summary["bullet_points"].JStr?
    ensures TruncateSections(summary).Ok?
  {
  }

  /**
   * Truncation guarantees the bounds only: a summary short of bullet points is still rejected
   * after it, with the same tag.
   */
  lemma TruncateDoesNotEnsureValid(summary: Dict)
    requires forall k :: k in RequiredKeys ==> k in summary
    requires WellTyped(summary)
    requires summary["bullet_points"].JArr? && |summary["bullet_points"].items| < MinBulletPoints
    ensures TruncateSections(summary).Ok?
    ensures var r := TruncateSections(summary).value;
      Validation(r).Ok? && !Validation(r).value.ok && BulletsTooFew in Validation(r).value.violations
  {
    TruncateSucceeds(summary);
    var r := TruncateSections(summary).value;
    TruncateBounds(summary);
    var items := summary["bullet_points"].items;
    assert items[..Min(|items|, MaxBulletPoints)] == items;
    assert r["bullet_points"] == summary["bullet_points"];
    assert forall k :: k in RequiredKeys ==> k in r;
    assert r["limitations"] == summary["limitations"];
    assert forall k :: k in SectionKeys ==> r[k].JStr?;
    assert WellTyped(r);
    ValidationRules(r);
    assert BulletRule(r["bullet_points"], BulletsTooFew);
  }
}
