/**
 * The summarization pipeline (`SummarizationPipeline`): ID normalisation, the summary cache
 * around the stages, the Stage-A fallback record, Stage-B failure propagation, the Stage-C
 * decision tree over the local validator and the language model's verdict, and the section
 * order of the streaming variant. Each language-model call is an oracle `Reply`.
 */
module Pipeline {
  import opened Wrappers
  import opened JsonValues
  import opened Text
  import opened Llm
  import opened Cache
  import opened SummaryValidator
  import opened Arxiv

  // ---------------------------------------------------------------- ID normalisation

  /** `arxiv_id.split('v')[0]`: the text before the first `v`. */
  function NormalizeId(id: string): (r: string)
    ensures r <= id && 'v' !in r
    ensures |r| < |id| ==> id[|r|] == 'v'
  {
    id[..FirstIndexOf(id, 'v')]
  }

  /** Normalising twice is normalising once. */
  lemma NormalizeIdempotent(id: string)
    ensures NormalizeId(NormalizeId(id)) == NormalizeId(id)
  {
    var r := NormalizeId(id);
    assert FirstIndexOf(r, 'v') == |r|;
  }

  /** Normalising a `v`-free core, with or without a version tag after it. */
  lemma NormalizeCoreTag(core: string, digits: string)
    requires 'v' !in core && AllDigits(digits)
    ensures NormalizeId(core) == core
    ensures NormalizeId(core + "v" + digits) == core
    ensures NormalizeId(core + "V" + digits) == core + "V" + digits
  {
    assert FirstIndexOf(core, 'v') == |core|;
    var s := core + "v" + digits;
    assert s[|core|] == 'v' && s[..|core|] == core;
    assert FirstIndexOf(s, 'v') == |core|;
    var t := core + "V" + digits;
    assert 'v' !in t by {
      forall i | 0 <= i < |t| ensures t[i] != 'v' {
        if i > |core| { assert t[i] == digits[i - |core| - 1] && IsDigit(digits[i - |core| - 1]); }
      }
    }
    assert FirstIndexOf(t, 'v') == |t|;
  }

  /** The digits-and-dot head of a captured ID contains no `v`. */
  lemma IdCoreShape(m: string, n: nat)
    requires IsIdShape(m) && 9 <= n <= |m| && AllDigits(m[9..n])
    ensures AllDigits(m[..n][..4]) && m[..n][4] == '.' && AllDigits(m[..n][5..])
    ensures 'v' !in m[..n]
  {
    var core := m[..n];
    assert core[..4] == m[..4];
    forall i | 5 <= i < n ensures IsDigit(core[i]) {
      if i < 9 { assert core[i] == m[5..9][i - 5]; } else { assert core[i] == m[9..n][i - 9]; }
    }
    forall i | 0 <= i < n ensures core[i] != 'v' {
      if i < 4 { assert core[i] == m[..4][i]; }
      else if 5 <= i { assert IsDigit(core[i]); }
    }
  }

  /**
   * On the IDs the extractor captures, normalising agrees with the arXiv retriever's version
   * strip, so both caches use the same base ID; an upper-case `V` tag is kept by both.
   */
  lemma NormalizeAgreesWithStripVersion(m: string)
    requires IsIdShape(m)
    ensures NormalizeId(m) == StripVersion(m)
  {
    var n := if |m| >= 10 && IsDigit(m[9]) then 10 else 9;
    assert AllDigits(m[9..n]);
    IdCoreShape(m, n);
    var core := m[..n];
    if n == |m| {
      assert m == core;
      AgreeOnCore(core, "1");
    } else {
      var digits := m[n + 1..];
      assert IsVersionTag(m[n..]);
      AgreeTagged(m, core, m[n], digits);
    }
  }

  /** Both strips agree on a core followed by a `v` or `V` tag. */
  lemma AgreeTagged(m: string, core: string, c: char, digits: string)
    requires |core| >= 9 && AllDigits(core[..4]) && core[4] == '.' && AllDigits(core[5..])
    requires 'v' !in core && |digits| >= 1 && AllDigits(digits)
    requires c == 'v' || c == 'V'
    requires m == core + [c] + digits
    ensures NormalizeId(m) == StripVersion(m)
  {
    AgreeOnCore(core, digits);
    if c == 'v' {
      assert m == core + "v" + digits;
    } else {
      assert m == core + "V" + digits;
    }
  }

  /** Both strips agree on a core and on that core with either version tag. */
  lemma AgreeOnCore(core: string, digits: string)
    requires |core| >= 9 && AllDigits(core[..4]) && core[4] == '.' && AllDigits(core[5..])
    requires 'v' !in core && |digits| >= 1 && AllDigits(digits)
    ensures NormalizeId(core) == StripVersion(core)
    ensures NormalizeId(core + "v" + digits) == StripVersion(core + "v" + digits)
    ensures NormalizeId(core + "V" + digits) == StripVersion(core + "V" + digits)
  {
    StripVersionOfIds(core, digits);
    NormalizeCoreTag(core, digits);
  }

  // ---------------------------------------------------------------- Stage A

  const SectionTargets: seq<string> := ["intro", "background", "method", "conclusion"]

  /**
   * `", ".join(authors)`: a list of strings is joined; a string is joined character by
   * character; any other value raises TypeError.
   */
  function JoinAuthors(v: Json): (r: Result<string>) {
    match v
    case JStr(s) => Ok(Join(seq(|s|, i requires 0 <= i < |s| => [s[i]]), ", "))
    case JArr(items) =>
      if forall i :: 0 <= i < |items| ==> items[i].JStr?
      then Ok(Join(seq(|items|, i requires 0 <= i < |items| => items[i].s), ", "))
      else Raised("TypeError")
    case _ => Raised("TypeError")
  }

  /** The keys the Stage-A prompt reads; a missing one raises KeyError before the model is called. */
  predicate HasPromptFields(metadata: Dict) {
    "title" in metadata && "authors" in metadata && "primary_category" in metadata && "abstract" in metadata
  }

  /** The record Stage A falls back to when the sanitising call fails. */
  function FallbackRecord(metadata: Dict, authors: string): Dict
    requires HasPromptFields(metadata)
  {
    map[
      "title" := metadata["title"],
      "authors" := JStr(authors),
      "category" := metadata["primary_category"],
      "abstract" := metadata["abstract"],
      "constraints" := JObj(map[
        "language" := JStr("zh-Hant"),
        "section_target" := JArr([JStr("intro"), JStr("background"), JStr("method"), JStr("conclusion")])])]
  }

  /** `_stage_a_sanitize`: the model's cleaned record, or the fallback record when the call fails. */
  function StageA(metadata: Dict, reply: Reply): Result<Dict>
    requires !("authors" in metadata && metadata["authors"].JObj?)
  {
    // The prompt's arguments are evaluated left to right: title, the authors' join,
    // primary_category, abstract; the first to fail decides the exception.
    if "title" !in metadata || "authors" !in metadata then Raised("KeyError")
    else
      match JoinAuthors(metadata["authors"])
      case Raised(e) => Raised(e)
      case Ok(authors) =>
        if "primary_category" !in metadata || "abstract" !in metadata then Raised("KeyError")
        else
          match reply
          case Replied(cleaned) => Ok(cleaned)
          case Failed(_) => Ok(FallbackRecord(metadata, authors))
  }

  /** A failed sanitising call keeps the original fields under their Stage-B names, with the fixed constraints. */
  lemma StageAFallback(metadata: Dict, error: string)
    requires HasPromptFields(metadata) && metadata["authors"].JArr?
    requires forall i :: 0 <= i < |metadata["authors"].items| ==> metadata["authors"].items[i].JStr?
    ensures var authors := metadata["authors"].items;
      var r := StageA(metadata, Failed(error));
      && r.Ok?
      && r.value.Keys == {"title", "authors", "category", "abstract", "constraints"}
      && r.value["title"] == metadata["title"] && r.value["abstract"] == metadata["abstract"]
      && r.value["category"] == metadata["primary_category"]
      && r.value["authors"] == JStr(Join(seq(|authors|, i requires 0 <= i < |authors| => authors[i].s), ", "))
      && r.value["constraints"].JObj?
      && r.value["constraints"].fields["language"] == JStr("zh-Hant")
      && r.value["constraints"].fields["section_target"]
         == JArr(seq(|SectionTargets|, i requires 0 <= i < |SectionTargets| => JStr(SectionTargets[i])))
  {
    var t := seq(|SectionTargets|, i requires 0 <= i < |SectionTargets| => JStr(SectionTargets[i]));
    assert t == [JStr("intro"), JStr("background"), JStr("method"), JStr("conclusion")];
  }

  /**
   * A metadata record that has a title but whose authors cannot be joined raises the join's
   * TypeError, whatever later keys are missing: the join is evaluated before them.
   */
  lemma StageAJoinFailsFirst(metadata: Dict, reply: Reply)
    requires "title" in metadata && "authors" in metadata && !metadata["authors"].JObj?
    requires !metadata["authors"].JStr? && !metadata["authors"].JArr?
    ensures StageA(metadata, reply) == Raised("TypeError")
  {
  }

  /** A successful sanitising call is used as it came back. */
  lemma StageAUsesReply(metadata: Dict, cleaned: Dict)
    requires HasPromptFields(metadata) && !metadata["authors"].JObj?
    requires JoinAuthors(metadata["authors"]).Ok?
    ensures StageA(metadata, Replied(cleaned)) == Ok(cleaned)
  {
  }

  // ---------------------------------------------------------------- Stage B

  /** `_stage_b_summarize`: the model's summary; a failed call propagates as an exception. */
  function StageB(reply: Reply): (r: Result<Dict>)
    ensures reply.Replied? <==> r.Ok?
    ensures reply.Replied? ==> r.value == reply.obj
  {
    match reply
    case Replied(summary) => Ok(summary)
    case Failed(e) => Raised(e)
  }

  // ---------------------------------------------------------------- Stage C

  /** `validate` accepts the summary. */
  predicate Accepted(summary: Dict) {
    Validation(summary).Ok? && Validation(summary).value.ok
  }

  /** The local fallback: `truncate_sections` of the original Stage-B summary. */
  function Truncated(summary: Dict): Result<Json> {
    match TruncateSections(summary)
    case Ok(d) => Ok(JObj(d))
    case Raised(e) => Raised(e)
  }

  /**
   * `_stage_c_validate`. The local check runs outside the `try`, so its TypeError propagates.
   * An accepted summary is returned as is. Otherwise the model's verdict decides: a truthy
   * `ok` returns the truthy `fixed` or the original; a truthy `fixed` without `ok` is used only
   * when it is a record the validator accepts (any other value is rejected or makes the
   * validator raise inside the `try`); everything else, a failed call included, truncates the
   * original.
   */
  function StageC(summary: Dict, reply: Reply): Result<Json> {
    match Validation(summary)
    case Raised(e) => Raised(e)
    case Ok(verdict) =>
      if verdict.ok then Ok(JObj(summary))
      else
        match reply
        case Failed(_) => Truncated(summary)
        case Replied(result) =>
          var fixed := Get(result, "fixed", JNull);
          if Truthy(Get(result, "ok", JNull)) then
            Ok(if Truthy(fixed) then fixed else JObj(summary))
          else if Truthy(fixed) && fixed.JObj? && Accepted(fixed.fields) then
            Ok(fixed)
          else
            Truncated(summary)
  }

  /** An accepted summary comes back unchanged, whatever the model would have said: it is not asked. */
  lemma StageCAcceptedUnchanged(summary: Dict, reply: Reply)
    requires Accepted(summary)
    ensures StageC(summary, reply) == Ok(JObj(summary))
  {
  }

  /** A truthy `ok` verdict returns a truthy `fixed`, else the original, with no re-validation. */
  lemma StageCModelSaysOk(summary: Dict, result: Dict)
    requires Validation(summary).Ok? && !Accepted(summary)
    requires "ok" in result && Truthy(result["ok"])
    ensures StageC(summary, Replied(result))
            == Ok(if "fixed" in result && Truthy(result["fixed"]) then result["fixed"] else JObj(summary))
  {
  }

  /** Without an `ok` verdict, a truthy fix is returned exactly when it is a record the validator accepts. */
  lemma StageCFixRevalidated(summary: Dict, result: Dict)
    requires Validation(summary).Ok? && !Accepted(summary)
    requires !("ok" in result && Truthy(result["ok"]))
    requires "fixed" in result && Truthy(result["fixed"])
    ensures StageC(summary, Replied(result))
            == if result["fixed"].JObj? && Accepted(result["fixed"].fields) then Ok(result["fixed"]) else Truncated(summary)
  {
  }

  /** An accepted summary is accepted with no tag. */
  lemma AcceptedHasNoTag(summary: Dict)
    requires Accepted(summary)
    ensures Validation(summary) == Ok(Verdict(true, []))
  {
  }

  /** In every remaining case, a failed call included, the original summary is truncated. */
  lemma StageCFallback(summary: Dict, reply: Reply)
    requires Validation(summary).Ok? && !Accepted(summary)
    requires reply.Replied? ==>
      !(Truthy(Get(reply.obj, "ok", JNull)))
      && !(Truthy(Get(reply.obj, "fixed", JNull)) && Get(reply.obj, "fixed", JNull).JObj?
           && Accepted(Get(reply.obj, "fixed", JNull).fields))
    ensures StageC(summary, reply) == Truncated(summary)
  {
  }

  /**
   * The only summaries Stage C returns are the original, the model's `fixed` value, or the
   * truncated original; a fix that was re-validated meets every rule of the validator.
   */
  lemma StageCOutcomes(summary: Dict, reply: Reply)
    requires StageC(summary, reply).Ok?
    ensures var r := StageC(summary, reply).value;
      || r == JObj(summary)
      || Truncated(summary) == Ok(r)
      || (reply.Replied? && "fixed" in reply.obj && r == reply.obj["fixed"]
          && (!Truthy(Get(reply.obj, "ok", JNull)) ==> r.JObj? && MeetsInvariants(r.fields)))
  {
    if Validation(summary).Ok? && !Validation(summary).value.ok && reply.Replied? {
      var result := reply.obj;
      var fixed := Get(result, "fixed", JNull);
      if !Truthy(Get(result, "ok", JNull)) && Truthy(fixed) && fixed.JObj? && Accepted(fixed.fields) {
        AcceptedHasNoTag(fixed.fields);
        AcceptedMeetsInvariants(fixed.fields);
      }
    }
  }

  // ---------------------------------------------------------------- summarize

  /** What the three stages make of a summary that is not cached: Stage B's failure, or Stage C's answer. */
  function StagesOutcome(replyB: Reply, replyC: Reply): Result<Json> {
    match StageB(replyB)
    case Raised(e) => Raised(e)
    case Ok(summary) => StageC(summary, replyC)
  }

  /** A Stage-B failure is the pipeline's failure, whatever Stage C would say. */
  lemma StageBFailurePropagates(error: string, replyC: Reply)
    ensures StagesOutcome(Failed(error), replyC) == Raised(error)
  {
  }

  /** `metadata["arxiv_id"].split('v')[0]`: a missing key or a non-string ID raises. */
  function MetadataId(metadata: Dict): (r: Result<string>)
    ensures r.Ok? <==> "arxiv_id" in metadata && metadata["arxiv_id"].JStr?
    ensures r.Ok? ==> r.value == NormalizeId(metadata["arxiv_id"].s)
  {
    if "arxiv_id" !in metadata then Raised("KeyError")
    else match metadata["arxiv_id"]
      case JStr(id) => Ok(NormalizeId(id))
      case _ => Raised("AttributeError")
  }

  /** What `summarize` returns, given the cache, before any write. */
  function SummarizeOutcome(store: map<string, Json>, model: string, metadata: Dict,
                            replyA: Reply, replyB: Reply, replyC: Reply): Result<Json>
    requires !("authors" in metadata && metadata["authors"].JObj?)
  {
    match MetadataId(metadata)
    case Raised(e) => Raised(e)
    case Ok(id) =>
      var key := SummaryKey(id, model, "v1");
      if key in store && Truthy(store[key]) then Ok(store[key])
      else
        match StageA(metadata, replyA)
        case Raised(e) => Raised(e)
        case Ok(_) => StagesOutcome(replyB, replyC)
  }

  /**
   * The summary key `summarize` writes: the key it read, when the ID is usable, the cache had
   * no truthy value there and the stages succeeded; otherwise nothing is written.
   */
  function WrittenKey(store: map<string, Json>, model: string, metadata: Dict, r: Result<Json>): (w: Option<string>)
    ensures w.Some? ==> MetadataId(metadata).Ok? && r.Ok? && w.value == SummaryKey(MetadataId(metadata).value, model, "v1")
  {
    match MetadataId(metadata)
    case Raised(_) => None
    case Ok(id) =>
      var key := SummaryKey(id, model, "v1");
      if r.Ok? && !(key in store && Truthy(store[key])) then Some(key) else None
  }

  class SummarizationPipeline {
    const cache: RedisCache
    /** `settings.openai_model`, part of the summary cache key. */
    const model: string

    constructor(cache: RedisCache, model: string)
      ensures this.cache == cache && this.model == model
    {
      this.cache := cache;
      this.model := model;
    }

    /**
     * `summarize`, with the three model calls as oracle replies. A truthy cached summary under
     * (normalised ID, model, "v1") is returned with no stage run and no write; otherwise the
     * stages run in order and only a successful outcome is written, under the key that was read.
     */
    method Summarize(metadata: Dict, replyA: Reply, replyB: Reply, replyC: Reply) returns (r: Result<Json>)
      requires !("authors" in metadata && metadata["authors"].JObj?)
      modifies cache
      ensures r == SummarizeOutcome(old(cache.store), model, metadata, replyA, replyB, replyC)
      ensures var w := WrittenKey(old(cache.store), model, metadata, r);
        && cache.store == (if w.Some? then old(cache.store)[w.value := r.value] else old(cache.store))
        && cache.ttl == (if w.Some? then old(cache.ttl)[w.value := TtlSummary] else old(cache.ttl))
      ensures cache.counters == old(cache.counters)
    {
      var idOutcome := MetadataId(metadata);
      if idOutcome.Raised? {
        return Raised(idOutcome.error);
      }
      var arxivId := idOutcome.value;

      var cached := cache.GetSummary(arxivId, model, "v1");
      if cached.Some? && Truthy(cached.value) {
        return Ok(cached.value);
      }

      var cleaned := StageA(metadata, replyA);
      if cleaned.Raised? {
        return Raised(cleaned.error);
      }
      var summary := StageB(replyB);
      if summary.Raised? {
        return Raised(summary.error);
      }
      var finalSummary := StageC(summary.value, replyC);
      if finalSummary.Raised? {
        return finalSummary;
      }

      cache.SetSummary(arxivId, model, finalSummary.value, "v1");
      return finalSummary;
    }
  }

  /** A truthy cached summary is the answer, whatever the stages would produce. */
  lemma CacheHitShortCircuits(store: map<string, Json>, model: string, metadata: Dict,
                              replyA: Reply, replyB: Reply, replyC: Reply)
    requires !("authors" in metadata && metadata["authors"].JObj?)
    requires "arxiv_id" in metadata && metadata["arxiv_id"].JStr?
    requires var key := SummaryKey(NormalizeId(metadata["arxiv_id"].s), model, "v1"); key in store && Truthy(store[key])
    ensures SummarizeOutcome(store, model, metadata, replyA, replyB, replyC)
            == Ok(store[SummaryKey(NormalizeId(metadata["arxiv_id"].s), model, "v1")])
  {
  }

  /** Versions of one ID share the summary cache entry. */
  lemma VersionsShareSummaryKey(id: string, digits: string, model: string)
    requires 'v' !in id
    ensures SummaryKey(NormalizeId(id + "v" + digits), model, "v1") == SummaryKey(id, model, "v1")
  {
    var s := id + "v" + digits;
    assert s[|id|] == 'v' && s[..|id|] == id;
    assert FirstIndexOf(s, 'v') == |id|;
  }

  // ---------------------------------------------------------------- stream_summarize

  /** One streamed section, with its progress fraction and section name. */
  datatype SectionEvent = SectionEvent(section: string, text: Json, progress: real)

  /**
   * The events for the sections present, in the order intro, background, method, conclusion,
   * the `i`-th of the four reporting progress `(i + 1) / 4`. The membership test on a
   * non-record summary is Python's `in` on that value: a substring test on a string and an
   * element test on a list, after which indexing it with the section name raises; on a
   * number, a boolean or null the test itself raises.
   */
  function SectionEvents(summary: Json, n: nat): Result<seq<SectionEvent>>
    requires n <= |SectionTargets|
  {
    if n == 0 then Ok([])
    else
      match SectionEvents(summary, n - 1)
      case Raised(e) => Raised(e)
      case Ok(prev) =>
        var section := SectionTargets[n - 1];
        match summary
        case JObj(fields) =>
          if section in fields
          then Ok(prev + [SectionEvent(section, fields[section], (n as real) / (|SectionTargets| as real))])
          else Ok(prev)
        case JStr(s) => if Contains(s, section) then Raised("TypeError") else Ok(prev)
        case JArr(items) => if JStr(section) in items then Raised("TypeError") else Ok(prev)
        case _ => Raised("TypeError")
  }

  /** The sections a record summary streams, in order, exactly the present ones among the four. */
  lemma {:induction false} StreamedSections(fields: Dict, n: nat)
    requires n <= |SectionTargets|
    ensures SectionEvents(JObj(fields), n).Ok?
    ensures StreamedUpTo(fields, SectionEvents(JObj(fields), n).value, n)
    decreases n
  {
    if n > 0 {
      StreamedSections(fields, n - 1);
      var prev := SectionEvents(JObj(fields), n - 1).value;
      assert StreamedUpTo(fields, prev, n - 1);
      var section := SectionTargets[n - 1];
      if section in fields {
        var ev := SectionEvent(section, fields[section], Progress(n - 1));
        assert SectionEvents(JObj(fields), n).value == prev + [ev];
        StreamedAppend(fields, prev, n, ev);
      } else {
        StreamedSkip(fields, prev, n);
      }
      assert StreamedUpTo(fields, SectionEvents(JObj(fields), n).value, n);
    }
  }

  /** The events `es` are exactly the present sections among the first `n` targets, in target order. */
  predicate StreamedUpTo(fields: Dict, es: seq<SectionEvent>, n: nat)
    requires n <= |SectionTargets|
  {
    && (forall j :: 0 <= j < |es| ==> es[j].section in fields && es[j].text == fields[es[j].section])
    && (forall j :: 0 <= j < |es| ==> es[j].progress == Progress(IndexOf(SectionTargets, es[j].section)))
    && (forall i :: 0 <= i < n ==> (SectionTargets[i] in fields <==> HasEvent(es, SectionTargets[i])))
    && (forall a, b :: 0 <= a < b < |es| ==> IndexOf(SectionTargets, es[a].section) < IndexOf(SectionTargets, es[b].section))
    && (forall j :: 0 <= j < |es| ==> IndexOf(SectionTargets, es[j].section) < n)
  }

  /** The progress reported with the section at position `i`: `(i + 1) / 4`. */
  function Progress(i: nat): real {
    ((i + 1) as real) / (|SectionTargets| as real)
  }

  /** Some event of `es` is for `section`. */
  predicate HasEvent(es: seq<SectionEvent>, section: string) {
    exists j :: 0 <= j < |es| && es[j].section == section
  }

  /** Each target sits at its own position in the target list. */
  lemma TargetIndex(i: nat)
    requires i < |SectionTargets|
    ensures IndexOf(SectionTargets, SectionTargets[i]) == i
  {
    assert SectionTargets == ["intro", "background", "method", "conclusion"];
  }

  /** A missing target adds no event. */
  lemma StreamedSkip(fields: Dict, prev: seq<SectionEvent>, n: nat)
    requires 0 < n <= |SectionTargets| && SectionTargets[n - 1] !in fields
    requires StreamedUpTo(fields, prev, n - 1)
    ensures StreamedUpTo(fields, prev, n)
  {
  }

  /** A present target adds its event at the end. */
  lemma StreamedAppend(fields: Dict, prev: seq<SectionEvent>, n: nat, ev: SectionEvent)
    requires 0 < n <= |SectionTargets| && ev.section == SectionTargets[n - 1]
    requires ev.section in fields && ev.text == fields[ev.section] && ev.progress == Progress(n - 1)
    requires StreamedUpTo(fields, prev, n - 1)
    ensures StreamedUpTo(fields, prev + [ev], n)
  {
    var es := prev + [ev];
    TargetIndex(n - 1);
    forall j | 0 <= j < |es|
      ensures es[j].section in fields && es[j].text == fields[es[j].section]
      ensures es[j].progress == Progress(IndexOf(SectionTargets, es[j].section))
      ensures IndexOf(SectionTargets, es[j].section) < n
    {
      if j < |prev| { assert es[j] == prev[j]; }
    }
    forall a, b | 0 <= a < b < |es|
      ensures IndexOf(SectionTargets, es[a].section) < IndexOf(SectionTargets, es[b].section)
    {
      assert es[a] == prev[a];
      if b < |prev| { assert es[b] == prev[b]; }
    }
    forall i | 0 <= i < n ensures SectionTargets[i] in fields <==> HasEvent(es, SectionTargets[i]) {
      AppendedTarget(fields, prev, n, ev, i);
    }
  }

  /** After appending target `n - 1`'s event, target `i` has an event exactly when it is present. */
  lemma AppendedTarget(fields: Dict, prev: seq<SectionEvent>, n: nat, ev: SectionEvent, i: nat)
    requires i < n <= |SectionTargets| && ev.section == SectionTargets[n - 1] && ev.section in fields
    requires i < n - 1 ==> (SectionTargets[i] in fields <==> HasEvent(prev, SectionTargets[i]))
    ensures SectionTargets[i] in fields <==> HasEvent(prev + [ev], SectionTargets[i])
  {
    var es := prev + [ev];
    if i < n - 1 {
      TargetIndex(i);
      TargetIndex(n - 1);
      assert SectionTargets[i] != ev.section;
      if HasEvent(es, SectionTargets[i]) {
        var j :| 0 <= j < |es| && es[j].section == SectionTargets[i];
        assert j < |prev| && prev[j].section == SectionTargets[i];
      }
      if SectionTargets[i] in fields {
        var j :| 0 <= j < |prev| && prev[j].section == SectionTargets[i];
        assert es[j] == prev[j];
      }
    } else {
      assert es[|es| - 1].section == ev.section;
    }
  }

  /** Once walking the sections raises, the whole walk raises. */
  lemma {:induction false} RaisedPersists(summary: Json, k: nat, n: nat)
    requires k <= n <= |SectionTargets|
    requires SectionEvents(summary, k).Raised?
    ensures SectionEvents(summary, n) == SectionEvents(summary, k)
    decreases n - k
  {
    if n > k {
      RaisedPersists(summary, k, n - 1);
    }
  }

  /**
   * `stream_summarize`: runs `summarize`, then walks the four sections in order and emits one
   * event per section present.
   */
  method StreamSummarize(pipeline: SummarizationPipeline, metadata: Dict, replyA: Reply, replyB: Reply, replyC: Reply)
    returns (r: Result<seq<SectionEvent>>)
    requires !("authors" in metadata && metadata["authors"].JObj?)
    modifies pipeline.cache
    ensures var s := SummarizeOutcome(old(pipeline.cache.store), pipeline.model, metadata, replyA, replyB, replyC);
      r == (if s.Raised? then Raised(s.error) else SectionEvents(s.value, |SectionTargets|))
    ensures var s := SummarizeOutcome(old(pipeline.cache.store), pipeline.model, metadata, replyA, replyB, replyC);
      var w := WrittenKey(old(pipeline.cache.store), pipeline.model, metadata, s);
      && pipeline.cache.store == (if w.Some? then old(pipeline.cache.store)[w.value := s.value] else old(pipeline.cache.store))
      && pipeline.cache.ttl == (if w.Some? then old(pipeline.cache.ttl)[w.value := TtlSummary] else old(pipeline.cache.ttl))
    ensures pipeline.cache.counters == old(pipeline.cache.counters)
  {
    if MetadataId(metadata).Raised? {
      return Raised(MetadataId(metadata).error);
    }
    var summary := pipeline.Summarize(metadata, replyA, replyB, replyC);
    if summary.Raised? {
      return Raised(summary.error);
    }
    var events: seq<SectionEvent> := [];
    var idx := 0;
    while idx < |SectionTargets|
      invariant 0 <= idx <= |SectionTargets|
      invariant SectionEvents(summary.value, idx) == Ok(events)
    {
      var section := SectionTargets[idx];
      match summary.value {
        case JObj(fields) =>
          if section in fields {
            events := events + [SectionEvent(section, fields[section], ((idx + 1) as real) / (|SectionTargets| as real))];
          }
        case JStr(s) =>
          if Contains(s, section) {
            RaisedPersists(summary.value, idx + 1, |SectionTargets|);
            return Raised("TypeError");
          }
        case JArr(items) =>
          if JStr(section) in items {
            RaisedPersists(summary.value, idx + 1, |SectionTargets|);
            return Raised("TypeError");
          }
        case _ =>
          RaisedPersists(summary.value, idx + 1, |SectionTargets|);
          return Raised("TypeError");
      }
      idx := idx + 1;
    }
    return Ok(events);
  }
}
