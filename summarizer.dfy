/**
 * The summarizer agent (`SummarizerAgent`): the metadata record handed to the pipeline, the
 * run of the pipeline over a list of papers, and the collection of the results into a map from
 * arXiv ID to summary, with `None` for every paper whose run raised or returned a non-record.
 * The tasks that `asyncio.gather` runs concurrently are run here one after another, in list
 * order, against the shared cache; paper `i`'s three model replies are `replies(i)`.
 */
module Summarizer {
  import opened Wrappers
  import opened JsonValues
  import opened Text
  import opened DateTimes
  import opened Types
  import opened Llm
  import opened Cache
  import opened Pipeline

  /** The three model replies one summarization draws on (Stage A, B and C). */
  datatype StageReplies = StageReplies(a: Reply, b: Reply, c: Reply)

  /** The metadata record `_summarize_with_semaphore` builds from a candidate. */
  function ToMetadata(p: PaperCandidate): Dict {
    map[
      "arxiv_id" := JStr(p.arxivId),
      "title" := JStr(p.title),
      "authors" := JArr(AuthorItems(p.authors)),
      "abstract" := JStr(p.abstractText),
      "published" := JStr(IsoFormat(p.published)),
      "primary_category" := JStr(p.primaryCategory),
      "pdf_url" := JStr(p.pdfUrl),
      "entry_url" := JStr(p.entryUrl)]
  }

  /**
   * The record carries every field the pipeline reads, so neither the ID lookup nor Stage A
   * raises: the normalised ID is the candidate's, and the authors join with ", ".
   */
  lemma ToMetadataFeedsPipeline(p: PaperCandidate)
    ensures MetadataId(ToMetadata(p)) == Ok(NormalizeId(p.arxivId))
    ensures HasPromptFields(ToMetadata(p)) && !ToMetadata(p)["authors"].JObj?
    ensures JoinAuthors(ToMetadata(p)["authors"]) == Ok(Join(p.authors, ", "))
    ensures ToMetadata(p)["published"] == JStr(IsoFormat(p.published))
  {
    MetadataIdOfCandidate(p);
    AuthorsOfCandidate(p);
  }

  /** The record's ID field is the candidate's ID, as a string. */
  lemma MetadataIdOfCandidate(p: PaperCandidate)
    ensures MetadataId(ToMetadata(p)) == Ok(NormalizeId(p.arxivId))
  {
    assert ToMetadata(p)["arxiv_id"] == JStr(p.arxivId);
  }

  /** The record's authors field joins back to the candidate's names. */
  lemma AuthorsOfCandidate(p: PaperCandidate)
    ensures JoinAuthors(ToMetadata(p)["authors"]) == Ok(Join(p.authors, ", "))
  {
    assert ToMetadata(p)["authors"] == JArr(AuthorItems(p.authors));
    AuthorItemsJoin(p.authors);
  }

  /** The author list as the record stores it: one JSON string per name. */
  function AuthorItems(authors: seq<string>): (items: seq<Json>)
    ensures |items| == |authors| && forall i :: 0 <= i < |items| ==> items[i] == JStr(authors[i])
  {
    seq(|authors|, i requires 0 <= i < |authors| => JStr(authors[i]))
  }

  /** Joining the stored author strings gives the names joined with ", ". */
  lemma AuthorItemsJoin(authors: seq<string>)
    ensures JoinAuthors(JArr(AuthorItems(authors))) == Ok(Join(authors, ", "))
  {
    var items := AuthorItems(authors);
    assert forall i :: 0 <= i < |items| ==> items[i].JStr?;
    assert seq(|items|, i requires 0 <= i < |items| => items[i].s) == authors;
  }

  // ---------------------------------------------------------------- running the tasks

  /** The cache after one `summarize`: the written key, if any, now holds its result. */
  function StoreAfter(store: map<string, Json>, model: string, metadata: Dict, r: Result<Json>): map<string, Json> {
    match WrittenKey(store, model, metadata, r)
    case Some(k) => store[k := r.value]
    case None => store
  }

  function TtlAfter(store: map<string, Json>, ttl: map<string, int>, model: string, metadata: Dict, r: Result<Json>): map<string, int> {
    match WrittenKey(store, model, metadata, r)
    case Some(k) => ttl[k := TtlSummary]
    case None => ttl
  }

  /** The results of the first `k` tasks, and the cache they leave behind. */
  datatype Run = Run(results: seq<Result<Json>>, store: map<string, Json>, ttl: map<string, int>)

  /** One more task: `summarize` of the next paper against the cache so far, its result appended. */
  function Step(prev: Run, model: string, paper: PaperCandidate, rp: StageReplies): (next: Run)
    ensures |next.results| == |prev.results| + 1 && prev.results <= next.results
  {
    var md := ToMetadata(paper);
    var r := SummarizeOutcome(prev.store, model, md, rp.a, rp.b, rp.c);
    Run(prev.results + [r], StoreAfter(prev.store, model, md, r), TtlAfter(prev.store, prev.ttl, model, md, r))
  }

  /** The first `k` tasks, run in list order against the shared cache. */
  function RunTasks(store: map<string, Json>, ttl: map<string, int>, model: string,
                    papers: seq<PaperCandidate>, replies: nat -> StageReplies, k: nat): (run: Run)
    requires k <= |papers|
    ensures |run.results| == k
    ensures forall j :: 0 <= j <= k ==> RunTasks(store, ttl, model, papers, replies, j).results <= run.results
  {
    if k == 0 then Run([], store, ttl)
    else Step(RunTasks(store, ttl, model, papers, replies, k - 1), model, papers[k - 1], replies(k - 1))
  }

  /** A truthy cached entry is never overwritten: `summarize` writes only keys that held no truthy value. */
  lemma {:induction false} TruthyEntriesPersist(store: map<string, Json>, ttl: map<string, int>, model: string,
                                                papers: seq<PaperCandidate>, replies: nat -> StageReplies, k: nat, key: string)
    requires k <= |papers| && key in store && Truthy(store[key])
    ensures key in RunTasks(store, ttl, model, papers, replies, k).store
    ensures RunTasks(store, ttl, model, papers, replies, k).store[key] == store[key]
  {
    if k > 0 {
      TruthyEntriesPersist(store, ttl, model, papers, replies, k - 1, key);
      var prev := RunTasks(store, ttl, model, papers, replies, k - 1);
      assert RunTasks(store, ttl, model, papers, replies, k) == Step(prev, model, papers[k - 1], replies(k - 1));
      StepKeepsTruthy(prev, model, papers[k - 1], replies(k - 1), key);
    }
  }

  /** One `summarize` leaves a truthy entry as it was. */
  lemma StepKeepsTruthy(prev: Run, model: string, paper: PaperCandidate, rp: StageReplies, key: string)
    requires key in prev.store && Truthy(prev.store[key])
    ensures key in Step(prev, model, paper, rp).store && Step(prev, model, paper, rp).store[key] == prev.store[key]
  {
    var md := ToMetadata(paper);
    var r := SummarizeOutcome(prev.store, model, md, rp.a, rp.b, rp.c);
    var w := WrittenKey(prev.store, model, md, r);
    assert Step(prev, model, paper, rp).store == StoreAfter(prev.store, model, md, r);
    if w.Some? {
      assert w.value != key;
    }
  }

  /**
   * A paper whose summary was already cached (truthy) when the batch started gets the cached
   * summary, whatever the model would reply and whatever the other tasks write.
   */
  lemma CachedPaperServedFromCache(store: map<string, Json>, ttl: map<string, int>, model: string,
                                   papers: seq<PaperCandidate>, replies: nat -> StageReplies, i: nat)
    requires i < |papers|
    requires SummaryKey(NormalizeId(papers[i].arxivId), model, "v1") in store
    requires Truthy(store[SummaryKey(NormalizeId(papers[i].arxivId), model, "v1")])
    ensures RunTasks(store, ttl, model, papers, replies, |papers|).results[i]
            == Ok(store[SummaryKey(NormalizeId(papers[i].arxivId), model, "v1")])
  {
    var key := SummaryKey(NormalizeId(papers[i].arxivId), model, "v1");
    TruthyEntriesPersist(store, ttl, model, papers, replies, i, key);
    ToMetadataFeedsPipeline(papers[i]);
    assert RunTasks(store, ttl, model, papers, replies, i + 1).results <= RunTasks(store, ttl, model, papers, replies, |papers|).results;
  }

  // ---------------------------------------------------------------- collecting the results

  /** `isinstance(result, dict)`: a record result is kept, anything else (an exception included) is `None`. */
  function AsSummary(r: Result<Json>): (s: Option<Dict>)
    ensures s.Some? <==> r.Ok? && r.value.JObj?
    ensures s.Some? ==> r.value == JObj(s.value)
  {
    if r.Ok? && r.value.JObj? then Some(r.value.fields) else None
  }

  /** What each result contributes to the map. */
  function Summaries(results: seq<Result<Json>>): (ss: seq<Option<Dict>>)
    ensures |ss| == |results|
    ensures forall i :: 0 <= i < |results| ==> ss[i] == AsSummary(results[i])
  {
    seq(|results|, i requires 0 <= i < |results| => AsSummary(results[i]))
  }

  /**
   * The result map has a key for every paper and no other; with distinct IDs each entry is that
   * paper's own result, `None` exactly when its run raised or returned a non-record.
   */
  lemma CollectSpec(papers: seq<PaperCandidate>, results: seq<Result<Json>>, i: nat)
    requires |results| == |papers| && i < |papers|
    requires forall a, b :: 0 <= a < b < |papers| ==> papers[a].arxivId != papers[b].arxivId
    ensures ById(papers, Summaries(results)).Keys == set p | p in papers :: p.arxivId
    ensures papers[i].arxivId in ById(papers, Summaries(results))
    ensures ById(papers, Summaries(results))[papers[i].arxivId].Some? <==> results[i].Ok? && results[i].value.JObj?
    ensures ById(papers, Summaries(results))[papers[i].arxivId].Some?
            ==> results[i] == Ok(JObj(ById(papers, Summaries(results))[papers[i].arxivId].value))
  {
    ByIdKeys(papers, Summaries(results));
    ByIdLast(papers, Summaries(results), i);
  }

  /** `success_count`: the entries of the result map that hold a summary. */
  function SuccessCount(summaries: map<string, Option<Dict>>): nat {
    |set id | id in summaries && summaries[id].Some?|
  }

  /** The number of results that are records. */
  function RecordCount(results: seq<Result<Json>>): (n: nat)
    ensures n <= |results|
    ensures n == 0 <==> forall i :: 0 <= i < |results| ==> AsSummary(results[i]).None?
  {
    if results == [] then 0
    else
      var n := |results| - 1;
      var m := RecordCount(results[..n]);
      assert forall i :: 0 <= i < n ==> results[..n][i] == results[i];
      m + (if AsSummary(results[n]).Some? then 1 else 0)
  }

  /**
   * With distinct IDs, the logged success count is the number of papers whose run returned a
   * record: a failure is one `None` entry and lowers the count by one, leaving the rest alone.
   */
  lemma {:induction false} SuccessCountIsRecords(papers: seq<PaperCandidate>, results: seq<Result<Json>>)
    requires |results| == |papers|
    requires forall a, b :: 0 <= a < b < |papers| ==> papers[a].arxivId != papers[b].arxivId
    ensures SuccessCount(ById(papers, Summaries(results))) == RecordCount(results)
  {
    if papers != [] {
      var n := |papers| - 1;
      var ss := Summaries(results);
      assert ss[..n] == Summaries(results[..n]);
      SuccessCountIsRecords(papers[..n], results[..n]);
      LastIdIsNew(papers, ss[..n]);
      SuccessCountUpdate(ById(papers[..n], ss[..n]), papers[n].arxivId, ss[n]);
    }
  }

  /** With distinct IDs the last paper's ID is not yet a key of the earlier papers' map. */
  lemma LastIdIsNew<V>(papers: seq<PaperCandidate>, values: seq<V>)
    requires |papers| > 0 && |values| == |papers| - 1
    requires forall a, b :: 0 <= a < b < |papers| ==> papers[a].arxivId != papers[b].arxivId
    ensures papers[|papers| - 1].arxivId !in ById(papers[..|papers| - 1], values)
  {
    var n := |papers| - 1;
    ByIdKeys(papers[..n], values);
  }

  /** Adding a new entry raises the count by one exactly when it holds a summary. */
  lemma SuccessCountUpdate(m: map<string, Option<Dict>>, id: string, v: Option<Dict>)
    requires id !in m
    ensures SuccessCount(m[id := v]) == SuccessCount(m) + (if v.Some? then 1 else 0)
  {
    var after := m[id := v];
    var before := set k | k in m && m[k].Some?;
    if v.Some? {
      assert (set k | k in after && after[k].Some?) == before + {id};
    } else {
      assert (set k | k in after && after[k].Some?) == before;
    }
  }

  class SummarizerAgent {
    const pipeline: SummarizationPipeline
    /** The semaphore bound; the tasks are run one at a time here, which it allows. */
    const maxConcurrent: int

    constructor(pipeline: SummarizationPipeline, maxConcurrent: int := 3)
      ensures this.pipeline == pipeline && this.maxConcurrent == maxConcurrent
    {
      this.pipeline := pipeline;
      this.maxConcurrent := maxConcurrent;
    }

    /** `_summarize_with_semaphore`: the candidate's metadata through the pipeline; a raise propagates. */
    method SummarizeWithSemaphore(paper: PaperCandidate, replies: StageReplies) returns (r: Result<Json>)
      modifies pipeline.cache
      ensures r == SummarizeOutcome(old(pipeline.cache.store), pipeline.model, ToMetadata(paper), replies.a, replies.b, replies.c)
      ensures pipeline.cache.store == StoreAfter(old(pipeline.cache.store), pipeline.model, ToMetadata(paper), r)
      ensures pipeline.cache.ttl == TtlAfter(old(pipeline.cache.store), old(pipeline.cache.ttl), pipeline.model, ToMetadata(paper), r)
      ensures pipeline.cache.counters == old(pipeline.cache.counters)
    {
      r := pipeline.Summarize(ToMetadata(paper), replies.a, replies.b, replies.c);
    }

    /** The tasks of `summarize_papers`, one after another: each paper's result, in list order. */
    method RunAll(papers: seq<PaperCandidate>, replies: nat -> StageReplies) returns (results: seq<Result<Json>>)
      modifies pipeline.cache
      ensures results == RunTasks(old(pipeline.cache.store), old(pipeline.cache.ttl), pipeline.model, papers, replies, |papers|).results
      ensures pipeline.cache.store == RunTasks(old(pipeline.cache.store), old(pipeline.cache.ttl), pipeline.model, papers, replies, |papers|).store
      ensures pipeline.cache.ttl == RunTasks(old(pipeline.cache.store), old(pipeline.cache.ttl), pipeline.model, papers, replies, |papers|).ttl
      ensures pipeline.cache.counters == old(pipeline.cache.counters)
    {
      ghost var store0 := pipeline.cache.store;
      ghost var ttl0 := pipeline.cache.ttl;
      results := [];
      var i := 0;
      while i < |papers|
        invariant 0 <= i <= |papers|
        invariant results == RunTasks(store0, ttl0, pipeline.model, papers, replies, i).results
        invariant pipeline.cache.store == RunTasks(store0, ttl0, pipeline.model, papers, replies, i).store
        invariant pipeline.cache.ttl == RunTasks(store0, ttl0, pipeline.model, papers, replies, i).ttl
        invariant pipeline.cache.counters == old(pipeline.cache.counters)
      {
        ghost var prev := RunTasks(store0, ttl0, pipeline.model, papers, replies, i);
        var r := SummarizeWithSemaphore(papers[i], replies(i));
        results := results + [r];
        assert Run(results, pipeline.cache.store, pipeline.cache.ttl) == Step(prev, pipeline.model, papers[i], replies(i));
        i := i + 1;
      }
    }

    /** `summarize_papers`: every paper's task is run, then the results are collected by ID. */
    method SummarizePapers(papers: seq<PaperCandidate>, replies: nat -> StageReplies)
      returns (summaries: map<string, Option<Dict>>)
      modifies pipeline.cache
      ensures summaries == ById(papers, Summaries(RunTasks(old(pipeline.cache.store), old(pipeline.cache.ttl), pipeline.model, papers, replies, |papers|).results))
      ensures pipeline.cache.store == RunTasks(old(pipeline.cache.store), old(pipeline.cache.ttl), pipeline.model, papers, replies, |papers|).store
      ensures pipeline.cache.ttl == RunTasks(old(pipeline.cache.store), old(pipeline.cache.ttl), pipeline.model, papers, replies, |papers|).ttl
      ensures pipeline.cache.counters == old(pipeline.cache.counters)
    {
      var results := RunAll(papers, replies);
      summaries := FillById(papers, Summaries(results));
    }

    /** `summarize_single`: the pipeline's result, or `None` when it raised. */
    method SummarizeSingle(paper: PaperCandidate, replies: StageReplies) returns (r: Option<Json>)
      modifies pipeline.cache
      ensures var s := SummarizeOutcome(old(pipeline.cache.store), pipeline.model, ToMetadata(paper), replies.a, replies.b, replies.c);
        r == if s.Ok? then Some(s.value) else None
      ensures var s := SummarizeOutcome(old(pipeline.cache.store), pipeline.model, ToMetadata(paper), replies.a, replies.b, replies.c);
        && pipeline.cache.store == StoreAfter(old(pipeline.cache.store), pipeline.model, ToMetadata(paper), s)
        && pipeline.cache.ttl == TtlAfter(old(pipeline.cache.store), old(pipeline.cache.ttl), pipeline.model, ToMetadata(paper), s)
      ensures pipeline.cache.counters == old(pipeline.cache.counters)
    {
      var s := SummarizeWithSemaphore(paper, replies);
      if s.Ok? {
        return Some(s.value);
      }
      return None;
    }
  }
}
