/**
 * The retriever agent (`RetrieverAgent`): the scan of the arXiv search results for papers
 * published inside a time window, the batched citation enrichment, and the final
 * filter / stable sort / slice by citation count.
 */
module Retriever {
  import opened Wrappers
  import opened JsonValues
  import opened Text
  import opened DateTimes
  import opened Types
  import opened Sorting
  import opened Cache
  import opened Arxiv

  // ---------------------------------------------------------------- the window scan

  /**
   * What iterating over the arXiv client's results gives: the results yielded, and whether the
   * iteration then ended by raising (for example on a network error) rather than normally.
   */
  datatype SearchStream = SearchStream(results: seq<ArxivEntry>, raised: bool)

  /** `start_date <= published <= end_date`, both ends inclusive. */
  predicate InWindow(published: DateTime, start: DateTime, end: DateTime) {
    AtOrBefore(start, published) && AtOrBefore(published, end)
  }

  /** The candidate built from one search result. */
  function CandidateOf(e: ArxivEntry): (p: PaperCandidate)
  {
    PaperCandidate(LastPathSegment(e.entryId), e.title, e.authors, FlatAbstract(e.summary),
                   e.published, e.primaryCategory, e.pdfUrl, e.entryId, source := "arxiv")
  }

  /** A candidate takes its ID from the last segment of the entry URL, has a one-line abstract and zero counts. */
  lemma CandidateFacts(e: ArxivEntry)
    ensures var p := CandidateOf(e);
      && p.arxivId == LastPathSegment(e.entryId) && '/' !in p.arxivId && p.entryUrl == e.entryId
      && p.published == e.published && '\n' !in p.abstractText
      && p.citationCount == 0 && p.influentialCitationCount == 0 && p.source == "arxiv"
  {
  }

  /** The candidates of the results that lie in the window, in result order. */
  function InWindowCandidates(rs: seq<ArxivEntry>, start: DateTime, end: DateTime): seq<PaperCandidate> {
    if rs == [] then []
    else
      var prev := InWindowCandidates(rs[..|rs| - 1], start, end);
      var e := rs[|rs| - 1];
      if InWindow(e.published, start, end) then prev + [CandidateOf(e)] else prev
  }

  /** The first `n` elements, or all of them when there are fewer. */
  function Take<T>(s: seq<T>, n: nat): (r: seq<T>)
    ensures |r| == if n < |s| then n else |s|
    ensures r <= s
  {
    if n < |s| then s[..n] else s
  }

  /**
   * What `_fetch_arxiv_papers` collects. The cap is checked after each result, so with a cap of 0
   * the first result is still examined (and kept when it is in the window).
   */
  function WindowScan(rs: seq<ArxivEntry>, start: DateTime, end: DateTime, cap: nat): seq<PaperCandidate> {
    if cap == 0 then InWindowCandidates(Take(rs, 1), start, end)
    else Take(InWindowCandidates(rs, start, end), cap)
  }

  /** The in-window candidates of a prefix are a prefix of those of the whole, one longer at most per result. */
  lemma {:induction false} InWindowPrefix(rs: seq<ArxivEntry>, k: nat, start: DateTime, end: DateTime)
    requires k <= |rs|
    ensures InWindowCandidates(rs[..k], start, end) <= InWindowCandidates(rs, start, end)
    decreases |rs| - k
  {
    if k < |rs| {
      InWindowPrefix(rs, k + 1, start, end);
      assert rs[..k + 1][..k] == rs[..k];
    } else {
      assert rs[..k] == rs;
    }
  }

  lemma InWindowStep(rs: seq<ArxivEntry>, k: nat, start: DateTime, end: DateTime)
    requires k < |rs|
    ensures InWindowCandidates(rs[..k + 1], start, end)
            == InWindowCandidates(rs[..k], start, end) + (if InWindow(rs[k].published, start, end) then [CandidateOf(rs[k])] else [])
  {
    assert rs[..k + 1][..k] == rs[..k];
  }

  /** The result that a kept candidate comes from. */
  lemma {:induction false} SourceOf(rs: seq<ArxivEntry>, start: DateTime, end: DateTime, p: PaperCandidate)
    returns (i: nat)
    requires p in InWindowCandidates(rs, start, end)
    ensures i < |rs| && InWindow(rs[i].published, start, end) && CandidateOf(rs[i]) == p
    decreases |rs|
  {
    var init := rs[..|rs| - 1];
    if p in InWindowCandidates(init, start, end) {
      i := SourceOf(init, start, end, p);
      assert rs[i] == init[i];
    } else {
      i := |rs| - 1;
    }
  }

  /** Every in-window result gives a kept candidate. */
  lemma SourceKept(rs: seq<ArxivEntry>, i: nat, start: DateTime, end: DateTime)
    requires i < |rs| && InWindow(rs[i].published, start, end)
    ensures CandidateOf(rs[i]) in InWindowCandidates(rs, start, end)
  {
    InWindowStep(rs, i, start, end);
    InWindowPrefix(rs, i + 1, start, end);
    var pre := InWindowCandidates(rs[..i + 1], start, end);
    assert pre[|pre| - 1] == CandidateOf(rs[i]);
    assert InWindowCandidates(rs, start, end)[|pre| - 1] == CandidateOf(rs[i]);
  }

  /** A candidate is kept exactly when some result in the window gives it. */
  lemma InWindowMembers(rs: seq<ArxivEntry>, start: DateTime, end: DateTime, p: PaperCandidate)
    ensures p in InWindowCandidates(rs, start, end)
            <==> exists i :: 0 <= i < |rs| && InWindow(rs[i].published, start, end) && CandidateOf(rs[i]) == p
  {
    if p in InWindowCandidates(rs, start, end) {
      var i := SourceOf(rs, start, end, p);
    }
    if exists i :: 0 <= i < |rs| && InWindow(rs[i].published, start, end) && CandidateOf(rs[i]) == p {
      var i :| 0 <= i < |rs| && InWindow(rs[i].published, start, end) && CandidateOf(rs[i]) == p;
      SourceKept(rs, i, start, end);
    }
  }

  lemma {:induction false} InWindowLength(rs: seq<ArxivEntry>, start: DateTime, end: DateTime)
    ensures |InWindowCandidates(rs, start, end)| <= |rs|
    decreases |rs|
  {
    if rs != [] { InWindowLength(rs[..|rs| - 1], start, end); }
  }

  /**
   * `_fetch_arxiv_papers` over the results the client yields: in-window results become
   * candidates in order, and the scan stops once the list holds `maxResults` papers. An
   * exception from the client ends the scan with the papers collected so far.
   */
  method FetchArxivPapers(stream: SearchStream, start: DateTime, end: DateTime, maxResults: nat)
    returns (papers: seq<PaperCandidate>)
    ensures papers == WindowScan(stream.results, start, end, maxResults)
  {
    var rs := stream.results;
    papers := [];
    var i := 0;
    while i < |rs|
      invariant 0 <= i <= |rs|
      invariant papers == InWindowCandidates(rs[..i], start, end)
      invariant i > 0 ==> |papers| < maxResults
    {
      InWindowStep(rs, i, start, end);
      if InWindow(rs[i].published, start, end) {
        papers := papers + [CandidateOf(rs[i])];
      }
      if |papers| >= maxResults {
        ScanStopsAt(rs, i, start, end, maxResults);
        return;
      }
      i := i + 1;
    }
    assert rs[..i] == rs;
    ScanRunsOut(rs, start, end, maxResults);
  }

  /** Reaching the cap right after result `i` leaves exactly what the scan collects. */
  lemma ScanStopsAt(rs: seq<ArxivEntry>, i: nat, start: DateTime, end: DateTime, cap: nat)
    requires i < |rs|
    requires |InWindowCandidates(rs[..i + 1], start, end)| >= cap
    requires i > 0 ==> |InWindowCandidates(rs[..i], start, end)| < cap
    ensures InWindowCandidates(rs[..i + 1], start, end) == WindowScan(rs, start, end, cap)
  {
    var pre := InWindowCandidates(rs[..i + 1], start, end);
    InWindowPrefix(rs, i + 1, start, end);
    if cap == 0 {
      assert i == 0 && Take(rs, 1) == rs[..1];
    } else {
      InWindowStep(rs, i, start, end);
      assert |pre| == cap;
    }
  }

  /** A scan that never reaches the cap collects every in-window result. */
  lemma ScanRunsOut(rs: seq<ArxivEntry>, start: DateTime, end: DateTime, cap: nat)
    requires rs != [] ==> |InWindowCandidates(rs, start, end)| < cap
    ensures InWindowCandidates(rs, start, end) == WindowScan(rs, start, end, cap)
  {
    if cap == 0 {
      assert rs == [] && Take(rs, 1) == rs;
    }
  }

  /** Every scanned paper comes from a result inside the window, and they keep the result order. */
  lemma WindowScanInWindow(rs: seq<ArxivEntry>, start: DateTime, end: DateTime, cap: nat)
    ensures WindowScan(rs, start, end, cap) <= InWindowCandidates(rs, start, end)
    ensures forall p :: p in WindowScan(rs, start, end, cap) ==>
              exists i :: 0 <= i < |rs| && InWindow(rs[i].published, start, end) && CandidateOf(rs[i]) == p
  {
    var out := WindowScan(rs, start, end, cap);
    var all := InWindowCandidates(rs, start, end);
    if cap == 0 {
      InWindowPrefix(rs, if |rs| < 1 then |rs| else 1, start, end);
      assert Take(rs, 1) == rs[..if |rs| < 1 then |rs| else 1];
    }
    forall p | p in out
      ensures exists i :: 0 <= i < |rs| && InWindow(rs[i].published, start, end) && CandidateOf(rs[i]) == p
    {
      var j :| 0 <= j < |out| && out[j] == p;
      assert all[j] == p;
      InWindowMembers(rs, start, end, p);
    }
  }

  /** With a positive cap the scan yields at most `cap` papers, and all in-window ones when they fit. */
  lemma WindowScanCap(rs: seq<ArxivEntry>, start: DateTime, end: DateTime, cap: nat)
    requires cap >= 1
    ensures |WindowScan(rs, start, end, cap)| <= cap
    ensures |InWindowCandidates(rs, start, end)| <= cap ==> WindowScan(rs, start, end, cap) == InWindowCandidates(rs, start, end)
  {
  }

  /** A cap of 0 still admits the first result when it lies in the window. */
  lemma WindowScanCapZero(rs: seq<ArxivEntry>, start: DateTime, end: DateTime)
    requires rs != [] && InWindow(rs[0].published, start, end)
    ensures WindowScan(rs, start, end, 0) == [CandidateOf(rs[0])]
  {
    var one := [rs[0]];
    assert Take(rs, 1) == one;
    assert one[..|one| - 1] == [];
    assert InWindowCandidates(one[..|one| - 1], start, end) == [];
    assert InWindowCandidates(one, start, end) == [] + [CandidateOf(one[0])];
  }

  // ---------------------------------------------------------------- citation enrichment

  /** What the citation lookup for one paper gives: both counts, nothing, or an exception. */
  datatype CitationLookup = Counts(citationCount: int, influentialCount: int) | NoData | LookupFailed(error: string)

  /** `fetch_citation`: the paper with both counts overwritten, unchanged, or dropped when its lookup raised. */
  function Enriched(p: PaperCandidate, o: CitationLookup): Option<PaperCandidate> {
    match o
    case Counts(c, i) => Some(p.(citationCount := c, influentialCitationCount := i))
    case NoData => Some(p)
    case LookupFailed(_) => None
  }

  /** The enriched papers among the first `k`, in input order. */
  function EnrichPrefix(papers: seq<PaperCandidate>, outcome: nat -> CitationLookup, k: nat): seq<PaperCandidate>
    requires k <= |papers|
  {
    if k == 0 then []
    else
      var prev := EnrichPrefix(papers, outcome, k - 1);
      match Enriched(papers[k - 1], outcome(k - 1))
      case Some(q) => prev + [q]
      case None => prev
  }

  /** The positions among the first `k` whose task did not raise. */
  function KeptPositions(outcome: nat -> CitationLookup, k: nat): (ps: seq<nat>)
    ensures forall j :: 0 <= j < |ps| ==> ps[j] < k
  {
    if k == 0 then []
    else KeptPositions(outcome, k - 1) + (if outcome(k - 1).LookupFailed? then [] else [k - 1])
  }

  /** An enrichment step changes only the two counts; a lookup with data sets both. */
  lemma EnrichedFields(p: PaperCandidate, o: CitationLookup)
    ensures Enriched(p, o).Some? <==> !o.LookupFailed?
    ensures Enriched(p, o).Some? ==>
      var q := Enriched(p, o).value;
      && q.(citationCount := p.citationCount, influentialCitationCount := p.influentialCitationCount) == p
      && (o.Counts? ==> q.citationCount == o.citationCount && q.influentialCitationCount == o.influentialCount)
      && (o.NoData? ==> q == p)
  {
  }

  /** Kept positions only grow at the end, so they are strictly increasing. */
  lemma {:induction false} KeptIncreasing(outcome: nat -> CitationLookup, k: nat)
    ensures forall a, b :: 0 <= a < b < |KeptPositions(outcome, k)| ==> KeptPositions(outcome, k)[a] < KeptPositions(outcome, k)[b]
    decreases k
  {
    if k > 0 {
      KeptIncreasing(outcome, k - 1);
      var prev := KeptPositions(outcome, k - 1);
      var ps := KeptPositions(outcome, k);
      forall a, b | 0 <= a < b < |ps| ensures ps[a] < ps[b] {
        assert ps[a] == prev[a] && prev[a] < k - 1;
        if b < |prev| {
          assert ps[b] == prev[b] && prev[a] < prev[b];
        } else {
          assert ps[b] == k - 1;
        }
      }
    }
  }

  /** A position is kept exactly when its task did not raise. */
  lemma {:induction false} KeptExactly(outcome: nat -> CitationLookup, k: nat, i: nat)
    requires i < k
    ensures i in KeptPositions(outcome, k) <==> !outcome(i).LookupFailed?
    decreases k
  {
    if i < k - 1 {
      KeptExactly(outcome, k - 1, i);
      assert i in KeptPositions(outcome, k - 1) <==> i in KeptPositions(outcome, k);
    }
  }

  /** The enriched papers are the kept positions' papers, each updated by its own lookup. */
  lemma {:induction false} EnrichMatchesKept(papers: seq<PaperCandidate>, outcome: nat -> CitationLookup, k: nat)
    requires k <= |papers|
    ensures var es := EnrichPrefix(papers, outcome, k); var ps := KeptPositions(outcome, k);
      && |es| == |ps|
      && forall j :: 0 <= j < |ps| ==> Enriched(papers[ps[j]], outcome(ps[j])) == Some(es[j])
    decreases k
  {
    if k > 0 {
      EnrichMatchesKept(papers, outcome, k - 1);
      var prev := EnrichPrefix(papers, outcome, k - 1);
      var pp := KeptPositions(outcome, k - 1);
      if outcome(k - 1).LookupFailed? {
        assert EnrichPrefix(papers, outcome, k) == prev;
        assert KeptPositions(outcome, k) == pp;
      } else {
        var q := Enriched(papers[k - 1], outcome(k - 1)).value;
        EnrichStepKept(prev, pp, q, k - 1, papers, outcome);
      }
    }
  }

  /** Appending a kept position and its enriched paper keeps the two lists aligned. */
  lemma EnrichStepKept(es: seq<PaperCandidate>, ps: seq<nat>, q: PaperCandidate, i: nat,
                       papers: seq<PaperCandidate>, outcome: nat -> CitationLookup)
    requires i < |papers| && |es| == |ps| && Enriched(papers[i], outcome(i)) == Some(q)
    requires forall j :: 0 <= j < |ps| ==> ps[j] < |papers| && Enriched(papers[ps[j]], outcome(ps[j])) == Some(es[j])
    ensures var es1 := es + [q]; var ps1 := ps + [i];
      && |es1| == |ps1|
      && forall j :: 0 <= j < |ps1| ==> ps1[j] < |papers| && Enriched(papers[ps1[j]], outcome(ps1[j])) == Some(es1[j])
  {
  }

  /**
   * The enriched list is the order-preserving subsequence of the input at the positions whose
   * task did not raise, each paper updated by its own lookup.
   */
  lemma EnrichAligned(papers: seq<PaperCandidate>, outcome: nat -> CitationLookup, k: nat)
    requires k <= |papers|
    ensures var es := EnrichPrefix(papers, outcome, k); var ps := KeptPositions(outcome, k);
      && |es| == |ps|
      && (forall j :: 0 <= j < |ps| ==> Enriched(papers[ps[j]], outcome(ps[j])) == Some(es[j]))
      && (forall a, b :: 0 <= a < b < |ps| ==> ps[a] < ps[b])
      && (forall i :: 0 <= i < k ==> (i in ps <==> !outcome(i).LookupFailed?))
  {
    EnrichMatchesKept(papers, outcome, k);
    KeptIncreasing(outcome, k);
    forall i | 0 <= i < k ensures i in KeptPositions(outcome, k) <==> !outcome(i).LookupFailed? {
      KeptExactly(outcome, k, i);
    }
  }

  /** When no task raises, every paper is kept, in order. */
  lemma EnrichKeepsAllWhenNoneFail(papers: seq<PaperCandidate>, outcome: nat -> CitationLookup)
    requires forall i :: 0 <= i < |papers| ==> !outcome(i).LookupFailed?
    ensures |EnrichPrefix(papers, outcome, |papers|)| == |papers|
    ensures forall i :: 0 <= i < |papers| ==>
      Enriched(papers[i], outcome(i)) == Some(EnrichPrefix(papers, outcome, |papers|)[i])
  {
    EnrichAligned(papers, outcome, |papers|);
    KeptAll(outcome, |papers|);
  }

  lemma {:induction false} KeptAll(outcome: nat -> CitationLookup, k: nat)
    requires forall i :: 0 <= i < k ==> !outcome(i).LookupFailed?
    ensures KeptPositions(outcome, k) == seq(k, i => i)
    decreases k
  {
    if k > 0 {
      KeptAll(outcome, k - 1);
      assert seq(k, i => i) == seq(k - 1, i => i) + [k - 1];
    }
  }

  const BatchSize: nat := 10

  /** The pauses between batches: one after every batch of 10 but the last, so `ceil(n/10) - 1`. */
  function Pauses(n: nat): nat {
    if n == 0 then 0 else (n + BatchSize - 1) / BatchSize - 1
  }

  /**
   * `_enrich_with_citations`, with the lookup outcome of the paper at each position as a
   * parameter: the papers are taken in batches of 10, each paper's task is kept unless it
   * raised, and a pause follows every batch that has another after it.
   */
  method EnrichWithCitations(papers: seq<PaperCandidate>, outcome: nat -> CitationLookup)
    returns (enriched: seq<PaperCandidate>, pauses: nat)
    ensures enriched == EnrichPrefix(papers, outcome, |papers|)
    ensures pauses == Pauses(|papers|)
  {
    if |papers| == 0 {
      return [], 0;
    }
    enriched := [];
    pauses := 0;
    var i := 0;
    ghost var batches := 0;
    while i < |papers|
      invariant i == batches * BatchSize && (i == 0 || i - BatchSize < |papers|)
      invariant enriched == EnrichPrefix(papers, outcome, if i < |papers| then i else |papers|)
      invariant pauses == if i < |papers| then batches else batches - 1
      decreases |papers| - i
    {
      var hi := if i + BatchSize < |papers| then i + BatchSize else |papers|;
      enriched := EnrichBatch(papers, outcome, i, hi, enriched);
      if i + BatchSize < |papers| {
        pauses := pauses + 1;
      }
      i := i + BatchSize;
      batches := batches + 1;
    }
    PausesOfBatches(|papers|, batches);
  }

  /** `n` papers that take `b` batches of 10 need `b - 1` pauses. */
  lemma PausesOfBatches(n: nat, b: nat)
    requires 0 < n && (b - 1) * BatchSize < n <= b * BatchSize
    ensures Pauses(n) == b - 1
  {
    assert (n + BatchSize - 1) / BatchSize == b;
  }

  /** One batch: the results of positions `lo..hi`, appended in order. */
  method EnrichBatch(papers: seq<PaperCandidate>, outcome: nat -> CitationLookup, lo: nat, hi: nat, acc: seq<PaperCandidate>)
    returns (r: seq<PaperCandidate>)
    requires lo <= hi <= |papers|
    requires acc == EnrichPrefix(papers, outcome, lo)
    ensures r == EnrichPrefix(papers, outcome, hi)
  {
    r := acc;
    var j := lo;
    while j < hi
      invariant lo <= j <= hi
      invariant r == EnrichPrefix(papers, outcome, j)
    {
      var q := Enriched(papers[j], outcome(j));
      if q.Some? {
        r := r + [q.value];
      }
      j := j + 1;
    }
  }

  // ---------------------------------------------------------------- filter, sort, slice

  function CitationKey(p: PaperCandidate): real {
    p.citationCount as real
  }

  predicate MeetsMinimum(p: PaperCandidate, minCitations: int) {
    p.citationCount >= minCitations
  }

  /** The tail of `retrieve_papers`: keep papers with enough citations, sort by count (stably, descending), slice. */
  function RankByCitations(papers: seq<PaperCandidate>, minCitations: int, maxResults: nat): seq<PaperCandidate> {
    var filtered := Filter(papers, p => MeetsMinimum(p, minCitations));
    Take(SortDesc(filtered, CitationKey), maxResults)
  }

  lemma {:induction false} WithKeyPrefix<T>(s: seq<T>, n: nat, key: T -> real, k: real)
    requires n <= |s|
    ensures WithKey(s[..n], key, k) <= WithKey(s, key, k)
    decreases n
  {
    if n > 0 {
      WithKeyPrefix(s[1..], n - 1, key, k);
      assert s[..n][1..] == s[1..][..n - 1];
    }
  }

  /**
   * The ranked list has only papers with at least `minCitations` citations, in non-increasing
   * citation order, papers with equal counts in their input order, at most `maxResults` of
   * them, and it is exactly the best `min(maxResults, #qualifying)` of the input.
   */
  lemma RankByCitationsProps(papers: seq<PaperCandidate>, minCitations: int, maxResults: nat)
    ensures var r := RankByCitations(papers, minCitations, maxResults);
      var filtered := Filter(papers, p => MeetsMinimum(p, minCitations));
      && (forall i :: 0 <= i < |r| ==> r[i].citationCount >= minCitations && r[i] in papers)
      && SortedDesc(r, CitationKey)
      && |r| == (if maxResults < |filtered| then maxResults else |filtered|)
      && (forall k :: WithKey(r, CitationKey, k) <= WithKey(filtered, CitationKey, k))
  {
    var filtered := Filter(papers, p => MeetsMinimum(p, minCitations));
    var sorted := SortDesc(filtered, CitationKey);
    var r := RankByCitations(papers, minCitations, maxResults);
    assert r == sorted[..|r|];
    forall i | 0 <= i < |r| ensures r[i].citationCount >= minCitations && r[i] in papers {
      assert r[i] in multiset(sorted);
    }
    forall k ensures WithKey(r, CitationKey, k) <= WithKey(filtered, CitationKey, k) {
      WithKeyPrefix(sorted, |r|, CitationKey, k);
    }
  }

  /**
   * Three enriched papers with 0, 5 and 50 citations and a minimum of 1: the one without
   * citations is dropped and the other two come back with 50 first.
   */
  lemma RankByCitationsExample(zero: PaperCandidate, five: PaperCandidate, fifty: PaperCandidate)
    requires zero.citationCount == 0 && five.citationCount == 5 && fifty.citationCount == 50
    ensures RankByCitations([zero, five, fifty], 1, 6) == [fifty, five]
  {
    var meets := p => MeetsMinimum(p, 1);
    assert [zero, five, fifty][1..] == [five, fifty] && [five, fifty][1..] == [fifty] && [fifty][1..] == [];
    assert Filter([fifty], meets) == [fifty];
    assert Filter([five, fifty], meets) == [five, fifty];
    assert Filter([zero, five, fifty], meets) == [five, fifty];
    assert SortDesc([fifty], CitationKey) == [fifty];
    assert Insert(five, [fifty], CitationKey) == [fifty, five];
    assert SortDesc([five, fifty], CitationKey) == [fifty, five];
  }

  // ---------------------------------------------------------------- retrieve_papers

  /** `start_date.strftime('%Y%m')`. */
  function PeriodKey(start: Instant): (k: string)
    ensures |k| == 6 && forall i :: 0 <= i < |k| ==> IsDigit(k[i])
    ensures DigitsValue(k[..4]) == start.year && DigitsValue(k[4..]) == start.month
  {
    NatToStringWidth(start.year, 4);
    NatToStringWidth(start.month, 2);
    var y := ZeroPad(start.year, 4);
    var m := ZeroPad(start.month, 2);
    assert (y + m)[..4] == y && (y + m)[4..] == m;
    y + m
  }

  /**
   * `_get_cached_papers`: whatever the store holds under `dra:citations:<period>`, the helper
   * answers that nothing is cached.
   */
  method GetCachedPapers(cache: RedisCache, periodKey: string) returns (r: Option<seq<PaperCandidate>>)
    ensures r == None
  {
    var data := cache.GetCitations(periodKey);
    if data.Some? && Truthy(data.value) {
      return None;
    }
    return None;
  }

  /** What `retrieve_papers` returns: the ranking of the enriched in-window scan for twice the count. */
  function Retrieved(start: Instant, end: Instant, maxResults: nat, minCitations: int,
                     stream: SearchStream, outcome: nat -> CitationLookup): seq<PaperCandidate> {
    var scanned := WindowScan(stream.results, start, end, maxResults * 2);
    RankByCitations(EnrichPrefix(scanned, outcome, |scanned|), minCitations, maxResults)
  }

  /**
   * `retrieve_papers`: twice the requested number of results is asked for, the in-window
   * candidates are enriched, then filtered, sorted and sliced. The cache read never hits, and the
   * cache write stores nothing (the method cannot change the cache).
   */
  method RetrievePapers(cache: RedisCache, start: Instant, end: Instant, maxResults: nat, minCitations: int,
                        stream: SearchStream, outcome: nat -> CitationLookup)
    returns (r: seq<PaperCandidate>)
    ensures r == Retrieved(start, end, maxResults, minCitations, stream, outcome)
  {
    var periodKey := PeriodKey(start);
    var cached := GetCachedPapers(cache, periodKey);
    if cached.Some? {
      // a cache hit would return its first `maxResults` papers; the helper never reports one
      assert false;
    }
    var papers := FetchArxivPapers(stream, start, end, maxResults * 2);
    var withCitations, _ := EnrichWithCitations(papers, outcome);
    var filtered := Filter(withCitations, p => MeetsMinimum(p, minCitations));
    var sorted := SortDesc(filtered, CitationKey);
    r := Take(sorted, maxResults);
  }

  /** The retrieved papers all come from in-window results, meet the minimum, and are at most `maxResults`. */
  lemma RetrievedPapersSound(stream: SearchStream, start: Instant, end: Instant, maxResults: nat, minCitations: int,
                             outcome: nat -> CitationLookup)
    ensures var r := Retrieved(start, end, maxResults, minCitations, stream, outcome);
      && |r| <= maxResults
      && SortedDesc(r, CitationKey)
      && forall i :: 0 <= i < |r| ==> r[i].citationCount >= minCitations && InWindow(r[i].published, start, end)
  {
    var scanned := WindowScan(stream.results, start, end, maxResults * 2);
    var es := EnrichPrefix(scanned, outcome, |scanned|);
    RankByCitationsProps(es, minCitations, maxResults);
    ScanPublishedInWindow(stream.results, start, end, maxResults * 2);
    EnrichKeepsWindow(scanned, outcome, |scanned|, start, end);
  }

  /** Every scanned candidate was published inside the window. */
  lemma ScanPublishedInWindow(rs: seq<ArxivEntry>, start: DateTime, end: DateTime, cap: nat)
    ensures forall p :: p in WindowScan(rs, start, end, cap) ==> InWindow(p.published, start, end)
  {
    WindowScanInWindow(rs, start, end, cap);
    forall p | p in WindowScan(rs, start, end, cap) ensures InWindow(p.published, start, end) {
      var i :| 0 <= i < |rs| && InWindow(rs[i].published, start, end) && CandidateOf(rs[i]) == p;
      CandidateFacts(rs[i]);
    }
  }

  /** Enrichment keeps publication dates, so papers published in the window stay in it. */
  lemma {:induction false} EnrichKeepsWindow(papers: seq<PaperCandidate>, outcome: nat -> CitationLookup, k: nat,
                                            start: DateTime, end: DateTime)
    requires k <= |papers|
    requires forall p :: p in papers ==> InWindow(p.published, start, end)
    ensures forall q :: q in EnrichPrefix(papers, outcome, k) ==> InWindow(q.published, start, end)
    decreases k
  {
    if k > 0 {
      EnrichKeepsWindow(papers, outcome, k - 1, start, end);
      EnrichedFields(papers[k - 1], outcome(k - 1));
      assert papers[k - 1] in papers;
    }
  }

  /** The period key is the citations key family's month. */
  lemma PeriodKeyIsCitationsMonth(start: Instant)
    ensures CitationsKey(PeriodKey(start)) == "dra:citations:" + PeriodKey(start)
  {
    var k := PeriodKey(start);
    assert Join(["citations", k], ":") == "citations" + ":" + Join([k], ":");
    assert Join([k], ":") == k;
  }
}
