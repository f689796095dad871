/**
 * The coordinator (`TopPapersCoordinator`): the `YYYY-MM` month window with its fallback to the
 * current month, the adaptive minimum citation count, the per-paper topic and summary join,
 * the topic filter, the top-N selection by score and the grouping by topic. "Now" is a
 * parameter; the ranking score is an opaque per-paper value.
 */
module Coordinator {
  import opened Wrappers
  import opened JsonValues
  import opened Text
  import opened DateTimes
  import opened Types
  import opened Sorting
  import opened Llm
  import opened Cache
  import opened Retriever
  import opened Categorizer
  import opened Summarizer

  // ---------------------------------------------------------------- adaptive minimum

  /** `months_old`: whole calendar months from the start month to now (negative for a future month). */
  function MonthsOld(now: DateTime, start: DateTime): int {
    (now.year - start.year) * 12 + (now.month - start.month)
  }

  /**
   * The adaptive citation floor: 0 for the current month, 1 for last month, 2 up to three
   * months, 3 up to six, 5 beyond. A future month falls in the "up to three" branch.
   */
  function AdaptiveMinCitations(monthsOld: int): (m: nat)
    ensures m <= 5
    ensures monthsOld >= 0 ==> m <= monthsOld
    ensures monthsOld < 0 ==> m == 2
  {
    if monthsOld == 0 then 0
    else if monthsOld == 1 then 1
    else if monthsOld <= 3 then 2
    else if monthsOld <= 6 then 3
    else 5
  }

  /** The floor never decreases as a past month gets older. */
  lemma AdaptiveGrowsWithAge(a: int, b: int)
    requires 0 <= a <= b
    ensures AdaptiveMinCitations(a) <= AdaptiveMinCitations(b)
  {
  }

  /**
   * The breakpoints of the table, each floor with the exact ages that get it: 0 only for the
   * current month, 1 only for last month, 2 for two or three months and for any future month,
   * 3 for four to six months, 5 beyond.
   */
  lemma AdaptiveTable(monthsOld: int)
    ensures AdaptiveMinCitations(monthsOld) in {0, 1, 2, 3, 5}
    ensures AdaptiveMinCitations(monthsOld) == 0 <==> monthsOld == 0
    ensures AdaptiveMinCitations(monthsOld) == 1 <==> monthsOld == 1
    ensures AdaptiveMinCitations(monthsOld) == 2 <==> monthsOld < 0 || 2 <= monthsOld <= 3
    ensures AdaptiveMinCitations(monthsOld) == 3 <==> 4 <= monthsOld <= 6
    ensures AdaptiveMinCitations(monthsOld) == 5 <==> monthsOld > 6
  {
  }

  /**
   * Without an explicit minimum, a window starting two calendar months before now gets 2,
   * also across a new year (November against January).
   */
  lemma TwoMonthsOldGetsTwo(now: DateTime, start: DateTime)
    requires start.year * 12 + start.month + 2 == now.year * 12 + now.month
    ensures MinCitations(None, now, start) == 2
  {
  }

  /** An explicit minimum (0 included) is used as given; only a missing one is adapted. */
  function MinCitations(given: Option<int>, now: DateTime, start: DateTime): (m: int)
    ensures given.Some? ==> m == given.value
    ensures given.None? ==> m == AdaptiveMinCitations(MonthsOld(now, start))
  {
    match given
    case Some(v) => v
    case None => AdaptiveMinCitations(MonthsOld(now, start))
  }

  // ---------------------------------------------------------------- the month window

  /** `d - timedelta(days=1)`, defined where the result is still representable. */
  function DayBefore(t: DateTime): (r: DateTime)
    requires Valid(t) && !(t.year == MinYear && t.month == 1 && t.day == 1)
    ensures Valid(r) && AtOrBefore(r, t) && r != t
    ensures r.hour == t.hour && r.minute == t.minute && r.second == t.second
  {
    if t.day > 1 then t.(day := t.day - 1)
    else if t.month > 1 then t.(month := t.month - 1, day := DaysInMonth(t.year, t.month - 1))
    else t.(year := t.year - 1, month := 12, day := 31)
  }

  /** A first and last instant. */
  datatype Window = Window(start: Instant, end: Instant)

  /**
   * The window the `try` block computes for year `y` and month `m`: the first of the month at
   * midnight, and the day before the first of the next month at 23:59:59. `None` where one of
   * the `datetime(...)` calls raises ValueError.
   */
  function MonthBounds(y: int, m: int): Option<Window> {
    if !(MinYear <= y <= MaxYear && 1 <= m <= 12) then None
    else
      var next := if m == 12 then DateTime(y + 1, 1, 1, 0, 0, 0) else DateTime(y, m + 1, 1, 0, 0, 0);
      if !Valid(next) then None
      else
        var last := DayBefore(next);
        Some(Window(MonthStart(y, m), DateTime(last.year, last.month, last.day, 23, 59, 59)))
  }

  /**
   * For every representable month but the last one, the window runs from its first day at
   * midnight to its last day at 23:59:59, December rolling over and February following the
   * leap-year rule; the window holds exactly the instants of that month.
   */
  lemma MonthBoundsExact(y: int, m: int)
    requires MinYear <= y <= MaxYear && 1 <= m <= 12 && !(y == MaxYear && m == 12)
    ensures MonthBounds(y, m) == Some(Window(MonthStart(y, m), MonthEnd(y, m)))
    ensures MonthEnd(y, m).day == DaysInMonth(y, m)
    ensures forall t: DateTime :: Valid(t) ==>
      (InWindow(t, MonthStart(y, m), MonthEnd(y, m)) <==> t.year == y && t.month == m)
  {
    forall t: DateTime | Valid(t)
      ensures InWindow(t, MonthStart(y, m), MonthEnd(y, m)) <==> t.year == y && t.month == m
    {
      MonthWindowExact(y, m, t);
    }
  }

  /** The window computation raises exactly out of range and for December 9999, whose successor month does not exist. */
  lemma MonthBoundsRaises(y: int, m: int)
    ensures MonthBounds(y, m).None? <==> !(MinYear <= y <= MaxYear && 1 <= m <= 12) || (y == MaxYear && m == 12)
  {
  }

  /** `year, month_num = map(int, month.split('-'))`: exactly two pieces, each an integer. */
  function ParseYearMonth(month: string): Option<(int, int)> {
    var pieces := SplitOn(month, '-');
    if |pieces| == 2 && PyInt(pieces[0]).Some? && PyInt(pieces[1]).Some?
    then Some((PyInt(pieces[0]).value, PyInt(pieces[1]).value))
    else None
  }

  /**
   * `_parse_month`: the requested month's window, or, when parsing or the window computation
   * raises, the current month's. The fallback itself runs outside the `try`, so December 9999
   * as the current month raises.
   */
  function ParseMonth(month: string, now: Instant): Result<Window> {
    var parsed := ParseYearMonth(month);
    var requested := if parsed.Some? then MonthBounds(parsed.value.0, parsed.value.1) else None;
    if requested.Some? then Ok(requested.value)
    else
      match MonthBounds(now.year, now.month)
      case Some(current) => Ok(current)
      case None => Raised("ValueError")
  }

  /** A "digits-digits" month string parses to that month's window, zero-padded or not. */
  lemma ParseMonthOfDigits(ys: string, ms: string, now: Instant)
    requires |ys| >= 1 && (forall i :: 0 <= i < |ys| ==> IsDigit(ys[i]))
    requires |ms| >= 1 && (forall i :: 0 <= i < |ms| ==> IsDigit(ms[i]))
    requires MinYear <= DigitsValue(ys) <= MaxYear && 1 <= DigitsValue(ms) <= 12
    requires !(DigitsValue(ys) == MaxYear && DigitsValue(ms) == 12)
    ensures ParseMonth(ys + "-" + ms, now)
            == Ok(Window(MonthStart(DigitsValue(ys), DigitsValue(ms)), MonthEnd(DigitsValue(ys), DigitsValue(ms))))
  {
    YearMonthOfDigits(ys, ms);
    MonthBoundsExact(DigitsValue(ys), DigitsValue(ms));
  }

  /** A "digits-digits" string splits into its two numbers. */
  lemma YearMonthOfDigits(ys: string, ms: string)
    requires |ys| >= 1 && (forall i :: 0 <= i < |ys| ==> IsDigit(ys[i]))
    requires |ms| >= 1 && (forall i :: 0 <= i < |ms| ==> IsDigit(ms[i]))
    ensures ParseYearMonth(ys + "-" + ms) == Some((DigitsValue(ys), DigitsValue(ms)))
  {
    assert '-' !in ys by { forall i | 0 <= i < |ys| ensures ys[i] != '-' { assert IsDigit(ys[i]); } }
    assert '-' !in ms by { forall i | 0 <= i < |ms| ensures ms[i] != '-' { assert IsDigit(ms[i]); } }
    SplitAtDash(ys, ms);
    PyIntOfDigits(ys);
    PyIntOfDigits(ms);
  }

  lemma SplitAtDash(ys: string, ms: string)
    requires '-' !in ys && '-' !in ms
    ensures SplitOn(ys + "-" + ms, '-') == [ys, ms]
  {
    var parts := [ys, ms];
    assert parts[1..] == [ms];
    assert Join(parts, "-") == ys + "-" + ms;
    SplitJoin(parts, '-');
  }

  /** A month that does not parse, or whose window raises, gives the current month's window. */
  /** The requested month does not parse, or its window computation raises. */
  predicate RequestFails(month: string) {
    var parsed := ParseYearMonth(month);
    parsed.None? || MonthBounds(parsed.value.0, parsed.value.1).None?
  }

  lemma ParseMonthFallsBack(month: string, now: Instant)
    requires RequestFails(month)
    ensures ParseMonth(month, now)
            == if now.year == MaxYear && now.month == 12 then Raised("ValueError")
               else Ok(Window(MonthStart(now.year, now.month), MonthEnd(now.year, now.month)))
  {
    if !(now.year == MaxYear && now.month == 12) {
      MonthBoundsExact(now.year, now.month);
    }
  }

  /** Whatever the input, a returned window is one whole calendar month. */
  lemma ParseMonthIsAMonth(month: string, now: Instant)
    requires ParseMonth(month, now).Ok?
    ensures var w := ParseMonth(month, now).value;
      && w.start == MonthStart(w.start.year, w.start.month)
      && w.end == MonthEnd(w.start.year, w.start.month)
  {
    var parsed := ParseYearMonth(month);
    if parsed.Some? && MonthBounds(parsed.value.0, parsed.value.1).Some? {
      MonthBoundsRaises(parsed.value.0, parsed.value.1);
      MonthBoundsExact(parsed.value.0, parsed.value.1);
    } else {
      ParseMonthFallsBack(month, now);
    }
  }

  // ---------------------------------------------------------------- categorisation

  /** Each paper's topic, in list order. */
  function TopicsOf(papers: seq<PaperCandidate>, topicReplies: nat -> Reply): (ts: seq<Topic>)
    ensures |ts| == |papers|
    ensures forall i :: 0 <= i < |papers| ==> ts[i] == Categorize(papers[i], topicReplies(i))
  {
    seq(|papers|, i requires 0 <= i < |papers| => Categorize(papers[i], topicReplies(i)))
  }

  /**
   * `_categorize_papers`: each paper categorised (paper `i`'s model reply is `topicReplies(i)`),
   * the topics collected by ID. `categorize` catches every failure of the model call, so each
   * result is a topic and the `OTHER` default of the collection loop is never needed.
   */
  method CategorizePapers(papers: seq<PaperCandidate>, topicReplies: nat -> Reply)
    returns (categories: map<string, Topic>)
    ensures categories == ById(papers, TopicsOf(papers, topicReplies))
  {
    var results: seq<Topic> := [];
    var i := 0;
    while i < |papers|
      invariant 0 <= i <= |papers|
      invariant results == TopicsOf(papers[..i], topicReplies)
    {
      results := results + [Categorize(papers[i], topicReplies(i))];
      i := i + 1;
    }
    assert papers[..i] == papers;
    categories := FillById(papers, results);
  }

  /** Every paper gets an entry, so the `OTHER` default of the ranking loop never applies to a retrieved paper. */
  lemma EveryPaperCategorized(papers: seq<PaperCandidate>, topicReplies: nat -> Reply, p: PaperCandidate)
    requires p in papers
    ensures p.arxivId in ById(papers, TopicsOf(papers, topicReplies))
  {
    ByIdKeys(papers, TopicsOf(papers, topicReplies));
  }

  // ---------------------------------------------------------------- ranking

  /** `categories.get(id, OTHER)`. */
  function TopicOf(categories: map<string, Topic>, id: string): Topic {
    if id in categories then categories[id] else Other
  }

  /** `summaries.get(id)`: a missing ID and a failed summary both give `None`. */
  function SummaryOf(summaries: map<string, Option<Dict>>, id: string): Option<Dict> {
    if id in summaries then summaries[id] else None
  }

  /** The topic filter passes everything when absent, and only its own topic otherwise. */
  predicate Passes(filter: Option<Topic>, t: Topic) {
    filter.None? || t == filter.value
  }

  function ScoreKey(r: RankedPaper): real {
    r.score
  }

  /** The ranked papers the loop of `get_top_papers` appends, in retrieval order. */
  function RankedOf(papers: seq<PaperCandidate>, categories: map<string, Topic>, summaries: map<string, Option<Dict>>,
                    filter: Option<Topic>, score: PaperCandidate -> real): seq<RankedPaper>
  {
    if papers == [] then []
    else
      var n := |papers| - 1;
      var prev := RankedOf(papers[..n], categories, summaries, filter, score);
      var p := papers[n];
      var topic := TopicOf(categories, p.arxivId);
      if Passes(filter, topic) then prev + [RankedPaper(p, score(p), topic, SummaryOf(summaries, p.arxivId))]
      else prev
  }

  /**
   * Each ranked paper is a retrieved paper with its defaulted topic, its summary (or `None`)
   * and its score, and passes the filter; every retrieved paper whose topic passes is ranked.
   */
  lemma {:induction false} RankedOfMembers(papers: seq<PaperCandidate>, categories: map<string, Topic>,
                                           summaries: map<string, Option<Dict>>, filter: Option<Topic>,
                                           score: PaperCandidate -> real)
    ensures |RankedOf(papers, categories, summaries, filter, score)| <= |papers|
    ensures forall r :: r in RankedOf(papers, categories, summaries, filter, score) ==>
      && r.candidate in papers
      && r.topic == TopicOf(categories, r.candidate.arxivId) && Passes(filter, r.topic)
      && r.score == score(r.candidate) && r.summary == SummaryOf(summaries, r.candidate.arxivId)
    ensures forall p :: p in papers && Passes(filter, TopicOf(categories, p.arxivId)) ==>
      RankedPaper(p, score(p), TopicOf(categories, p.arxivId), SummaryOf(summaries, p.arxivId))
        in RankedOf(papers, categories, summaries, filter, score)
  {
    if papers != [] {
      var n := |papers| - 1;
      RankedOfMembers(papers[..n], categories, summaries, filter, score);
      assert papers == papers[..n] + [papers[n]];
    }
  }

  /** The loop of `get_top_papers` that builds the ranked papers. */
  method BuildRanked(papers: seq<PaperCandidate>, categories: map<string, Topic>, summaries: map<string, Option<Dict>>,
                     filter: Option<Topic>, score: PaperCandidate -> real)
    returns (ranked: seq<RankedPaper>)
    ensures ranked == RankedOf(papers, categories, summaries, filter, score)
  {
    ranked := [];
    var i := 0;
    while i < |papers|
      invariant 0 <= i <= |papers|
      invariant ranked == RankedOf(papers[..i], categories, summaries, filter, score)
    {
      assert papers[..i + 1][..i] == papers[..i];
      var p := papers[i];
      var topic := TopicOf(categories, p.arxivId);
      var summary := SummaryOf(summaries, p.arxivId);
      if Passes(filter, topic) {
        ranked := ranked + [RankedPaper(p, score(p), topic, summary)];
      }
      i := i + 1;
    }
    assert papers[..i] == papers;
  }

  /** `ranked_papers.sort(key=score, reverse=True)` followed by `[:top_n]`. */
  function TopN(ranked: seq<RankedPaper>, topN: nat): seq<RankedPaper> {
    Take(SortDesc(ranked, ScoreKey), topN)
  }

  /**
   * The selection has min(top_n, number ranked) papers, non-increasing in score, and is the top
   * of the ranking: together with the papers left out it is exactly the ranked list, and no
   * paper left out scores higher than a selected one.
   */
  lemma TopNProps(ranked: seq<RankedPaper>, topN: nat)
    ensures var sel := TopN(ranked, topN);
      var rest := SortDesc(ranked, ScoreKey)[|sel|..];
      && |sel| == (if topN < |ranked| then topN else |ranked|)
      && SortedDesc(sel, ScoreKey)
      && multiset(sel) + multiset(rest) == multiset(ranked)
      && (forall x, y :: x in sel && y in rest ==> x.score >= y.score)
  {
    var sorted := SortDesc(ranked, ScoreKey);
    var sel := TopN(ranked, topN);
    assert sel == sorted[..|sel|];
    SplitSorted(sorted, |sel|, ScoreKey);
  }

  // ---------------------------------------------------------------- grouping

  function TopicsIn(ps: seq<RankedPaper>): set<Topic> {
    set p | p in ps :: p.topic
  }

  /** The papers of one topic, in order. */
  function Group(ps: seq<RankedPaper>, t: Topic): seq<RankedPaper> {
    Filter(ps, (p: RankedPaper) => p.topic == t)
  }

  /** What `_group_by_topic` returns: one entry per topic that occurs, each group sorted by score. */
  function Grouped(ps: seq<RankedPaper>): map<Topic, seq<RankedPaper>> {
    map t | t in TopicsIn(ps) :: SortDesc(Group(ps, t), ScoreKey)
  }

  /** The defaultdict after the append loop. */
  function Appended(ps: seq<RankedPaper>): map<Topic, seq<RankedPaper>> {
    if ps == [] then map[]
    else
      var n := |ps| - 1;
      var prev := Appended(ps[..n]);
      var t := ps[n].topic;
      prev[t := (if t in prev then prev[t] else []) + [ps[n]]]
  }

  /** The append loop puts each paper in its topic's list, in order, and creates only the lists it fills. */
  lemma {:induction false} AppendedIsGroups(ps: seq<RankedPaper>)
    ensures Appended(ps) == map t | t in TopicsIn(ps) :: Group(ps, t)
  {
    if ps != [] {
      var n := |ps| - 1;
      var init := ps[..n];
      AppendedIsGroups(init);
      assert ps == init + [ps[n]];
      assert TopicsIn(ps) == TopicsIn(init) + {ps[n].topic};
      forall t | t in TopicsIn(ps) ensures Appended(ps)[t] == Group(ps, t) {
        FilterAppend(init, ps[n], (p: RankedPaper) => p.topic == t);
        if t != ps[n].topic && t !in TopicsIn(init) {
          assert false;
        }
        if t == ps[n].topic && t !in TopicsIn(init) {
          NoGroupWithoutTopic(init, t);
        }
      }
    }
  }

  /** A topic that does not occur has an empty group. */
  lemma NoGroupWithoutTopic(ps: seq<RankedPaper>, t: Topic)
    requires t !in TopicsIn(ps)
    ensures Group(ps, t) == []
  {
    forall x | x in ps ensures x.topic != t {
      assert x.topic in TopicsIn(ps);
    }
    FilterNone(ps, (p: RankedPaper) => p.topic == t);
  }

  /** The append loop of `_group_by_topic`. */
  method AppendByTopic(papers: seq<RankedPaper>) returns (grouped: map<Topic, seq<RankedPaper>>)
    ensures grouped == map t | t in TopicsIn(papers) :: Group(papers, t)
  {
    grouped := map[];
    var i := 0;
    while i < |papers|
      invariant 0 <= i <= |papers|
      invariant grouped == Appended(papers[..i])
    {
      assert papers[..i + 1][..i] == papers[..i];
      var t := papers[i].topic;
      var bucket := if t in grouped then grouped[t] else [];
      grouped := grouped[t := bucket + [papers[i]]];
      i := i + 1;
    }
    assert papers[..i] == papers;
    AppendedIsGroups(papers);
  }

  /** The sorting loop of `_group_by_topic`: every list sorted by score, no key added or removed. */
  method SortGroups(groups: map<Topic, seq<RankedPaper>>) returns (sorted: map<Topic, seq<RankedPaper>>)
    ensures sorted.Keys == groups.Keys
    ensures forall t :: t in sorted ==> sorted[t] == SortDesc(groups[t], ScoreKey)
  {
    sorted := groups;
    var todo := groups.Keys;
    while todo != {}
      invariant todo <= groups.Keys && sorted.Keys == groups.Keys
      invariant forall t :: t in todo ==> sorted[t] == groups[t]
      invariant forall t :: t in sorted && t !in todo ==> sorted[t] == SortDesc(groups[t], ScoreKey)
      decreases |todo|
    {
      var t :| t in todo;
      sorted := sorted[t := SortDesc(sorted[t], ScoreKey)];
      todo := todo - {t};
    }
  }

  /** `_group_by_topic`: the append loop, then each list sorted by score. */
  method GroupByTopic(papers: seq<RankedPaper>) returns (grouped: map<Topic, seq<RankedPaper>>)
    ensures grouped == Grouped(papers)
  {
    var appended := AppendByTopic(papers);
    grouped := SortGroups(appended);
    SortedGroupsAreGrouped(papers, appended, grouped);
  }

  /** The two loops of `_group_by_topic` together compute `Grouped`. */
  lemma SortedGroupsAreGrouped(papers: seq<RankedPaper>, appended: map<Topic, seq<RankedPaper>>, sorted: map<Topic, seq<RankedPaper>>)
    requires appended == map t | t in TopicsIn(papers) :: Group(papers, t)
    requires sorted.Keys == appended.Keys
    requires forall t :: t in sorted ==> sorted[t] == SortDesc(appended[t], ScoreKey)
    ensures sorted == Grouped(papers)
  {
    var g := Grouped(papers);
    assert sorted.Keys == g.Keys;
    assert forall t :: t in sorted ==> sorted[t] == g[t];
    SameEntries(sorted, g);
  }

  /** Two maps with the same keys and the same value at every key are equal. */
  lemma SameEntries<K, V>(a: map<K, V>, b: map<K, V>)
    requires a.Keys == b.Keys
    requires forall k :: k in a ==> a[k] == b[k]
    ensures a == b
  {
  }

  /**
   * Grouping an already sorted selection: exactly the occurring topics are keys, every paper is
   * in its own topic's group and in no other, and each group keeps the selection's order, so
   * scores within a group are non-increasing.
   */
  lemma GroupingProps(ps: seq<RankedPaper>)
    requires SortedDesc(ps, ScoreKey)
    ensures Grouped(ps).Keys == TopicsIn(ps)
    ensures forall t :: t in Grouped(ps) ==> Grouped(ps)[t] == Group(ps, t) && SortedDesc(Grouped(ps)[t], ScoreKey)
    ensures forall p, t :: p in ps && t in Grouped(ps) ==> (p in Grouped(ps)[t] <==> p.topic == t)
    ensures forall t, p :: t in Grouped(ps) && p in Grouped(ps)[t] ==> p in ps && p.topic == t
  {
    forall t | t in TopicsIn(ps) ensures SortDesc(Group(ps, t), ScoreKey) == Group(ps, t) {
      FilterSorted(ps, (p: RankedPaper) => p.topic == t, ScoreKey);
      SortSortedIsIdentity(Group(ps, t), ScoreKey);
    }
  }

  // ---------------------------------------------------------------- get_top_papers

  /**
   * The retrieved papers `get_top_papers` goes on with: those of the parsed window for three
   * times `top_n`, with the explicit or adaptive minimum; `None` when the month parse raises.
   */
  function RetrievedFor(month: string, now: Instant, topN: nat, minCitations: Option<int>,
                        stream: SearchStream, outcome: nat -> CitationLookup): Option<seq<PaperCandidate>>
  {
    match ParseMonth(month, now)
    case Raised(_) => None
    case Ok(w) => Some(Retrieved(w.start, w.end, topN * 3, MinCitations(minCitations, now, w.start), stream, outcome))
  }

  /** The selection and grouping step over given retrieved papers, topics and summaries. */
  function Ranking(papers: seq<PaperCandidate>, categories: map<string, Topic>, summaries: map<string, Option<Dict>>,
                   filter: Option<Topic>, topN: nat, score: PaperCandidate -> real): map<Topic, seq<RankedPaper>>
  {
    Grouped(TopN(RankedOf(papers, categories, summaries, filter, score), topN))
  }

  /** What `get_top_papers` returns, given the summary cache it starts from. */
  function TopPapers(store: map<string, Json>, ttl: map<string, int>, model: string,
                     month: string, now: Instant, filter: Option<Topic>, topN: nat, minCitations: Option<int>,
                     stream: SearchStream, outcome: nat -> CitationLookup, topicReplies: nat -> Reply,
                     replies: nat -> StageReplies, score: PaperCandidate -> real): Result<map<Topic, seq<RankedPaper>>>
  {
    match RetrievedFor(month, now, topN, minCitations, stream, outcome)
    case None => Raised("ValueError")
    case Some(papers) =>
      if papers == [] then Ok(map[])
      else
        var categories := ById(papers, TopicsOf(papers, topicReplies));
        var summaries := ById(papers, Summaries(RunTasks(store, ttl, model, papers, replies, |papers|).results));
        Ok(Ranking(papers, categories, summaries, filter, topN, score))
  }

  /**
   * Every returned paper was retrieved, passes the topic filter and sits in the group of its
   * own topic and no other; each group is non-increasing in score; at most `top_n` papers are
   * returned, taken from the top of the score order.
   */
  lemma RankingProps(papers: seq<PaperCandidate>, categories: map<string, Topic>, summaries: map<string, Option<Dict>>,
                     filter: Option<Topic>, topN: nat, score: PaperCandidate -> real)
    ensures var ranked := RankedOf(papers, categories, summaries, filter, score);
      var sel := TopN(ranked, topN);
      var g := Ranking(papers, categories, summaries, filter, topN, score);
      && |sel| == (if topN < |ranked| then topN else |ranked|)
      && g.Keys == TopicsIn(sel)
      && (forall t :: t in g ==> g[t] == Group(sel, t) && SortedDesc(g[t], ScoreKey))
      && (forall p, t :: p in sel && t in g ==> (p in g[t] <==> p.topic == t))
      && (forall t, p :: t in g && p in g[t] ==>
            p in sel && p.topic == t && Passes(filter, t) && p.candidate in papers
            && p.topic == TopicOf(categories, p.candidate.arxivId) && p.score == score(p.candidate))
  {
    var ranked := RankedOf(papers, categories, summaries, filter, score);
    var sel := TopN(ranked, topN);
    TopNProps(ranked, topN);
    GroupingProps(sel);
    RankedOfMembers(papers, categories, summaries, filter, score);
    forall p | p in sel ensures p in ranked {
      assert p in multiset(SortDesc(ranked, ScoreKey));
    }
  }

  /** An empty retrieval returns no groups, whatever the categoriser and the summarizer would do. */
  lemma EmptyRetrievalNoGroups(store: map<string, Json>, ttl: map<string, int>, model: string,
                               month: string, now: Instant, filter: Option<Topic>, topN: nat, minCitations: Option<int>,
                               stream: SearchStream, outcome: nat -> CitationLookup, topicReplies: nat -> Reply,
                               replies: nat -> StageReplies, score: PaperCandidate -> real)
    requires RetrievedFor(month, now, topN, minCitations, stream, outcome) == Some([])
    ensures TopPapers(store, ttl, model, month, now, filter, topN, minCitations, stream, outcome, topicReplies, replies, score)
            == Ok(map[])
  {
  }

  class TopPapersCoordinator {
    /** The cache the retriever holds (its helpers read it and never write it). */
    const retrieverCache: RedisCache
    const summarizer: SummarizerAgent

    constructor(retrieverCache: RedisCache, summarizer: SummarizerAgent)
      ensures this.retrieverCache == retrieverCache && this.summarizer == summarizer
    {
      this.retrieverCache := retrieverCache;
      this.summarizer := summarizer;
    }

    /**
     * `get_top_papers`. Parse the month, fix the minimum, retrieve three times `top_n` papers,
     * stop with no groups when there are none, otherwise categorise and summarise every paper,
     * rank the ones that pass the filter, keep the top `top_n` by score and group them by topic.
     * The summary cache changes only when papers were retrieved.
     */
    method GetTopPapers(month: string, now: Instant, topicFilter: Option<Topic>, topN: nat, minCitations: Option<int>,
                        stream: SearchStream, outcome: nat -> CitationLookup, topicReplies: nat -> Reply,
                        replies: nat -> StageReplies, score: PaperCandidate -> real)
      returns (r: Result<map<Topic, seq<RankedPaper>>>)
      modifies summarizer.pipeline.cache
      ensures r == TopPapers(old(summarizer.pipeline.cache.store), old(summarizer.pipeline.cache.ttl), summarizer.pipeline.model,
                             month, now, topicFilter, topN, minCitations, stream, outcome, topicReplies, replies, score)
      ensures var ps := RetrievedFor(month, now, topN, minCitations, stream, outcome);
        if ps.Some? && ps.value != [] then
          && summarizer.pipeline.cache.store
             == RunTasks(old(summarizer.pipeline.cache.store), old(summarizer.pipeline.cache.ttl), summarizer.pipeline.model,
                         ps.value, replies, |ps.value|).store
          && summarizer.pipeline.cache.ttl
             == RunTasks(old(summarizer.pipeline.cache.store), old(summarizer.pipeline.cache.ttl), summarizer.pipeline.model,
                         ps.value, replies, |ps.value|).ttl
        else
          summarizer.pipeline.cache.store == old(summarizer.pipeline.cache.store)
          && summarizer.pipeline.cache.ttl == old(summarizer.pipeline.cache.ttl)
      ensures summarizer.pipeline.cache.counters == old(summarizer.pipeline.cache.counters)
    {
      var window := ParseMonth(month, now);
      if window.Raised? {
        return Raised(window.error);
      }
      var start := window.value.start;
      var end := window.value.end;
      var floor := MinCitations(minCitations, now, start);

      var papers := RetrievePapers(retrieverCache, start, end, topN * 3, floor, stream, outcome);
      if papers == [] {
        return Ok(map[]);
      }

      var categories := CategorizePapers(papers, topicReplies);
      var summaries := summarizer.SummarizePapers(papers, replies);

      var ranked := BuildRanked(papers, categories, summaries, topicFilter, score);
      var sorted := SortDesc(ranked, ScoreKey);
      var grouped := GroupByTopic(Take(sorted, topN));
      return Ok(grouped);
    }
  }
}
