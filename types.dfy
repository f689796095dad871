/** The shared records of the agent system: topics, paper candidates and ranked papers. */
module Types {
  import opened Wrappers
  import opened JsonValues
  import opened DateTimes

  /** The closed set of topic labels; `Other` is the catch-all. */
  datatype Topic = LlmArchitecture | LlmApplication | RagImprovement | RagApplication | Ocr | LlmRouter | Other
  {
    /** The label the enum member stands for. */
    function Label(): string {
      match this
      case LlmArchitecture => "LLM架構"
      case LlmApplication => "LLM應用"
      case RagImprovement => "RAG改良"
      case RagApplication => "RAG應用"
      case Ocr => "OCR"
      case LlmRouter => "LLM Router"
      case Other => "其他"
    }
  }

  const AllTopics: seq<Topic> :=
    [LlmArchitecture, LlmApplication, RagImprovement, RagApplication, Ocr, LlmRouter, Other]

  /** There are exactly seven topics, each listed once, and no two share a label. */
  lemma TopicsAreClosed()
    ensures |AllTopics| == 7
    ensures forall t: Topic :: t in AllTopics
    ensures forall i, j :: 0 <= i < j < |AllTopics| ==> AllTopics[i].Label() != AllTopics[j].Label()
  {
    forall t: Topic ensures t in AllTopics {
      match t
      case LlmArchitecture => assert t == AllTopics[0];
      case LlmApplication => assert t == AllTopics[1];
      case RagImprovement => assert t == AllTopics[2];
      case RagApplication => assert t == AllTopics[3];
      case Ocr => assert t == AllTopics[4];
      case LlmRouter => assert t == AllTopics[5];
      case Other => assert t == AllTopics[6];
    }
  }

  /** A paper found by retrieval; the two citation counts stay 0 until enrichment sets them. */
  datatype PaperCandidate = PaperCandidate(
    arxivId: string,
    title: string,
    authors: seq<string>,
    abstractText: string,
    published: Instant,
    primaryCategory: string,
    pdfUrl: string,
    entryUrl: string,
    citationCount: int := 0,
    influentialCitationCount: int := 0,
    source: string := "arxiv",
    conferenceName: Option<string> := None)

  /** A candidate with its score, topic and (possibly absent) summary. */
  datatype RankedPaper = RankedPaper(candidate: PaperCandidate, score: real, topic: Topic, summary: Option<Dict> := None)
  {
    function ArxivId(): (r: string)
      ensures r == candidate.arxivId
    {
      candidate.arxivId
    }

    function Title(): (r: string)
      ensures r == candidate.title
    {
      candidate.title
    }
  }

  /** A candidate built from the eight identity fields alone has the documented defaults. */
  lemma FreshCandidateDefaults(id: string, title: string, authors: seq<string>, abstractText: string,
                               published: Instant, category: string, pdf: string, entry: string)
    ensures var p := PaperCandidate(id, title, authors, abstractText, published, category, pdf, entry);
      && p.citationCount == 0 && p.influentialCitationCount == 0
      && p.source == "arxiv" && p.conferenceName == None
  {
  }

  /** A ranked paper built without a summary has none. */
  lemma RankedPaperDefaults(p: PaperCandidate, score: real, topic: Topic)
    ensures RankedPaper(p, score, topic).summary == None
  {
  }

  /**
   * A dict filled in list order with `d[paper.arxiv_id] = value`: a later paper overwrites an
   * earlier one's entry.
   */
  function ById<V>(papers: seq<PaperCandidate>, values: seq<V>): map<string, V>
    requires |values| == |papers|
  {
    if papers == [] then map[]
    else
      var n := |papers| - 1;
      ById(papers[..n], values[..n])[papers[n].arxivId := values[n]]
  }

  /** Every paper's ID is a key, and nothing else is. */
  lemma {:induction false} ByIdKeys<V>(papers: seq<PaperCandidate>, values: seq<V>)
    requires |values| == |papers|
    ensures ById(papers, values).Keys == set p | p in papers :: p.arxivId
  {
    if papers != [] {
      var n := |papers| - 1;
      ByIdKeys(papers[..n], values[..n]);
      assert papers == papers[..n] + [papers[n]];
      assert (set p | p in papers :: p.arxivId) == (set p | p in papers[..n] :: p.arxivId) + {papers[n].arxivId};
    }
  }

  /** Each ID maps to the value of the last paper that carries it. */
  lemma {:induction false} ByIdLast<V>(papers: seq<PaperCandidate>, values: seq<V>, i: nat)
    requires |values| == |papers| && i < |papers|
    requires forall j :: i < j < |papers| ==> papers[j].arxivId != papers[i].arxivId
    ensures papers[i].arxivId in ById(papers, values)
    ensures ById(papers, values)[papers[i].arxivId] == values[i]
  {
    var n := |papers| - 1;
    if i < n {
      assert papers[..n][i] == papers[i] && values[..n][i] == values[i];
      forall j | i < j < n ensures papers[..n][j].arxivId != papers[..n][i].arxivId {
        assert papers[..n][j] == papers[j];
      }
      ByIdLast(papers[..n], values[..n], i);
    }
  }

  /** Every entry is the value of some paper with that ID. */
  lemma {:induction false} ByIdValues<V>(papers: seq<PaperCandidate>, values: seq<V>, id: string)
    requires |values| == |papers| && id in ById(papers, values)
    ensures exists i :: 0 <= i < |papers| && papers[i].arxivId == id && values[i] == ById(papers, values)[id]
  {
    var n := |papers| - 1;
    if papers[n].arxivId != id {
      ByIdValues(papers[..n], values[..n], id);
      var i :| 0 <= i < n && papers[..n][i].arxivId == id && values[..n][i] == ById(papers[..n], values[..n])[id];
      assert papers[i] == papers[..n][i] && values[i] == values[..n][i];
    }
  }

  /** The loop that fills such a dict, one paper at a time. */
  method FillById<V>(papers: seq<PaperCandidate>, values: seq<V>) returns (d: map<string, V>)
    requires |values| == |papers|
    ensures d == ById(papers, values)
  {
    d := map[];
    var k := 0;
    while k < |papers|
      invariant 0 <= k <= |papers|
      invariant d == ById(papers[..k], values[..k])
    {
      assert papers[..k + 1][..k] == papers[..k] && values[..k + 1][..k] == values[..k];
      d := d[papers[k].arxivId := values[k]];
      k := k + 1;
    }
    assert papers[..k] == papers && values[..k] == values;
  }
}
