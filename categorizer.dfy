/** Topic assignment (`TopicCategorizer`): the label the model returns, or a keyword heuristic when the call fails. */
module Categorizer {
  import opened Wrappers
  import opened JsonValues
  import opened Text
  import opened Types
  import opened Llm

  /** The label-to-topic table `categorize` looks the model's answer up in. */
  function TopicFromLabel(name: string): (r: Option<Topic>)
    ensures r.Some? ==> r.value.Label() == name
  {
    if name == "LLM架構" then Some(LlmArchitecture)
    else if name == "LLM應用" then Some(LlmApplication)
    else if name == "RAG改良" then Some(RagImprovement)
    else if name == "RAG應用" then Some(RagApplication)
    else if name == "OCR" then Some(Ocr)
    else if name == "LLM Router" then Some(LlmRouter)
    else if name == "其他" then Some(Other)
    else None
  }

  /** The table covers every topic: each label maps back to its own topic. */
  lemma TopicFromLabelInverse(t: Topic)
    ensures TopicFromLabel(t.Label()) == Some(t)
  {
  }

  /** What `categorize` returns, given the model's reply for this paper. */
  function Categorize(paper: PaperCandidate, reply: Reply): Topic {
    match reply
    case Failed(_) => Heuristic(paper)
    case Replied(obj) =>
      var answer := Get(obj, "topic", JStr("其他"));
      // A list or dict label is unhashable: the table lookup raises inside the try.
      if answer.JArr? || answer.JObj? then Heuristic(paper)
      else if answer.JStr? && TopicFromLabel(answer.s).Some? then TopicFromLabel(answer.s).value
      else Other
  }

  /** A reply naming a topic's label yields that topic. */
  lemma CategorizeKnownLabel(paper: PaperCandidate, obj: Dict, t: Topic)
    requires "topic" in obj && obj["topic"] == JStr(t.Label())
    ensures Categorize(paper, Replied(obj)) == t
  {
    TopicFromLabelInverse(t);
  }

  /**
   * A reply that does not name a topic, by an unknown string, a number, a boolean, null or no
   * "topic" key at all, yields the catch-all `Other`; only a failed call or a list or
   * dict label falls back to the keyword heuristic.
   */
  lemma CategorizeOtherwise(paper: PaperCandidate, reply: Reply)
    ensures reply.Replied? && "topic" !in reply.obj ==> Categorize(paper, reply) == Other
    ensures (reply.Replied? && "topic" in reply.obj && reply.obj["topic"].JStr?
             && (forall t: Topic :: reply.obj["topic"].s != t.Label())) ==> Categorize(paper, reply) == Other
    ensures reply.Replied? && "topic" in reply.obj
            && (reply.obj["topic"].JNum? || reply.obj["topic"].JBool? || reply.obj["topic"].JNull?)
            ==> Categorize(paper, reply) == Other
    ensures Categorize(paper, reply) == Heuristic(paper) || reply.Replied?
    ensures (reply.Failed? || ("topic" in reply.obj && (reply.obj["topic"].JArr? || reply.obj["topic"].JObj?)))
            ==> Categorize(paper, reply) == Heuristic(paper)
  {
  }

  /** Only the "topic" entry matters: the confidence and any other field never change the topic. */
  lemma CategorizeIgnoresOtherFields(paper: PaperCandidate, a: Dict, b: Dict)
    requires ("topic" in a) == ("topic" in b)
    requires "topic" in a ==> a["topic"] == b["topic"]
    ensures Categorize(paper, Replied(a)) == Categorize(paper, Replied(b))
  {
  }

  // ---------------------------------------------------------------- heuristic

  const RagKeywords: seq<string> := ["rag", "retrieval-augmented", "retrieval augmented"]
  const ImprovementKeywords: seq<string> := ["improve", "enhancement", "optimization", "architecture"]
  const OcrKeywords: seq<string> := ["ocr", "optical character", "text recognition"]
  const RouterKeywords: seq<string> := ["routing", "router", "model selection", "mixture of experts"]
  const ArchitectureKeywords: seq<string> := ["transformer", "attention", "architecture", "training", "pretraining"]
  const LlmKeywords: seq<string> := ["llm", "language model", "gpt", "bert"]

  /** `any(kw in text for kw in keywords)`. */
  predicate AnyIn(text: string, keywords: seq<string>) {
    exists i :: 0 <= i < |keywords| && Contains(text, keywords[i])
  }

  /** The text the heuristic searches: title and abstract, lower-cased. */
  function HeuristicText(paper: PaperCandidate): string {
    LowerAscii(paper.title + " " + paper.abstractText)
  }

  /** `_heuristic_categorize`: the first keyword group, in a fixed priority, that occurs in the text. */
  function Heuristic(paper: PaperCandidate): Topic {
    var text := HeuristicText(paper);
    if AnyIn(text, RagKeywords) then
      (if AnyIn(text, ImprovementKeywords) then RagImprovement else RagApplication)
    else if AnyIn(text, OcrKeywords) then Ocr
    else if AnyIn(text, RouterKeywords) then LlmRouter
    else if AnyIn(text, ArchitectureKeywords) then LlmArchitecture
    else if AnyIn(text, LlmKeywords) then LlmApplication
    else Other
  }

  /**
   * Each heuristic outcome, stated as the set of texts that produce it: a topic is chosen
   * exactly when its group matches and no group of higher priority does.
   */
  lemma HeuristicOutcomes(paper: PaperCandidate)
    ensures var text := HeuristicText(paper); var t := Heuristic(paper);
      && (t in {RagImprovement, RagApplication} <==> AnyIn(text, RagKeywords))
      && (t == RagImprovement <==> AnyIn(text, RagKeywords) && AnyIn(text, ImprovementKeywords))
      && (t == Ocr <==> !AnyIn(text, RagKeywords) && AnyIn(text, OcrKeywords))
      && (t == LlmRouter <==> !AnyIn(text, RagKeywords) && !AnyIn(text, OcrKeywords) && AnyIn(text, RouterKeywords))
      && (t == LlmArchitecture <==>
            !AnyIn(text, RagKeywords) && !AnyIn(text, OcrKeywords) && !AnyIn(text, RouterKeywords)
            && AnyIn(text, ArchitectureKeywords))
      && (t == Other <==>
            !AnyIn(text, RagKeywords) && !AnyIn(text, OcrKeywords) && !AnyIn(text, RouterKeywords)
            && !AnyIn(text, ArchitectureKeywords) && !AnyIn(text, LlmKeywords))
  {
  }

  lemma ContainsShift(a: string, w: string, b: string)
    ensures Contains(a + w + b, w)
  {
    assert w <= (a + w + b)[|a|..];
  }

  /**
   * Keywords match as bare substrings: any text containing "average" (which contains "rag")
   * is put under one of the two RAG topics.
   */
  lemma AverageCountsAsRag(paper: PaperCandidate, pre: string, post: string)
    requires HeuristicText(paper) == pre + "average" + post
    ensures Heuristic(paper) in {RagImprovement, RagApplication}
  {
    var text := HeuristicText(paper);
    assert text == (pre + "ave") + "rag" + ("e" + post);
    ContainsShift(pre + "ave", "rag", "e" + post);
    assert RagKeywords[0] == "rag";
  }

  /** "architecture" is in two groups: with a RAG keyword it means improvement, otherwise (without OCR or routing words) the architecture topic. */
  lemma ArchitectureKeywordPriority(paper: PaperCandidate)
    requires Contains(HeuristicText(paper), "architecture")
    ensures AnyIn(HeuristicText(paper), RagKeywords) ==> Heuristic(paper) == RagImprovement
    ensures (!AnyIn(HeuristicText(paper), RagKeywords) && !AnyIn(HeuristicText(paper), OcrKeywords)
             && !AnyIn(HeuristicText(paper), RouterKeywords)) ==> Heuristic(paper) == LlmArchitecture
  {
    assert ImprovementKeywords[3] == "architecture";
    assert ArchitectureKeywords[2] == "architecture";
  }
}
