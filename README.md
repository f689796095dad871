# Paper-ranking bot core, modelled in Dafny

This project models the deterministic core of a Discord research assistant. The assistant retrieves
recent arXiv papers, enriches them with citation counts, categorises them into seven
topics, summarises them with a three-stage language-model pipeline that has a rule-based checker,
ranks them, and groups the best ones by topic. The model covers these parts:

- the shared records (`Types`);
- the summary checker and its truncation repair (`SummaryValidator`);
- the topic categoriser with its keyword fallback (`Categorizer`);
- arXiv ID extraction and the cache-first metadata lookup (`Arxiv`);
- the retriever agent's window scan, batched enrichment and citation ranking (`Retriever`);
- the summarization pipeline with its summary cache and Stage-C decision tree (`Pipeline`);
- the summarizer agent's run over many papers and the result join (`Summarizer`);
- the coordinator's month window, adaptive citation floor, ranking, top-N selection and grouping
  (`Coordinator`);
- the Redis key scheme and the two-counter rate limit (`Cache`);
- the guild-ID setting and the configured limits (`Settings`).

Helper modules:

- `Wrappers`: `Option` and `Result`, where `Raised(error)` stands for a Python exception.
- `JsonValues`: JSON values with Python truthiness.
- `Text`: strip, split, join, `int()` and `str()`.
- `DateTimes`: proleptic Gregorian date-times.
- `Sorting`: a stable descending sort and a filter.
- `Llm`: a model call's outcome, either `Replied(obj)` or `Failed(error)`.

How the model treats outside inputs:

- Every language-model call, arXiv API answer, citation lookup and clock reading is a parameter.
- Stateful parts are classes whose fields the methods update: the cache's `store`, `ttl` and
  `counters` maps.
- Each such method is proved against a specification function, and the source's promises are
  lemmas about those functions.

## Model

| member | source | states |
|---|---|---|
| Types.TopicsAreClosed | src/agents/types.py:8-16 | there are exactly seven topics, every topic is listed, and no two topics share a label |
| Types.FreshCandidateDefaults | src/agents/types.py:32-37 | a candidate built from its eight identity fields has both counts 0, source "arxiv" and no conference |
| Types.RankedPaperDefaults | src/agents/types.py:46 | a ranked paper built without a summary has none |
| Types.ByIdKeys | src/agents/summarizer.py:54-60 | a dict filled by arXiv ID has exactly the papers' IDs as keys |
| Types.ByIdLast | src/agents/summarizer.py:55-60 | each ID maps to the value of the last paper carrying it |
| Types.ByIdValues | src/agents/coordinator.py:182-186 | every entry is the value of some paper with that ID |
| Types.FillById | src/agents/coordinator.py:181-186 | the fill loop builds exactly the by-ID map of the values |
| SummaryValidator.SplitSentences | src/llm/validators/summary.py:29 | splitting at terminator runs gives at least one piece, and no piece holds a terminator |
| SummaryValidator.CountSplitsAtTerminator | src/llm/validators/summary.py:28-30 | a terminator between two texts makes their sentence counts add up |
| SummaryValidator.RepeatedTerminators | src/llm/validators/summary.py:29-30 | repeating a terminator does not change the count |
| SummaryValidator.CountWithoutTerminator | src/llm/validators/summary.py:28-30 | text without a terminator counts 1 unless it is blank, and then 0 |
| SummaryValidator.BlankHasNoSentence | src/llm/validators/summary.py:30 | empty or all-whitespace text has no sentence |
| SummaryValidator.MissingKeysExact | src/llm/validators/summary.py:45-47 | the missing-key tags are exactly the absent keys, in key-list order, with no repeats |
| SummaryValidator.MissingKeysShortCircuit | src/llm/validators/summary.py:44-50 | with a key absent, `validate` returns false with exactly the `missing:` tags, in order, and no other tag |
| SummaryValidator.SectionsViolationsIn | src/llm/validators/summary.py:53-65 | a section tag is reported iff its rule holds: too_long iff over 900 characters, too_few iff fewer than 2 sentences, too_many iff more than 4 |
| SummaryValidator.LanguageViolationsIn | src/llm/validators/summary.py:77-81 | a script tag is reported iff the text is non-empty and has no character in U+4E00–U+9FFF |
| SummaryValidator.ValidationRules | src/llm/validators/summary.py:52-83 | on a complete, well-typed summary each tag appears iff its rule holds, one bullet tag at most by type then count, and the flag is true iff there is no tag |
| SummaryValidator.AcceptsExactlyTheInvariants | src/llm/validators/summary.py:44-83 | `validate` accepts with no tag exactly the summaries that meet every bound: keys, lengths, sentence counts, bullet counts, script |
| SummaryValidator.AcceptedMeetsInvariants | src/llm/validators/summary.py:44-83 | an accepted summary meets every bound |
| SummaryValidator.InvariantsAccepted | src/llm/validators/summary.py:44-83 | a summary meeting every bound is accepted with no tag |
| SummaryValidator.CollectMissing | src/llm/validators/summary.py:45-47 | the required-keys loop appends exactly the missing-key tags |
| SummaryValidator.CollectSections | src/llm/validators/summary.py:53-65 | the section loop succeeds iff every section is a string, and then yields the section tags |
| SummaryValidator.CollectLanguage | src/llm/validators/summary.py:77-81 | the script loop succeeds iff each field is a string or falsy, and then yields the script tags |
| SummaryValidator.Validate | src/llm/validators/summary.py:33-83 | the loop implementation returns exactly the specified verdict, or raises where the source raises TypeError |
| SummaryValidator.TruncateText | src/llm/validators/summary.py:99-109 | a truncated section is a prefix of at most 900 characters, unchanged when already short enough |
| SummaryValidator.TruncateBounds | src/llm/validators/summary.py:95-113 | same keys; string sections become prefixes of at most 900 characters; bullet_points keeps its first min(len, 5) items; every other key is unchanged |
| SummaryValidator.CutRule | src/llm/validators/summary.py:104-108 | the cut falls after the last occurrence, at an index above 0, of the first delimiter in priority order that has one |
| SummaryValidator.NoBoundaryKeepsPrefix | src/llm/validators/summary.py:102-108 | without such a delimiter the hard 900-character prefix is kept |
| SummaryValidator.PriorityNotNearest | src/llm/validators/summary.py:104-108 | an early '。' wins over a '.' just before the limit: priority, not proximity |
| SummaryValidator.TruncateIdempotent | src/llm/validators/summary.py:95-113 | truncating twice equals truncating once |
| SummaryValidator.TruncateSucceeds | src/llm/validators/summary.py:95-113 | truncation does not raise on string sections with list or string bullet points |
| SummaryValidator.TruncateRaisesAtFirstBreak | src/llm/validators/summary.py:97-105 | truncation raises for the first section, in key order, that it cannot handle: AttributeError for a list of more than 900 items (no `rfind`), TypeError otherwise |
| SummaryValidator.TruncateDoesNotEnsureValid | src/llm/validators/summary.py:111-113 | a summary short of bullet points is still rejected after truncation, with the too_few tag |
| Categorizer.TopicFromLabel | src/agents/categorizer.py:87-95 | the table maps a label only to the topic carrying that label |
| Categorizer.TopicFromLabelInverse | src/agents/categorizer.py:87-95 | every topic's label maps back to that topic |
| Categorizer.CategorizeKnownLabel | src/agents/categorizer.py:76-97 | a reply naming a topic's label yields that topic |
| Categorizer.CategorizeOtherwise | src/agents/categorizer.py:76-102 | a missing or unknown topic string gives OTHER; only a failed call, or a list or dict label (unhashable, so the lookup raises), reaches the heuristic |
| Categorizer.CategorizeIgnoresOtherFields | src/agents/categorizer.py:76-97 | two replies with the same "topic" entry give the same topic, whatever their confidence |
| Categorizer.HeuristicOutcomes | src/agents/categorizer.py:113-132 | each heuristic topic is chosen exactly when its keyword group matches and no higher-priority group does; OTHER iff none matches |
| Categorizer.AverageCountsAsRag | src/agents/categorizer.py:113-118 | keywords match as bare substrings, so text containing "average" is put under a RAG topic |
| Categorizer.ArchitectureKeywordPriority | src/agents/categorizer.py:115-127 | "architecture" with a RAG keyword means RAG improvement; without RAG, OCR or routing words it means LLM architecture |
| Arxiv.IdAtShape | src/retriever/arxiv.py:16 | every match is four digits, a dot, four to five digits and an optional version tag |
| Arxiv.FindAll | src/retriever/arxiv.py:16-37 | every capture has the ID shape |
| Arxiv.StripVersionRemovesTag | src/retriever/arxiv.py:42-59 | stripping removes exactly a trailing `v<digits>` and nothing otherwise |
| Arxiv.StripVersionOfIds | src/retriever/arxiv.py:42-59 | a lower-case tag is stripped from an ID; an unversioned ID or an upper-case tag is kept |
| Arxiv.DedupMeetsSpec | src/retriever/arxiv.py:39-45 | the kept IDs are exactly the first match for each base, in order, with pairwise distinct bases |
| Arxiv.DedupKeysExact | src/retriever/arxiv.py:40-45 | the bases of the kept IDs are exactly the bases of the matches |
| Arxiv.ExtractArxivIds | src/retriever/arxiv.py:28-45 | the loop keeps the first capture per version-stripped base, in order of appearance, each with the ID shape |
| Arxiv.ExtractBareIds | tests/test_arxiv_retriever.py:9-31 | a bare ID, versioned or not, yields exactly itself |
| Arxiv.ExtractFromAbsUrl | tests/test_arxiv_retriever.py:15-19 | an `/abs/` URL yields its one ID |
| Arxiv.ExtractFromPdfUrl | tests/test_arxiv_retriever.py:21-25 | a `/pdf/` URL yields its one ID, without the extension |
| Arxiv.ExtractTwo | tests/test_arxiv_retriever.py:33-37 | two different IDs yield both, in order |
| Arxiv.ExtractNone | tests/test_arxiv_retriever.py:39-42 | text without a digit yields no ID |
| Arxiv.SkipPrefix | src/retriever/arxiv.py:16 | a digit-free prefix, such as a URL, does not change the captures |
| Arxiv.LastPathSegment | src/retriever/arxiv.py:81 | `split('/')[-1]` is the slash-free tail of the URL after its last slash |
| Arxiv.MetadataFacts | src/retriever/arxiv.py:80-89 | the built record is non-empty and truthy, its ID is the entry URL's last segment, and its abstract has no newline |
| Arxiv.ArxivRetriever.GetPaper | src/retriever/arxiv.py:47-99 | a truthy cached record for the stripped ID is returned without a fetch; otherwise a found record is stored under the stripped ID with a seven-day expiry and returned; not found or an error gives None and leaves the store and expiry times as they were |
| Arxiv.ArxivRetriever.GetPapersBatch | src/retriever/arxiv.py:101-113 | there is a key for every requested ID and no other, and every record found is truthy; the answers, the store and the expiry times are those of `get_paper` applied to the IDs in request order (`BatchRun`) |
| Arxiv.BatchRun | src/retriever/arxiv.py:101-113 | `get_paper` applied to each ID in turn, each seeing the store the earlier ones left; the answer map has exactly the requested IDs as keys |
| Arxiv.BatchAnswerIsLastLookup | src/retriever/arxiv.py:111-113 | the answer recorded for an ID is `get_paper`'s answer at that ID's last occurrence, against the store the earlier IDs left |
| Arxiv.BatchKeepsTruthy | src/retriever/arxiv.py:62-65 | a truthy cached record is never replaced during a batch |
| Arxiv.BatchServesCached | src/retriever/arxiv.py:62-65 | an ID whose stripped form has a truthy cached record is answered with that record whatever the API says |
| Retriever.CandidateFacts | src/agents/retriever.py:132-142 | a candidate takes its ID from the entry URL's last segment (so it holds no `/`), has a one-line abstract and has zero counts |
| Retriever.FetchArxivPapers | src/agents/retriever.py:95-154 | the scan loop returns the capped in-window scan, and a client exception keeps what was collected |
| Retriever.WindowScanInWindow | src/agents/retriever.py:129-143 | the scan keeps, in result order, only candidates of results with start ≤ published ≤ end |
| Retriever.WindowScanCap | src/agents/retriever.py:145-147 | with a positive cap the scan has at most cap papers, and all in-window ones when they fit |
| Retriever.WindowScanCapZero | src/agents/retriever.py:145-147 | with a cap of 0 the first in-window result is still kept |
| Retriever.InWindowMembers | src/agents/retriever.py:129-131 | a candidate is kept iff some in-window result gives it |
| Retriever.EnrichedFields | src/agents/retriever.py:174-179 | a lookup with data overwrites both counts, no data keeps them, and nothing else changes |
| Retriever.KeptExactly | src/agents/retriever.py:192-196 | a position is kept iff its task did not raise |
| Retriever.EnrichAligned | src/agents/retriever.py:183-196 | the enriched list is the order-preserving subsequence of the kept positions, each paper updated by its own lookup |
| Retriever.EnrichKeepsAllWhenNoneFail | src/agents/retriever.py:185-196 | when no task raises every paper is kept, in order |
| Retriever.EnrichWithCitations | src/agents/retriever.py:156-204 | the batch loop returns the enriched subsequence and pauses ceil(n/10) − 1 times; empty input gives [] |
| Retriever.EnrichBatch | src/agents/retriever.py:186-196 | one batch appends the results of its positions, in order |
| Retriever.RankByCitationsProps | src/agents/retriever.py:83-93 | the ranking meets the minimum, is non-increasing in citations with ties in input order, has min(max_results, #qualifying) papers, and is the top of the filtered list |
| Retriever.RankByCitationsExample | src/agents/retriever.py:83-93 | papers with 0, 5 and 50 citations and a minimum of 1 rank as the 50 paper, then the 5 paper |
| Retriever.PeriodKey | src/agents/retriever.py:70 | the period key is exactly six digits: the first four spell the start year and the last two the start month |
| Retriever.GetCachedPapers | src/agents/retriever.py:206-225 | the cached-papers helper always answers None |
| Retriever.RetrievePapers | src/agents/retriever.py:44-93 | asks for twice the count, enriches, filters, sorts and slices, leaving the cache unchanged |
| Retriever.RetrievedPapersSound | src/agents/retriever.py:77-131 | every returned paper lies in the window and meets the minimum; the list is sorted and at most max_results long |
| Retriever.PeriodKeyIsCitationsMonth | src/agents/retriever.py:215-234 | the helpers' key is the cache's citations key for the period |
| Pipeline.NormalizeId | src/llm/pipeline.py:47-233 | the normalised ID is a v-free prefix of the input, ending where the first 'v' is |
| Pipeline.NormalizeIdempotent | src/llm/pipeline.py:47 | normalising twice equals normalising once |
| Pipeline.NormalizeAgreesWithStripVersion | src/llm/pipeline.py:47 | on captured IDs this normalisation agrees with the arXiv retriever's version strip |
| Pipeline.VersionsShareSummaryKey | src/llm/pipeline.py:47-54 | all versions of one ID read the same summary cache entry |
| Pipeline.StageAFallback | src/llm/pipeline.py:109-121 | a failed sanitising call gives the original title, the authors joined by ", ", category = primary_category, the abstract and the fixed constraints |
| Pipeline.StageAUsesReply | src/llm/pipeline.py:100-108 | a successful sanitising call is used as returned |
| Pipeline.StageAJoinFailsFirst | src/llm/pipeline.py:93-98 | with a title present, authors that cannot be joined raise the join's TypeError before any later missing key is looked up |
| Pipeline.StageBFailurePropagates | src/llm/pipeline.py:65-151 | a Stage-B failure is the pipeline's failure, whatever Stage C would say |
| Pipeline.StageCAcceptedUnchanged | src/llm/pipeline.py:177-181 | a summary that `validate` accepts comes back unchanged, with no model call |
| Pipeline.StageCModelSaysOk | src/llm/pipeline.py:198-200 | a truthy ok verdict returns the truthy fix, else the original, without re-validation |
| Pipeline.StageCFixRevalidated | src/llm/pipeline.py:203-209 | without ok, a truthy fix is returned iff it is a record the validator accepts, else the original is truncated |
| Pipeline.StageCFallback | src/llm/pipeline.py:211-216 | every other case, a failed call included, gives the truncated original, never the fix |
| Pipeline.StageCOutcomes | src/llm/pipeline.py:177-216 | Stage C returns only the original, the model's fix or the truncated original, and a re-validated fix meets every bound |
| Pipeline.WrittenKey | src/llm/pipeline.py:71-76 | a write happens only on success and only under the key that was read |
| Pipeline.SummarizationPipeline.Summarize | src/llm/pipeline.py:35-80 | returns the specified outcome; the store gains exactly the written key; counters are unchanged |
| Pipeline.CacheHitShortCircuits | src/llm/pipeline.py:50-57 | a truthy cached summary is the answer, whatever the stages would produce |
| Pipeline.StreamedSections | src/llm/pipeline.py:241-247 | a record summary streams exactly its present sections, in the order intro, background, method, conclusion, with progress (i+1)/4 |
| Pipeline.RaisedPersists | src/llm/pipeline.py:242-247 | once walking the sections raises, the whole walk raises |
| Pipeline.StreamSummarize | src/llm/pipeline.py:218-249 | runs the pipeline, then emits the section events of its result, or its error; the cache gains exactly the summary the pipeline writes, under the key it read, and nothing else changes |
| Summarizer.ToMetadataFeedsPipeline | src/agents/summarizer.py:88-97 | the record copies the candidate's fields, has an ISO `published`, and lets the ID lookup and Stage A run without raising |
| Summarizer.Step | src/agents/summarizer.py:48-51 | one more task appends exactly one result and keeps earlier ones |
| Summarizer.RunTasks | src/agents/summarizer.py:48-51 | k tasks give k results, and each shorter run's results are a prefix |
| Summarizer.TruthyEntriesPersist | src/llm/pipeline.py:50-76 | a truthy cached summary is never overwritten by later tasks |
| Summarizer.CachedPaperServedFromCache | src/agents/summarizer.py:48-51 | a paper whose summary was cached at the start gets the cached summary |
| Summarizer.CollectSpec | src/agents/summarizer.py:54-65 | keys are exactly the papers' IDs; with distinct IDs an entry is Some iff that paper's run returned a record |
| Summarizer.SuccessCountIsRecords | src/agents/summarizer.py:67 | with distinct IDs, the success count is the number of papers whose run returned a record |
| Summarizer.SummarizerAgent.SummarizeWithSemaphore | src/agents/summarizer.py:72-102 | runs the pipeline on the candidate's record; a raise propagates |
| Summarizer.SummarizerAgent.RunAll | src/agents/summarizer.py:48-51 | the tasks run one after another, giving RunTasks' results and cache |
| Summarizer.SummarizerAgent.SummarizePapers | src/agents/summarizer.py:33-70 | the returned map is the by-ID join of the task results, and the cache is that of the run |
| Summarizer.SummarizerAgent.SummarizeSingle | src/agents/summarizer.py:104-117 | returns the pipeline's result, or None instead of raising; the cache gains exactly the summary the pipeline writes, and nothing else changes |
| Coordinator.AdaptiveMinCitations | src/agents/coordinator.py:84-93 | the floor is at most 5 and at most the age of a past month; a future month gets 2 |
| Coordinator.AdaptiveGrowsWithAge | src/agents/coordinator.py:84-93 | the floor never decreases as a past month ages |
| Coordinator.AdaptiveTable | src/agents/coordinator.py:84-93 | each floor goes with exactly its ages: 0 only for the current month, 1 only for last month, 2 for two or three months or a future month, 3 for four to six months, 5 beyond |
| Coordinator.TwoMonthsOldGetsTwo | src/agents/coordinator.py:80-89 | without an explicit minimum, a window two calendar months before now gets 2, also across a new year |
| Coordinator.DayBefore | src/agents/coordinator.py:269-271 | the day before is earlier and valid, with the same time of day |
| Coordinator.MonthBoundsExact | src/agents/coordinator.py:265-276 | the window runs from the first day at 00:00:00 to the last day at 23:59:59, with leap Februaries and December rollover, and holds exactly that month's instants |
| Coordinator.MonthBoundsRaises | src/agents/coordinator.py:265-271 | the computation raises exactly out of range or for December 9999 |
| Coordinator.ParseMonthOfDigits | src/agents/coordinator.py:262-276 | a "digits-digits" month parses to that month's window, zero-padded or not |
| Coordinator.ParseMonthFallsBack | src/agents/coordinator.py:278-288 | an unparsable month gives the current month's window |
| Coordinator.ParseMonthIsAMonth | src/agents/coordinator.py:253-288 | every returned window is one whole calendar month |
| Coordinator.CategorizePapers | src/agents/coordinator.py:164-194 | the loop builds the by-ID map of the papers' topics |
| Coordinator.EveryPaperCategorized | src/agents/coordinator.py:131-186 | every retrieved paper has a topic entry |
| Coordinator.RankedOfMembers | src/agents/coordinator.py:129-147 | ranked papers are retrieved papers with their defaulted topic, summary and score that pass the filter; every passing paper is ranked |
| Coordinator.BuildRanked | src/agents/coordinator.py:129-147 | the ranking loop builds exactly the specified ranked list |
| Coordinator.TopNProps | src/agents/coordinator.py:150-154 | the selection has min(top_n, #ranked) papers, is sorted by score, together with the rest is the ranked list, and outscores every paper left out |
| Coordinator.AppendedIsGroups | src/agents/coordinator.py:243-245 | the append loop puts each paper in its topic's list, in order, and creates only lists it fills |
| Coordinator.NoGroupWithoutTopic | src/agents/coordinator.py:243-245 | a topic that does not occur has an empty group |
| Coordinator.AppendByTopic | src/agents/coordinator.py:243-245 | the append loop builds exactly the per-topic groups |
| Coordinator.SortGroups | src/agents/coordinator.py:247-249 | the sort loop sorts every list by score and adds or removes no key |
| Coordinator.GroupByTopic | src/agents/coordinator.py:231-251 | the two loops compute exactly the specified grouping |
| Coordinator.SortedGroupsAreGrouped | src/agents/coordinator.py:243-251 | appending then sorting every list equals the per-topic sorted groups |
| Coordinator.GroupingProps | src/agents/coordinator.py:243-251 | keys are exactly the occurring topics; each paper is in its own topic's group and no other; groups are non-increasing in score |
| Coordinator.RankingProps | src/agents/coordinator.py:129-251 | every returned paper was retrieved, passes the filter and sits in its own topic's group; groups are sorted; at most top_n papers, taken from the top by score |
| Coordinator.EmptyRetrievalNoGroups | src/agents/coordinator.py:111-113 | an empty retrieval returns no groups |
| Coordinator.TopPapersCoordinator.GetTopPapers | src/agents/coordinator.py:44-162 | returns the specified outcome; the summary cache is that of the summarizer run when papers were retrieved, unchanged otherwise |
| Cache.Key | src/config/cache.py:54-63 | every key starts with "dra:" |
| Cache.KeyParts | src/config/cache.py:63 | a key splits at its colons into the namespace followed by its parts |
| Cache.KeyInjective | src/config/cache.py:54-63 | different colon-free part lists never share a key |
| Cache.KeyFamiliesDisjoint | src/config/cache.py:75-182 | the metadata, summary, PDF and citations key families never collide |
| Cache.MinuteAndDayKeysDiffer | src/config/cache.py:247-248 | a user's minute and day counters are different keys |
| Cache.LookupAfterSet | src/config/cache.py:76-132 | a get after a set on the same key returns the stored value; other keys are unaffected |
| Cache.RedisCache.GetPaperMetadata | src/config/cache.py:66-81 | reads the metadata key |
| Cache.RedisCache.SetPaperMetadata | src/config/cache.py:83-96 | writes the metadata key with the seven-day TTL, and nothing else |
| Cache.RedisCache.GetSummary | src/config/cache.py:99-116 | reads the summary key, with version v1 by default |
| Cache.RedisCache.SetSummary | src/config/cache.py:118-133 | writes the summary key with the thirty-day TTL, and nothing else |
| Cache.RedisCache.GetPdfInfo | src/config/cache.py:136-153 | reads the PDF key |
| Cache.RedisCache.SetPdfInfo | src/config/cache.py:155-170 | writes the PDF key with the thirty-day TTL |
| Cache.RedisCache.GetCitations | src/config/cache.py:173-188 | reads the citations key |
| Cache.RedisCache.SetCitations | src/config/cache.py:190-203 | writes the citations key with the seven-day TTL |
| Cache.RedisCache.Incr | src/config/cache.py:251-258 | INCR raises the counter by one, from 0 when missing, and returns it |
| Cache.RateStepRules | src/config/cache.py:246-264 | the minute count always rises; the day count rises only past the minute check; allowed iff both new counts are within limits; the reason is empty iff allowed |
| Cache.RateBudget | src/config/cache.py:246-264 | n calls within one bucket admit at most the remaining minute and day quotas, and rejected calls still consume minute quota |
| Cache.RedisCache.CheckRateLimit | src/config/cache.py:232-264 | the method's answer and new counters are the specified rate step; the minute key gets a 60-second TTL, and the day key a one-day TTL only when it was incremented; the store is untouched |
| Settings.ParsePieces | src/config/settings.py:55 | at most one ID per piece; a raise is a ValueError |
| Settings.GuildIds | src/config/settings.py:50-55 | an empty setting gives []; otherwise at most one ID per comma-separated piece |
| Settings.ParseRaisesIffBadPiece | src/config/settings.py:55 | parsing raises iff some non-blank piece is not an integer |
| Settings.ParsedIdsComeFromPieces | src/config/settings.py:55 | every ID is the value of a non-blank piece |
| Settings.ParseSpellings | src/config/settings.py:55 | the decimal spellings of IDs parse back to the IDs, in order |
| Settings.GuildIdsRoundTrip | src/config/settings.py:50-55 | writing IDs comma-separated and reading the setting gives the same IDs |
| Settings.DefaultLimitsAdmitThreePerMinute | src/config/settings.py:45-46 | under the default 3-per-minute and 20-per-day limits, a new user's first three requests in a minute are allowed and the fourth is rejected yet still counted |
| Sorting.SortDesc | src/agents/retriever.py:86 | the stable sort is non-increasing, a permutation, and keeps the input order among equal keys |
| Sorting.FilterSorted | src/agents/coordinator.py:247-249 | filtering a sorted list keeps it sorted |
| Sorting.SortSortedIsIdentity | src/agents/coordinator.py:248-249 | sorting an already sorted list changes nothing |

## Left out

- I/O and services are not part of this model: the OpenAI client and Semantic Scholar
  HTTP are oracle parameters, and Discord, PDF rendering and prompt strings are omitted. Real Redis
  (connection, JSON encoding, TTL expiry) is replaced by maps. The recorded TTL is kept, but expiry is
  not modelled.
- Clocks (`datetime.now`, `time.time`, `utcnow`) are parameters.
- Concurrency: `asyncio.gather` and the semaphore run the tasks one after another, in list order,
  against the shared cache. Interleavings are not modelled. `asyncio.sleep` between enrichment
  batches is counted as a pause.
- `_calculate_score` uses floating-point `log` and the wall-clock age. It is an opaque per-paper
  score parameter.
- Cost tracking (`_track_usage`, `increment_cost`, `get_daily_cost`) uses floating-point sums and
  is left out.
- Logging is left out. `success_count` in `summarize_papers` is only logged; the model states its
  value as a lemma (`Summarizer.SuccessCountIsRecords`) rather than returning it.
- Settings loading from the environment (pydantic) is left out. `Settings` keeps the limits (3 and 20
  by default, 6 and 100 for trusted users) and the model name.
- `int()` is modelled on ASCII digits with `+`/`-`, underscores and surrounding whitespace. Non-ASCII
  Unicode digits are not modelled.
- The candidate's `citation_count` is updated in place in the source, and that object is shared
  with the input list. The model returns updated copies, so aliasing is not captured.
- Retriever.PeriodKey: `strftime('%Y%m')` is modelled with the year zero-padded to four digits. For
  years below 1000 the padding of `%Y` depends on the platform's C library, and that variation is not
  modelled. `IsoFormat` pads to four digits for every year, as `isoformat()` does.
- Pipeline.StageA: requires that `authors` is not a JSON object. `", ".join` of a dict joins its keys
  in insertion order, and a map does not keep that order. Summarize and StreamSummarize carry the same
  requirement. Metadata built by the summarizer always has a list there.
- Coordinator.TopN: top_n and max_results are natural numbers. Python's negative slices are not
  modelled.
- Coordinator.CategorizePapers: `categorize` catches every failure of the model call, so each
  gathered result is a topic. The `OTHER` default of the collection loop cannot be reached and
  has no branch in the model.
- Pipeline.StreamSummarize: the events are returned as a list or an error,
  not yielded lazily. An error can only occur before the first event, so no event is lost.
- The general regex engine and full Unicode lower-casing: the ID pattern is a hand-written scanner, and
  lower-casing is ASCII only.
- Arxiv.FindAll, Arxiv.ExtractArxivIds and Arxiv.StripVersion: `\d` is modelled as the ASCII digits
  0-9. Python's `re` without `re.ASCII` also matches other Unicode decimal digits, such as the
  fullwidth '２'. IDs spelled with such digits are not captured or stripped by the model.
- SummaryValidator.TruncateSections: the exception kinds follow Python before 3.12. A section of more
  than 900 keys or a `bullet_points` that is a JSON object raises TypeError, because slicing a dict
  raises TypeError there; from Python 3.12 on the same slice raises KeyError. Pipeline.Truncated, which
  calls it, inherits the same choice.
