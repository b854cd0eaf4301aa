# Verified model of the incident root-cause agent

This project models the agent's self-contained algorithms and protocols in Dafny
and proves what they promise. `dafny verify dfyconfig.toml` checks all of it.

| Files | What they model |
|---|---|
| `MirrorSpec`, `MirrorConvergence`, `GraphMirror` | Reconciling approved knowledge packages into the graph, run after run |
| `BalancedScan`, `JsonPrinter`, `CompletionRetry` | Finding JSON objects in a model reply; the completion retry loops under a deadline |
| `Bm25`, `Bm25Laws`, `Bm25Index` | The recall index and its gate; what its scores mean; its search loops |
| `DependencyPath` | The bounded breadth-first check order over the component graph |
| `NegatedSpans`, `KeywordScan`, `Redaction` | The keyword scanner with boundary and negation rules, and query redaction |
| `Thinning`, `SymptomMatcher`, `SymptomReport`, `SymptomCoverage` | Ranking, subsuming and de-duplicating symptom matches; what the result is and what is lost |
| `SymptomRecall`, `RecallLaws` | The whole matcher with its recall fallback; what the fallback finds |
| `CatalogMerge`, `CatalogCopies`, `KnowledgeRegistry`, `SnapshotLaws` | Layering runtime entries over baseline catalogs; validating and swapping snapshots |
| `HelmValues` | Merging, flattening and diffing Helm value trees |
| `LogSampler`, `LogVerdict`, `LogPresence` | The fair log sampler; the present/absent verdicts on log queries and exactly when each is given |
| `HistoryPredicate`, `HistoryCheck`, `HistoryRows` | The generated audit-history predicate, the in-memory check of the returned rows, and the verdict on a sample |
| `Backfill` | The crash-safe keyset backfill |
| `RunRegistry`, `BatchCall` | The cancellable run registry; the resumable batch call |
| `Sorting`, `Wrappers` | Python's stable sort and string order; an option type |

Code that changes state in steps is written as methods and classes whose contracts
tie the new state to a function of the old one; what the program promises is then
proved about those functions, for all inputs and all runs. Pure code is written as
functions.

## How to read the model

- TypeDB is a mutable graph object, SQL text is a predicate over rows, and HTTP, MCP and
  database calls are nondeterministic outcomes. A failed call may or may not have acted.
- Parsers, regexes and word tables are parameters: `loads` for `json.loads`, the negation
  and failure patterns, `strip`, `casefold` and `lower`, the token tables, the label and
  selector matching of the log collector, and package validation.
- The backend builds package ids from a fixed prefix, a run id and a stripped hash
  (`backend/internal/server/knowledge.go:1533`, `case_snapshot.go:63-67`); convergence is proved for such ids.
- Scores and clocks are reals. The logarithm is any function that is positive above one.
- Abstract types (`Name`, `Atom`, `Body`, …) stand for values of which only equality,
  or an order given as a parameter, matters.

## Where the code is weaker than its description

- Curated symptoms are safe from the mirror exactly when no row that compiles something has
  a blank package id (`CuratedSafeIff`); a symptom of an inactive package is released only
  if that package still compiles it (`InactiveOwnerReleasedIff`).
- A symptom match can be omitted although no returned match explains or names it
  (`ClashLosesAMatch`). `AccountedIff` says for which symptom names this can happen: two equal,
  not empty, and a third different. This is exact over lists of names; a particular catalog with
  such names may still be safe because of its keywords.
- The Helm diff identifies trees exactly over keys whose dotted paths decode (`InjectiveIff`);
  keys without dots do, the keys `a.b`, `a` and `b` do not (`DottedKeysCollide`).
- The audit-history query can return rows that the row check refuses; `RefusesIff` says exactly
  when. A weak identity leaves the scope to the check (`OtherQueueIsRefused`). A value longer than
  240 characters is selected whole and checked cut (`LongPodIsRefused`), and one such row spoils
  the whole sample (`RefusedRowSpoils`).
- The query can miss rows that the check would accept, because it neither strips nor cuts cells
  (`PaddedPodIsMissed`); `MissesIff` says exactly when.
- Shadow packages have no effect on analyses exactly while some package is active
  (`ShadowIsInvisibleIff`): otherwise an unusable shadow package makes the payload invalid, and
  retired active knowledge stays in force.
- The causal window of an alert that fires for more than twenty minutes reaches beyond the
  incident window (`CausalInsideIncidentIff`).
- Of all log queries exactly the ad-hoc drill-down can be present without a line that affirms
  a failure (`BackedIff`).

## Model

| member | source | states |
|---|---|---|
| `MirrorSpec.ViewAfterRun` | agent/ontology/mirror_packages.py:216-250 | Names do not interfere: what a run makes of one symptom depends only on that symptom's state and on the entries that carry its name |
| `MirrorSpec.LearnedIs` | agent/ontology/mirror_packages.py:216-250 | An active entry rewrites its symptom's node but for the two flags, leaves it one family and adds its remedies; a symptom of another owner is not touched, and no other symptom is |
| `MirrorSpec.RetractedIs` | agent/ontology/mirror_packages.py:231-238 | An inactive entry removes its own package's symptom with all its edges, and nothing else |
| `MirrorSpec.TallySnoc` | agent/ontology/mirror_packages.py:216-250 | One more entry counts as refused exactly if another owner has its name, and as written exactly if it learns or retracts something |
| `MirrorConvergence.ThirdRunChangesNothing` | agent/ontology/mirror_packages.py:216-250 | From any graph and any list in which no package is both active and retired, two runs reach a fixed point of the whole graph (nodes, both kinds of edges, causes and actions) |
| `MirrorConvergence.MirrorConverges` | agent/ontology/mirror_packages.py:327-346 | The same for every table of packages whose ids have the backend's form: its key tells the ids apart, and stripping leaves them as they are |
| `MirrorConvergence.OneRunIsNotEnough` | agent/ontology/mirror_packages.py:216-250 | One run is not enough: there is a graph and a list whose second run still changes something |
| `MirrorConvergence.ConflictingRowsOscillate` | agent/ontology/mirror_packages.py:216-250 | Were a package listed both active and retired, a name could change hands on every run for ever |
| `MirrorConvergence.CuratedSafeIff` | agent/ontology/mirror_packages.py:219-235 | Curated symptoms (no learned owner) are untouched in every graph exactly when no row that compiles something has a blank package id |
| `MirrorConvergence.CuratedUntouchedForever` | agent/ontology/mirror_packages.py:219-235 | Over any history of runs with any rows failing, a curated symptom keeps its node, families and remedies |
| `MirrorConvergence.UncompiledOwnerUntouched` | agent/ontology/mirror_packages.py:225-235 | A symptom whose owner compiles nothing for it in the list is left as it was |
| `MirrorConvergence.InactiveOwnerReleasedIff` | agent/ontology/mirror_packages.py:231-240 | One run takes a symptom from a package that is not active exactly when that package still compiles it, and a new owner is an active package of the list |
| `MirrorConvergence.OwnedPointsAtOneFamily` | agent/ontology/upsert.py:49-73 | After a run a symptom whose owner compiles the name in this list points at exactly one family, the last one its owner compiled for it, and holds that entry's keywords; an owned symptom its owner does not compile here is unchanged |
| `GraphMirror.Graph.RelateIndicates` | agent/ontology/upsert.py:49-73 | Afterwards the symptom has exactly this family edge if it had it or both nodes exist, and none otherwise; every other symptom's edges are left alone |
| `GraphMirror.Graph.RelateResolvedBy` | agent/ontology/upsert.py:76-88 | Adds one remedy edge if symptom and action exist and it is missing, and nothing else |
| `GraphMirror.Graph.EnsureAction` | agent/ontology/upsert.py:44-46 | Adds the action if it is missing and nothing else |
| `GraphMirror.Graph.EnsureCause` | agent/ontology/load_knowledge.py:98-100 | Adds the family node if it is missing and nothing else |
| `GraphMirror.Graph.ReplaceAttribute` | agent/ontology/load_knowledge.py:103-141 | The symptom's values of one attribute become exactly the non-empty desired ones; other attributes and symptoms stay |
| `GraphMirror.Graph.EnsureSymptom` | agent/ontology/load_knowledge.py:144-207 | Creates or reconciles one symptom node with its keywords, texts and flags; nothing else changes |
| `GraphMirror.EnsuredHas` | agent/ontology/load_knowledge.py:144-207 | What the node then holds: the non-empty keywords, each kind of text in its own field, the flags, and what it had before where nothing is given |
| `GraphMirror.Graph.SymptomOwner` | agent/ontology/mirror_packages.py:185-204 | The answer decides exactly as the reconciliation rule does: for every package id, the name is free or owned by it if and only if its view says so |
| `GraphMirror.Graph.RetractLearnedSymptom` | agent/ontology/mirror_packages.py:207-213 | Removes the symptom and its edges |
| `GraphMirror.Graph.MirrorLearnedKnowledge` | agent/ontology/mirror_packages.py:216-250 | The loop over a package's entries equals the pure run of its operations, and the two counters equal the tally of written and refused entries |
| `GraphMirror.Graph.MirrorRun` | agent/ontology/mirror_packages.py:327-346 | The per-row transactions equal the run of exactly the rows that commit, and the knowledge counters are that run's tally; a row counts as mirrored exactly if it commits and its state is recorded, every other row as failed |
| `BalancedScan.CloseOf` | agent/app/llm.py:620-659 | The string-aware scan from an opening brace finds the first position where the depth returns to zero, or reports that there is none |
| `BalancedScan.BalancedJsonObjects` | agent/app/llm.py:620-659 | The scanner terminates on every text and yields exactly the readable candidates of the unique block list, in order |
| `BalancedScan.BlocksInOrder` | agent/app/llm.py:620-659 | The blocks are in order and do not overlap, and each starts at an opening brace |
| `BalancedScan.BlocksUnique` | agent/app/llm.py:620-659 | A text has only one such block list |
| `BalancedScan.ParseJsonObject` | agent/app/llm.py:661-669 | Returns the first value the scan yields, if that is an object |
| `BalancedScan.ParseLastJsonObject` | agent/app/llm.py:672-678 | Returns the last object the scan yields, or None when it yields none |
| `JsonPrinter.PrintLevel` | agent/app/llm.py:628-650 | Any value printed by sections 4 to 7 of RFC 8259 leaves the scanner's depth and string state where they were and never dips below |
| `JsonPrinter.ScanUndoesPrint` | agent/app/llm.py:620-659 | Objects separated by prose without an opening brace all come out, in order and nothing else, whatever braces, quotes and escapes their strings hold |
| `JsonPrinter.FirstCandidate` | agent/app/llm.py:620-659 | After prose without an opening brace the first candidate is exactly the printed object, whatever text follows |
| `CompletionRetry.Complete` | agent/app/llm.py:234-361 | A completion returns by its deadline, or at once when that has passed; it sends at most six requests, each in time; its outcome is the reading of the last reply. It gives up on time only when none is left, on a failure only when it is none to retry or after three that are, and accepts a cut-off reply only when the cap cannot be doubled any more |
| `CompletionRetry.Attempts` | agent/app/llm.py:301-321 | One round sends at most three requests, all with the given cap, each after a reply that may be retried, and stays on time; a retryable answer ends it only after the third, and no time left is the only other reason to stop early |
| `CompletionRetry.CapDoublesOnce` | agent/app/llm.py:327-343 | In every trace of requests the token cap is doubled at most once and then kept |
| `CompletionRetry.RequestTimeout` | agent/app/llm.py:120-127 | None exactly when no time is left; otherwise a request gets what is left or the configured limit, and no more than either |
| `Bm25.GateIsQualifies` | agent/app/bm25.py:255-263 | The filter the code applies to its four arrays equals the gate: a signature term, or two distinct query tokens with a rare term |
| `Bm25.QualifiesMonotone` | agent/app/bm25.py:218-263 | Adding query tokens never disqualifies a document |
| `Bm25.ScoreMonotone` | agent/app/bm25.py:218-263 | Adding query tokens never lowers a score |
| `Bm25.LongerQueryKeepsDocuments` | agent/app/bm25.py:218-263 | Both together for the deduplicated queries the search runs on |
| `Bm25Laws.ShareRises` | agent/app/bm25.py:246-250 | More occurrences of a term in a document score more |
| `Bm25Laws.ShareFallsWithLength` | agent/app/bm25.py:246-250 | In a longer document the same occurrences score less |
| `Bm25Laws.ShareRisesWithIdf` | agent/app/bm25.py:246-250 | A term of larger weight scores more |
| `Bm25Laws.ShareIsBounded` | agent/app/bm25.py:246-250 | No number of occurrences makes a share reach two and a half times the term's weight |
| `Bm25Laws.ShareAtAverage` | agent/app/bm25.py:246-250 | One occurrence in a document of average length scores exactly the term's weight |
| `Bm25Laws.IdfFalls` | agent/app/bm25.py:214-216 | For an increasing logarithm a term in fewer documents has the larger weight |
| `Bm25Laws.TermsIff` | agent/app/bm25.py:230-236 | A query token is matched through exactly itself, its synonyms, and the terms of the first stem it begins with |
| `Bm25Laws.TermScores` | agent/app/bm25.py:230-254 | A document that carries such a term scores, and counts as hit by the token unless one of the two is no evidence |
| `Bm25Laws.QualifiesIff` | agent/app/bm25.py:229-263 | The gate told by documents: a term shown that is in at most two documents, a quarter of all and six letters long; or a term in a quarter at most together with two different query tokens shown; words that are no evidence show nothing |
| `Bm25Laws.MoreRanksHigher` | agent/app/bm25.py:218-265 | Of two documents equally long and alike in all other probed terms, the one with more of one term is listed before the other, at any limit and by any probes |
| `Bm25Laws.AnswerSize` | agent/app/bm25.py:255-265 | The answer has as many entries as documents pass the gate, or as the limit allows |
| `Bm25.QualifiedExactly` | agent/app/bm25.py:255-263 | The list that is ranked holds exactly the qualified documents with their scores |
| `Bm25.AnswerIsBestFirst` | agent/app/bm25.py:264-265 | The answer is best first and leaves out no qualified document that beats one it keeps; it is shorter than the limit only when nothing is left out |
| `Bm25Index.BM25Index.constructor` | agent/app/bm25.py:195-212 | The index built by the loops counts tokens, document frequencies and lengths of exactly the given documents |
| `Bm25Index.BM25Index.Search` | agent/app/bm25.py:218-265 | The nested update loops return the declarative answer |
| `Bm25Index.CountTokens` | agent/app/bm25.py:195-212 | The counting loop gives every token its number of occurrences and lists no other token |
| `Sorting.StableSortSorts` | agent/app/bm25.py:264-265 | The sort the searches, samplers and matchers use puts its input in order |
| `Sorting.StableSortIsStable` | agent/app/bm25.py:264-265 | Elements that compare equal keep their input order |
| `DependencyPath.Path` | agent/app/knowledge.py:898-923 | The breadth-first walk returns the check order of the component, nothing for an unknown one, for every graph including cyclic ones |
| `DependencyPath.OrderIsComplete` | agent/app/knowledge.py:898-923 | The check order lists, without repeats, exactly the components within the depth |
| `DependencyPath.WithinIsReachable` | agent/app/knowledge.py:898-923 | Within the depth means: there is a walk of at most so many dependency edges, every component after the start known and not SaaS-only |
| `DependencyPath.NearestFirst` | agent/app/knowledge.py:898-923 | No component is listed before one that is strictly closer to the start |
| `DependencyPath.FirstMentionFirst` | agent/app/knowledge.py:907-922 | Among listed components the one whose first mention, in the order of the list and then of the dependency lists, comes earlier is listed earlier |
| `DependencyPath.OrderGrows` | agent/app/knowledge.py:898-923 | A larger depth only appends to the order |
| `NegatedSpans.RecordedIsFixed` | agent/app/knowledge.py:1962-2011 | The spans recorded longest keyword first obey the recording rule, each given the others |
| `NegatedSpans.FixedIsUnique` | agent/app/knowledge.py:1962-2011 | No other set of spans does: the rule determines the recorded spans without any processing order |
| `NegatedSpans.ReportedIff` | agent/app/knowledge.py:1962-2011 | For any boundary and negation predicates: reported exactly when the scan meets an occurrence that passes, is not negated and lies in no recorded span |
| `KeywordScan.KeywordReportedIff` | agent/app/knowledge.py:1962-2011 | The same on the text itself, with the token boundary rules written out, for any set of spans that obeys the recording rule |
| `KeywordScan.MetIff` | agent/app/knowledge.py:1966-1972 | A scan meets an occurrence exactly when no occurrence that it meets begins before and overlaps it; so none is overlooked |
| `KeywordScan.HitIff` | agent/app/knowledge.py:1962-2011 | A keyword is in the list of hits exactly when it is given and some occurrence a scan meets passes, is not negated and lies in no recorded span |
| `KeywordScan.AffirmedIsHit` | agent/app/knowledge.py:1962-2011 | In a text that negates nothing, a given keyword that occurs anywhere is a hit if its occurrences pass the boundary rules |
| `KeywordScan.HitsInOrder` | agent/app/knowledge.py:1966-1966 | Longer hits come first, and hits of one length in the order their keywords are given |
| `KeywordScan.PassesIff` | agent/app/knowledge.py:1973-2000 | The boundary rule told by the token around the occurrence: a number begins its token, only a stem suffix may follow a word, and an atomic token matches only itself |
| `KeywordScan.OrderDoesNotMatter` | agent/app/knowledge.py:1962-2011 | The multiset of hits and the recorded spans do not depend on the order of the keywords |
| `KeywordScan.OccurrencesAscend` | agent/app/knowledge.py:1966-1972 | The occurrences a scan meets are real, left to right and non-overlapping |
| `KeywordScan.Boundary` | agent/app/knowledge.py:1973-2000 | The boundary checks of the loop decide the declarative boundary rule |
| `KeywordScan.KeywordHits` | agent/app/knowledge.py:1962-2011 | The scanner returns exactly the hit list, and its flag says whether anything was recorded as negated |
| `Redaction.RedactedIff` | agent/app/knowledge.py:2032-2058 | A character is blanked exactly when it lies in a negated occurrence that a scan meets, or in a negated token |
| `Redaction.RedactNegatedKeywords` | agent/app/knowledge.py:2032-2058 | The in-place blanking loops produce that text |
| `Thinning.KeptIff` | agent/app/knowledge.py:1867-1878 | Going down a ranked list, an element is kept exactly when no kept element of better rank blocks it |
| `Thinning.KeptIsUnique` | agent/app/knowledge.py:1867-1878 | Only one set of elements obeys that rule, so no other way of thinning does |
| `SymptomReport.ProperIsUnique` | agent/app/knowledge.py:1858-1900 | A list is what the resolving steps return exactly when it is in strict rank order and holds the survivors (the matches that no survivor of better rank explains) whose non-empty name no better one of the list has |
| `SymptomReport.RanksIff` | agent/app/knowledge.py:1852-1866 | Rank: concrete hits before generic ones, then more hits, then a longer longest hit, then the ranked family, then the place in the catalog |
| `SymptomReport.ExplainsIff` | agent/app/knowledge.py:1867-1876 | A match explains another whose hits, not the same list, all occur in its own, or whose single hit is a mere context beside several |
| `SymptomReport.MatchesAre` | agent/app/knowledge.py:1818-1828 | The matches are exactly the catalog's symptoms with a supported hit, each with its family, its hits and its place |
| `SymptomMatcher.ReturnedIff` | agent/app/knowledge.py:1858-1879 | A match is returned exactly when no surviving match of better rank explains it and no returned match of better rank carries its non-empty name |
| `SymptomMatcher.ExplainersAreRepresented` | agent/app/knowledge.py:1867-1878 | Whoever explains an omitted match is returned itself unless its name is already given by a better returned match |
| `SymptomCoverage.AccountedIff` | agent/app/knowledge.py:1858-1900 | For every text and every catalog with given symptom names, each omitted match is named or explained by a returned one, exactly if no two of the names are equal, not empty and different from a third; assumed of the scan rules is a character whose runs are neutral: in no token, never negated, not changed by lower-casing |
| `SymptomCoverage.ClashLosesAMatch` | agent/app/knowledge.py:1798-1900 | For any names that clash so there is a catalog with these names and a text of which the program omits a match that nothing returned names or explains |
| `SymptomCoverage.MatchesAreNamed` | agent/app/knowledge.py:1820-1828 | The catalog pass gives matches in catalog order that carry the catalog's names position by position |
| `SymptomMatcher.ReturnedInOrder` | agent/app/knowledge.py:1858-1900 | The result is in rank order, generic-only matches never precede concrete ones, and each non-empty name appears once |
| `SymptomMatcher.StrongIsStrict` | agent/app/knowledge.py:1858-1878 | Ranks are strict, survivors are matches, and a non-empty list of matches gives a non-empty result |
| `SymptomMatcher.MatchesArePositioned` | agent/app/knowledge.py:1820-1828 | Every match of the catalog pass has a position of its own |
| `SymptomMatcher.MatchCatalog` | agent/app/knowledge.py:1818-1828 | The pass over the catalog collects exactly the symptoms with a supported hit, in catalog order |
| `SymptomMatcher.DedupeNames` | agent/app/knowledge.py:1882-1900 | Keeps the first match of every non-empty name |
| `SymptomRecall.MatchSymptoms` | agent/app/knowledge.py:1798-1879 | What comes back, told without the steps: for an empty text or catalog nothing; if there are matches, the one list that is in rank order and holds the unexplained matches, each name once; otherwise everything the index finds for the redacted query, the top family first and each name once |
| `SymptomRecall.Guess` | agent/app/knowledge.py:1835-1849 | Collecting documents and keywords, blanking negated mentions, building the index, searching it, and putting the top family first and each name once give the declarative guesses |
| `SymptomRecall.GuessesAreRecalled` | agent/app/knowledge.py:1829-1851 | Guesses are reported only without an exact match; each is a catalog entry whose document passes the gate for the redacted query; there are at most three, the top family's first, and no name twice |
| `SymptomRecall.GuessesAreFound` | agent/app/knowledge.py:1845-1851 | Every entry the index finds is guessed, or an earlier guess has its name; and nothing else is guessed |
| `RecallLaws.QualifiedIsGuessed` | agent/app/knowledge.py:1835-1851 | A catalog entry that passes the gate is guessed, unless a guess has its name or the index found three entries that score no lower |
| `RecallLaws.SignatureRecalls` | agent/app/knowledge.py:1835-1849 | A rare, long term of a symptom's name or keywords recalls that symptom whenever an un-negated word of the query stands for it |
| `RecallLaws.AskedAt` | agent/app/knowledge.py:1846-1848 | The index is asked with the alert's own text, character by character, with exactly the negated mentions blanked |
| `SymptomRecall.NegatedBringsNothing` | agent/app/knowledge.py:1846-1848 | A query all of whose words are negated mentions brings no guess |
| `CatalogMerge.MergeEntries` | agent/app/knowledge.py:1706-1743 | The merge loop with its name index equals folding the runtime entries in one by one |
| `CatalogMerge.PositionsKept` | agent/app/knowledge.py:1706-1743 | Every baseline entry's position keeps its name |
| `CatalogMerge.LastRuntimeWins` | agent/app/knowledge.py:1706-1743 | The last runtime entry of a name is the one in force |
| `CatalogMerge.OthersUntouched` | agent/app/knowledge.py:1706-1743 | Entries whose name the runtime does not mention are the baseline's own, and nothing else is added |
| `CatalogMerge.OnlyLastReplaced` | agent/app/knowledge.py:1715-1724 | Of several baseline entries of one name only the last is ever replaced |
| `CatalogMerge.NewNamesOnce` | agent/app/knowledge.py:1719-1727 | A name the baseline lacks is appended once |
| `CatalogMerge.MergeTwice` | agent/app/knowledge.py:1706-1743 | Merging the same runtime entries again changes nothing |
| `CatalogCopies.MergeItems` | agent/app/knowledge.py:1706-1743 | On the heap: the merged list has the merged values, every entry in a new object, and no entry of the baseline or the snapshot is changed |
| `KnowledgeRegistry.Validate` | agent/app/knowledge.py:1313-1400 | The validation pass builds exactly the snapshot of the usable packages, or fails |
| `KnowledgeRegistry.IsolationIsStrictOnUsable` | agent/app/knowledge.py:1313-1400 | Isolating failures gives what strict validation gives on the usable packages alone, apart from the package count, and fails on a non-empty list without any |
| `KnowledgeRegistry.CombinedInterleaves` | agent/app/knowledge.py:1361-1371 | Per family the combined list interleaves the active and the shadow list in package order |
| `SnapshotLaws.ValidIff` | agent/app/knowledge.py:1313-1400 | When a payload is accepted, with and without isolating failures |
| `SnapshotLaws.SnapshotHolds` | agent/app/knowledge.py:1313-1400 | Each of the six lists of an installed snapshot holds exactly the entries that usable packages of its kind bring |
| `SnapshotLaws.ProbesAre` | agent/app/knowledge.py:1469-1477 | Probe templates are registered exactly for what some active package registers, and the last such package's are in force |
| `KnowledgeRegistry.ProbesNeedActive` | agent/app/knowledge.py:1469-1477 | Registered probe templates depend on the active packages only |
| `KnowledgeRegistry.ShadowIsInvisibleIff` | agent/app/knowledge.py:1020-1104 | After any history, payloads with given active packages have the same effect on what assist mode sees and on the probes, whatever shadow or unusable packages they list, exactly if some package is active |
| `KnowledgeRegistry.LastGoodIsOnePayload` | agent/app/knowledge.py:1026-1060 | Over every history of refreshes the installed revision is none, or one payload validated whole; none exactly when no payload ever validated |
| `KnowledgeRegistry.MergedModesTwice` | agent/app/knowledge.py:1706-1727 | Merging a runtime catalog into the failure modes twice is merging it once |
| `KnowledgeRegistry.Registry.Refresh` | agent/app/knowledge.py:1026-1060 | A refresh installs a whole validated payload or changes nothing |
| `KnowledgeRegistry.Registry.FailureModes` | agent/app/knowledge.py:1080-1093 | What each mode shows is the baseline merged with what the last good payload lets it see |
| `KnowledgeRegistry.Registry.KnownIssues` | agent/app/knowledge.py:1095-1104 | The same for known issues |
| `HelmValues.Merge` | agent/app/collectors/change.py:1582-1589 | The merge loop computes the merged tree |
| `HelmValues.MergedLeaf` | agent/app/collectors/change.py:1582-1589 | A non-table value is in the merged tree exactly when the overrides hold it, or the defaults do and the overrides leave its place alone |
| `HelmValues.MergeTwice` | agent/app/collectors/change.py:1582-1589 | Merging the same overrides twice is merging them once |
| `HelmValues.LeavesDetermine` | agent/app/collectors/change.py:1592-1602 | A value tree is determined by its leaves, an empty table counting as a leaf |
| `HelmValues.PathTextInjective` | agent/app/collectors/change.py:1597-1597 | For non-empty dot-free keys a dotted path names one place |
| `HelmValues.Flatten` | agent/app/collectors/change.py:1592-1602 | For every tree and every iteration order the flat map has exactly the leaf paths as keys, each with a leaf of that path |
| `HelmValues.FlattenInjective` | agent/app/collectors/change.py:1592-1602 | Trees over keys whose dotted paths decode are equal if they have one flat form |
| `HelmValues.InjectiveIff` | agent/app/collectors/change.py:1592-1602 | Over any set of keys, trees with one flat form are equal exactly when no two key sequences over the set share a dotted path |
| `HelmValues.FlattenIsUnique` | agent/app/collectors/change.py:1592-1602 | A tree over such keys has one flat form |
| `HelmValues.DottedKeysCollide` | agent/app/collectors/change.py:1592-1602 | The keys a.b, a and b do not decode, so different trees over them can have one flat form |
| `HelmValues.ValuesDiff` | agent/app/collectors/change.py:1605-1620 | The diff shows the first 25 differing paths in key order, each with its masked old value as before and its masked new one as after; it is empty exactly when the trees are equal, if their keys decode, as keys without dots do |
| `LogSampler.SampleEntries` | agent/app/collectors/loki.py:1675-1716 | In terms of the streams given: the sample is in time order, has min(limit, all readable entries) entries, and is with repeats the sum of one part per stream; each part holds that stream's newest entries, and two parts differ by at most one unless the smaller stream is used up |
| `LogSampler.ValuesCount` | agent/app/collectors/loki.py:1681-1697 | A stream's entries are its readable values, each as often as it occurs |
| `LogSampler.PicksAreNewest` | agent/app/collectors/loki.py:1702-1715 | What the round robin takes is, entry by entry, the newest share of every stream |
| `LogSampler.NewestIsSuffix` | agent/app/collectors/loki.py:1701-1709 | A share of a stream is a suffix of its time order |
| `LogSampler.SharesAreFair` | agent/app/collectors/loki.py:1702-1715 | Two shares differ by at most one unless the smaller stream is used up, and earlier streams are served first |
| `LogSampler.NewestFirst` | agent/app/collectors/loki.py:1698-1709 | No entry left out of a stream is newer than one taken from it |
| `LogVerdict.CausalInsideIncidentIff` | agent/app/collectors/base.py:72-122 | The causal window ends inside the incident window exactly for a resolved alert or, to the second, in the first twenty minutes of a firing one |
| `LogVerdict.PresentIsBacked` | agent/app/collectors/loki.py:878-984 | An error, history or control-plane query is present only with a line that affirms a failure inside the causal window and with the scope check passed |
| `LogVerdict.AbsentIsDirect` | agent/app/collectors/loki.py:929-960 | Without any returned stream, absence is claimed exactly for a direct, complete answer to the exact request under verified log coverage |
| `LogVerdict.AbsentIsBacked` | agent/app/collectors/loki.py:1273-1312 | In an annotated batch that coverage means the unfiltered query returned in-window entries tied to the target by labels |
| `LogVerdict.TailAndErrorsProveNothing` | agent/app/collectors/loki.py:897-924 | An unfiltered tail is never a verdict, and unavailable means exactly that the query failed |
| `LogVerdict.BackedIff` | agent/app/collectors/loki.py:878-984 | Presence rests on a line that affirms a failure inside the causal window for every query name except an ad-hoc drill-down |
| `LogPresence.PresentIff` | agent/app/collectors/loki.py:878-987 | Exactly when a query for a target is present: it did not fail, is no plain tail, has an entry in the requested range, shows a failure line in the causal window (but for drill-down and unnamed queries), and its labels or rows tie it to the target |
| `LogPresence.PresentWithoutTargetIff` | agent/app/collectors/loki.py:878-987 | Without a target exactly error, drill-down and unnamed queries can be present, on the same evidence |
| `LogPresence.AbsentIff` | agent/app/collectors/loki.py:929-960 | Exactly when absence is claimed, with and without a target, whether or not streams were returned |
| `LogPresence.LabelledErrorsArePresent` | agent/app/collectors/loki.py:936-960 | An error query whose complete stream labels are the target's, with a failure line inside both windows, is present |
| `LogPresence.CoveredIff` | agent/app/collectors/loki.py:1273-1312 | An error or tail query is marked as covered exactly when the batch's first tail query succeeded and saw lines in the range that are the target's own; nothing else changes |
| `LogPresence.EntityIs` | agent/app/collectors/loki.py:1037-1227 | Which pod, workload or namespace an observation names |
| `LogPresence.WindowsAre` | agent/app/collectors/base.py:72-122 | The two windows for whole seconds: from five minutes before the alert to five minutes after its end, or to its end; of a firing alert to twenty minutes after its start, or to now |
| `LogVerdict.AffirmativeLines` | agent/app/collectors/loki.py:990-1015 | The loop returns exactly the in-window lines that affirm a failure, in order |
| `LogVerdict.AnnotateCoverage` | agent/app/collectors/loki.py:1273-1312 | Marks the error and recent-log items with the batch's coverage and changes nothing else |
| `LogVerdict.EvidenceWindow` | agent/app/collectors/loki.py:1352-1371 | The tightest span around the retained entries inside the causal window, or none |
| `LogVerdict.QueryObservation` | agent/app/collectors/loki.py:878-987 | With or without a target, for any requested range, the observation carries the verdict; its evidence window lies inside the causal window and, for a resolved alert over its own windows, inside the incident window |
| `HistoryPredicate.HistoryTargetClause` | agent/app/collectors/postgres.py:676-745 | For any available columns and iteration order: placeholders $3, $4, … once each for the bound lists, and a row is selected exactly when it is wanted; None exactly when no identity column is usable |
| `HistoryCheck.RowEntity` | agent/app/collectors/postgres.py:1253-1301 | The row check finds an identity exactly for verified rows: that of the first identifying column, named by the row's own text |
| `HistoryCheck.EntityIsOfTarget` | agent/app/collectors/postgres.py:1253-1301 | The identity it finds is the target's own up to case and blanks, in the kind of the column; only a workload column may hold the name or the id |
| `HistoryCheck.ExpectedByColumn` | agent/app/collectors/postgres.py:653-671 | What each column is expected to hold: its own field of the target; a workload and a resource the name or the id |
| `HistoryCheck.MissesIff` | agent/app/collectors/postgres.py:676-799 | The query reads whole cells, the check reads them cut to 240 characters and stripped. Some row the check would accept is missed exactly when cells that pass only the check let it escape: in any tested column for a strong identity, in the identity column and every identifying scope column for a weak one |
| `HistoryCheck.RefusesIff` | agent/app/collectors/postgres.py:676-799 | Some row the query returns is refused by the check exactly when an identity column, or for a strong identity a scope column, has a cell that passes only the query, or a weak identity leaves another scope column untested |
| `HistoryCheck.PaddedPodIsMissed` | agent/app/collectors/postgres.py:1253-1301 | A row whose pod name has a space before it is missed |
| `HistoryCheck.LongPodIsRefused` | agent/app/collectors/postgres.py:774-799 | The row of a pod name of 250 characters is returned and refused, although the identity is strong |
| `HistoryCheck.OtherQueueIsRefused` | agent/app/collectors/postgres.py:725-729 | For an alert with a project and a queue only, a row of that project in another queue is returned and refused |
| `HistoryCheck.QueryAgainstCheck` | agent/app/collectors/postgres.py:1253-1301 | On a row each cell of which passes both readings or neither, query and check agree for a strong identity; for a weak one the check additionally demands every known scope |
| `HistoryCheck.QueryIsExactIff` | agent/app/collectors/postgres.py:676-799 | Whatever is in the table, query and check accept the same rows exactly when neither of the two conditions above holds |
| `HistoryCheck.LosesIff` | agent/app/collectors/postgres.py:788-788 | Where lower-casing works character by character, a column has a cell that passes only the query exactly when one of the target's own values is longer than 240 characters and its cut is not another of them |
| `HistoryCheck.ShortIsNeverRefused` | agent/app/collectors/postgres.py:676-799 | So for a strong identity whose values fit, every returned row is accepted |
| `HistoryCheck.ShortMissesIff` | agent/app/collectors/postgres.py:676-799 | For values of ordinary length the query can miss a row exactly when some identity column of the table has a known value, which is when there is a query at all |
| `HistoryCheck.ShortRefusesIff` | agent/app/collectors/postgres.py:676-799 | For such values it can return a row that is refused exactly for a weak identity with a known identity column and a known scope column besides |
| `HistoryCheck.NoClauseNoRow` | agent/app/collectors/postgres.py:722-723 | Without a clause there is no row the check would accept |
| `HistoryCheck.AboutIsShaped` | agent/app/collectors/postgres.py:653-671 | Blank target fields constrain nothing, a strong identity is one of the strong columns having a value, and no scope column then identifies |
| `HistoryRows.VerifiedRows` | agent/app/collectors/postgres.py:1156-1222 | A sample supports the count exactly if every row is fine and one is early enough; then it gives the tightest span of the early rows and the first specific identity they prove, else the first |
| `HistoryRows.RefusedRowSpoils` | agent/app/collectors/postgres.py:1199-1201 | One early row that the query returns and the check refuses spoils the whole sample |
| `HistoryRows.OwnSampleIsTrusted` | agent/app/collectors/postgres.py:1156-1222 | For a strong identity whose values fit, a sample of the query's own rows is refused only when all of them are too late |
| `Backfill.StepIsSafe` | agent/ontology/backfill_trace_v3.py:127-179 | Every load, fetch, write, save, failure or crash of any of several runs keeps the cursor on projected ground |
| `Backfill.AlwaysCovered` | agent/ontology/backfill_trace_v3.py:127-179 | So does every sequence of them, and nothing projected is ever lost |
| `Backfill.FreshHistoryIsCovered` | agent/ontology/backfill_trace_v3.py:127-179 | From an empty database, after any events: every trace-v3 row at or below the cursor is projected, and nothing else is |
| `Backfill.DoneMeansAll` | agent/ontology/backfill_trace_v3.py:140-148 | A run that is told there are no more rows leaves no trace-v3 row unprojected |
| `Backfill.Source.PageCovers` | agent/ontology/ingest.py:326-360 | A keyset page that is projected completely lets the cursor move to its last row |
| `Backfill.Source.PageIs` | agent/ontology/ingest.py:326-360 | A page is the first rows after the cursor in keyset order, as many as the limit allows |
| `Backfill.Source.NothingLeft` | agent/ontology/ingest.py:326-360 | An empty page means that nothing is left above the cursor |
| `Backfill.Source.MovesOn` | agent/ontology/ingest.py:326-360 | Every page moves the cursor past at least one more row |
| `Backfill.Store.WritePage` | agent/ontology/ingest.py:1453-1471 | Projects only trace-v3 rows of the page, goes on after a failure, counts each such row as written or failed, and reports none as failed only when all are projected |
| `Backfill.Store.Backfill` | agent/ontology/backfill_trace_v3.py:127-179 | The paging loop terminates and does to the cursor and the projections what its trace of events does; whatever fails, the cursor stays on projected ground; without failures or a batch limit it reports completion or stops at a page whose last row lacks its keys; completion means that everything is projected, that no row lies above the cursor, and that the count of written rows is the number of trace-v3 rows above the old one |
| `RunRegistry.StepIsSound` | agent/app/main.py:198-233 | Every submit, cancel, finish, abandon and clean-up keeps: each live analysis nobody asked to stop is the registered one of its id |
| `RunRegistry.AlwaysSound` | agent/app/main.py:198-233 | So does every interleaving |
| `RunRegistry.OneLiveRunPerId` | agent/app/main.py:203-216 | After any events at most one live analysis has a given id |
| `RunRegistry.CancelIsComplete` | agent/app/main.py:227-233 | A cancellation reaches every live analysis of its id and none of another |
| `RunRegistry.SubmitSupersedes` | agent/app/main.py:203-216 | A new run replaces the older one of its id and disturbs no other |
| `RunRegistry.CleanUpKeepsOthers` | agent/app/main.py:221-223 | An older handler's clean-up never unregisters a newer run |
| `RunRegistry.EndedIsGone` | agent/app/main.py:217-223 | An analysis that ended and was cleaned up after is registered no more, and no other is touched |
| `RunRegistry.AbandonedIsAsked` | agent/app/main.py:217-223 | A request that goes away asks its own analysis to stop and no other; it stays registered until cleaned up |
| `RunRegistry.NothingLeaks` | agent/app/main.py:221-223 | Once every handler has cleaned up, nothing stays registered |
| `RunRegistry.Registry.Analyze` | agent/app/main.py:202-216 | The handler up to its await performs exactly the submit step on the shared dictionary |
| `RunRegistry.Registry.Release` | agent/app/main.py:221-223 | The finally block performs exactly the clean-up step |
| `RunRegistry.Registry.CancelAnalysis` | agent/app/main.py:227-233 | The cancel endpoint performs exactly the cancel step and reports whether anything was running |
| `BatchCall.CallMany` | agent/app/mcp_client.py:188-234 | Whatever fails, no completed call is sent again and at most n + 1 sends are made; a batch that returns has the reply to call i at position i; it gives up exactly after two failed sessions, or when the time budget has run out |
| `BatchCall.Session` | agent/app/mcp_client.py:217-232 | One session sends the remaining calls in order and loses at most one send |

## Left out

- Transports, prompts, rendering, configuration, masking, the concrete regexes and the YAML catalogs: they add no provable structure.
- `_write_package` template bindings and `_compiled_symptoms` payload parsing: the mirror model takes each package's compiled entries as given and the stored owner as its stripped reading.
- `_ensure_diagnosis` and the hypothesis and evidence linking of the trace-v3 projection: a projection is one atomic idempotent write.
- The cursor file and the explicit cursor options of the backfill: they can start past rows that were never projected.
- The NAT half of a completion: it reads a passed deadline as no limit, so the time bound holds for direct HTTP only.
- `strip_reasoning`, usage counting and reading the answer text out of a reply: a reply's usable text is given.
- The token patterns of the recall index and of query redaction are parameters.
- CatalogCopies.MergeItems: an entry is one object; the lists nested inside an entry are part of its value.
- KnowledgeRegistry.Registry.Refresh: does not model ETags or the lock; a refresh is one atomic step.
- LogVerdict.QueryObservation: label normalisation, selector parsing and whole-token matching are parameters, and timestamps are instants rather than their original text.
- HistoryPredicate.HistoryTargetClause: the predicate's meaning is modelled, not its SQL text or identifier quoting.
- Decoding the aggregate count, and the summary text and confidence of a history artifact: only the verdict on the sampled rows is modelled.
- Helm revision selection, event retention and the change collector's cache: bookkeeping around the diff.
- HelmValues.Flatten: which of several colliding dotted paths wins depends on dictionary order and stays open.
- RunRegistry: what an analysis does between its start and its end, and the inline run of a request without an id.
- BatchCall.CallMany: the time budget appears only as an await that may expire at any point.
