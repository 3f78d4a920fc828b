# Kernforge: models and proofs of its graph retrieval, claim verifier and writers

This project models the parts of Kernforge that decide something by an algorithm, and proves what they
decide. `dafny verify dfyconfig.toml` checks all of it. Paths in the table are relative to the repository's
root.

**Semantic graph retrieval** (`Traces`, `SemanticPath`, `Neighborhood`, `RelevantMerge`, `MergeKeys`,
`PathCollector`, `PathOrder`, `CollectionOrder`, `PathKeys`, `HitExpansion`, `HitLaws`). The breadth-first
search is proved equal to an iterative-deepening search that uses no queue and no visited set; that
reference is proved to return a shortest walk exactly when one of the allowed length exists. The
level-by-level expansion is proved to compute a set given by hop counts alone. The nine merges are one loop
over different keys and touch tests, proved to return the smallest keys of a union. The path collector is
proved against a deduplicated list of candidates; the path of a pair is the first in index order among the
shortest. The joined keys that the merges and the collector deduplicate by are proved to lose an item or a
path exactly when they collide.

**Claim verifier** (`ClaimModel`, `ClaimVerifier`, `ClaimGrounding`, `ClaimCauses`, `ClaimStatus`,
`ClaimRun`, `ClaimRunLaws`, `ClaimApply`, `ClaimApplyLaws`, `ClaimEscapes`). Each check is a loop proved
equal to a per-item function. From there: a claim is verified if and only if it is grounded, and which
status any other claim gets follows from what is wrong with it, stated over the packets, shards, symbols and
edges of the run; counts are conserved; confidence never rises; and a claim receives its own verdict in the
write-back exactly when it has an id and the last result under its key is its own, in which case a rejected
claim is neither high nor a fact any more.

**Version resource and group icon** (`Bytes`, `VersionBlock`, `VersionReader`, `VersionExact`,
`VersionInfo`, `VersionContent`, `GroupIcon`). The writer's memory stream is an object with a position that
is moved back to patch the length. A reader of the VS_VERSIONINFO layout (VS_VERSIONINFO, StringFileInfo,
StringTable, String, VarFileInfo, Var and VS_FIXEDFILEINFO in Microsoft's Win32 reference), which aligns
from the start of the resource, gets every tree back exactly when its keys are well-formed and NUL-free and
its text values are whole. The writer counts trailing padding in `wLength`; the reader does not rely on that
(`VersionReader.UnpaddedReads`).

**Loop machines** (`CommandLine`, `CommandLineExact`, `CommandPieces`, `BuildContexts`, `BuildContextLaws`,
`BuildContextOutput`, `AgentsMd`, `AgentsMdLaws`, `Grouping`, `MarkdownSections`, `MarkdownText`,
`MarkdownLaws`, `MarkdownExact`, `MarkdownAnchors`, `AnchorAgreement`): the command-line tokenizer, the
build-context merge with its in-place stamping of compile commands, the byte-budgeted AGENTS.md loader, the
Markdown section splitter, and the heading anchors that Go and the browser must agree on.

`Text`, `Options`, `Sequences`, `Sorting`, `JoinedKeys` and `SemanticIndex` hold what these share. Strings
are sequences of characters; white space is the list of `unicode.IsSpace`; case mapping is exact on ASCII
and an arbitrary function beyond. Helpers the modelled code only calls (anchor parsing, keyword tests,
hashing, path conversion, lookups by file) are arbitrary functions, so every result holds whatever they do.

## What the proofs turned up

- A claim without an id never receives its own verdict: its result is filed under a generated id, while the
  write-back looks under the blank one. With an id it receives the last result filed under its shard, id and
  text, which is its own exactly when that result equals it (`ClaimApplyLaws.OwnVerdictIff`, and for a whole
  run `ClaimApplyLaws.RunWriteBackIff`). `ClaimApplyLaws.WriteBackRule`, `ClaimApplyLaws.HighAfterIff` and
  `ClaimApplyLaws.TextGoneIff` say in every case what is written to a claim, whether it is high afterwards,
  and which texts leave the facts.
- What slips through otherwise: in a run with a rejected claim without an id, and in one with a rejected
  claim that shares id and text with a later verified one, that claim keeps its high confidence and stays a
  fact (`ClaimEscapes.BlankIdEscapes`, `ClaimEscapes.RepeatedKeyEscapes`). The first is true of the two
  functions taken by themselves: outside the tests they are called once, after `normalizeAnalysisClaims`
  (`analysis_project_contracts.go:719-723`) has given every claim without an id one of its own. It does not
  part claims that share id and text.
- An anchor whose line lies outside every cited packet of its file blocks a claim of any confidence, while an
  anchor whose file no cited packet has only downgrades it; a cited id that is not found blocks a claim of high
  confidence and makes any other unsupported (`ClaimStatus.StatusIff`).
- Claims under a duplicated shard id are never verified, and neither are claims of reports that name no
  shard (`ClaimRunLaws.NeverVerifiedWithoutShard`).
- The collector deduplicates by node ids joined with `->`. Below its limit every joined pair has a path of
  its own exactly when no two pairs with different paths share a key; ids free of `->` guarantee that, and
  an index whose ids hold arrows can lose a path (`PathKeys.OwnPathsIff`, `PathKeys.ArrowFreeKeepsAll`,
  `PathKeys.ArrowIndexLoses`).
- Six of the nine merges deduplicate by parts joined with `|`. Before the cut to the limit, every touched
  item stands exactly when no two with different parts share a key; parts free of `|` guarantee that, and of
  two calls whose ids hold `|` in different places one can be lost (`MergeKeys.AllStandIff`,
  `MergeKeys.BarFreeKeepsAll`, `MergeKeys.BarCallLoses`).
- A compile command's `BuildContextID` is stored untrimmed while contexts are filed under trimmed ids; it
  names a context exactly when the module, project or directory name in it does not end in white space
  (`BuildContextLaws.NameDecidesContext`). A module called "Foo " is lost
  (`BuildContextLaws.PaddedModuleIsLost`).
- Splitting joined sections again gives the same sections exactly when no section has a line that still ends
  in a carriage return, written as `\r\r\n`, before a line that shows something (`MarkdownExact.ResplitIff`,
  `MarkdownExact.NormalizedLines`).
- Go's link and the browser's anchor of a title agree exactly when the two lower-casings have the same runs
  of letters and digits (`AnchorAgreement.AnchorsAgreeIff`). Under the Unicode case rules that fails exactly
  when a capital I with a dot stands directly before a character that becomes a letter or digit
  (`AnchorAgreement.TitleAgreesIff`).
- A token list survives quoting and splitting exactly when every token is free of double quotes, not empty,
  and without white space at an end (`CommandLineExact.RoundTripIff`). What any other command splits into
  follows from its breaks and quoted stretches, closed or not (`CommandPieces.TokensMean`).

## Model

| member | source | states |
|---|---|---|
| SemanticPath.ShortestSemanticPath | cmd/kernforge/analysis_context_v2_graph.go:539-567 | the queue and visited-set search terminates on every graph and returns what the iterative-deepening reference returns |
| SemanticPath.EnqueueNeighbours | cmd/kernforge/analysis_context_v2_graph.go:556-564 | enqueuing the unseen neighbours of a dequeued node keeps the search invariant: nodes in order of their first trace, each once |
| SemanticPath.SearchMeaning | cmd/kernforge/analysis_context_v2_graph.go:539-567 | a path is returned exactly when a walk of at most maxDepth edges joins start and target; it is such a walk, repeats no node, and no walk is shorter |
| SemanticPath.Covered | cmd/kernforge/analysis_context_v2_graph.go:547-565 | every trace that does not come after the next queued one ends in a node already discovered |
| SemanticPath.HeadIsFirst | cmd/kernforge/analysis_context_v2_graph.go:547-552 | the node at the head of the queue carries its first trace: shortest, then earliest in adjacency order |
| SemanticPath.ExhaustedMeansUnreachable | cmd/kernforge/analysis_context_v2_graph.go:547-566 | when the queue runs empty no trace within the depth reaches the target |
| SemanticPath.Discover | cmd/kernforge/analysis_context_v2_graph.go:556-564 | enqueuing an unseen neighbour keeps the invariant of the expansion in progress |
| SemanticPath.PassOver | cmd/kernforge/analysis_context_v2_graph.go:556-559 | skipping a seen neighbour keeps it too |
| SemanticPath.FirstFromIsFirst | cmd/kernforge/analysis_context_v2_graph.go:539-567 | deepening finds the first trace to the target, or proves there is none within the depth |
| Traces.FirstIsSimple | cmd/kernforge/analysis_context_v2_graph.go:539-567 | a first trace visits no node twice |
| Traces.FirstIsUnique | cmd/kernforge/analysis_context_v2_graph.go:539-567 | the first trace to a target is unique |
| Traces.TraceIsWalk | cmd/kernforge/analysis_context_v2_graph.go:539-567 | consecutive nodes of a trace are adjacency steps with the recorded edge types |
| Traces.WalkHasTrace | cmd/kernforge/analysis_context_v2_graph.go:539-567 | every walk is described by a trace of the same length |
| Neighborhood.ExpandSemanticV2Neighborhood | cmd/kernforge/analysis_context_v2_graph.go:125-195 | the returned set is exactly: seeds, nodes within depth hops, endpoints of edges touching seed files, generated-code targets and what lies within depth-1 hops of them |
| Neighborhood.Expansion.Visit | cmd/kernforge/analysis_context_v2_graph.go:137-158 | what visiting one edge adds to the node set and to the next frontier |
| Neighborhood.Expansion.VisitGenerated | cmd/kernforge/analysis_context_v2_graph.go:181-188 | targets of generated-code edges from seed files enter the set and the frontier |
| Neighborhood.Expansion.VisitEdges | cmd/kernforge/analysis_context_v2_graph.go:159-180 | the five edge loops together visit every link of the index once per round |
| Neighborhood.Expansion.Start | cmd/kernforge/analysis_context_v2_graph.go:126-133 | the node set and the first frontier are the non-blank seeds, in whatever order the map yields them |
| Neighborhood.Expansion.Round | cmd/kernforge/analysis_context_v2_graph.go:135-192 | one round replaces the frontier by its unblank neighbours and the generated targets, and adds the touched endpoints |
| Neighborhood.FrontierAdvances | cmd/kernforge/analysis_context_v2_graph.go:135-192 | the frontier after a round is what lies one hop further, by hop counts |
| Neighborhood.NeighborhoodAdvances | cmd/kernforge/analysis_context_v2_graph.go:135-192 | the neighbourhood one deeper is the old one, the touched endpoints and the next frontier |
| Neighborhood.EmptyFrontierIsFinal | cmd/kernforge/analysis_context_v2_graph.go:189-192 | stopping on an empty frontier gives the same set as running all rounds |
| Neighborhood.OrderIndependent | cmd/kernforge/analysis_context_v2_graph.go:125-195 | permuting the edge lists changes nothing |
| Neighborhood.Monotone | cmd/kernforge/analysis_context_v2_graph.go:125-195 | more seeds and more depth only add nodes |
| Neighborhood.NeverBlank | cmd/kernforge/analysis_context_v2_graph.go:128-158 | no blank id is ever in the neighbourhood |
| SemanticIndex.TouchesMean | cmd/kernforge/analysis_prompt_semantic.go:250-259 | the file test on evidence passes exactly when some line of it holds, character for character, the path of some file of the set |
| RelevantMerge.MergeRelevant | cmd/kernforge/analysis_context_v2_graph.go:197-447 | for every base, the result is the first limit items of an arrangement of the base and the newly touched index items by ascending key |
| RelevantMerge.PrefixIsSmallest | cmd/kernforge/analysis_context_v2_graph.go:212-218 | for a base with distinct keys the result is strictly key-sorted and holds exactly the limit smallest items |
| RelevantMerge.CandidatesMean | cmd/kernforge/analysis_context_v2_graph.go:197-219 | the items collected before sorting are the base and, per new key, the first touched index item; their keys are the union of both |
| RelevantMerge.MergeMeans | cmd/kernforge/analysis_context_v2_graph.go:197-447 | every key of the union that is missing from the result is larger than all keys of a full result |
| RelevantMerge.SmallestIsUnique | cmd/kernforge/analysis_context_v2_graph.go:197-447 | those conditions leave one result only, so sorting ties and map order cannot show |
| RelevantMerge.CandidateOffered | cmd/kernforge/analysis_context_v2_graph.go:197-447 | whatever keys the base repeats, nothing is collected that is neither in the base nor a touched index item |
| RelevantMerge.OfferedIsKeyed | cmd/kernforge/analysis_context_v2_graph.go:197-447 | and the key of every base item and touched index item is the key of a collected one |
| JoinedKeys.JoinIsFaithful | cmd/kernforge/analysis_context_v2_graph.go:523-527 | lists joined by a separator, whose first character does not recur in it, that is in none of their parts, have equal keys only when they are equal |
| MergeKeys.KeysAreJoined | cmd/kernforge/analysis_context_v2_graph.go:281-440 | the six keys made of several parts are those parts joined with a bar |
| MergeKeys.KeysAreFields | cmd/kernforge/analysis_context_v2_graph.go:200-440 | the nine keys by record fields: id, id and path, and the named fields in their order with bars between them |
| MergeKeys.AllStandIff | cmd/kernforge/analysis_context_v2_graph.go:281-440 | for a base with distinct keys, before the cut to the limit every base item and touched index item stands, by its parts, exactly when no two of them with different parts share a key |
| MergeKeys.BarFreeKeepsAll | cmd/kernforge/analysis_context_v2_graph.go:281-440 | with parts free of the bar every one of them stands |
| MergeKeys.LosesOne | cmd/kernforge/analysis_context_v2_graph.go:284-300 | for a base with distinct keys and whatever the limit, of two items with different parts and one key one is missing from the result |
| MergeKeys.BarCallLoses | cmd/kernforge/analysis_context_v2_graph.go:281-295 | two calls of which every merge into a base with distinct keys loses one when both are touched, whatever the limit |
| Sorting.SortByKey | cmd/kernforge/analysis_context_v2_graph.go:212-214 | sorting by key yields an ascending permutation |
| Sorting.StrictListingIsUnique | cmd/kernforge/analysis_context_v2_graph.go:506-510 | two strictly ascending lists of the same elements are equal |
| PathCollector.AddSteps | cmd/kernforge/analysis_context_v2_graph.go:463-490 | adding an edge list to the adjacency map equals the recursive definition |
| PathCollector.AdjacencyMeans | cmd/kernforge/analysis_context_v2_graph.go:463-490 | a step is in the adjacency map exactly when some index edge of the five kinds is it after trimming, with no blank part |
| PathOrder.StepsInOrder | cmd/kernforge/analysis_context_v2_graph.go:471-490 | the steps out of a node are, in order and without omission, the trimmed non-blank edges leaving it: calls, build ownership, inheritance, overlays, references, each kind in index order |
| PathOrder.PathIsFirst | cmd/kernforge/analysis_context_v2_graph.go:463-567 | the path found lists edges by their positions in the index such that every other list of positions that leads from start to target is longer, or equally long and later at the first position that differs |
| PathCollector.SortedSeeds | cmd/kernforge/analysis_context_v2_graph.go:506-510 | ranging over the seed map in any order and sorting lists the seeds in string order |
| PathCollector.SeedListIsUnique | cmd/kernforge/analysis_context_v2_graph.go:506-510 | that list does not depend on the map's iteration order |
| PathCollector.CollectPair | cmd/kernforge/analysis_context_v2_graph.go:516-533 | one start and seed pair adds its path unless its key was seen |
| PathCollector.CollectPaths | cmd/kernforge/analysis_context_v2_graph.go:514-536 | the two loops with their early return take the first limit paths of the deduplicated candidates |
| PathCollector.BuildRelevantSemanticPaths | cmd/kernforge/analysis_context_v2_graph.go:459-537 | the collector equals its specification for the unique sorted seed list |
| PathCollector.CollectorMeans | cmd/kernforge/analysis_context_v2_graph.go:459-537 | at most limit paths with different node sequences, each of 1 to 4 index edges from a context or startup id to another seed; below the limit every pair joined within 4 hops is represented by its key |
| CollectionOrder.StartsInOrder | cmd/kernforge/analysis_context_v2_graph.go:492-505 | the starts are the context ids, then the primary startup as project, target, module and type, trimmed, non-blank, in the order of their first occurrences |
| CollectionOrder.CollectedInOrder | cmd/kernforge/analysis_context_v2_graph.go:514-536 | each collected path is the one that comes first in index order for its pair, with its reason and score, and every joined pair before that one, start by start and target by target, has its key among the paths before it |
| PathCollector.CollectFrom | cmd/kernforge/analysis_context_v2_graph.go:515-534 | the inner loop takes the candidates of one start in target order and stops when the list is full |
| PathKeys.CollectedIsJoined | cmd/kernforge/analysis_context_v2_graph.go:514-536 | every collected path is the shortest path of a joined pair |
| PathKeys.OwnPathsIff | cmd/kernforge/analysis_context_v2_graph.go:459-537 | below the limit every joined pair has a path with its own nodes exactly when no two joined pairs with different nodes share a key |
| PathKeys.CollisionLoses | cmd/kernforge/analysis_context_v2_graph.go:523-527 | whatever the limit, one of two colliding pairs has no path of its own |
| PathKeys.ArrowFreeKeepsAll | cmd/kernforge/analysis_context_v2_graph.go:459-537 | with start ids and edge targets free of arrows no keys collide, so below the limit every joined pair has a path with its own nodes |
| PathKeys.ArrowIndexLoses | cmd/kernforge/analysis_context_v2_graph.go:523-527 | an index with two calls on which the collector loses one of two joined pairs, whatever the limit |
| HitExpansion.ExpandFromSeeds | cmd/kernforge/analysis_context_v2_graph.go:54-71 | depth by mode, one neighbourhood, nine merges with their limits against it, and paths from the merged build contexts |
| HitLaws.TouchesAreReached | cmd/kernforge/analysis_context_v2_graph.go:197-447 | the nine touch tests by record fields: an edge is touched when either end lies in the neighbourhood or its evidence mentions a seed file, a reference also by its source file or target path, and so on |
| HitLaws.ExpansionMeans | cmd/kernforge/analysis_context_v2_graph.go:54-71 | for every base, each of the nine lists is in key order and within its limit, holds only hits and touched index items, and for each of these holds one with its key unless it is full of keys that do not come after it |
| ClaimModel.NormalizeMeans | cmd/kernforge/analysis_project_contracts.go:787-798 | normalizing a confidence yields high, medium or low and is idempotent |
| ClaimModel.NormalizeWords | cmd/kernforge/analysis_project_contracts.go:787-798 | high, confirmed and strong count as high; low, weak, uncertain and unknown as low; every other word as medium |
| ClaimModel.SeverityMeans | cmd/kernforge/analysis_claim_verifier.go:671-676 | an issue is blocking exactly on claims whose confidence normalizes to high |
| ClaimVerifier.ClaimVerificationStatus | cmd/kernforge/analysis_claim_verifier.go:639-669 | the flag loop decides by which severities occur, blocking before error before warning |
| ClaimVerifier.PacketPathInShardScope | cmd/kernforge/analysis_claim_verifier.go:713-737 | true exactly when the path's key is not blank and is the key of a primary or reference file |
| ClaimVerifier.ResolvePackets | cmd/kernforge/analysis_claim_verifier.go:162-196 | the loop over cited packets collects per-packet issues, the resolved packets, their ids and their edges |
| ClaimVerifier.MatchAnchor | cmd/kernforge/analysis_claim_verifier.go:284-304 | whether some cited packet has the anchor's path, and whether one of these also has its line |
| ClaimVerifier.ParseAnchors | cmd/kernforge/analysis_claim_verifier.go:233-254 | the parsed anchors and the issues of the others, in order |
| ClaimVerifier.CheckAnchors | cmd/kernforge/analysis_claim_verifier.go:270-321 | the second loop equals the per-anchor issues |
| ClaimVerifier.VerifyClaimSourceAnchors | cmd/kernforge/analysis_claim_verifier.go:225-322 | both loops and the missing-anchor case together |
| ClaimVerifier.VerifyClaimSymbolAnchors | cmd/kernforge/analysis_claim_verifier.go:324-367 | one issue per cited symbol that neither a cited packet nor the index in a packet's file knows |
| ClaimVerifier.VerifyClaimGraphEdges | cmd/kernforge/analysis_claim_verifier.go:369-413 | the cleaned list, in order, of the edge ids the packets carry and those of the supporting edges; an issue exactly when one is needed and there is none |
| ClaimVerifier.LeansOnListed | cmd/kernforge/analysis_claim_verifier.go:369-413 | that list holds exactly the non-blank ids the packets carry and the ids of edges that touch a cited path or symbol or name a cited packet |
| ClaimVerifier.SupportingEdges | cmd/kernforge/analysis_claim_verifier.go:384-402 | the appended ids in order: an edge that touches a cited path or symbol once, another as often as it names a cited packet |
| ClaimVerifier.VerifySingleAnalysisClaim | cmd/kernforge/analysis_claim_verifier.go:140-223 | the result is the outcome of the check: ids, packets, graph edges in order, all issues in order, and the status they imply |
| ClaimVerifier.GraphEdgesOfResult | cmd/kernforge/analysis_claim_verifier.go:195-219 | adding the packets' edges a second time and cleaning again leaves the list of graph edges as it was |
| ClaimGrounding.NoIssuesIffGrounded | cmd/kernforge/analysis_claim_verifier.go:140-322 | no check complains exactly when packets, anchors, symbols, edges and facts ground the claim |
| ClaimGrounding.VerifiedIffGrounded | cmd/kernforge/analysis_claim_verifier.go:140-322 | a claim is verified if and only if it is grounded, and then it has no issue |
| ClaimGrounding.SeveritiesFit | cmd/kernforge/analysis_claim_verifier.go:671-676 | every issue is blocking, error or warning, and no high-confidence claim gets an error |
| ClaimGrounding.VerdictMeans | cmd/kernforge/analysis_claim_verifier.go:639-669 | what status and final confidence follow from fitting issues |
| ClaimGrounding.StatusByConfidence | cmd/kernforge/analysis_claim_verifier.go:639-669 | downgraded only from high, inference and unsupported only from below |
| ClaimGrounding.ConfidenceNeverRises | cmd/kernforge/analysis_claim_verifier.go:639-669 | final confidence is one of three words, never above the original, and high only when verified |
| ClaimStatus.IssuesMean | cmd/kernforge/analysis_claim_verifier.go:150-223 | the issues are exactly those that the records of the run raise: code, severity and subject of each, by packets, anchors, line numbers, symbols, edges and facts |
| ClaimStatus.StatusIff | cmd/kernforge/analysis_claim_verifier.go:140-223 | the exact status: blocking if and only if the shard id is duplicated, a cited packet is foreign or out of scope, an anchor is out of scope or its line outside every cited packet of its file, a symbol is unknown, a fact conflicts, or the claim is high and a cited id, every packet or a usable anchor is missing; unsupported, downgraded, inference and verified likewise |
| ClaimStatus.FinalConfidenceIff | cmd/kernforge/analysis_claim_verifier.go:639-669 | final confidence is high exactly for a verified high claim and low exactly for a blocking, unsupported or low one |
| ClaimStatus.FieldsMean | cmd/kernforge/analysis_claim_verifier.go:141-149 | what the result repeats of report and claim: shard id, claim id or the generated one, kind, trimmed text, original confidence, cited ids and anchors |
| ClaimStatus.ListsMean | cmd/kernforge/analysis_claim_verifier.go:192-219 | the supporting packets are the trimmed ids of the packets found, the graph edges those the claim can lean on |
| ClaimRun.IndexByKey | cmd/kernforge/analysis_claim_verifier.go:20-45 | the first item per non-blank key, and the keys that occur again |
| ClaimRun.FirstByKeyMeans | cmd/kernforge/analysis_claim_verifier.go:22-45 | lookup finds the first item with the key, for exactly the keys that occur and are not blank |
| ClaimRun.DuplicatesMean | cmd/kernforge/analysis_claim_verifier.go:22-45 | a key is a duplicate exactly when it is not blank and occurs twice |
| ClaimRun.ReportDuplicates | cmd/kernforge/analysis_claim_verifier.go:46-61 | one blocking run issue per duplicate id, in any order of the map |
| ClaimRun.RepeatedReportShards | cmd/kernforge/analysis_claim_verifier.go:62-80 | exactly the shard ids more than one report names |
| ClaimRun.Record | cmd/kernforge/analysis_claim_verifier.go:89-123 | recording a result keeps every counter equal to the count of its status |
| ClaimRun.VerifyReport | cmd/kernforge/analysis_claim_verifier.go:81-125 | one report contributes the answers to its claims, or nothing when its status excludes them |
| ClaimRun.VerifyAnalysisClaims | cmd/kernforge/analysis_claim_verifier.go:13-138 | the report answers every claim of every usable report in order, with counters, run issues and overall status |
| ClaimRunLaws.Conservation | cmd/kernforge/analysis_claim_verifier.go:87-135 | total claims are the results; with the run issues they are the sum of the five counters; rejected claims are listed one by one |
| ClaimRunLaws.PassedMeans | cmd/kernforge/analysis_claim_verifier.go:126-135 | passed exactly when there is no run issue and every result is verified |
| ClaimRunLaws.BlockedMeans | cmd/kernforge/analysis_claim_verifier.go:126-135 | the run is blocking exactly when it has a run issue or a blocking result |
| ClaimRunLaws.RunIssuesMean | cmd/kernforge/analysis_claim_verifier.go:46-80 | the run issues are exactly: one blocking issue for every packet id, shard id and report shard id that occurs twice |
| ClaimRunLaws.ResultsInOrder | cmd/kernforge/analysis_claim_verifier.go:81-125 | the results follow the reports whose status is none of parse_failed, provider_failed and failed, and within a report its claims; there are no others |
| ClaimRunLaws.HighCountMeans | cmd/kernforge/analysis_claim_verifier.go:105-123 | the unsupported high-confidence count is the number of high-confidence results not verified |
| ClaimRunLaws.VerifiedIsAnchoredInRun | cmd/kernforge/analysis_claim_verifier.go:33-45 | a verified claim's report names exactly one shard, which has files, and each cited id is the first packet with that id, in scope and of that shard or none |
| ClaimRunLaws.NeverVerifiedWithoutShard | cmd/kernforge/analysis_claim_verifier.go:81-88 | claims under blank, unknown or duplicated shard ids are never verified |
| ClaimApply.RemoveExactFact | cmd/kernforge/analysis_claim_verifier.go:805-815 | keeps the facts that differ, trimmed and case-folded, from the text, in order |
| ClaimApply.WriteClaim | cmd/kernforge/analysis_claim_verifier.go:527-553 | the written claim, the facts without a withheld text, and the added note |
| ClaimApply.WriteNext | cmd/kernforge/analysis_claim_verifier.go:527-554 | one round of the loop: the claim is written where it stands, its text swept and its note added, if it is withheld |
| ClaimApply.WriteClaims | cmd/kernforge/analysis_claim_verifier.go:527-554 | the loop writes each claim and sweeps each withheld text once |
| ClaimApply.ApplyToReport | cmd/kernforge/analysis_claim_verifier.go:524-556 | one report after the write-back, its facts and unknowns cleaned |
| ClaimApply.ProjectAnalysisRun.ApplyClaimVerification | cmd/kernforge/analysis_claim_verifier.go:517-559 | every report of the run is rewritten in place, and the verification report is stored |
| ClaimApplyLaws.FactsAfterMeans | cmd/kernforge/analysis_claim_verifier.go:524-556 | a fact survives exactly when it is a trimmed old fact that equals no withheld claim |
| ClaimApplyLaws.LastByKeyMeans | cmd/kernforge/analysis_claim_verifier.go:521-524 | the result a key finds is the last one filed under it, and none when there is none |
| ClaimApplyLaws.KeysMeet | cmd/kernforge/analysis_claim_verifier.go:144-144 | a result is filed under the key the write-back looks up exactly when its claim has an id |
| ClaimApplyLaws.OwnVerdictIff | cmd/kernforge/analysis_claim_verifier.go:517-533 | a claim receives its own result exactly when it has an id and the last result under its key equals it |
| ClaimApplyLaws.RunWriteBackIff | cmd/kernforge/analysis_claim_verifier.go:517-533 | all claims of a run receive their own results exactly when all have an id and results with equal keys are equal |
| ClaimApplyLaws.OwnVerdictSettles | cmd/kernforge/analysis_claim_verifier.go:529-553 | a claim that receives its own result gets its final confidence, is high only if verified, and if rejected its text is no fact any more |
| ClaimApplyLaws.TextGoneIff | cmd/kernforge/analysis_claim_verifier.go:524-556 | a text is gone from the facts exactly when no fact had it or a claim of the report with it is rejected by the last result under its key |
| ClaimApplyLaws.VerifyThenApply | cmd/kernforge/analysis_claim_verifier.go:517-559 | with distinct result keys and a non-blank id, a claim of a usable report receives its own verdict, stays high only if verified, and is no fact if rejected |
| ClaimApplyLaws.HighAfterIff | cmd/kernforge/analysis_claim_verifier.go:529-543 | a claim is high afterwards exactly when the last result under its key hands on high, or there is none and the claim was high before |
| ClaimApplyLaws.WriteBackRule | cmd/kernforge/analysis_claim_verifier.go:529-553 | for any results: the last one under the claim's key gives confidence and packets, its hint names the status exactly for a rejection, nothing else changes; without one nothing changes |
| ClaimApplyLaws.UnknownsMean | cmd/kernforge/analysis_claim_verifier.go:524-556 | the unknowns afterwards are exactly the trimmed non-blank old ones and, for each claim whose last result under its key is a rejection, the note with the id of the claim, or its text, and the word of the status |
| ClaimApplyLaws.HintMeans | cmd/kernforge/analysis_claim_verifier.go:544-550 | the hint of a rejected claim is the old hint, if it shows something, followed by the word of the status |
| ClaimApplyLaws.KeyIsJoined | cmd/kernforge/analysis_claim_verifier.go:801-803 | a key is the shard id, the claim id and the text, trimmed and lower-cased, joined with bars |
| ClaimApplyLaws.SameKeyIff | cmd/kernforge/analysis_claim_verifier.go:801-803 | without bars in them two keys agree exactly when these three parts do |
| ClaimEscapes.BlankIdEscapes | cmd/kernforge/analysis_claim_verifier.go:144-144 | in a run with one claim without id and evidence, whatever the helpers, the claim is rejected, keeps its high confidence and stays a fact |
| ClaimEscapes.RepeatedKeyEscapes | cmd/kernforge/analysis_claim_verifier.go:521-524 | in a run with two claims of one id and text the verifier rejects the first and verifies the second, and the first is written back as high and stays a fact |
| ClaimEscapes.BackedIsGrounded | cmd/kernforge/analysis_claim_verifier.go:140-322 | the second claim of that run is grounded |
| Bytes.MemoryStream.Write | buildtools/VersionResourceWriter.cs:145-163 | writing overwrites from the position on and extends at the end |
| Bytes.MemoryStream.PadToDword | buildtools/VersionResourceWriter.cs:252-258 | zeros are added up to the next multiple of four |
| Bytes.SanitizeWithTail | buildtools/VersionResourceWriter.cs:148-148 | the NUL appended to a key disturbs no surrogate pair |
| VersionBlock.AlignMeans | buildtools/VersionResourceWriter.cs:252-258 | alignment is the least multiple of four at or above, reached by the padding |
| VersionBlock.AlignShift | buildtools/VersionResourceWriter.cs:149-155 | padding counted from an aligned start agrees with padding counted from zero |
| VersionBlock.BuildBlock | buildtools/VersionResourceWriter.cs:140-168 | header, padded key, padded value and children with the patched total length, or an overflow when it does not fit 16 bits |
| VersionReader.LengthsFit | buildtools/VersionResourceWriter.cs:146-163 | the first field is the block's length and the unchecked cast of the value length lost nothing |
| VersionReader.EncodedAligned | buildtools/VersionResourceWriter.cs:149-160 | every encoded block is a multiple of four long |
| VersionReader.ReadsBack | buildtools/VersionResourceWriter.cs:140-168 | at any aligned offset of a longer resource, reading an encoded readable tree returns it |
| VersionReader.RoundTrip | buildtools/VersionResourceWriter.cs:140-168 | keys, types, values and ordered children come back from the whole resource |
| VersionReader.UnpaddedReads | buildtools/VersionResourceWriter.cs:150-156 | the reader does not rely on the trailing padding: a childless block cut off behind its value, with the shorter length, gives the same tree |
| VersionReader.AllWellPlaced | buildtools/VersionResourceWriter.cs:149-160 | every block and every value at any depth starts at a multiple of four of the resource |
| VersionExact.RoundTripIff | buildtools/VersionResourceWriter.cs:140-168 | a tree comes back exactly when its keys are well-formed and NUL-free and its text values whole |
| VersionExact.KeyIsWellFormed | buildtools/VersionResourceWriter.cs:148-148 | a key that reads back has no lone surrogate and no NUL |
| VersionInfo.WriteVersions | buildtools/VersionResourceWriter.cs:122-127 | the first six words: signature, structure version, file and product version |
| VersionInfo.WriteFlags | buildtools/VersionResourceWriter.cs:128-134 | the other seven |
| VersionInfo.BuildFixedFileInfo | buildtools/VersionResourceWriter.cs:117-138 | the thirteen words of VS_FIXEDFILEINFO in order |
| VersionInfo.FixedFileInfoReads | buildtools/VersionResourceWriter.cs:117-138 | its file-version fields give back all four version numbers |
| VersionInfo.BuildString | buildtools/VersionResourceWriter.cs:111-115 | a string is a text block with its NUL counted in units |
| VersionInfo.BuildVersionResource | buildtools/VersionResourceWriter.cs:56-109 | the resource is the encoding of the VS_VERSION_INFO tree |
| VersionInfo.NeverOverflows | buildtools/VersionResourceWriter.cs:56-109 | for all four version numbers the checked length never overflows |
| VersionInfo.TreeReadable | buildtools/VersionResourceWriter.cs:56-109 | the tree is one the reader gets back |
| VersionInfo.VersionRecovered | buildtools/VersionResourceWriter.cs:56-138 | reading the written resource recovers the tree and the version |
| VersionContent.ResourceMeans | buildtools/VersionResourceWriter.cs:56-138 | in the bytes read back, the strings FileVersion and ProductVersion hold four plain decimal numbers with dots between them that read as major, minor, patch and build; the other six strings hold their texts, the fixed information both versions and its flags, Translation 0x0409 and 1200 |
| VersionContent.DottedReads | buildtools/VersionResourceWriter.cs:58-58 | a digit reader gets the four numbers back from the version text |
| GroupIcon.DecodeDirectory | buildtools/VersionResourceWriter.cs:181-204 | succeeds exactly on a good header with all entries present, with the right error otherwise, and decodes each entry |
| GroupIcon.CutImages | buildtools/VersionResourceWriter.cs:206-215 | each image is its stretch of the file, and one that does not lie in the file fails |
| GroupIcon.WriteEntry | buildtools/VersionResourceWriter.cs:235-243 | the eight writes of one group entry |
| GroupIcon.WriteEntries | buildtools/VersionResourceWriter.cs:234-244 | the loop appends the entries with ids counted from one |
| GroupIcon.BuildGroupIcon | buildtools/VersionResourceWriter.cs:225-250 | the header and the entries with ids counted from one |
| GroupIcon.EntryRepeats | buildtools/VersionResourceWriter.cs:192-203 | decoding an entry and encoding it again repeats its first twelve bytes and appends the id |
| GroupIcon.ApplyIconResource | buildtools/VersionResourceWriter.cs:170-223 | accepts exactly the well-formed icon files; the group is 6+14n bytes repeating twelve bytes per entry with id i+1, and image i is the stretch entry i points to |
| GroupIcon.AcceptedMeans | buildtools/VersionResourceWriter.cs:181-215 | an icon file is accepted exactly when its header bytes, its count and the place of every image, read byte by byte, are in order |
| GroupIcon.ErrorMeans | buildtools/VersionResourceWriter.cs:181-204 | a wrong header is invalid data; a file too short for its header or entries ends the stream |
| GroupIcon.ResourcesMean | buildtools/VersionResourceWriter.cs:206-250 | the group repeats the six header bytes and twelve bytes of every entry, each with its number in two bytes, and every image is the stretch its entry points to |
| CommandLine.SplitAnalysisCommandLine | cmd/kernforge/analysis_build_alignment.go:418-445 | the loop computes the tokens of the scanner |
| CommandLine.SplitOfQuoted | cmd/kernforge/analysis_build_alignment.go:418-445 | splitting quoted, space-joined tokens trims them and drops blank ones |
| CommandLine.RoundTrip | cmd/kernforge/analysis_build_alignment.go:418-445 | a list without double quotes comes back exactly when no token is empty or has white space at an end |
| CommandLineExact.ScanKeeps | cmd/kernforge/analysis_build_alignment.go:430-441 | what a scan keeps and drops: characters, finished tokens, double quotes and quote toggles balance |
| CommandLineExact.RoundTripIff | cmd/kernforge/analysis_build_alignment.go:418-445 | on all token lists: a list comes back exactly when every token is free of double quotes, not empty and without white space at an end |
| CommandLine.ScanInside | cmd/kernforge/analysis_build_alignment.go:430-441 | inside quotes everything but the closing quote is taken literally, spaces and the other kind of quote included |
| CommandPieces.EveryCommandHasPieces | cmd/kernforge/analysis_build_alignment.go:430-441 | every command falls into plain characters, breaks and quoted stretches, of which only the last may lack its closing quote |
| CommandPieces.TokensMean | cmd/kernforge/analysis_build_alignment.go:418-445 | the tokens of any command are the stretches between its breaks outside quotes, without the quotes that open or close them, trimmed, the blank ones dropped |
| CommandLine.TokensAreTight | cmd/kernforge/analysis_build_alignment.go:423-429 | no token is ever blank or padded |
| BuildContexts.ContextMerger.Merge | cmd/kernforge/analysis_build_alignment.go:611-652 | one context is dropped, filed, or joined to the one filed under its id |
| BuildContexts.ContextMerger.MergeCommand | cmd/kernforge/analysis_build_alignment.go:709-744 | one compile command is stamped where it stands and its context merged |
| BuildContexts.ContextMerger.MergeCommands | cmd/kernforge/analysis_build_alignment.go:709-744 | every compile command is stamped in place and its context merged |
| BuildContexts.BuildSnapshotBuildContexts | cmd/kernforge/analysis_build_alignment.go:604-754 | the contexts of all five sources, merged, listed once each by strictly ascending id; all commands stamped |
| BuildContexts.ListByID | cmd/kernforge/analysis_build_alignment.go:746-753 | whatever order the map yields, the sorted listing holds each context once |
| BuildContextLaws.MergedMeans | cmd/kernforge/analysis_build_alignment.go:611-652 | an id is present exactly when an accepted contribution carries it, and its record combines those contributions: first filled scalar, first of the highest-ranked confidences, cleaned union of the lists |
| BuildContextLaws.CombinesIsUnique | cmd/kernforge/analysis_build_alignment.go:636-651 | the contributions decide every field |
| BuildContextLaws.StrongestGrows | cmd/kernforge/analysis_build_alignment.go:589-602 | folding with the stronger confidence keeps the earliest one of highest rank |
| Text.UniquesAbsorb | cmd/kernforge/analysis_build_alignment.go:644-647 | cleaning lists before joining and cleaning them changes nothing |
| BuildContextLaws.UnionMeans | cmd/kernforge/analysis_build_alignment.go:644-647 | files, include paths, defines and forced includes are the unions of all contributions, without repeats |
| BuildContextLaws.CommandIsAccepted | cmd/kernforge/analysis_build_alignment.go:709-743 | a compile command's context is never dropped, and its id survives trimming exactly when it does not end in white space |
| BuildContextLaws.StampNamesContext | cmd/kernforge/analysis_build_alignment.go:742-753 | a command's stored id names an output context exactly when it does not end in white space, and that context lists the command's file |
| BuildContextLaws.NameDecidesContext | cmd/kernforge/analysis_build_alignment.go:726-743 | in terms of the module, project or directory name chosen for the id: it names a context exactly when that name does not end in white space |
| BuildContextLaws.PaddedModuleIsLost | cmd/kernforge/analysis_build_alignment.go:727-730 | a command of a module called "Foo " gets an id that names no context |
| BuildContextOutput.IdsMean | cmd/kernforge/analysis_build_alignment.go:611-753 | a context comes out under an id exactly when a project, target, module, MSBuild context or command is filed under it, by the name or id it has |
| BuildContextOutput.OutputMeans | cmd/kernforge/analysis_build_alignment.go:611-744 | every field of a context that comes out: each of the four lists holds exactly the trimmed non-blank entries of the same-named lists of the records filed under its id; directory, project, target, module, plugin, compiler, source and adapter are those of the first record that fills them; name and kind those of the first record; confidence the first of the highest-ranked |
| BuildContextOutput.CommandShows | cmd/kernforge/analysis_build_alignment.go:709-744 | the context that a command names lists its file, each of its include paths, its defines and its forced includes |
| BuildContextOutput.SlashesMean | cmd/kernforge/analysis_build_alignment.go:618-618 | on Windows slashes stand where a directory had backslashes and nothing else changes; elsewhere nothing does |
| BuildContextOutput.StampIs | cmd/kernforge/analysis_build_alignment.go:742-742 | of a command only the stored id changes, to the id its module, project or directory gives |
| AgentsMd.AgentsMDSearchDirs | cmd/kernforge/agents_md.go:145-175 | the upward walk ends and yields the directories from root to cwd, or cwd alone outside a root |
| AgentsMd.ReachesRoot | cmd/kernforge/agents_md.go:159-170 | climbing from a contained directory meets the root, although the two tests compare names differently |
| AgentsMd.SearchDirsDescend | cmd/kernforge/agents_md.go:145-175 | the list starts at the root, ends at cwd, and each directory is the parent of the next |
| AgentsMdLaws.SearchDirsMean | cmd/kernforge/agents_md.go:145-175 | nothing is searched without a working directory, only that directory when no directory from it up is the root, and else every directory from the depth of the root down |
| AgentsMd.Host.FirstRegular | cmd/kernforge/agents_md.go:177-187 | the first candidate name that is a regular file, or none |
| AgentsMd.FirstAgentsMDPath | cmd/kernforge/agents_md.go:177-187 | the loop finds that name |
| AgentsMd.ReadDocument | cmd/kernforge/agents_md.go:117-131 | one directory gives its document cut to the budget, or nothing when there is none, it cannot be read, or the cut shows nothing |
| AgentsMd.LoadProjectAgentsMD | cmd/kernforge/agents_md.go:103-136 | the text joins the documents of the budgeted walk over the search directories |
| AgentsMd.LoadMeans | cmd/kernforge/agents_md.go:111-135 | documents in directory order, each kept exactly when it shows something within what the directories above left, total within the budget, only the last one cut and then to the byte |
| AgentsMd.DirectoryDecided | cmd/kernforge/agents_md.go:113-134 | what becomes of one directory follows from its document and the bytes spent above it |
| AgentsMd.OnlyLastIsCut | cmd/kernforge/agents_md.go:125-134 | a truncated document is the last and spends the budget exactly |
| AgentsMdLaws.DocumentMeans | cmd/kernforge/agents_md.go:113-124 | a directory offers the bytes of the first of its candidate names that is a regular file, if they can be read |
| AgentsMdLaws.LoadedMeans | cmd/kernforge/agents_md.go:103-136 | the text is the kept documents as they decode, one empty line between each two; in terms of the files, a directory keeps the first bytes of its document that the budget leaves, unless they show nothing |
| AgentsMdLaws.JoinIsLaidOut | cmd/kernforge/agents_md.go:136-136 | in the joined text every part stands at its place, with one empty line between each two and nothing else |
| MarkdownSections.SplitAnalysisMarkdownSections | cmd/kernforge/analysis_docs_vector.go:145-175 | the loop and its closure render the groups of lines |
| MarkdownSections.Flush | cmd/kernforge/analysis_docs_vector.go:150-160 | flushing renders the open group and nothing before the first heading |
| MarkdownSections.TitleIsFilled | cmd/kernforge/analysis_docs_vector.go:163-165 | a heading never has a blank title |
| MarkdownSections.JoinOfLines | cmd/kernforge/analysis_docs_vector.go:146-146 | splitting into lines loses nothing |
| MarkdownText.HeadingMeans | cmd/kernforge/analysis_docs_vector.go:162-165 | a line is a heading exactly when it reads as white space, two hashes and a space, white space, a tight title and white space; the title is the only such reading |
| MarkdownText.SectionReads | cmd/kernforge/analysis_docs_vector.go:150-173 | a section has the title of its heading line, and its text is the respaced heading and the lines below it, less the white space at the end |
| Grouping.GroupsCover | cmd/kernforge/analysis_docs_vector.go:161-173 | every line from the first heading on is in exactly one group, in order |
| Grouping.GroupsOfFlatten | cmd/kernforge/analysis_docs_vector.go:161-173 | a sequence of groups laid end to end comes apart the same way |
| MarkdownLaws.SectionsPartition | cmd/kernforge/analysis_docs_vector.go:145-175 | one section per heading, covering the lines from the first heading on, in the only possible way |
| MarkdownLaws.RenderedReads | cmd/kernforge/analysis_docs_vector.go:154-157 | a section's text splits into its heading and lines and renders to itself |
| MarkdownLaws.CrLfSurvives | cmd/kernforge/analysis_docs_vector.go:146-146 | a carriage return and line feed remain after normalizing exactly when the text has two carriage returns before a line feed |
| MarkdownLaws.ResplitIffNoCrLf | cmd/kernforge/analysis_docs_vector.go:145-175 | splitting the joined section texts gives the same sections exactly when they hold no carriage return and line feed |
| MarkdownLaws.Resplit | cmd/kernforge/analysis_docs_vector.go:145-175 | for texts without two carriage returns before a line feed, in particular without carriage returns, resplitting gives the same sections |
| MarkdownLaws.ResplitCanFail | cmd/kernforge/analysis_docs_vector.go:145-175 | a family of texts with two carriage returns before a line feed for which it does not |
| MarkdownExact.ResplitIff | cmd/kernforge/analysis_docs_vector.go:145-175 | in terms of the document: resplitting gives the same sections exactly when no section has a line ending in a carriage return before a line that shows something |
| MarkdownExact.RenderedHasCrLfIff | cmd/kernforge/analysis_docs_vector.go:154-157 | trimming a section's text leaves a carriage return and line feed exactly in that case |
| MarkdownExact.NormalizedLines | cmd/kernforge/analysis_docs_vector.go:146-146 | normalizing takes one carriage return from the end of every line but the last |
| MarkdownAnchors.AnalysisDashboardMarkdownAnchor | cmd/kernforge/analysis_dashboard.go:1903-1923 | the builder loop computes what replacing runs by a dash and stripping dashes computes |
| AnchorAgreement.AnchorIsDashed | cmd/kernforge/analysis_dashboard.go:1903-1923 | an anchor is the maximal runs of letters and digits joined by dashes |
| AnchorAgreement.WordsSplit | cmd/kernforge/analysis_dashboard.go:1903-1923 | every text falls into gaps without a letter a to z or digit and words of nothing else, in turn, with no empty gap between two words, and these are the words of its anchor |
| AnchorAgreement.WordsOfDashed | cmd/kernforge/analysis_dashboard.go:672-674 | the runs can be read off the anchor again |
| AnchorAgreement.AnchorsAgreeIff | cmd/kernforge/analysis_dashboard.go:672-674 | for any two lower-casings the anchors agree exactly when the lower-cased titles have the same runs of letters and digits, however the two sides trim |
| AnchorAgreement.TitleAgreesIff | cmd/kernforge/analysis_dashboard.go:672-674 | under the Unicode case rules the anchors agree exactly when no capital I with a dot stands directly before a character that becomes a letter or digit |
| MarkdownAnchors.AnchorsCanDiffer | cmd/kernforge/analysis_dashboard.go:672-674 | a letter the browser lower-cases to a letter and a combining mark gives two different anchors |
| MarkdownAnchors.AnchorIsAnchor | cmd/kernforge/analysis_dashboard.go:1903-1923 | an anchor has letters, digits and single dashes, none at an end |
| MarkdownAnchors.AnchorIsIdempotent | cmd/kernforge/analysis_dashboard.go:1903-1923 | making an anchor of an anchor changes nothing |
| Text.UniqueStrings | cmd/kernforge/analysis_project.go:18376-18391 | the cleaning loop equals its recursive definition |
| Text.UniquesHolds | cmd/kernforge/analysis_project.go:18376-18391 | it holds exactly the trimmed non-blank entries, each once |
| Text.UniquesInOrder | cmd/kernforge/analysis_project.go:18376-18391 | and keeps them in the order of their first occurrences |

## Left out

- Win32 resource calls, file reads and directory walks: foreign calls. `GroupIcon.ApplyIconResource` returns the
  resources it would install, and the AGENTS.md loader reads from a map of files.
- Collecting the seeds from the initial hits (`analysis_context_v2_graph.go:9-47`), scoring and top-k selection: the
  expansion is proved for all seed sets and all hits.
- ClaimVerifier.VerifySingleAnalysisClaim: does not model the text of issue messages and all but the first entry of
  their evidence, because no decision reads them.
- BuildContexts.ContextMerger.Merge: does not model the diagnostics a context carries, because nothing but their own
  cleaning reads them.
- BuildContexts.BuildSnapshotBuildContexts: does not model how a file is looked up in the modules and projects, nor
  `sanitizeFileName`; it is proved for every such lookup.
- ClaimRun.VerifyAnalysisClaims: does not model the follow-through list, nor the projections of results to
  `VerifiedClaim` and `UnsupportedClaim` records, which the model keeps as results.
- Parsing of anchor strings, extraction of cited symbols, keyword tests, fact-pack and security conflicts: arbitrary
  functions of the claim that decide whether an issue of the given severity arises.
- Candidate names for AGENTS.md beyond their order, and the discovery of the project root: inputs. Paths are lists of
  components already made absolute and free of symbolic links.
- Invalid UTF-8: texts are sequences of characters, and `strings.ToValidUTF8` is an arbitrary decoding of bytes.
- Unicode case tables beyond ASCII: arbitrary character maps; the anchor theorems assume that no white
  space lower-cases to a letter or digit, and `AnchorAgreement.TitleAgreesIff` that only the dotted I lower-cases to
  more than one character.
- HTML, CSS, document builders and localized labels: rendering without an invariant.
