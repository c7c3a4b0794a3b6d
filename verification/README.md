# Verified model of the gateway's algorithmic cores

A Dafny model of the parts of the LLM gateway whose correctness rests on arithmetic, ordering or
interleaving rather than on I/O. `dafny verify dfyconfig.toml` checks all of it.

| files | subject |
|---|---|
| `Register.dfy`, `Advisory.dfy`, `AdvisoryRuns.dfy` | agent-aware routing: the pin register, the bounded background calls, every interleaving of both |
| `AdvisoryPins.dfy` | from the advisor's answer to the request that sees it |
| `AdvisoryStray.dfy` | exactly when a verdict or a failure reaches another entry than the one whose call it answers |
| `AdvisoryTtl.dfy`, `AdvisoryEviction.dfy` | when a conversation is classified twice within one time to live, and the runs that show it |
| `Spans.dfy`, `MergeSpans.dfy`, `CoalesceSpans.dfy`, `Windows.dfy`, `Utf8.dfy` | the detectors' span algebra, window planning and offset conversion |
| `JsonTree.dfy`, `RewriteTarget.dfy`, `Template.dfy`, `BodyPatch.dfy` | the body-patch engine, its path grammar and its templates |
| `DynamicModel.dfy`, `Conditions.dfy`, `ConditionForms.dfy`, `Unmapped.dfy` | the lossless codec: typed fields plus unknown ones, recursive condition trees, the report of unmapped fields |
| `LabelKeys.dfy`, `Sums.dfy`, `Counters.dfy`, `Histograms.dfy`, `MergedHistograms.dfy` | windowed dashboard metrics and the text form of their label sets |
| `Decimal.dfy`, `TargetNames.dfy`, `Sinks.dfy` | breaker identities, and the reconciler that keeps record sinks in step with the configuration |
| `CannedResponses.dfy`, `CannedRuns.dfy` | the mock server's response pools |
| `Wrappers.dfy`, `Order.dfy` | optional and fallible values; string order and stable sorting |

Code that updates state is modelled by methods with loops and by classes; each is proved against a
function on values, and the theorems are lemmas about those functions. Where the language leaves
an order open (ranging over a map), the methods choose an arbitrary element, so what is proved
holds for every order.

## Modelling decisions

- **Agent routing.** One step per critical section: the observation of a request, taking or
  missing the semaphore, the landing of an error or a verdict, a panic, the release. The state
  carries a record of every entry that ever existed; no step reads it to decide anything. The clock
  only moves forward, but a request reads it before it gets hold of the register, so it may act on
  an older reading than a request that went ahead of it. A panicking call is a step that lands
  nothing and frees its slot later.
- **JSON** values are trees and objects are finite maps. The path reads and writes of the JSON
  library are modelled on identifier-only paths, the only ones `ParseTarget` lets through to a write.
  Reading a template's reference, whose path may be anything, is an arbitrary pair of functions that
  agree on which references exist.
- **Floats are reals**; counts in a histogram are 64-bit and wrap explicitly. Sums of counters are
  unbounded integers.
- **Field codecs.** The types that occur in the condition structs are modelled, null included;
  decoding null leaves a plain field as it was.
- **Response pools** are slices, a piece of storage with a length, as in Go; no two pools share storage,
  which every operation keeps.
- **Sinks** carry a serial number, so that keeping a sink can be told from building an equal one.
  Which builds succeed is an arbitrary set for each snapshot.

## Where the code and its documentation part

The model follows the code in each case.

- `register.go:110-111` says that a sweep drops live entries only if none had expired; it goes on
  down to 99% of the capacity either way. `AdvisoryEviction.SweepDropsLive` gives a full register
  with 500 expired entries, from which every sweep drops live ones.
- `register.go:58-61` promises one advisory call per conversation and time to live. Exactly when a
  request within the time to live fires a second one is `AdvisoryTtl.FiresWithinTtl`: when the latest
  entry is over, that is evicted, abandoned by a failed call, or dropped as expired by a request that
  read a later clock. Each of the three has a run: `AdvisoryEviction.EvictedCallIsRepeated`,
  `AdvisoryTtl.FailedCallIsRepeated`, `AdvisoryEviction.OvertakenCallIsRepeated`. With clock readings in
  order only eviction and abandonment are left (`AdvisoryTtl.FiresOnTheClock`). On any clock, a
  conversation classified twice within a time to live had its entry abandoned by a failed call, or
  swept from the full register by another conversation's request (`AdvisoryTtl.SecondCallWithinTtl`).
- `register.go:80-84` and `register.go:99-100` speak of the conversation's entry, as if a call could only
  meet its own. A call's verdict lands on another entry exactly when the call's own entry is over and its
  key is in the register again (`AdvisoryStray.VerdictStraysExactly`; whose entry is under the key tells
  `AdvisoryStray.OwnEntry`), and its failure then abandons that other entry exactly when no verdict has
  reached it (`AdvisoryStray.FailureStraysExactly`). Each happens in a run:
  `AdvisoryRuns.StaleVerdictReachesSuccessor`, `AdvisoryStray.StaleFailureReachesSuccessor`. Entries get
  no verdicts but their own call's exactly as long as none has strayed (`AdvisoryStray.OneVerdictExactly`).
- `bodypatch.go:126` says that `Applied` means that the body changed. Removing a missing path is reported
  as applied too (`BodyPatch.RemoveReportsApplied`).
- An append has no guard against scalars on its path and overwrites them
  (`BodyPatch.AppendOverwritesScalar`); a set has (`BodyPatch.ScalarsOnTheWay`).
- `polymorphic.go:17-19` says a discriminator that is no string is an error; null passes as the
  empty string (`Conditions.DiscriminatorErrors`).
- A group with a nil slice of children is encoded with null and decodes to an empty slice, so it is
  one of the values `Conditions.RoundTripIffCanonical` rules out.
- `model.go:216` requires target names to be distinct within a group. They are not when an alias
  spells a later target's position (`TargetNames.AliasCanSpellPosition`);
  `TargetNames.DistinctIffFallbackFree` is the exact condition.
- `snapshot.go:54-56` says that the scan for a label confirms that a match starts at a key. It also takes
  for a key what directly follows a match it has skipped (`LabelKeys.SkippedNameMisleads`) and what
  follows a comma inside a value (`LabelKeys.CommaMisleads`); `LabelKeys.GetReadsBack` is the exact
  condition.
- `timeseries.go:410-412` says that a provider's histograms are summed. When two of its series differ in
  their number of buckets, the loop can run past the end of the shorter counts;
  `MergedHistograms.SucceedsInEveryOrder` is the exact condition.
- `detect_core.py:326-333` converts any text. One with a surrogate before the end of a span makes the encoder
  raise (`Utf8.ConvertsUpToSurrogate`).
- With a negative cap `_classify_chunks` reports an empty input as truncated
  (`Windows.TruncatedMeansUncovered`).

## Model

| member | source | states |
|---|---|---|
| AgentRegister.Register.Observe | internal/agentroute/register.go:62-78 | exactly one of: an unexpired entry is counted and its pin returned, or a fresh unpinned entry with count 1 replaces whatever was there and the caller is told to fire; a sweep happens only for a new key at capacity; the cap and the absence of shared entries are kept |
| AgentRegister.Register.Complete | internal/agentroute/register.go:85-97 | whatever entry is under the key becomes decided, and takes the pin only inside the apply window; nothing else changes |
| AgentRegister.Register.Fail | internal/agentroute/register.go:101-108 | an undecided entry is dropped, a decided one stays |
| AgentRegister.Register.SweepLocked | internal/agentroute/register.go:112-126 | only unexpired entries survive, unchanged; all of them if they fit in 99% of the capacity, otherwise exactly that many of them |
| AgentRegister.SweepMakesRoom | internal/agentroute/register.go:110-126 | after any sweep, in any map order, no expired entry is left and at least 1% of the capacity is free |
| AgentRegister.CapacityKept | internal/agentroute/register.go:62-78 | no observation takes the register past its capacity |
| AdvisoryProtocol.NextKeepsInv | internal/agentroute/service.go:100-174 | every step of the protocol keeps the inductive invariant tying register, calls, semaphore and history together |
| AdvisoryRuns.EveryStateBounded | internal/agentroute/service.go:130-145 | in every reachable state the register is within its cap, and the semaphore counts exactly the calls that hold a slot, never more than eight |
| AdvisoryRuns.PinVisibility | internal/agentroute/register.go:62-97 | over every interleaving, within one lifetime: the first request is unpinned; once pinned, always pinned; if request w+1 is unpinned, w bounding the windows in play, no later one is pinned; every pin shown was on the allow-list captured when its call was dispatched and landed inside its window |
| AdvisoryPins.VerdictLeaves | internal/agentroute/service.go:149-167 | a landing verdict decides the entry under the call's key and pins it to the very model and reason the advisor gave if the advisor asked for a switch, the model is on the list captured at dispatch and the entry has seen at most the captured window; otherwise the pin stays; no other entry changes |
| AdvisoryPins.LandedPinIsShown | internal/agentroute/register.go:62-97 | in any run, the next request that finds that entry with no further verdict on it, however much later, is given exactly that pin |
| AdvisoryPins.ShownPinsAnswered | internal/agentroute/service.go:149-167 | in any run, every pin ever shown is the model and reason with which a call for that conversation answered earlier, a model on that call's list |
| AdvisoryRuns.RefireMeansEnded | internal/agentroute/register.go:62-108 | a second call for a conversation means its earlier entry is over: dropped on a clock reading past its expiry, evicted, or abandoned by a failed call before any verdict |
| AdvisoryTtl.FiresWithinTtl | internal/agentroute/register.go:58-78 | in any run, a request on a clock reading within the time to live of its conversation's latest entry fires if and only if that entry is over; and it then was evicted, abandoned before any verdict, or dropped on a later clock reading |
| AdvisoryTtl.SecondCallWithinTtl | internal/agentroute/register.go:58-126 | in any run, on any clock: if two consecutive entries of a conversation were opened within the first one's time to live, then a failed call abandoned the first one before any verdict, or the request of another conversation swept it from the full register |
| AdvisoryTtl.FiresOnTheClock | internal/agentroute/register.go:58-78 | when every request reads the present clock, a request within the time to live of its conversation's latest entry fires if and only if that entry was evicted or abandoned |
| AdvisoryTtl.BackOnTheClock | internal/agentroute/register.go:58-61 | on such a clock a conversation is classified again within a time to live only after an eviction or a failure |
| AdvisoryTtl.FailedCallIsRepeated | internal/agentroute/register.go:99-108 | a run, every call in time and nothing evicted, with two calls for one conversation within one time to live |
| AdvisoryEviction.EvictedCallIsRepeated | internal/agentroute/register.go:68-73 | a run that fills the register, sweeps it, and classifies an evicted conversation again within its time to live |
| AdvisoryEviction.OvertakenCallIsRepeated | internal/agentroute/register.go:63-73 | a run in which a request that read the clock before a sweep fires within the time to live of the entry that the sweep found expired |
| AdvisoryEviction.SweepDropsLive | internal/agentroute/register.go:110-126 | a register at capacity with 500 expired entries, from which every sweep drops live entries |
| AdvisoryRuns.OneCallPerConversation | internal/agentroute/service.go:100-174 | if every call lands before its entry expires and no live entry is evicted, two pending calls for one conversation are the same call, and it belongs to the current entry |
| AdvisoryRuns.OneVerdictPerEntry | internal/agentroute/register.go:85-97 | under the same hypotheses every entry gets at most one verdict, its own call's, and all requests that see a pin see the same one |
| AdvisoryRuns.RefireMeansLapseOrFailure | internal/agentroute/register.go:99-108 | under the same hypotheses a second call means expiry, or the failure of that entry's own call with no verdict landed |
| AdvisoryRuns.WaitingMeansPending | internal/agentroute/service.go:130-173 | with no hypotheses at all: an undecided entry's own call is pending, unless that very call panicked |
| AdvisoryRuns.StaleVerdictReachesSuccessor | internal/agentroute/register.go:85-97 | a concrete run in which two calls are pending for one conversation and the first one's verdict lands on the second one's entry |
| AdvisoryStray.OwnEntry | internal/agentroute/register.go:62-78 | in any run, if there is an entry under the key of a call, it is the one that the call was fired for if and only if that entry's lifetime is not over |
| AdvisoryStray.VerdictStraysExactly | internal/agentroute/register.go:85-97 | a landing verdict is added to another entry than its call's own if and only if that entry is over and its key is in the register |
| AdvisoryStray.FailureStraysExactly | internal/agentroute/register.go:101-108 | a failure, of a call or for want of a slot, ends another entry if and only if the same holds and no verdict has reached that entry; whose own call is then still out, or panicked |
| AdvisoryStray.OneVerdictExactly | internal/agentroute/service.go:130-173 | in any run every verdict so far is on the entry whose call it answers if and only if none has strayed; every entry then has at most one, and all requests that see its pin see the same |
| AdvisoryStray.StaleFailureReachesSuccessor | internal/agentroute/register.go:101-108 | a run in which a call that outlasts its entry fails, and abandons the next entry while that one's own call is pending |
| Spans.GroupsAreComponents | deploy/detectors/detect_core.py:301-319 | separated hulls of linked findings are exactly the connected components of nearness, by induction over chains |
| MergeSpans.MergeSpans | deploy/detectors/detect_core.py:280-323 | the nested loops with their first-overlap search compute the specified merge |
| MergeSpans.MergeSpansCorrect | deploy/detectors/detect_core.py:280-323 | for any findings: separated hulls without gaps, each with the maximum score and the label of the first to reach it, one whole-unit finding per category with the first best score, in order; and one hull per connected component of same-category overlap above the threshold if and only if every empty or inverted span whose cuts are all covered by spans of its category is overlapped by one of them |
| MergeSpans.MergedPositions | deploy/detectors/detect_core.py:301-319 | for any findings, per category the output covers exactly the positions that the inputs above the threshold cover, and no position twice |
| MergeSpans.SelectsLoud | deploy/detectors/detect_core.py:291-292 | the two lists are exactly the findings at or above the threshold with and without both offsets, in their order |
| MergeSpans.MergedInOrder | deploy/detectors/detect_core.py:321-323 | the result stands by start, a missing one counting as -1, then category, and of two spans that tie in both the wider is first |
| MergeSpans.MergeIdempotent | deploy/detectors/detect_core.py:280-323 | for any findings, merging again is the identity, order included |
| MergeSpans.InvertedJoinsNobody | deploy/detectors/detect_core.py:305-317 | a span that ends before it starts is merged into a hull none of whose members it overlaps, so the component property fails there |
| Order.SortTwice | deploy/detectors/detect_core.py:301-323 | two stable sorts, by sweep order and then by output order, give back what was already sorted by the second and, in ties, by the first: why a second merge keeps the order |
| Order.StrLtMeans | models/unmapped.go:42-46 | strictly before: a shorter beginning, or smaller at the first difference |
| Order.StrLeMeans | deploy/detectors/detect_core.py:301-323 | one string comes before another if and only if it is its beginning or smaller at the first difference |
| MergeSpans.BestWholesCorrect | deploy/detectors/detect_core.py:294-299 | of the whole-unit findings, the first with the best score in each category, and nothing else |
| CoalesceSpans.CoalesceAdjacent | deploy/detectors/detect_core.py:346-378 | the loop that looks only at the last output computes the specified coalescing |
| CoalesceSpans.CoalesceCorrect | deploy/detectors/detect_core.py:346-378 | for any findings and gap: hulls that cover every input position and add only positions in gaps of at most the limit, of one category further apart than that, each with the maximum score and the label of the first to reach it by category, start and end; and one hull per chain of close spans if and only if every span that ends more than the gap before it starts, and is reached by an earlier one, has a neighbour |
| CoalesceSpans.CoalesceAccounts | deploy/detectors/detect_core.py:346-378 | for any findings and gap: every finding with offsets is contained, with its score at most, in an output of its category; each such output has its start, its end, and its score with its label from findings with offsets; and after them come all whole-unit findings, in their order and nothing else |
| CoalesceSpans.CoalesceIdempotent | deploy/detectors/detect_core.py:346-378 | for any findings and gap, coalescing again is the identity |
| CoalesceSpans.InvertedIsAbsorbed | deploy/detectors/detect_core.py:362-377 | a span that ends long before it starts is absorbed although it is near nothing, so the chain property fails there |
| Windows.ChunkWindows | deploy/detectors/detect_core.py:58-83 | the loop terminates for every overlap and returns the closed-form plan: ceil((total-overlap)/stride) windows, or the error for a window that is not positive |
| Windows.PlanShape | deploy/detectors/detect_core.py:58-83 | windows are non-empty, in range and no longer than asked; neighbours share exactly the clamped overlap; the first starts at 0 and the last ends with the input |
| Windows.PlanCovers | deploy/detectors/detect_core.py:61-64 | every position lies in some window |
| Windows.ShortIntervalsWhole | deploy/detectors/detect_core.py:61-62 | any interval of at most overlap+1 tokens lies whole in some window |
| Windows.WholeExactlyUpToOverlapPlusOne | deploy/detectors/detect_core.py:61-62 | that bound is exact: intervals of a given length all lie whole in a window if and only if the length is at most overlap+1 or there is one window |
| Windows.ClassifyChunks | deploy/detectors/app.py:61-77 | the kept windows are the first of the plan, as many as the cap allows or, under a negative cap, all but so many; none is longer than the window asked for or than what the model takes; and the flag compares the plan with the cap |
| Windows.WindowsReachTheLimit | deploy/detectors/app.py:61-67 | no window of the plan is shorter than both limits call for, unless the input ends there |
| Windows.TruncatedMeansUncovered | deploy/detectors/app.py:68-71 | the flag is true exactly when the kept windows miss part of the input, if and only if the cap is not negative or the input is not empty |
| Utf8.DecodeEncode | deploy/detectors/detect_core.py:340-341 | decoding the UTF-8 encoding of any text gives the text back |
| Utf8.EncodeDecode | deploy/detectors/detect_core.py:340-341 | the decoder accepts nothing but encodings: what it decodes re-encodes to the same bytes |
| Utf8.ToByteSpans | deploy/detectors/detect_core.py:326-343 | the conversion succeeds if and only if both ends of every span can be converted, and then each end becomes the encoded length of the text before it and everything else stays |
| Utf8.ConvertedSelects | deploy/detectors/detect_core.py:326-343 | a converted span selects in the encoded text exactly the encoding of what it selected in the text |
| Utf8.SliceLaws | deploy/detectors/detect_core.py:340-341 | Python's slices: negative offsets count from the end, and offsets beyond an end stand for it |
| Utf8.ConvertsUpToSurrogate | deploy/detectors/detect_core.py:340-341 | an offset can be converted if and only if it does not lie past the text's first surrogate, and it then counts the bytes before it in the part without surrogates |
| Utf8.ByteSpanSelectsSubstring | deploy/detectors/detect_core.py:326-343 | for any offsets, slicing the encoding at the byte offsets gives exactly the encoding of the original slice |
| Utf8.OffsetsMonotone | deploy/detectors/detect_core.py:340-341 | order and equality of offsets carry over in both directions, so disjointness and distinctness of spans do |
| JsonTree.PutGet | internal/bodypatch/bodypatch.go:174-181 | a successful write is read back |
| JsonTree.PutFrame | internal/bodypatch/bodypatch.go:174-181 | a successful write leaves every diverging path alone |
| JsonTree.PutFails | internal/bodypatch/bodypatch.go:174-179 | a write fails exactly when an array lies strictly before the end of its path |
| JsonTree.DeleteFacts | internal/bodypatch/bodypatch.go:152-160 | a delete leaves nothing at its path and everything else alone, and is the identity exactly when there was nothing |
| RewriteTarget.ParseRender | contracts/rules/rewrite.go:55-69 | every well-formed target parses back to itself, surrounded by white space or not |
| RewriteTarget.RenderParse | contracts/rules/rewrite.go:55-95 | whatever parses is the rendering of an identifier-only path with its scope: nothing else gets through |
| RewriteTarget.TargetErrors | contracts/rules/rewrite.go:55-95 | exactly when a target is rejected for its scope or for being empty after it; otherwise the error names the first segment that is no identifier |
| RewriteTarget.ScopeNames | contracts/rules/rewrite.go:55-69 | the two prefixes and the scopes they stand for |
| RewriteTarget.OneChar | contracts/rules/rewrite.go:47-69 | of all one-character segments exactly ASCII letters and the underscore parse |
| RewriteTarget.NextChar | contracts/rules/rewrite.go:47-69 | exactly those and digits may follow, and white space is cut off |
| RewriteTarget.LeadingChar | contracts/rules/rewrite.go:86-95 | exactly Unicode's white space may precede a target |
| Template.Tokenize | internal/bodypatch/bodypatch.go:290-313 | the index loop terminates and computes the specified tokens |
| Template.RenderTokens | internal/bodypatch/bodypatch.go:287-313 | putting the braces back around references gives the template back, unbalanced braces included |
| Template.SingleRef | internal/bodypatch/bodypatch.go:254-261 | the tokens are one reference exactly when braces enclose the template and none closes earlier |
| Template.TokenShapes | internal/bodypatch/bodypatch.go:287-313 | no reference contains a closing brace and no literal is empty |
| Template.ResolversAgree | internal/bodypatch/bodypatch.go:349-409 | the two case chains, written out separately, answer the same references in each phase, outside bodies with the same text, and neither knows the response while the request is being patched |
| Template.BodyReferences | internal/bodypatch/bodypatch.go:324-347 | in each phase, which document a request or response reference reads, for every path |
| Template.OtherReferences | internal/bodypatch/bodypatch.go:352-385 | what path parameters, the provider, the protocol and the external address stand for, and that each misses when empty |
| Template.NoOtherReferences | internal/bodypatch/bodypatch.go:352-385 | every other name misses |
| Template.ResolveTemplate | internal/bodypatch/bodypatch.go:254-279 | the loop computes the specified value: a lone reference keeps its type, anything else becomes a string in which missing references are empty |
| Template.TemplateStandsFor | internal/bodypatch/bodypatch.go:254-279 | a lone reference resolves to the value itself, of whatever type, and any other template to its text |
| Template.SubstitutesInPlace | internal/bodypatch/bodypatch.go:262-273 | in a mixed template, literal text stands for itself and each reference for what it resolves to, or for nothing, in place and in order |
| Template.SubstitutesNothing | internal/bodypatch/bodypatch.go:287-308 | text that opens no reference, or opens one and never closes it, stands for itself |
| Template.DroppedMeansLoneMiss | internal/bodypatch/bodypatch.go:254-279 | a template is dropped if and only if it is one reference and that reference misses |
| BodyPatch.TraversesPrimitive | internal/bodypatch/bodypatch.go:214-232 | the prefix loop finds a scalar on a strict prefix exactly when there is one |
| BodyPatch.Apply | internal/bodypatch/bodypatch.go:142-208 | the loop over the batch computes the specified document and one result per op |
| BodyPatch.DroppedChangesNothing | internal/bodypatch/bodypatch.go:137-141 | a dropped op leaves the document identical and has a reason; an applied one has none |
| BodyPatch.SetOutcome | internal/bodypatch/bodypatch.go:162-181 | exactly when a set is dropped for each reason, a value of unknown kind included; when applied, its path holds the literal or structured value as given, null if there is none, or what the template resolves to |
| BodyPatch.AppendOutcome | internal/bodypatch/bodypatch.go:183-202 | exactly when an append is dropped for each reason; when applied, the array grew by exactly that value as its last element, an absent array counting as empty |
| BodyPatch.LiteralArrives | internal/bodypatch/bodypatch.go:240-246 | in any batch that ends in a literal set or append, if that is reported as applied, the final document holds the literal as it was given |
| BodyPatch.LastOp | internal/bodypatch/bodypatch.go:142-208 | the last op of a batch acts on what the others leave, and its outcome is reported last |
| BodyPatch.UnknownOp | internal/bodypatch/bodypatch.go:142-208 | an op of unknown kind changes nothing and is reported as not applied, without a reason |
| BodyPatch.RemoveReportsApplied | internal/bodypatch/bodypatch.go:152-160 | a remove is always reported as applied, and that means a change exactly when the path was there |
| BodyPatch.ScalarsOnTheWay | internal/bodypatch/bodypatch.go:210-232 | after an applied write every strict prefix is an object and no longer a scalar, and for a set none of them was one before |
| BodyPatch.AppendOverwritesScalar | internal/bodypatch/bodypatch.go:183-202 | an append that replaces a scalar on the way to its path |
| BodyPatch.BatchFrame | internal/bodypatch/bodypatch.go:133-141 | a path that lies neither above nor below the path of any op in a batch keeps its value |
| BodyPatch.BatchKeepsObject | internal/bodypatch/bodypatch.go:133-141 | an object document stays an object, and each op is reported in order |
| BodyPatch.BatchConcat | internal/bodypatch/bodypatch.go:133-141 | applying a concatenated batch is applying its halves in turn, results included |
| DynamicModel.DynamicStruct.Marshal | models/dynamic.go:49-101 | strictly sorted members that spell out exactly the merge of extra and typed fields |
| DynamicModel.DynamicStruct.Unmarshal | models/dynamic.go:106-147 | of an object, or null as an empty one, and of nothing else: whatever the order the keys are visited in, succeeds exactly when every typed key decodes, and then typed and unknown keys are split exactly |
| DynamicModel.EncodedAt | models/dynamic.go:46-81 | key by key: typed fields win over extra ones, an empty omitted field suppresses even an extra key of its name, other extra keys pass through |
| DynamicModel.EncodeDecode | models/dynamic.go:46-147 | encoding then decoding restores the typed fields always, and the extra map exactly when it shadows no typed field |
| DynamicModel.DecodeEncodeStable | models/dynamic.go:46-147 | decoding then encoding keeps every unknown key's value, and decoding that again gives the same struct |
| Conditions.UnmarshalCondition | contracts/rules/condition.go:359-378 | the registry's dispatch, with its fallback and every error, computes the specified decoding |
| Conditions.UnmarshalGroup | contracts/rules/condition.go:242-277 | the loop over the children fills every place or stops at the first error, and exactly the four typed keys are left out of the extra ones |
| Conditions.MarshalCondition | contracts/rules/condition.go:279-293 | every value is encoded by its own type's encoder, fields and extra keys merged, as the specified encoding says |
| Conditions.MarshalGroup | contracts/rules/condition.go:281-293 | extra keys in any order, then the typed members over them, `not` only when set, children encoded one by one and a nil slice as null |
| Conditions.DiscriminatorErrors | models/polymorphic.go:96-113 | with a discriminator present, decoding fails for its type if and only if it is neither a string nor null, and null decodes as an unknown condition of type "" |
| ConditionForms.GroupAccepted | contracts/rules/condition.go:242-263 | a group is accepted if and only if `logical_operator` is missing, null or a string, `not` is missing, null or a boolean, `children` is missing, null or an array, and every child is accepted |
| ConditionForms.GroupRead | contracts/rules/condition.go:254-276 | what its members then become, missing and null ones included, child by child and extra key by extra key |
| ConditionForms.LeafAccepted | models/dynamic.go:106-147 | a leaf is accepted if and only if each declared member is missing, null or of its JSON type |
| ConditionForms.LeafRead | models/dynamic.go:106-147 | what each declared member then becomes, and that exactly the others are kept as extra ones |
| ConditionForms.UnknownRead | contracts/rules/condition.go:359-378 | whatever type is neither a leaf's nor the group's is accepted with all its other members |
| ConditionForms.NoTypeNoCondition | models/polymorphic.go:96-113 | what is no object, or has no discriminator, is rejected as such |
| ConditionForms.LeafWritten | models/dynamic.go:49-101 | each declared field is written as its value, or left out exactly if it is marked so and empty; the rest is the extra members |
| ConditionForms.GroupWritten | contracts/rules/condition.go:279-293 | the four members as written, `not` only when set, a nil slice as null, over the extra members |
| ConditionForms.DeclaredNames | contracts/rules/condition.go:22-186 | the members each leaf type declares |
| ConditionForms.DeclaredKinds | contracts/rules/condition.go:22-186 | which of them are booleans, which is optional, and which are left out when empty |
| Conditions.FirstErrorWins | contracts/rules/condition.go:257-263 | the error reported is the first failing child's, with its index |
| Conditions.DecodeCanonical | contracts/rules/condition.go:242-293 | decoding yields only canonical values: discriminator and type agree, nothing shadowed, no nil children |
| Conditions.CanonicalRoundTrip | contracts/rules/condition.go:242-293 | a canonical tree of any depth and branching, unknown types and unknown fields included, decodes from its encoding to itself |
| Conditions.RoundTripIffCanonical | contracts/rules/condition.go:242-293 | for any well-typed tree, the round trip holds if and only if the tree is canonical |
| Conditions.SecondPassStable | contracts/rules/condition.go:242-293 | decoding what was encoded from a decoded tree gives that tree again |
| Conditions.UnknownFieldsSurvive | models/dynamic.go:28-33 | at every level of a decoded tree, each key the level's type does not declare comes out with the value it went in with, and no other such key appears |
| Unmapped.CollectUnmapped | models/unmapped.go:35-47 | strictly sorted, exactly the set that the walk specifies |
| Unmapped.CollectedExactly | models/unmapped.go:16-27 | exactly the dotted paths of keys held in some struct's extra map at most 64 steps down, whatever pointers, slices and maps lie between |
| Unmapped.PathIsDotted | models/unmapped.go:16-18 | such a path is the field names on the way and the key, with a dot between any two |
| Unmapped.OrderAndRepetitionIrrelevant | models/unmapped.go:19-22 | two trees whose slices hold the same shapes, in any order and number, give the same result |
| Unmapped.SliceAsSet | models/unmapped.go:19-22 | for one slice: only which elements occur matters |
| Unmapped.FlatReportsUnknownKeys | models/unmapped.go:61-70 | for a freshly decoded flat struct, exactly the object's keys outside the schema |
| LabelKeys.OrderForgotten | internal/observability/snapshot.go:115-129 | the same attributes in any order encode to the same key |
| LabelKeys.Get | internal/observability/snapshot.go:38-66 | the loop that cuts the text down computes the specified scan |
| LabelKeys.GetReadsBack | internal/observability/snapshot.go:38-66 | for any values, the scan reads at the name's own pair (or nowhere, if the label set has no such name) if and only if no occurrence at a comma, or directly after another occurrence, starts earlier; and there it reads the value if and only if that holds no comma |
| LabelKeys.PlainValuesReadBack | internal/observability/snapshot.go:38-66 | in particular it reads back every name whenever no key and no value holds a comma or an equals sign |
| LabelKeys.KeyTellsValues | internal/observability/snapshot.go:33-36 | two such label sets with the same key give every name the same value |
| LabelKeys.SkippedNameMisleads | internal/observability/snapshot.go:54-60 | a label set from which the scan reads a name it does not have |
| LabelKeys.CommaMisleads | internal/observability/snapshot.go:56-64 | a label set with a comma in a value from which the scan reads a name it does not have |
| Counters.CounterDelta | internal/admin/dashboard_query.go:76-86 | the loop computes end minus start per series, absent meaning 0 |
| Counters.DeltaTotal | internal/admin/dashboard_query.go:80-86 | the deltas add up to the difference of the totals plus what the start held in series that are gone |
| Counters.ClassifyTotals | internal/admin/dashboard_query.go:119-134 | in any map order, the totals over all, over 2xx, and over 4xx and 5xx series |
| Counters.ResidualIsOther | internal/admin/dashboard_query.go:119-122 | the total is the successes, the errors and the series of any other status, and nothing else |
| Counters.ComputeRows | internal/admin/dashboard_query.go:208-325 | for the provider, protocol and configuration tables alike: one row per group with traffic, each with its own group's requests and error rate, busiest first |
| Counters.ComputeByProvider | internal/admin/dashboard_query.go:208-244 | the provider table, adding up with the series that name no provider to the headline total |
| Counters.HeadlineCountsLabelSets | internal/admin/dashboard_query.go:119-134 | with series keyed by the text of label sets without commas and equals signs: successes and errors are the totals of exactly the label sets whose status starts with 2, or with 4 or 5 |
| Counters.ProviderRowsCountLabelSets | internal/admin/dashboard_query.go:208-244 | with such series: each row of the provider table has the requests and the error rate of exactly the label sets that name its provider, and every provider that one of them names has a row |
| Counters.ProtocolRowsCountLabelSets | internal/admin/dashboard_query.go:246-286 | likewise each row by provider and protocol |
| Counters.ConfigurationRowsCountLabelSets | internal/admin/dashboard_query.go:288-325 | likewise each row by configuration |
| Counters.ComputeByProtocol | internal/admin/dashboard_query.go:246-286 | the table by provider and protocol, likewise with the series that lack either |
| Counters.ComputeByConfiguration | internal/admin/dashboard_query.go:288-325 | the configuration table, likewise with the series that name none |
| Counters.TablePartitionsTotal | internal/admin/dashboard_query.go:208-325 | the rows of any such table and the unlabelled residue add up exactly to the headline total |
| Counters.TablePartitionsErrors | internal/admin/dashboard_query.go:208-325 | with deltas that are not negative, every error rate is in [0,1] and the rates weighted by their requests add up to the errored total less the unlabelled residue |
| Counters.TotalRequestsDelta | internal/admin/timeseries.go:388-394 | the sum of the per-series deltas, in any map order |
| Counters.RpsSeries | internal/admin/timeseries.go:152-171 | one point per interval of positive length, the delta over that length |
| Counters.RpsTelescopes | internal/admin/timeseries.go:152-171 | for samples in time order the area under the curve is last total minus first total, plus what lost series held, minus what grew in intervals of no length |
| Counters.RpsAgreesWithHeadline | internal/admin/timeseries.go:152-171 | with series that only appear and times that strictly advance, there is a point per interval and the area is the summary's total over the same window |
| Histograms.ComputeQuantile | internal/admin/dashboard_query.go:170-206 | the bucket search computes the specified quantile and never divides by zero, for any histogram and rank, wrap-around included |
| Histograms.QuantileBoundedMonotone | internal/admin/dashboard_query.go:170-206 | with increasing bounds, quantiles lie between the first and the last bound and grow with the rank |
| Histograms.QuantileInterpolates | internal/admin/dashboard_query.go:198-201 | inside a bucket the quantile rises from its lower to its upper bound in proportion to how far the rank has come into the bucket's observations |
| Histograms.QuantileAtTheEnds | internal/admin/dashboard_query.go:174-196 | in the first bucket it is the first bound, in the last one the last |
| Histograms.QuantileHitsBounds | internal/admin/dashboard_query.go:170-206 | at the rank where a non-empty bucket ends, the quantile is that bucket's upper bound |
| Histograms.SubtractHistogram | internal/admin/dashboard_query.go:150-168 | element-wise difference modulo 2^64, a missing start bucket counting as 0 |
| Histograms.DeltaModular | internal/admin/dashboard_query.go:150-168 | for any two snapshots, start and difference add up to the end, modulo 2^64 bucket by bucket and in the count, exactly in the sum |
| Histograms.DeltaWellFormed | internal/admin/dashboard_query.go:150-168 | the delta of two cumulative snapshots with one layout does not wrap, and its bucket counts add up to its count |
| MergedHistograms.ProviderHistogramDelta | internal/admin/timeseries.go:410-434 | the loop merges the provider's deltas in some order of the map, or fails on an index; with one layout, whatever the order, the outcome is the bucket-wise, count-wise and sum-wise total modulo 2^64, empty when there is no such series |
| MergedHistograms.NamesItsProvider | internal/admin/timeseries.go:413-416 | a series keyed by the text of a label set without commas and equals signs is taken exactly if that label set names the provider |
| MergedHistograms.MergedIsGrowth | internal/admin/timeseries.go:410-434 | with one layout and series that only grow, each bucket of the merge is the provider's whole growth there since the earlier snapshot, new series included, and its sum the growth of theirs |
| MergedHistograms.SucceedsInOrder | internal/admin/timeseries.go:417-431 | in a given order the merge succeeds if and only if no series has more buckets than the first one that has any, and it then has that one's number of buckets |
| MergedHistograms.SucceedsInEveryOrder | internal/admin/timeseries.go:417-431 | the merge succeeds in every order of the map if and only if all the provider's series that have buckets have equally many |
| MergedHistograms.MergedWellFormed | internal/admin/timeseries.go:410-434 | merging well-formed deltas of one layout, any number of them, keeps bucket counts and count in step as long as the total count fits 64 bits |
| MergedHistograms.ProviderQuantileBounded | internal/admin/timeseries.go:219-229 | so a provider's p95, or any other quantile, is 0 without traffic and otherwise lies between the outer bounds and grows with the rank |
| Decimal.Itoa | internal/admin/dashboard_query.go:527-538 | the twenty-byte buffer filled from the right holds the numeral of every 64-bit number, which reads back as that number; a negative one comes out empty |
| Decimal.NumeralReads | contracts/config/model.go:229 | read digit by digit in base ten a numeral gives its number |
| Decimal.NumeralInjective | contracts/config/model.go:229 | different numbers have different numerals |
| TargetNames.TargetNames | contracts/config/model.go:221-244 | the two loops compute the specified names |
| TargetNames.DistinctIffFallbackFree | contracts/config/model.go:212-244 | for every group, the names are pairwise distinct if and only if no target wants, as its own name, the positional name that a later target has to fall back to |
| TargetNames.PlainGroupsDistinct | contracts/config/model.go:212-220 | without '#' in providers and with no alias that is a decimal numeral the names are always distinct |
| TargetNames.PlainGroupNames | contracts/config/model.go:216-220 | in such a group each name in closed form: plain if its provider is listed once, provider#alias for the first target with that alias, provider#position otherwise |
| TargetNames.ListedOnceKeepsName | contracts/config/model.go:216-220 | a provider listed once keeps its plain name |
| TargetNames.AliasCanSpellPosition | contracts/config/model.go:216-220 | a group of three targets whose names are not distinct |
| Sinks.DiffConnectors | cmd/gateway/sinks.go:125-148 | the maps and loops compute the specified lists of changed entries |
| Sinks.ChangedIs | cmd/gateway/sinks.go:121-124 | with unique names, the difference is exactly the entries that one list has and the other has not, name and settings |
| Sinks.SinkReconciler.OnSnapshot | cmd/gateway/sinks.go:200-212 | no snapshot, no change; otherwise the list becomes the last one and the sinks what removing the changed and adding the new entries gives |
| Sinks.SinkReconciler.RemoveSink | cmd/gateway/sinks.go:233-258 | the pusher or the track under the entry's name goes, unless there is no spool |
| Sinks.SinkReconciler.AddSink | cmd/gateway/sinks.go:260-289 | a pusher replaces any of its name; a track is added only if the spool runs, the build succeeds and the name is free |
| Sinks.SnapshotExact | cmd/gateway/sinks.go:200-289 | entry by entry: an unchanged entry keeps the very sink it had, one that left or changed has none, a new one has a newly built sink unless its own build failed |
| Sinks.RunExact | cmd/gateway/sinks.go:200-289 | after any run of snapshots every sink was built from the current entry of its name, and an entry has one exactly when the build at its latest introduction succeeded |
| Sinks.NeverTornDown | cmd/gateway/sinks.go:214-223 | over any run, an entry that stays listed keeps the very same sink |
| Sinks.NeverBoth | cmd/gateway/sinks.go:234-289 | no name runs both as a pusher and as a track, even when a connector changes its type |
| Sinks.KindsKeptApart | cmd/gateway/sinks.go:234-289 | after any run pushers stand for webhooks and tracks for all other kinds, each under its entry's name |
| Sinks.OnlyLastListMatters | cmd/gateway/sinks.go:165-176 | if all builds succeed, what is served is exactly the last list, or its webhook connectors when the gateway runs without a spool |
| Sinks.ChangeRebuilds | cmd/gateway/sinks.go:200-231 | a run in which one entry changes its settings and gets a new sink while another, which could not be built again, keeps its own |
| Sinks.DuplicateNamesChurn | cmd/gateway/sinks.go:125-148 | with duplicate names, which internal/config/errors.go:124-126 has turned away earlier, applying the same list again would change what is served |
| CannedResponses.Registry.Match | cmd/mockllm/registry.go:167-180 | the session's pool answers when it has a match, the global one only otherwise; the entry returned is the first match as it was before it was counted down |
| CannedResponses.Registry.MatchInPool | cmd/mockllm/registry.go:183-211 | the scan of the pool's storage returns the first match; afterwards the pools are those with that entry counted down in place or removed in place, an emptied pool gone, and no other pool touched |
| CannedResponses.RemoveInPlace | cmd/mockllm/registry.go:197-198 | shifting the entries behind up by one in the shared storage gives the sequence without the entry, in order, and leaves the storage past the new end as it was |
| CannedResponses.Registry.Add | cmd/mockllm/registry.go:92-96 | the entry comes last in its session's pool and no other pool is touched, although the storage it is written to may have held more entries before |
| CannedRuns.StepKeepsInv | cmd/mockllm/registry.go:92-211 | every operation keeps the invariant that accounts for each entry ever staged |
| CannedRuns.ServingsConserved | cmd/mockllm/registry.go:46-51 | in every reachable state an entry limited to n > 0 was served at most n times, servings and remainder add up to n while it is staged, and it leaves its pool only by being cleared or used up |
| CannedRuns.OrderKept | cmd/mockllm/registry.go:94-211 | what remains of a pool stands in staging order, and no pool is stored empty |
| CannedRuns.AnsweringExact | cmd/mockllm/registry.go:156-211 | which pool answers, in both directions: none exactly when neither holds an entry whose given criteria, method, path and a text somewhere in the body, are all met |
| CannedRuns.MatchServesOldest | cmd/mockllm/registry.go:156-211 | a match serves the earliest staged matching entry of the pool that answers, counts that serving and no other, and leaves all other pools alone |
| CannedRuns.ReplaceIsClearAndAdd | cmd/mockllm/registry.go:119-126 | replacing is clearing every pool and staging the new entries globally one by one |
| CannedRuns.PoolsFollowRegistry | cmd/mockllm/registry.go:92-211 | every step of a run leaves the very pools that the registry's own operation is proved to leave |
| CannedRuns.PoolsTouched | cmd/mockllm/registry.go:92-114 | clearing a session empties its pool only, clearing all empties every one, and an added entry comes last in its own pool only |

## Left out

- Counters.ComputeRows: the three tables share one generic loop, where the original repeats it with another label; the order among equally busy rows is one of those an unstable sort allows.
- Counters.ClassifyTotals: totals are unbounded, so the overflow of a 64-bit sum is not modelled.
- MergedHistograms.ProviderHistogramDelta: what the merge adds up to is stated for one bucket layout, as the metrics library promises; for mixed layouts, when it succeeds.
- Template.ResolversAgree: which paths a reference may use, and how the JSON library prints what it finds, are parameters.
- DynamicModel.DynamicStruct.Marshal: field types other than strings, booleans and optional strings, and the reflection that finds fields.
- DynamicModel.DynamicStruct.Unmarshal: the same field types, and the case-insensitive matching of keys.
- Conditions.UnmarshalGroup: the case-insensitive matching of the typed keys.
- Conditions.UnmarshalCondition: the YAML decoder of the same trees, the case-insensitive key matching of Go's JSON package, and the order and duplication of keys in the input.
- Sinks.SinkReconciler.OnSnapshot: the mutexes, the draining of a removed sink, and the timeouts; failures to register a track other than a taken name count as failed builds.
- CannedResponses.Registry.Match: equality up to letter case is a parameter, the two snapshot methods are not modelled, and storage grows to a fixed size where Go's runtime chooses one.
- The model table, rules fired, tags fired and provider health rows, and the top-five selection: the same accumulation with more columns.
- `reduce_findings` and `dedupe_by_value`: the per-category maximum proved for whole-unit findings, once more.
- Prefix truncation and the stripping of system reminders from prompts.
- HTTP handlers, the circuit breaker, failover, the spool's segments, the pricing engine and the configuration store.
