# Verified models of goa's cores

This project models the parts of goa whose behaviour depends on interleavings,
in-place updates, incremental state or a counting argument, and proves properties
of the models over every input, every run and every reachable state. Each module
follows one source file or one component of it.

- **Protocols as step systems.** `EventForwarder` (pushers, one drainer, a
  one-slot wake token set outside the lock, a stop signal), `ConfirmHandshake`
  (caller, router goroutine, consumer, cancellation, a write-once slot) and
  `AutoResume` (the loop-resume cap). Every section under a lock and every
  channel operation is one step; the theorems quantify over all schedules.
- **Heap-separating deep copy.** `DeepCopy` works on an explicit heap of boxes,
  tables and blocks, with shared and unexported parts.
- **The config tree.** `YamlTree` (path edits), `StallHeal` (the same heal on
  the typed config, in the writer and in the repair), `ConfigMerge` and
  `ConfigSections` (the layered merge), `Sanitizers` (the heals that must make
  reference validation pass).
- **The streaming loop detector.** `LoopText` (text helpers), `ReasoningStream`
  (the state a stream leaves, for any way of classifying lines), `LoopDetector`
  (the classification, the ring with its count map, the detector class).
- **Run-level machines.** `GoalDriver` (continuation loop, stall watchdog,
  fresh-context begin, recovery prompt) and `Cron` (fields, search, firing).
- **Counting and conservation.** `GoalQueue` (reorder), `HeadTail` and
  `SessionReference` (budget trimming), `Instructions` (tracker diff),
  `RingBuffer` (buffer and paging), `TeamSlug` (names).
- **Shared.** `Wrappers` (a value that may be missing) and `Strings`.

Objects that the program updates in place are classes; their methods are proved
against a specification function, and what the program promises is proved about
that function. Clocks, hashes, digests, JSON length, duration parsing, calendar
functions, the file system and library calls are parameters, so every theorem
holds for all of them.

## Where the code differs from what is promised

- `SessionReference.HopelessIsRejectedIff`, `HeadTail.HalvingShrinksIff`: halving
  a text of 2 to 36 bytes does not make it shorter, because the omission notice
  has 35 or 36 bytes. A reference that cannot fit is rejected, as documented,
  exactly when every message that must stay has at most one byte; otherwise the
  trimming loop repeats one pass for ever.
- `SessionReference.CounterFallsIff`: the counter of omitted bytes goes down on
  contents of 2 to 35 bytes and can become negative.
- `ConfirmHandshake.RecordedOutcomeWinsIffNotCancelled`: a recorded outcome is
  certain to win the caller's select exactly when the request is not cancelled.
- `AutoResume.InputOverrunsIff`: an input can lead to one resume too many exactly when
  it comes between the counting and the sending of a resume (with a cap of one also
  between the end of the turn and the counting), because it uses up the marker.
  `AutoResume.CapCanBeExceeded` is a run, `AutoResume.CapHolds` the bound without.
- `ReasoningStream.ResetIsFreshIff`: the full reset keeps the fence flag and the
  diversity window, so it is fresh exactly after an even number of fences and no
  tracked line. `LoopDetector.ShortLineOutlivesReset` is a stream that stays latched.
- `ConfigMerge.ListsAssociateIff`, `ConfigSections.CascadeAssociatesIff`: grouping of
  layers matters exactly when the middle layer repeats a provider or model ID, or flags
  a skill list of its own as defaults. `ConfigSections.OnContextErrorReachesIff`: a
  layer that states only `on_context_error` is passed over.
- `GoalQueue.ReorderSucceedsIff`: a goal without an ID cannot be moved.
- `Sanitizers.SanitizingEmptiesIff`: with an empty fallback ID the heal of a dangling
  role or team member leaves one for which validation then asks a model.
- `StallHeal.RepairConvergesIff`: a repaired file is not final exactly when a deletion
  uncovers a second statement that is bare (the loader heals it) or a null with a text
  (the next repair removes it). `YamlTree.DeletedPathIsAbsentIff`,
  `YamlTree.DeleteKeepsDivergentPathIff`: a delete removes one statement of a key, and
  shows what stood behind it.
- `Cron.NewJobFiresAtFirstTickIff`, `Cron.FiresSometimeIff`: a new job is due at once
  exactly when its schedule matched in the year after the zero time, and a job whose
  schedule has no match in the year of minutes after its last run (29 February, as a
  rule) never fires.
- `TeamSlug.SlugIsDocumentedIff`: an unsupported character inside a name becomes a dash,
  where the documentation says it is dropped; the two agree exactly when every gap
  between kept characters holds a separator.
- `LoopText.CountWords` returns one more than the number of words, as coded.

## Model

| member | source | states |
|---|---|---|
| EventForwarder.StepKeepsInv | core/agent_event_forwarder.go:46-97 | every atomic step keeps: delivered, rest of the batch and queue together are the push order; a waiting drainer with a non-empty queue has a token or a pusher about to set one |
| EventForwarder.RunKeepsInv | core/agent_event_forwarder.go:46-97 | the same over every run |
| EventForwarder.RunRecordsActions | core/agent_event_forwarder.go:46-97 | over every run from any state: the recorded pushes grow by the events of the push actions in order, each read takes one event, and the stop signal is set exactly by a close action |
| EventForwarder.NothingLost | core/agent_event_forwarder.go:63-89 | after every run from the start what was read, the channel, the rest of the batch and the queue are together the events of the push actions, in order, and what was read is a prefix of them |
| EventForwarder.NoLostWakeup | core/agent_event_forwarder.go:46-59 | no lost wakeup although the token is set outside the lock |
| EventForwarder.PushNeverBlocks | core/agent_event_forwarder.go:44-97 | after every run a push can be the next step, and so can the one close |
| EventForwarder.QuiescentMeansDelivered | core/agent_event_forwarder.go:63-89 | after a run without a close, a state where no step is left has handed the events of all push actions to the reader, in order |
| EventForwarder.QuiescentAfterCloseMeansExited | core/agent_event_forwarder.go:63-97 | after a run with a close the drainer has returned once it has no step left, even if the reader never reads again |
| EventForwarder.InternalRunsAreBounded | core/agent_event_forwarder.go:63-89 | with no new push every schedule rests within a bound computed from the state |
| EventForwarder.EventuallyDelivered | core/agent_event_forwarder.go:46-89 | liveness for every scheduler: after any run without a close every internal run is bounded, and one that cannot be extended has delivered exactly the events of the push actions, in order |
| EventForwarder.CloseReturns | core/agent_event_forwarder.go:63-97 | and after a close every run of the program alone is bounded and ends with the drainer returned |
| EventForwarder.NoSendAfterExit | core/agent_event_forwarder.go:92-97 | once the drainer has returned nothing more enters the channel, whatever is pushed, and what was handed over is a prefix of the pushes made before |
| ConfirmHandshake.ConfirmSlot.Resolve | core/execution.go:254-263 | the first resolution is stored and closes the channel, later ones change nothing, and the send cannot block |
| ConfirmHandshake.FirstResolutionWins | core/execution.go:238-263 | after any sequence of resolutions the slot holds the first |
| ConfirmHandshake.StepKeepsInv | core/execution.go:204-348 | every step of caller, router, consumer and canceller keeps the protocol invariant |
| ConfirmHandshake.RunKeepsInv | core/execution.go:204-348 | the same over every run |
| ConfirmHandshake.RunKeepsHistory | core/execution.go:204-348 | over every run: what was sent are the responses of the respond actions in order, the installed consumer is that of the last SetConsumer, and request, consumer, caller, cancellation and resolutions are those of the actions |
| ConfirmHandshake.EnvironmentIsFree | core/execution.go:204-348 | after every run a consumer can be set or removed, an asked consumer can respond when the channel has room and return once, and a first request can be made |
| ConfirmHandshake.SlotIsWriteOnce | core/execution.go:254-268 | at most one resolve action in a run, never a blocking send or a second close, and no read of the drained channel whose zero value is an approval |
| ConfirmHandshake.AnswerIsFirstResponse | core/execution.go:270-336 | without cancellation the answer is the first response action when one comes before the return of the consumer; No if there is none, or if the request found no consumer |
| ConfirmHandshake.OnlyFirstResponseApproves | core/execution.go:270-348 | in every run an answer other than No is the response of the first respond action |
| ConfirmHandshake.AnswerIsFinal | core/execution.go:270-312 | an answer never changes afterwards |
| ConfirmHandshake.RecordedOutcomeWinsIffNotCancelled | core/execution.go:338-348 | a recorded outcome is the first response or No, and the slot case is certain to win exactly when no SetConsumer came while the caller waited, or the outcome is No |
| ConfirmHandshake.CancellationMayOverrideResponse | core/execution.go:338-348 | a run of six actions in which Yes is sent and recorded and the request answers No |
| ConfirmHandshake.SettledCallerIsNotStuck | core/execution.go:270-348 | a request that found a consumer, and was responded to, left or cancelled, is over when neither caller nor router has a step left |
| ConfirmHandshake.ProgressIsBounded | core/execution.go:270-348 | caller and router take at most five steps per request, whatever the others do |
| DeepCopy.Heap.CopyValue | config/config_deepcopy.go:20-33 | the copy reads like the value to every depth, is separate from the old heap through settable parts, and no old cell is changed |
| DeepCopy.Heap.CopyPointer | config/config_deepcopy.go:35-43 | the same for a pointer: a fresh box with a copied content |
| DeepCopy.Heap.CopyMap | config/config_deepcopy.go:45-58 | the same for a map: a fresh table with every key and copied values, in any key order |
| DeepCopy.Heap.CopySlice | config/config_deepcopy.go:60-70 | the same for a slice: a fresh block of its window with copied elements |
| DeepCopy.Heap.CopyStruct | config/config_deepcopy.go:72-78 | settable fields copied, the others kept as they are |
| DeepCopy.Heap.CopyInterface | config/config_deepcopy.go:82-91 | the dynamic value copied |
| DeepCopy.Heap.DeepCopyConfig | config/config_deepcopy.go:9-13 | on every acyclic heap, sharing allowed: equal deep value, old cells unchanged, settable references fresh, unexported parts shared |
| DeepCopy.ReachableIsFresh | config/config_deepcopy.go:15-33 | every reference reachable from the copy through settable fields is a fresh cell |
| DeepCopy.ReachIsClosed | config/config_deepcopy.go:15-33 | what is reached is closed under following references: whatever a reached cell holds reaches on |
| DeepCopy.ReachesItsReferences | config/config_deepcopy.go:15-33 | a value reaches the references that stand in it, through interfaces and settable fields |
| DeepCopy.WriteKeepsSeparate | config/config_deepcopy.go:9-91 | a write through the copy keeps the copy separate |
| DeepCopy.WritesThroughCopyLeaveOriginal | config/config_deepcopy.go:9-91 | no sequence of writes through the copy changes the original's deep value or any old cell |
| YamlTree.FindYamlNode | config/loader_fields.go:115-130 | the lookup loop returns the node that the path function finds |
| YamlTree.DeleteYamlNode | config/loader_yaml.go:17-36 | the recursive delete with its pruning is the deletion function |
| YamlTree.DeleteKeepsOrder | config/loader_yaml.go:17-36 | a delete keeps the order of the keys and drops at most the first statement of the first key of the path |
| YamlTree.FindDeleted | config/loader_yaml.go:17-36 | for every tree and path: after a delete the path shows exactly what the delete uncovered, the next statement of the key or of a pruned mapping |
| YamlTree.FindDivergent | config/loader_yaml.go:17-36 | for every tree and divergent path: what was found before, or what the delete uncovered there |
| YamlTree.DeletedPathIsAbsentIff | config/loader_yaml.go:17-36 | the deleted path is absent exactly when nothing is uncovered there |
| YamlTree.DeleteKeepsDivergentPathIff | config/loader_yaml.go:17-36 | a divergent path is unchanged exactly when nothing is uncovered there |
| YamlTree.DeleteIsIdempotentIff | config/loader_yaml.go:17-36 | a second delete does nothing exactly when no further statement of the key, or of a pruned mapping that holds it, is left |
| YamlTree.SetYamlNodeValue | config/loader_yaml.go:64-100 | replaces or appends along the path, and refuses a root that is no mapping |
| YamlTree.FindAfterSet | config/loader_yaml.go:64-100 | find after set gives the value |
| YamlTree.SetKeepsDivergentPaths | config/loader_yaml.go:64-100 | set changes find on no path that diverges from the edited one |
| YamlTree.SetFoundIsIdentity | config/loader_yaml.go:64-100 | setting what is found changes nothing |
| YamlTree.SetTwiceIsSetLast | config/loader_yaml.go:64-100 | the last of two sets wins |
| YamlTree.SetKeepsOrder | config/loader_yaml.go:64-100 | a set keeps the order of the keys and every other entry, and a new key comes last |
| YamlTree.SetDescends | config/loader_yaml.go:64-100 | along the path a set continues in what stands there: a mapping as it is, anything else emptied, nothing as a new mapping |
| YamlTree.DeletedPathIsAbsent | config/loader_yaml.go:17-36 | with each key of the path stated once along the path, and keys repeated anywhere else, a deleted path is absent |
| YamlTree.DeleteKeepsDivergentPaths | config/loader_yaml.go:17-36 | under the same condition delete, pruning included, changes find on no divergent path |
| YamlTree.DeleteKeepsUniqueKeys | config/loader_yaml.go:17-36 | delete keeps keys unique |
| YamlTree.DeleteIsIdempotent | config/loader_yaml.go:17-36 | under the same condition deleting twice is deleting once |
| YamlTree.DeleteThroughLeaf | config/loader_yaml.go:27-33 | where the path leads through something that is no mapping, a scalar or an empty list is pruned and a list with items stays |
| YamlTree.DeletePrunesEmptied | config/loader_yaml.go:27-33 | whatever is still found on the way to a deleted path has content left |
| YamlTree.DeleteKeyIffStatedOnce | config/loader_yaml.go:17-36 | the key is gone, and deleting it again does nothing, exactly when it was stated at most once |
| YamlTree.RepeatedKeyBreaksDelete | config/loader_yaml.go:17-36 | a tree with a repeated key on which the delete laws fail |
| StallHeal.ExecutionConfig.SanitizeBareStallDurations | config/loader_yaml.go:170-189 | canonicalises both stall fields and reports exactly the changed ones, in order |
| StallHeal.ExecutionConfig.SanitizeActivityPairLayer | config/loader_yaml.go:235-250 | the contradictory warning is dropped and recorded |
| StallHeal.ExecutionConfig.HealLayer | config/loader_yaml.go:170-250 | both heals in loader order, with their reports |
| StallHeal.NoHealsIffClean | config/loader_yaml.go:170-282 | the loader reports nothing exactly on a layer with canonical values whose warning, if both read, comes before the event stall |
| StallHeal.CanonicalValue | config/loader_yaml.go:170-189 | a value of digits alone gets its unit, and no other value is touched |
| StallHeal.LoadedPairLaw | config/loader_yaml.go:235-282 | what is loaded is canonical; a warning that is left and reads comes before the event stall; and a stated warning is dropped exactly when the canonical pair reads and it does not |
| StallHeal.HealsTellTheChange | config/loader_yaml.go:170-250 | replaying the records on the layer as written gives the layer as loaded, each record on the value it names |
| StallHeal.LoaderHealConverges | config/loader_yaml.go:170-282 | healing a healed layer again reports and changes nothing |
| StallHeal.HealBareStallNodes | config/loader_fields.go:101-112 | the node edits are the canonicalisation of the tree |
| StallHeal.WriteYamlDocument | config/loader_fields.go:71-94 | written exactly when the healed document decodes, its stall values are durations with the warning before the event stall and the rest is in order, and no edit of a stall key meets a contradictory pair; what is written is the healed document |
| StallHeal.WarningDroppedIff | config/loader_fields.go:71-94 | writer and repair delete the warning exactly when the pair of the decoded document reads and the warning does not come before the event stall; nothing else changes |
| StallHeal.SetStallDecodes | config/loader_yaml.go:64-100 | setting a stall node changes that field of the decoded layer and nothing else |
| StallHeal.DeleteStallDecodes | config/loader_yaml.go:17-36 | deleting a stall node clears that field of the decoded layer and nothing else |
| StallHeal.HealsCommuteWithDecoding | config/loader_fields.go:71-112 | healing the tree and decoding gives the config that decoding and the loader's heals give |
| StallHeal.WrittenDocumentNeedsNoHeal | config/loader_fields.go:71-94 | the loader reports nothing on what the writer wrote |
| StallHeal.WriterHealIsIdempotent | config/loader_fields.go:71-112 | on every tree the writer heals once: healing the healed tree changes nothing |
| StallHeal.RepairStallNodes | config/loader_repair.go:99-121 | the node repair and its changed flag |
| StallHeal.RepairLayerFile | config/loader_repair.go:30-76 | the outcome of a repair on a missing, broken, loadable or healable file; what it leaves or writes decodes, with stall values that are durations and the warning before the event stall |
| StallHeal.RepairedValues | config/loader_repair.go:99-121 | with stall keys stated once: a bare value gets its unit, one that is no duration is removed, and any other stays |
| StallHeal.RepairConvergesIff | config/loader_repair.go:30-121 | every repair that succeeds converges exactly when its deletions uncover no stall scalar that needs a repair; a pruned mapping that uncovers another is included |
| StallHeal.UncoveredKinds | config/loader_repair.go:30-121 | in a document that loads, the scalars that need a repair are the bare ones and the nulls with a text that is no duration |
| StallHeal.RepairConverges | config/loader_repair.go:30-76 | with the stall keys and their mapping stated once, or a file that is no mapping, repairing again finds the file loadable and the loader reports nothing on it |
| StallHeal.RepairAgreesWithLoader | config/loader_repair.go:99-121 | with only bare values to repair, the repaired document decodes to what the loader's heals give |
| StallHeal.RepeatedStallKeyDoesNotConverge | config/loader_repair.go:99-121 | a repair that uncovers a bare second statement, which the loader then heals |
| StallHeal.RepeatedNullIsRepairedAgain | config/loader_repair.go:99-121 | a repair that uncovers a null with a text: the loader is content, and a second repair changes the file again |
| LoopText.StripCodeBlocks | core/loopdetector.go:350-371 | the loop removes exactly what the recursive definition removes |
| LoopText.StrippedHasNoFence | core/loopdetector.go:350-371 | no fence survives, even across a cut |
| LoopText.StripIsIdempotent | core/loopdetector.go:350-371 | stripping twice is stripping once |
| LoopText.StrippedBetween | core/loopdetector.go:350-371 | of texts between fences exactly those outside are left, and all after an unclosed fence |
| LoopText.StripXmlBlock | core/loopdetector.go:375-389 | the loop equals the recursive removal of tagged blocks |
| LoopText.WithoutBlocksHasNoTag | core/loopdetector.go:375-389 | no opening tag survives, also none that a removal put together |
| LoopText.BlockIsRemoved | core/loopdetector.go:375-389 | a block goes with its tags and what stands around it is looked at again together; an unclosed one goes with all that follows |
| LoopText.CountWords | core/loopdetector.go:451-466 | the loop computes the recursive count |
| LoopText.WordsBetween | core/loopdetector.go:451-466 | n words separated by single blanks count as n + 1 |
| LoopText.NormalizeProseLine | core/loopdetector.go:627-647 | the loop computes the normal form |
| LoopText.NormalizedIsCanonical | core/loopdetector.go:627-647 | the normal form is letters and digits with single spaces between them |
| LoopText.CanonicalIsKept | core/loopdetector.go:627-647 | and such a text stays as it is |
| LoopText.OthersAreDropped | core/loopdetector.go:627-647 | a character that is neither letter, digit nor blank makes no difference, wherever it stands |
| LoopText.BlanksCollapse | core/loopdetector.go:627-647 | nor does a second blank beside a blank |
| LoopText.TrimSpace | core/loopdetector.go:802-811 | the two index loops compute the trim |
| LoopText.TrimmedLaw | core/loopdetector.go:802-811 | what is cut off at both ends is space, and what is left begins and ends with none |
| LoopText.IndexNewline | core/loopdetector.go:791-798 | the first newline, or -1 |
| LoopText.NoFenceNothingStripped | core/loopdetector.go:540-548 | a line that reaches the counters holds no fence, so stripping code blocks from it again changes nothing |
| LoopText.FencesBetween | core/loopdetector.go:757-770 | fences between texts without a backtick are counted one by one |
| LoopText.FencesInRun | core/loopdetector.go:757-770 | in a run of backticks every third closes one |
| LoopText.NameThenCode | core/loopdetector.go:884-918 | a name followed by a parenthesis, a single equals sign, or a colon with a space or equals sign is code, and with any other character it is not |
| LoopText.StructuralIff | core/loopdetector.go:839-882 | when a trimmed line is structural: its first character, a keyword, or a name with code after it |
| ReasoningStream.ChunkingDoesNotMatter | core/loopdetector.go:559-604 | cutting a stream into deltas in any way gives the state of one delta |
| ReasoningStream.SameStreamSameVerdict | core/loopdetector.go:559-620 | equal texts in different pieces give equal states and levels |
| ReasoningStream.StreamIsFold | core/loopdetector.go:571-601 | the state is a fold over the completed lines, with the rest pending |
| ReasoningStream.InCodeBlockIffOddFences | core/loopdetector.go:757-770 | the fence flag is the parity of all fence markers in completed lines since the reset |
| ReasoningStream.TallyIsMultiplicity | core/loopdetector.go:597-601 | the counters hold the multiplicity of every counted key |
| ReasoningStream.PeakIsMaximum | core/loopdetector.go:597-601 | the repeat maximum is attained and bounds every count |
| ReasoningStream.StreamCountsAndWindow | core/loopdetector.go:571-601 | over any stream: counters and maximum of the counted lines outside code blocks, and the window of the last 24 tracked ones |
| ReasoningStream.WindowLevel | core/loopdetector.go:707-748 | the level of a window by its size and its number of different lines: two or three, or one short one, interrupt in a full window and warn in a half full one |
| ReasoningStream.VerdictMeansRepetition | core/loopdetector.go:608-732 | over any stream: interrupted exactly when a counted line came as often as the threshold says, or the last 24 tracked lines are two or three different ones or one short one; warned in the same way; otherwise left alone |
| ReasoningStream.ResetIsFreshIff | core/loopdetector.go:821-832 | after any stream the full reset gives the initial state exactly when the completed lines hold an even number of fences and no line was tracked |
| ReasoningStream.LevelAfterReset | core/loopdetector.go:821-832 | after any stream and a full reset the level is that of the last 24 tracked lines alone, by the same numbers |
| ReasoningStream.ResetKeepsLatchedWindow | core/loopdetector.go:821-832 | after 24 repetitions of a tracked line with fewer words than are counted, in a stream of their own deltas, the full reset leaves an interrupt |
| LoopDetector.ProseToTrack | core/loopdetector.go:653-676 | the tracked form of a prose line, if any |
| LoopDetector.KeyToCount | core/loopdetector.go:540-548 | the key under which a reasoning line is counted, if any |
| LoopDetector.PlainLineCounts | core/loopdetector.go:540-676 | a line without backticks and tags is tracked from five counted words on and counted from ten on, unless it is structural |
| LoopDetector.TextVerdict | core/loopdetector.go:559-620 | when a text, in any pieces and with the real classification of lines, is interrupted: by a counted line or by cycling among its last 24 tracked lines |
| LoopDetector.Window.PushRecentLine | core/loopdetector.go:680-700 | ring and count map refine the last 24 tracked lines: contents and exact multiplicities |
| LoopDetector.Window.DiversityLevel | core/loopdetector.go:707-748 | the level from the counters is that of the tracked lines |
| LoopDetector.Detector.SkipCodeFenceLine | core/loopdetector.go:757-770 | skips fences and block contents; the flag flips exactly on an odd number of fences |
| LoopDetector.Detector.RecordLine | core/loopdetector.go:576-601 | one completed line has the effect of the step function |
| LoopDetector.Detector.RecordThinkingDelta | core/loopdetector.go:559-604 | a delta has the effect of feeding it to the stream function, and nothing when disabled or empty |
| LoopDetector.Detector.ResetThinking | core/loopdetector.go:774-788 | back to the initial state, with a fresh window |
| LoopDetector.Detector.Reset | core/loopdetector.go:821-832 | clears streaks, pending text and counters only |
| LoopDetector.ShortLineOutlivesReset | core/loopdetector.go:821-832 | such a line exists under the real classification: a stream of it is interrupted after the reset |
| LoopDetector.Detector.RecordToolCall | core/loopdetector.go:307-336 | the level is that of the unbroken run of identical calls ending here, and nothing is recorded when disabled |
| LoopDetector.RunIsUnbroken | core/loopdetector.go:307-336 | the run is the longest block of equal calls at the end of the history |
| LoopDetector.StreakMeansRepetition | core/loopdetector.go:307-336 | a level is reached exactly when the last calls, as many as its threshold says, are one call over and over |
| LoopDetector.AlternationNeverTrips | core/loopdetector.go:307-336 | alternating calls of any number never warn |
| HeadTail.HeadTailTruncate | internal/agentic/session_reference.go:349-375 | the truncation is the specification function: pieces of both ends around the notice |
| HeadTail.CutUTF8Prefix | internal/agentic/session_reference.go:379-391 | the loop finds the last rune boundary |
| HeadTail.CutUTF8Suffix | internal/agentic/session_reference.go:395-407 | the loop finds the first rune boundary |
| HeadTail.PrefixIsLongest | internal/agentic/session_reference.go:377-391 | the head is the longest one within its bytes that is not cut inside a rune |
| HeadTail.SuffixIsLongest | internal/agentic/session_reference.go:393-407 | and so is the tail |
| HeadTail.PrefixEndsAtBoundary | internal/agentic/session_reference.go:377-391 | a kept head is never cut inside a rune |
| HeadTail.SuffixStartsAtBoundary | internal/agentic/session_reference.go:393-407 | a kept tail never starts inside a rune |
| HeadTail.FirstRuneIff | internal/agentic/session_reference.go:377-407 | the runes are the UTF-8 forms of the Unicode scalar values, by section 3 of RFC 3629 |
| HeadTail.TruncatedIsValidIff | internal/agentic/session_reference.go:345-375 | the shortened text of every valid UTF-8 text is valid UTF-8, and in general exactly when the two kept pieces are |
| HeadTail.TruncateKeepsBoundIff | internal/agentic/session_reference.go:345-375 | changed exactly when too long; within the bound exactly when the notice fits |
| HeadTail.NoticeTellsTheTruth | internal/agentic/session_reference.go:345-375 | the longest front piece and back piece that three and two fifths of the bound without the reserve allow, and a notice with exactly the number of missing bytes, for every text below 10^94 bytes |
| HeadTail.DecimalReads | internal/agentic/session_reference.go:345-375 | the digits in the notice write that number |
| HeadTail.HalvingLength | internal/agentic/session_reference.go:349-375 | the exact result of halving a short text and the length of a halved long one |
| HeadTail.HalvingShrinksIff | internal/agentic/session_reference.go:345-375 | halving shortens a text exactly at one byte or from 37 bytes on |
| SessionReference.Reference.DropOldestNonCheckpoint | core/sessionreference.go:308-322 | drops the oldest message that is neither checkpoint nor newest and counts it, or reports that there is none |
| SessionReference.Reference.TruncateLargestMessage | core/sessionreference.go:327-347 | halves the first largest content and counts the difference, or reports that all are empty |
| SessionReference.HalvedText | core/sessionreference.go:327-347 | a long text of one-byte characters keeps exactly three and two fifths of the half of its length beside the reserve, and the notice |
| SessionReference.Reference.TrimReferenceToBudget | core/sessionreference.go:286-303 | the loop, cut off after any number of passes, is the run function |
| SessionReference.RunConserves | core/sessionreference.go:286-347 | over every run retained plus omitted messages, and omitted plus remaining bytes, stay the same |
| SessionReference.RunIsDropsThenTruncations | core/sessionreference.go:286-303 | every run is drops followed by truncations, which start only when nothing is left to drop |
| SessionReference.DropTakesOldest | core/sessionreference.go:308-322 | a drop takes the first of the others and leaves checkpoints and newest message alone, in order |
| SessionReference.RunKeepsProtected | core/sessionreference.go:280-322 | what is dropped is a prefix of the non-checkpoints; what must stay keeps order and roles, and is whole while something else is left and whenever nothing was cut |
| SessionReference.PassProgress | core/sessionreference.go:286-347 | every pass lowers a measure or repeats itself for ever |
| SessionReference.RunSettles | core/sessionreference.go:286-303 | a run has its final outcome after a computed number of passes, or never ends |
| SessionReference.ErrorNeedsTinyContents | core/sessionreference.go:280-303 | with contents of at most one byte the run ends; with a longer one that must stay the error is never reported |
| SessionReference.HopelessIsRejectedIff | core/sessionreference.go:283-303 | an envelope that cannot fit is rejected exactly when every message that must stay has at most one byte |
| SessionReference.CounterFallsIff | core/sessionreference.go:339-346 | the omitted-bytes counter falls exactly on contents of 2 to 35 bytes |
| GoalQueue.ApplyReorderPairs | core/goal_queue.go:332-349 | the array loop with its used map is the specification, errors included |
| GoalQueue.FillRemainingPositions | core/goal_queue.go:351-370 | fills the free places from the unused goals in order, or fails |
| GoalQueue.ReorderSucceedsIff | core/goal_queue.go:332-370 | success exactly when pairs are in range, no item or position repeats, and every moved goal has an ID |
| GoalQueue.ReorderIsPermutation | core/goal_queue.go:332-370 | on success a permutation with every item at its position and the others in their relative order |
| GoalQueue.PlacedLaw | core/goal_queue.go:332-349 | the pigeonhole: k pairs leave n - k places free exactly when positions are distinct and items named |
| GoalQueue.RepeatedPositionRejected | core/goal_queue.go:351-370 | a repeated position is always rejected |
| GoalQueue.PairOrderDoesNotMatter | core/goal_queue.go:401-405 | the sort of the pairs decides neither success nor result |
| GoalQueue.ParseToken | core/goal_queue.go:384-399 | digits and a capital letter, with the number taken modulo 2^64 as a Go int |
| GoalQueue.ParseReorderMapping | core/goal_queue.go:377-406 | the parsed pairs, sorted, or the first bad token |
| GoalQueue.MappingRoundTrip | core/goal_queue.go:377-406 | printed pairs parse to themselves |
| GoalQueue.SpacesDoNotMatter | core/goal_queue.go:377-381 | a space makes no difference, wherever it stands |
| GoalQueue.AcceptedIff | core/goal_queue.go:377-400 | a text is accepted exactly when it is blank or every part is digits and a capital letter |
| GoalQueue.SplitLaw | core/goal_queue.go:382-383 | the parts hold no comma, and joined with commas they are the text |
| GoalQueue.MappingLaw | core/goal_queue.go:304-330 | when a textual mapping is accepted, and that the queue is then permuted, for every sort |
| GoalQueue.EmptyMappingIsIdentity | core/goal_queue.go:377-381 | an empty mapping leaves the queue as it is |
| ConfigMerge.MergeById | config/config_merge.go:260-274 | the nested loop over providers or models is the put-by-ID fold |
| ConfigMerge.LookupMerged | config/config_merge.go:260-274 | right-biased override for all lists, repeated IDs included |
| ConfigMerge.MergeKeepsOrder | config/config_merge.go:312-326 | the lower layer keeps its places, new IDs are appended in order |
| ConfigMerge.MergeKeepsUnique | config/config_merge.go:260-274 | unique IDs stay unique |
| ConfigMerge.ListsAssociateIff | config/config_merge.go:260-274 | the list merge is associative around a middle layer exactly when that layer states every ID once |
| ConfigMerge.UniqueStrings | config/config_merge_sections.go:113-124 | the loop with its seen set is the add-if-absent fold |
| ConfigMerge.DedupedLaw | config/config_merge_sections.go:111-124 | every string once, in the order of first occurrences |
| ConfigMerge.UnionsAssociate | config/config_merge_sections.go:65-94 | concatenation with deduplication is associative |
| ConfigSections.Config.MergeSkills | config/config_merge_sections.go:65-94 | the field updates are the skills merge |
| ConfigSections.EnabledIsPinsOrDefaults | config/config_merge_sections.go:72-86 | over any cascade the allowlist is the defaults exactly when nothing was pinned, else the pins, each once |
| ConfigSections.SkillsAssociateIff | config/config_merge_sections.go:65-94 | skill layers group freely exactly around a layer that does not flag its own list as defaults |
| ConfigSections.OverlayTable | config/config_merge_sections.go:582-610 | the per-model loop gives the field-wise overlay in any map order |
| ConfigSections.Config.MergeContextCompression | config/config_merge_sections.go:428-470 | the guarded field updates are the compression merge |
| ConfigSections.EmptyLaws | config/config_merge_sections.go:475-496 | an overlay is empty exactly when both layers are, and an empty layer adds nothing |
| ConfigSections.CompressionAssociates | config/config_merge_sections.go:428-496 | the emptiness guard does not break associativity |
| ConfigSections.OnContextErrorReachesIff | config/config_merge_sections.go:449-452 | the key of a layer takes effect over every lower layer exactly when that layer states another key |
| ConfigSections.PerModelAssociates | config/config_merge_sections.go:582-610 | per-model overrides merge associatively |
| ConfigSections.Config.DeepMerge | config/config_merge.go:9-35 | merging a layer into the receiver is the merge function on every modelled section |
| ConfigSections.SilentLayerLaw | config/config_merge.go:9-35 | a layer that states nothing deduplicates the skill lists, switches off the two copied booleans, and changes nothing else |
| ConfigSections.CascadeAssociates | config/config_merge.go:9-35 | the cascade of the modelled sections is associative around a middle layer that states each ID once and flags no list of its own as defaults |
| ConfigSections.CascadeAssociatesIff | config/config_merge.go:9-35 | layers group freely around a middle layer, for all lower and higher ones, exactly when that layer meets this condition |
| ConfigSections.CascadeTakesLastStated | config/config_merge.go:9-35 | a setting that each merge takes from the higher layer when stated there has, after a cascade of any height, the value of the highest layer that states it |
| ConfigSections.HighestStatementWins | config/config_merge.go:43-140 | in a cascade of any height every selection, number, tri-state switch and retention block of the modelled sections has the value of the highest layer that states it |
| ConfigSections.HighestCompressionWins | config/config_merge_sections.go:428-580 | and so has every field of the compression block, across its emptiness guard |
| ConfigSections.HighestKeyWins | config/config_merge.go:378-407 | a key of the mode defaults, roles, caps, teams or servers has the value of the highest layer that states the key |
| ConfigSections.HighestModelOverrideWins | config/config_merge_sections.go:582-610 | and so has each field of a model override |
| ConfigSections.HighestEntryWins | config/config_merge.go:260-326 | a provider or model is that of the highest layer that has its ID |
| ConfigSections.SkillListsAreUnions | config/config_merge_sections.go:65-124 | each skill list is the union over the layers from the lowest up, every string once |
| ConfigSections.PlainBooleans | config/config_merge.go:283-310 | multi-agent mode is on when any layer turns it on; the copied booleans are those of the highest layer |
| GoalDriver.Driver.CheckStall | core/goal_driver.go:356-383 | one probe moves the watchdog as specified and leaves managed goals and a disabled watchdog alone |
| GoalDriver.WatchdogCounts | core/goal_driver.go:356-383 | challenges times limit plus stale is the number of consecutive unchanged probes |
| GoalDriver.WatchdogActs | core/goal_driver.go:366-383 | reminds exactly at the limit, blocks exactly at its multiples from twice the limit on |
| GoalDriver.StallActs | core/goal_driver.go:366-383 | by the run of unchanged probes: nothing but at multiples of the limit, a reminder at the first and a block at every other, each tracked with its number |
| GoalDriver.Driver.TurnPrompt | core/goal_driver.go:437-446 | the recovery prompt is used up by the first turn of its goal, with the loop latch reset |
| GoalDriver.Driver.RunTurn | core/goal_driver.go:391-429 | which call the agent gets, what the begin marker becomes, and when the turn counts as failed |
| GoalDriver.BeginUntilFirstSuccess | core/goal_driver.go:391-418 | over every history begin is true until the goal's first completed fresh turn, and false while only its fresh attempts follow |
| GoalDriver.RecoveryPromptOnce | core/goal_driver.go:346-350 | over every history exactly the first turn of a goal after its runaway pause gets the recovery prompt |
| GoalDriver.Driver.HandleTurnError | core/goal_driver.go:328-351 | a busy agent stops the loop cleanly; every other failure pauses with its reason |
| GoalDriver.Driver.Drive | core/goal_driver.go:238-280 | the loop with its effects is the run function over the rounds |
| GoalDriver.RoundOfDrive | core/goal_driver.go:238-383 | everything round k of a drive does, from the turns and probes before it in this and earlier drives: budget block, turn counted, latch reset, call, and the pause, budget block, reminder or stall block that ends the turn |
| GoalDriver.CallOfTurn | core/goal_driver.go:385-446 | which prompt a turn carries and whether it begins a fresh conversation, by the history of turns |
| GoalDriver.RunawayIsRecovered | core/goal_driver.go:346-350 | after a drive that ends in a runaway loop the paused goal is next asked with the recovery prompt |
| GoalDriver.DriveEnds | core/goal_driver.go:238-351 | a drive ends with its first round that does not go on: cancelled, clean, or with its error |
| GoalDriver.TurnsLaunched | core/goal_driver.go:238-280 | a turn is launched exactly when all rounds before it went on and its own finds an active goal within budget |
| GoalDriver.PausesIffError | core/goal_driver.go:328-351 | a drive pauses a goal exactly when it ends with an error, which a busy agent is not |
| GoalDriver.StopsComeLastIff | core/goal_driver.go:238-280 | a block or a pause is the last effect of a drive exactly when the round after every stall block finds no active goal or is cancelled |
| GoalDriver.DriveExtendsHistory | core/goal_driver.go:204-280 | driver memory and watchdog after a drive are those of the histories extended by its own turns and probes |
| Sanitizers.Config.SanitizeSelectorSentinels | config/loader_overrides.go:462-492 | clears sentinel selections and filters sentinel providers and models |
| Sanitizers.Config.SanitizeDanglingActiveTeam | config/loader_overrides.go:501-510 | clears an undefined active team |
| Sanitizers.Config.SanitizeDanglingCompressionModels | config/loader_overrides.go:523-531 | keeps exactly the overrides of known models, in any map order |
| Sanitizers.Config.SanitizeDanglingModelRefs | config/loader_overrides.go:548-577 | rebinds dangling members and roles, drops dangling caps, and does nothing without models |
| Sanitizers.HealDanglingMemberModels | config/loader_overrides.go:600-632 | the shorthand members and the map, healed member by member |
| Sanitizers.Config.Heal | config/loader.go:279-299 | in loader order, leaving no reference error |
| Sanitizers.SanitizedRaisesNothing | config/config_validate.go:561-579 | for every config no undefined-team or unknown-model error is left for teams, members, roles or overrides |
| Sanitizers.MemberErrors | config/teams.go:214-240 | which members validation looks at: the shorthand ones, or those of the map, and none of a team that mixes both |
| Sanitizers.SanitizedReferences | config/loader_overrides.go:548-632 | what every role and member is bound to: itself when it survives or nothing does, else the active model when that survives, else the first model that does |
| Sanitizers.SanitizedOutcome | config/loader_overrides.go:462-510 | exactly which selections, providers and models are left |
| Sanitizers.SanitizedTables | config/loader_overrides.go:523-577 | exactly which overrides and caps are left: those of surviving models, and all caps when none survives |
| Sanitizers.SentinelShapes | config/loader_overrides.go:462-470 | the two shapes of a sentinel, and what is none |
| Sanitizers.UnchangedIffClean | config/loader_overrides.go:462-648 | the sanitizers change nothing exactly on a config with nothing to heal |
| Sanitizers.SanitizersAreIdempotent | config/loader_overrides.go:462-648 | running them again changes nothing |
| Sanitizers.OrderMatters | config/loader.go:279-299 | rebinding before the sentinels are dropped leaves an unknown model |
| Sanitizers.SanitizingEmptiesIff | config/loader_overrides.go:548-632 | over all sanitizers together: a stated model of a role, a shorthand member or a member of the map is emptied exactly when it dangles and the fallback ID is empty |
| Instructions.ScanInstructionDir | internal/context.go:356-382 | the candidates that load: readable and unlike every earlier readable one |
| Instructions.Tracker.ReconcileDirs | internal/context.go:314-347 | the ancestor chain of the touch and the directories of all loaded scopes |
| Instructions.TouchDirsAre | internal/context.go:314-347 | a touch adds every directory from the project down to the touched one, or the project and the directory for a touch outside |
| Instructions.ScopesOnTheWayAreLoaded | internal/context.go:242-382 | after a touch every readable instruction file on that way is loaded, unless an earlier candidate beside it has its digest |
| Instructions.Tracker.Reconcile | internal/context.go:242-291 | the new table is what the scanned directories give, and the changes are the diff, each once, in the order of their display paths |
| Instructions.ChangesAreADiff | internal/context.go:242-291 | applying the changes to the old table gives the new digests |
| Instructions.UnreportedIsUnchanged | internal/context.go:242-291 | with a digest that tells contents apart, an unreported path is unchanged |
| Instructions.NoDuplicatesInADirectory | internal/context.go:349-382 | no directory keeps two scopes with one digest |
| Instructions.SecondReconcileIsSilent | internal/context.go:237-241 | a second touch reports nothing although it scans fewer directories |
| Instructions.RemovedMeansGoneOrDuplicate | internal/context.go:277-284 | a removal is reported exactly for loaded scopes that no longer load |
| Instructions.DisplayIsInjective | internal/context.go:387-396 | two files are never shown under one name |
| Instructions.ReportIsDetermined | internal/context.go:237-291 | the reported list is determined by the two tables, in whatever order maps are walked |
| AutoResume.AgentManager.SetLoopStopReason | core/agentmanager_loop.go:96-118 | arms a resume exactly when enabled and below the cap |
| AutoResume.AgentManager.SendUserInput | core/agentmanager.go:264-320 | resets the counter unless the marker is up, and starts a turn or queues the input |
| AutoResume.AgentManager.EndTurn | core/agentmanager_turns.go:101-118 | the first locked section of the cleanup: steering before a resume |
| AutoResume.AgentManager.Cleanup | core/agentmanager_turns.go:101-136 | an undisturbed cleanup sends at most one resume and keeps the counter exact |
| AutoResume.CapHolds | core/agentmanager_turns.go:101-136 | over every run in which no input disturbs a dispatch, at most the cap many resume actions since the last other input |
| AutoResume.SentIsResumes | core/agentmanager_turns.go:101-136 | the resumes counted are the resume actions since the last other input |
| AutoResume.CapPlusOne | core/agentmanager_turns.go:123-136 | over every run at most one more |
| AutoResume.WindowBound | core/agentmanager_turns.go:101-136 | from any state no schedule sends more resumes before the next input than a bound computed from the state |
| AutoResume.WindowAttained | core/agentmanager_turns.go:101-136 | and some schedule reaches that bound |
| AutoResume.InputOverrunsIff | core/agentmanager.go:264-320 | for every reachable state and input, some schedule then exceeds the cap exactly when auto-resume is on, no steering waits, and a resume is counted and not sent (or, with a cap of one, captured while a turn runs) |
| AutoResume.AboveOneIffCounted | core/agentmanager.go:264-320 | with a cap of two or more only the moment between counting and sending is open |
| AutoResume.CapCanBeExceeded | core/agentmanager.go:268-277 | for every cap some run sends one resume too many |
| AutoResume.SteeringComesFirst | core/agentmanager_turns.go:112-136 | from a turn that ends with leftover steering no schedule sends a resume before that steering |
| AutoResume.InputDuringTurnComesFirst | core/agentmanager_turns.go:101-180 | an input during a turn that is not woven in leads there: after the turn is flushed and over no resume is sent before it |
| AutoResume.EnvironmentIsFree | core/agentmanager.go:264-320 | after every run an input can come, a running turn can be stopped as a loop or end, and leftover steering can be sent |
| RingBuffer.RingBuffer.constructor | internal/ringbuffer.go:22-30 | empty, with capacity 100 for a size below one |
| RingBuffer.RingBuffer.Write | internal/ringbuffer.go:33-41 | appends and keeps the last maxSize lines |
| RingBuffer.RingBuffer.Read | internal/ringbuffer.go:45-64 | the last k lines, or all when k is not positive or too large |
| RingBuffer.RingBuffer.ReadAll | internal/ringbuffer.go:67-82 | all lines held, oldest first, under Go's truncated remainder |
| RingBuffer.RingBuffer.Clear | internal/ringbuffer.go:92-97 | empties the buffer |
| RingBuffer.SlotOf | internal/ringbuffer.go:75-79 | the index with its sign correction is the slot of the line |
| RingBuffer.HoldsLastWrites | internal/ringbuffer.go:33-41 | after any writes exactly the last maxSize lines are held |
| RingBuffer.ReadRange | internal/ptymgr.go:242-264 | the text of one page, with the clamps on offset and count |
| RingBuffer.PagesPartition | internal/ptymgr.go:238-264 | pages at multiples of the page size read the buffer's end once and in order |
| RingBuffer.AllPages | internal/ptymgr.go:238-264 | enough pages read everything and every later page is empty |
| Cron.AddRange | core/cron.go:317-323 | every step-th value between the bounds that lies in the range |
| Cron.ParseCronField | core/cron.go:246-261 | rejected exactly when a part is, else the values that some part covers |
| Cron.PartAdmits | core/cron.go:263-323 | what a star, a number, a range and their steps admit among the values of the field |
| Cron.PartRejectedIff | core/cron.go:263-315 | a part is rejected exactly when a number, bound or step cannot be read or the step is not positive |
| Cron.SearchNextMatch | core/cron.go:383-392 | the least matching minute strictly after the given time, within the window |
| Cron.CronManager.CheckAndFire | core/cron.go:144-183 | a tick fires exactly the due jobs, each once, in some order: their tasks are what is appended, and only their last run moves |
| Cron.FiringsAreOwed | core/cron.go:144-183 | over every history each firing has its own scheduled minute, after the firing before and not after its tick |
| Cron.NeverFires | core/cron.go:162-169 | a job with no match in the window never fires again |
| Cron.FiresSometimeIff | core/cron.go:383-392 | and any other enabled job is due at some time |
| Cron.DueIff | core/cron.go:159-169 | a tick fires a job exactly when some whole minute after its last run, within a year and not after the tick, has its minute, hour, day, month and weekday all in the fields |
| Cron.NewJobFiresAtFirstTickIff | core/cron.go:159-169 | the first tick fires a new job exactly when its schedule matched in the year after the zero time |
| TeamSlug.NormalizeTeamNameSlug | config/teams.go:95-119 | the loop is the slug function, whatever the trim removes |
| TeamSlug.SlugIsValid | config/teams.go:58-119 | a slug is empty or valid by both name rules, and empty exactly when the input has no letter or digit |
| TeamSlug.NameCharacters | config/teams.go:58-132 | where the characters of names begin and end among their neighbours |
| TeamSlug.SlugKeepsLetters | config/teams.go:88-119 | the letters and digits of the slug are those of the input in order and lower case, or the first of them when it was cut |
| TeamSlug.SlugIsDocumentedIff | config/teams.go:76-119 | the slug is the documented one exactly when every gap between two kept characters, up to the cut, contains a separator |
| TeamSlug.UnsupportedBecomesDash | config/teams.go:76-119 | the shortest witness: "a!b" |
| TeamSlug.SlugFixesIff | config/teams.go:88-119 | slugging leaves a text alone exactly when it is a slug |
| TeamSlug.SlugIsIdempotent | config/teams.go:88-119 | slugging twice is slugging once |

## Left out

- StallHeal.HealsCommuteWithDecoding: asks that no digit run is tagged as null, which a YAML parser guarantees and the node type does not.
- SessionReference.Reference.TrimReferenceToBudget: carries a bound on its passes, because the loop need not end; the theorems say when it does.
- GoalDriver.BeginUntilFirstSuccess: for goals with a non-empty ID, as goal IDs are generated.
- Instructions.Tracker.Reconcile: takes the touched path as absolute, and the order of texts as any total order.
- ConfigSections.Config.DeepMerge: on the modelled sections only; ConfigSections.CascadeAssociates and CascadeAssociatesIff speak of the same ones.
- GoalDriver.Driver.Drive: without the team overlay and the cancellation callback.
- AutoResume.AgentManager.SendUserInput: its two locked sections, on the counter and on the running turn, are one step.
- Cron.ParseCronField: the scan of the text of one part is a parameter.
- TeamSlug.SlugIsDocumentedIff: which characters are white space is a parameter, and texts are sequences of characters.
- YamlTree: nodes are values and edits return the edited tree, so writes seen through an alias or an anchor are not captured; setYamlNode, the scalar variant, is left out.
- DeepCopy: channels, functions and fixed arrays have no case in the walk and appear as shared parts; cyclic heaps are excluded, as the walk would not end on them.
- Config merge: the sections that repeat the modelled rules field by field (execution, memory, tools, TUI, logging, plugins, prompts, telegram, permissions, thinking levels, time context) and the difference between a nil and an empty map.
- Sanitizers: warnings on stderr, repairActiveProviderModel and migrateProviderDefaultModels, which run before them; validation errors other than unknown references.
- Loop detector: stripJSONToolCalls on a single line, which changes nothing; the error history and the stream and stall detectors.
- Confirm handshake: more than one request in flight, because there is a single pending field.
- Auto-resume: cleanups of two turns that overlap, the gap between finding no turn running and starting one, and the conservation of steering text.
- Goal driver: the team overlay, cancellation callbacks and the mapping of error texts to reasons; a run either fails with a runaway loop or with another message.
- Cron: the shortcuts @every, @daily and @weekly, the text scanner, and saving and loading of jobs.
- Session references: parsing of mentions, surface projection, and the JSON encoding, which is a size function.
- Goal queue: append, move, remove and the file format.
- Ring buffer: the mutex; every method is one atomic step.
- I/O, UI, networking, PTY processes, git worktrees and the file system.
