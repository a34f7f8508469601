# Verified model of the astrcode agent core

This project models the parts of the astrcode coding agent where state, ordering or
arithmetic decide whether the agent behaves, and proves what the code promises of them, or
exactly when it keeps the promise. It is self-contained; `dafny verify dfyconfig.toml` checks
all of it.

| modules | what they model |
|---|---|
| `Utf8`, `StreamDecoder`, `SseConsumer` | an HTTP body, cut anywhere, decoded lossily as UTF-8 (RFC 3629 section 4, Unicode Standard section 3.9) and split into lines for a callback |
| `Transcript`, `TranscriptLaws`, `TranscriptTheorems`, `TranscriptProtocol`, `TranscriptTags`, `TranscriptPasses`, `SharedTranscript`, `TranscriptExamples` | the three passes (filter, merge, truncate) every provider request goes through, on owned and on shared messages |
| `ContextEstimate` | the token estimate that skips building the request, against the one that builds it |
| `DeltaAccumulator`, `Retry` | de-duplication of streamed text, and the retry loop with its event trace |
| `AskUserModel`, `AskUserRegistry`, `AskUserProtocol`, `AskUserRouting` | questions to the user: input rules, the pending registry, every interleaving of its callers, and which registration a resolution reaches |
| `GoalStore`, `GoalLifecycle` | the session goal: transitions, acknowledgements, and the budget that stops automatic continuation |
| `DependencyCheck` | three-colour search for dependency cycles, and the layer rule |
| `ProjectKey`, `McpNames`, `McpDiscovery` | path keys and MCP (Model Context Protocol) tool names, and the index that dispatches them |
| `EvalRunner`, `EvalRun` | checkpointed evaluation runs under every order of completion |
| `Text`, `Machine`, `Wrappers` | pieces of the Rust library |

Objects that the source updates in place are classes whose methods are proved against
functions on values. Drivers (`Accumulate`, `Perform`, `PerformAll`) run whole histories
through those methods and are proved to follow the runs that the theorems are about. The
network, the clock, random draws, UUIDs, the callback and the order in which tasks finish are
parameters or free choices, so every theorem is about all of them.

Where the code does less than its comments say, the model follows the code:

- The normalisation is documented as returning messages that satisfy the tool-call protocol. It
  does so exactly when no tool call is made inside a round that settles (`NormaliseIsLegal`);
  `DanglingCallSurvives` is an input where it does not.
- It runs when a snapshot is built and again when a request is built from the snapshot.
  Applying it twice equals applying it once exactly under the condition of
  `NormaliseIsIdempotent`; `BufferedTextMergesLater` and `AssistantRunMergesLater` are inputs
  outside it.
- The own-request estimate is documented as equivalent to the anchored path of the
  materialised one, because the prefix is bound to match. `AnchoredFastPathExact` and
  `UnanchoredFastPathExact` say exactly when the two agree; `MergedAnchorBreaksFastPath` and
  `SystemSeparatorBreaksFastPath` are snapshots built by the code itself for which they differ.
- Answers are checked in one lock section and delivered in another. What is delivered was
  checked against the question as long as the key is not registered anew in between
  (`ResolvesOnlyCheckedExactly`, `UndisturbedAnswersFit`); `ReRegistrationMisroutes` is the
  interleaving in which it was not.
- A handler's timeout works by key. `TimeoutReachesExactly` says which other registration it
  ends, and `TimeoutHitsNewer` is a history in which it does.
- The token budget does not bound a goal whose usage is not measured: `StopsGrantedExactly`
  gives the exact condition, `UnmeasuredNeverStops` the goals it never stops.
- The line reader ends lines at LF only, and drops every CR before it.

## Model

| member | source | states |
|---|---|---|
| Utf8.ScalarIsEncoded | crates/astrcode-ai/src/stream_decoder.rs:164-205 | a scalar is recognised only where its own UTF-8 encoding stands |
| Utf8.EncodedIsScalar | crates/astrcode-ai/src/stream_decoder.rs:164-205 | where an encoding stands it is recognised, whatever follows |
| Utf8.TruncatedIffProperPrefix | crates/astrcode-ai/src/stream_decoder.rs:186-205 | input is held back as incomplete exactly when some well-formed sequence begins with it |
| Utf8.BadIsMaximalSubpart | crates/astrcode-ai/src/stream_decoder.rs:186-205 | one replacement character stands for exactly one maximal ill-formed subpart |
| Utf8.HeadIsStable | crates/astrcode-ai/src/stream_decoder.rs:164-205 | a decision taken on a prefix never changes when more bytes arrive |
| Utf8.TailIsProperPrefix | crates/astrcode-ai/src/stream_decoder.rs:164-205 | what stays pending is a proper prefix of a well-formed sequence and decodes to nothing |
| Utf8.AvailableSplits | crates/astrcode-ai/src/stream_decoder.rs:99-108 | decoding a and then the tail of a followed by b is decoding a followed by b |
| Utf8.ReplaceStep | crates/astrcode-ai/src/stream_decoder.rs:164-205 | one round of the decoding loop on ill-formed input, against the one-shot decoding of the whole |
| Utf8.LossySize | crates/astrcode-ai/src/stream_decoder.rs:164-205 | lossy decoding at most triples the bytes |
| Utf8.DecodeInvertsEncode | crates/astrcode-ai/src/stream_decoder.rs:113-162 | decoding inverts UTF-8 encoding for every text and leaves nothing pending |
| StreamDecoder.Utf8StreamDecoder.Push | crates/astrcode-ai/src/stream_decoder.rs:99-108 | the text and the new pending bytes are those of pending plus chunk decoded at once; at most three bytes stay pending; overflow exactly above the limit and without effect |
| StreamDecoder.Utf8StreamDecoder.DecodeAvailable | crates/astrcode-ai/src/stream_decoder.rs:164-205 | the drain loop yields exactly the decided text and keeps exactly the undecided tail |
| StreamDecoder.Utf8StreamDecoder.Finish | crates/astrcode-ai/src/stream_decoder.rs:113-162 | the rest is decoded lossily and nothing stays pending |
| StreamDecoder.PrefixIsValid | crates/astrcode-ai/src/stream_decoder.rs:216-224 | the prefix up to `valid_up_to` always decodes, so the fallback is never taken |
| StreamDecoder.ChunkingIsIrrelevant | crates/astrcode-ai/src/stream_decoder.rs:99-205 | every cut of the bytes that does not overflow gives the one-shot lossy text, with at most three undecided bytes at any cut |
| StreamDecoder.SmallChunksNeverOverflow | crates/astrcode-ai/src/stream_decoder.rs:99-108 | chunks three bytes under the limit never overflow, however many there are |
| StreamDecoder.SseLineReader.PushChunk | crates/astrcode-ai/src/stream_decoder.rs:49-61 | lines and remainder are those of buffer plus text split at once; no line has a line end; overflow exactly above the limit and without effect |
| StreamDecoder.SseLineReader.Flush | crates/astrcode-ai/src/stream_decoder.rs:64-72 | the unterminated last line is all of the buffer but the whitespace around it, and is missing exactly if there is nothing else |
| StreamDecoder.TrimCr | crates/astrcode-ai/src/stream_decoder.rs:56 | what is left is the line without exactly the CRs at its end |
| StreamDecoder.SplitLinesSplits | crates/astrcode-ai/src/stream_decoder.rs:49-61 | splitting in two steps is splitting at once |
| StreamDecoder.SplitLinesInvertsUnlines | crates/astrcode-ai/src/stream_decoder.rs:49-61 | splitting inverts line termination, up to the CRs before each LF |
| StreamDecoder.LastLineIsBare | crates/astrcode-ai/src/stream_decoder.rs:64-72 | the last line has no line end either |
| SseConsumer.ConsumeDecodedLines | crates/astrcode-ai/src/common.rs:613-624 | complete lines are handed over in order until one is refused; overflow exactly above the limit, with nothing handed over |
| SseConsumer.ConsumeSseLines | crates/astrcode-ai/src/common.rs:546-611 | in every run the callback sees a prefix of the lines of the whole body decoded and split at once; a finished run has delivered all of them and counted every byte; nothing follows a refused line; each other ending has its cause, and overflow needs a chunk near the limit or an unterminated line that its text carries past it, however long the body is |
| SseConsumer.NextChunk | crates/astrcode-ai/src/common.rs:560-590 | the two readers in sequence stay in step with the one-shot reading, chunk after chunk |
| SseConsumer.WholeBody | crates/astrcode-ai/src/common.rs:590-611 | the end of the body adds the replacement of a truncated tail and the last line, and nothing else |
| SseConsumer.LinesAreBare | crates/astrcode-ai/src/common.rs:546-624 | no line that a callback can see contains LF or ends in CR |
| TranscriptPasses.NormalizeToolCallEntries | crates/astrcode-core/src/llm.rs:466-485 | the draining loop computes the recursive merge |
| TranscriptPasses.TruncateIncompleteToolEntries | crates/astrcode-core/src/llm.rs:487-560 | the loop with its pending round and its buffer computes the recursive truncation, with every early return |
| TranscriptPasses.ProviderVisibleEntries | crates/astrcode-core/src/llm.rs:454-464 | the three passes in order |
| TranscriptLaws.LegalFromIsLegal | crates/astrcode-core/src/llm.rs:487-560 | the recursive reading of the tool protocol implies the positional one |
| TranscriptLaws.LegalIsLegalFrom | crates/astrcode-core/src/llm.rs:487-560 | and the converse: both readings agree |
| TranscriptLaws.RoundAtFront | crates/astrcode-core/src/llm.rs:487-560 | messages settle a call without bystanders exactly when they answer its ids, each once and no other |
| TranscriptLaws.TruncateIsLegal | crates/astrcode-core/src/llm.rs:487-560 | the truncated transcript obeys the tool protocol if and only if no call is made inside a round that settles |
| TranscriptLaws.TruncateFixesExactlyLegal | crates/astrcode-core/src/llm.rs:487-560 | truncation leaves a transcript alone if and only if it is legal |
| TranscriptTheorems.TruncateIsStableReordering | crates/astrcode-core/src/llm.rs:487-560 | for every input: the output has the tool messages and the other messages of one prefix, each in their order, and the prefix ends only at an orphan result or a round that never settles |
| TranscriptTheorems.MergeConservesBlocks | crates/astrcode-core/src/llm.rs:466-485 | merging loses, invents and reorders no content block |
| TranscriptTheorems.MergeFixesExactlyMerged | crates/astrcode-core/src/llm.rs:466-485 | merging is without effect if and only if no two neighbours are mergeable, and also whenever the length stays |
| TranscriptTheorems.MergeOnceIsEnough | crates/astrcode-core/src/llm.rs:466-485 | one pass leaves nothing to merge if and only if no text message is stranded before a merged pair |
| TranscriptTheorems.FilterFixesExactlyVisible | crates/astrcode-core/src/llm.rs:291-303 | filtering keeps visible messages only and is without effect exactly on those |
| TranscriptTheorems.NormaliseVisible | crates/astrcode-core/src/llm.rs:454-464 | every message of the output is visible |
| TranscriptTheorems.TruncateMergedForm | crates/astrcode-core/src/llm.rs:487-560 | for every input, truncation leaves mergeable neighbours exactly at the seams: before a call, among the bystanders of a round, or where they meet the next call |
| TranscriptTheorems.NormaliseIsLegal | crates/astrcode-core/src/llm.rs:454-560 | the output obeys the tool protocol if and only if, after merging, no call is made inside a round that settles |
| TranscriptTheorems.NormaliseFixesExactly | crates/astrcode-core/src/llm.rs:454-464 | a transcript is returned unchanged if and only if it is visible, merged and legal |
| TranscriptTheorems.NormaliseIsIdempotent | crates/astrcode-core/src/llm.rs:454-464 | normalising twice is normalising once if and only if no call is made inside a settled round and no seam is left |
| TranscriptTheorems.SilentAssistantIsEnough | crates/astrcode-core/src/llm.rs:454-560 | if the assistant is silent while its tools run, the output is legal; if no text is stranded either, normalisation is idempotent |
| TranscriptProtocol.IdsAreBlocks | crates/astrcode-core/src/llm.rs:498-520 | a message answers exactly the calls for which it has a result block, of an error or not, and asks for exactly those for which it has a call block |
| TranscriptProtocol.RoundIffExchange | crates/astrcode-core/src/llm.rs:487-560 | a round is an exchange in terms of blocks: every call answered by exactly one of the tool messages directly behind it, and nothing else answered |
| TranscriptProtocol.LegalIffProtocolHolds | crates/astrcode-core/src/llm.rs:346-350 | the protocol stated on blocks is the one the laws are about |
| TranscriptProtocol.NormaliseMeetsProtocol | crates/astrcode-core/src/llm.rs:346-353 | what is sent meets the protocol stated on blocks if and only if no call is made inside a round that settles |
| TranscriptProtocol.VisibleExactly | crates/astrcode-core/src/llm.rs:291-303 | a message is visible if and only if it has a block other than text, or text or reasoning with a character that is no whitespace |
| TranscriptProtocol.FilterSplits | crates/astrcode-core/src/llm.rs:454-458 | the filter decides about each message by itself and keeps the order |
| TranscriptProtocol.FilterOne | crates/astrcode-core/src/llm.rs:454-458 | and keeps exactly the visible ones |
| TranscriptProtocol.WithoutSystemSplits | crates/astrcode-core/src/llm.rs:374-378 | dropping system messages decides about each message by itself and keeps the order |
| TranscriptProtocol.WithoutSystemOne | crates/astrcode-core/src/llm.rs:374-378 | and drops exactly those |
| TranscriptProtocol.MergeIsGrouping | crates/astrcode-core/src/llm.rs:396-485 | for every input merging cuts the list into groups: an assistant message with exactly the calling assistant messages directly behind it, all blocks in order, role and name of the first, the first reasoning present, tags joined in order |
| TranscriptProtocol.MergedOrigin | crates/astrcode-core/src/llm.rs:411-421 | a merged message is of the first origin present in its group |
| TranscriptTags.MergeCommutes | crates/astrcode-core/src/llm.rs:396-452 | merging commutes with every change of tags that respects how tags are joined |
| TranscriptTags.TruncateCommutes | crates/astrcode-core/src/llm.rs:396-452 | so does truncation, with any change of tags |
| TranscriptTags.NormaliseCommutes | crates/astrcode-core/src/llm.rs:396-464 | and so does the whole normalisation |
| TranscriptTags.ErasingOriginsCommutes | crates/astrcode-core/src/llm.rs:365-378 | the origin-keeping transcript has exactly the messages of the plain one, with and without its system messages |
| SharedTranscript.FilterShared | crates/astrcode-core/src/llm.rs:454-464 | filtering shared entries shows the filtered messages and adds no cell |
| SharedTranscript.AbsorbIntoLast | crates/astrcode-core/src/llm.rs:396-452 | copy-on-write: merging into a cell that anyone else holds changes a copy, so nothing else that is held changes |
| SharedTranscript.MergeShared | crates/astrcode-core/src/llm.rs:466-485 | the merge on shared cells shows the owned merge, touches no cell of the snapshot, and returns the input itself when nothing merges |
| SharedTranscript.TruncateShared | crates/astrcode-core/src/llm.rs:487-560 | truncation on shared cells shows the owned truncation and allocates nothing |
| SharedTranscript.ProviderVisibleShared | crates/astrcode-core/src/llm.rs:355-464 | the shared path shows the owned path message by message, leaves every message of the snapshot as it was, and copies nothing where no merge is due |
| SharedTranscript.ProviderTranscriptShared | crates/astrcode-core/src/llm.rs:380-386 | the shared transcript without system messages shows the owned one and leaves the snapshot as it was |
| TranscriptExamples.DanglingCallSurvives | crates/astrcode-core/src/llm.rs:487-560 | an input whose normalised form keeps a call without an answer |
| TranscriptExamples.BufferedTextMergesLater | crates/astrcode-core/src/llm.rs:454-464 | an input whose output is legal and yet changes on the second pass |
| TranscriptExamples.AssistantRunMergesLater | crates/astrcode-core/src/llm.rs:466-485 | two assistant texts before a call: nobody interjects, and a second pass still merges |
| TranscriptExamples.SystemSeparatorBreaksFastPath | crates/astrcode-context/src/context.rs:138-174 | a snapshot without anchor on which the two estimates differ |
| TranscriptExamples.MergedAnchorBreaksFastPath | crates/astrcode-context/src/context.rs:138-223 | the same snapshot with an anchor: the covered messages are no prefix of the request, and the estimates differ |
| ContextEstimate.OwnRequestIsVerbatim | crates/astrcode-context/src/context.rs:127-136 | the own request is system prompt plus messages if and only if these are visible, merged and legal |
| ContextEstimate.FastPathAgrees | crates/astrcode-context/src/context.rs:138-223 | for such a snapshot both estimates agree, with or without anchor and for every window |
| ContextEstimate.TranscriptFastPath | crates/astrcode-context/src/context.rs:46-62 | a snapshot built from a transcript without system messages, with a silent assistant and no stranded text, is such a snapshot, anchored or not |
| ContextEstimate.AnchoringKeepsRange | crates/astrcode-context/src/context.rs:110-124 | an anchor is taken if and only if it covers no more messages than there are |
| ContextEstimate.SnapshotKeepsOrigins | crates/astrcode-context/src/context.rs:46-62 | a snapshot keeps the normalised messages and beside each its origin |
| ContextEstimate.PaddedIsFourThirds | crates/astrcode-context/src/token_estimate.rs:61-65 | the padding is the least number of tokens that is at least four thirds of the raw count |
| ContextEstimate.TextTokensAreQuarters | crates/astrcode-context/src/token_estimate.rs:77-84 | a text counts for the least number of tokens, at least one, with four characters to each |
| ContextEstimate.MessageCost | crates/astrcode-context/src/token_estimate.rs:68-119 | six tokens for a message, twelve for the form of a call, and every text that is sent |
| ContextEstimate.EstimatesInNumbers | crates/astrcode-context/src/context.rs:138-223 | below saturation both estimates are the padded cost of what is sent, or the anchor and the padded cost of what follows it, plus the tools |
| ContextEstimate.MergeTokens | crates/astrcode-context/src/token_estimate.rs:11-119 | each merge saves exactly one message overhead |
| ContextEstimate.TruncateTokens | crates/astrcode-context/src/token_estimate.rs:11-119 | truncation saves at least one overhead per dropped entry, and nothing when none is dropped |
| ContextEstimate.OwnRequestLength | crates/astrcode-context/src/context.rs:127-136 | the own request keeps its length if and only if nothing is left to merge and every round settles |
| ContextEstimate.UnanchoredFastPathExact | crates/astrcode-context/src/context.rs:138-223 | where no anchor is used and below saturation the estimates agree if and only if nothing is left to merge and every round settles |
| ContextEstimate.AnchoredFastPathExact | crates/astrcode-context/src/context.rs:138-223 | with an anchor and below saturation: where the covered messages are a prefix of the request, the estimates agree if and only if nothing is left to merge and every round settles; where they are not, if and only if the anchor makes up the difference; both at two successive token counts if and only if prefix, merged and settled |
| DeltaAccumulator.EmittedAddsUp | crates/astrcode-ai/src/common.rs:115-147 | what is sent downstream always adds up to the accumulated text |
| DeltaAccumulator.CumulativeYieldsLongest | crates/astrcode-ai/src/common.rs:115-147 | a cumulative stream yields exactly its longest fragment |
| DeltaAccumulator.BrokenStreamAppends | crates/astrcode-ai/src/common.rs:115-147 | from the first fragment that fits neither way on, everything is appended in full |
| DeltaAccumulator.StreamKinds | crates/astrcode-ai/src/common.rs:115-147 | every stream is of one of these two kinds |
| DeltaAccumulator.DeltasConcatenate | crates/astrcode-ai/src/common.rs:115-147 | a stream whose second non-empty fragment is incomparable with the first yields the concatenation of all |
| DeltaAccumulator.Accumulate | crates/astrcode-ai/src/common.rs:115-147 | a whole stream through the accumulator object: what it sends adds up to its text and never is empty, and the text is the longest fragment, or that of the cumulative beginning followed by everything after it |
| Retry.DelayWithinQuarter | crates/astrcode-ai/src/retry.rs:56-75 | for every draw the delay is within a quarter of the capped exponential |
| Retry.DelaysGrow | crates/astrcode-ai/src/retry.rs:56-75 | for all draws each delay exceeds the one before until the cap |
| Retry.DelayExactly | crates/astrcode-ai/src/retry.rs:56-75 | the exponential starts at the base and doubles, the cap is the maximum, and the draws reach from a quarter below to a quarter above |
| Retry.RetryableStatuses | crates/astrcode-ai/src/common.rs:467-483 | the retried statuses, and no others, and which count as success |
| Retry.SendsExactly | crates/astrcode-ai/src/common.rs:317-446 | which sends may be followed by another, and what the last one amounts to, status by status and outcome by outcome |
| Retry.Deliver | crates/astrcode-ai/src/common.rs:380-446 | a recovery is announced only directly after a retry, and the consumer then holds this response's events alone |
| Retry.RequestWithRetries | crates/astrcode-ai/src/common.rs:317-446 | for every behaviour of the network: at most 1 + max_retries + max_transport_retries sends; attempts numbered without gaps per kind; recovery directly after a retry; no retry of a stream that may have run a tool; the outcome is that of the last send, which is given up, streaming or not, only when one more send of its kind than its retries has been made; a consumer resetting at each retry holds the last response's events alone |
| AskUserModel.ValidateOptions | crates/astrcode-extension-ask-user/src/model.rs:225-277 | options are accepted if and only if titles are distinct and not blank and no preview meets multi-select |
| AskUserModel.ValidateInput | crates/astrcode-extension-ask-user/src/model.rs:225-277 | input is accepted if and only if it is one to four well-formed questions with different texts |
| AskUserModel.AutoRecommendedAnswers | crates/astrcode-extension-ask-user/src/model.rs:95-113 | there are automatic answers if and only if every question recommends something, and then they are those |
| AskUserModel.ChosenAnswers | crates/astrcode-extension-ask-user/src/model.rs:95-113 | every question is answered by what it recommends |
| AskUserModel.AutoAnswersPassValidation | crates/astrcode-extension-ask-user/src/model.rs:115-129 | automatic answers to accepted input always pass the validation of user answers |
| AskUserModel.AnswersOkExactly | crates/astrcode-extension-ask-user/src/model.rs:115-129 | answers are accepted if and only if every question has one, nothing else has one, and each has a character that is no whitespace |
| AskUserModel.RecommendedSplits | crates/astrcode-extension-ask-user/src/model.rs:95-113 | recommended titles are collected option by option, in order |
| AskUserModel.AutoAnswerExactly | crates/astrcode-extension-ask-user/src/model.rs:95-113 | a single choice gets the first recommended title, several get all of them, separated by commas |
| AskUserModel.DeadlineMatchesSelection | crates/astrcode-extension-ask-user/src/lib.rs:144-152 | a deadline is announced under the condition under which automatic selection succeeds |
| AskUserRegistry.PendingRegistry.Register | crates/astrcode-extension-ask-user/src/registry.rs:95-134 | a key is registered if and only if it is not pending; then it is pending and no longer resolved |
| AskUserRegistry.PendingRegistry.Resolve | crates/astrcode-extension-ask-user/src/registry.rs:252-269 | a pending key moves to resolved and its entry is handed out; otherwise the error tells resolved from unknown |
| AskUserRegistry.PendingRegistry.Answer | crates/astrcode-extension-ask-user/src/registry.rs:165-187 | uninterrupted, answers resolve if and only if they fit the pending question; a refusal changes nothing |
| AskUserRegistry.PendingRegistry.AutoSelectRecommended | crates/astrcode-extension-ask-user/src/registry.rs:195-216 | uninterrupted, automatic selection resolves if and only if every question recommends something, with answers that fit |
| AskUserProtocol.EveryInterleavingKeeps | crates/astrcode-extension-ask-user/src/registry.rs:95-357 | in every interleaving each registration is in exactly one of pending, taken, delivered and abandoned, pending and resolved keys are disjoint, and guards agree with both maps |
| AskUserProtocol.StepKeeps | crates/astrcode-extension-ask-user/src/registry.rs:95-357 | every single step keeps that invariant |
| AskUserProtocol.AtMostOneResolution | crates/astrcode-extension-ask-user/src/registry.rs:313-332 | a resolution never changes again in any continuation |
| AskUserProtocol.GuardSparesOthers | crates/astrcode-extension-ask-user/src/registry.rs:271-357 | whatever one guard does, every other registration, also of the same key, keeps its place, resolution and guard |
| AskUserProtocol.GoneForGood | crates/astrcode-extension-ask-user/src/registry.rs:334-357 | after its guard is dropped or disarmed, a registration is in neither map in any later state |
| AskUserProtocol.WaitingIsServed | crates/astrcode-extension-ask-user/src/lib.rs:157-195 | a waiting handler whose question is no longer pending has a resolution, delivered by the next send |
| AskUserProtocol.Perform | crates/astrcode-extension-ask-user/src/registry.rs:95-357 | every action carried out by the registry's methods, with the state outside of the lock changed by what they return, is a step of the protocol |
| AskUserProtocol.PerformAll | crates/astrcode-extension-ask-user/src/registry.rs:95-357 | every history carried out by the registry's methods is a run of the protocol; its maps never share a key, and what is pending was registered so and is unresolved |
| AskUserRouting.ResolvesOnlyCheckedExactly | crates/astrcode-extension-ask-user/src/registry.rs:165-216 | the second lock section of `answer` and of automatic selection resolves no other registration than the one checked if and only if the key is free or still pending under it; a pending one gets what was checked against it |
| AskUserRouting.ByKeyReachesExactly | crates/astrcode-extension-ask-user/src/registry.rs:189-220 | a rejection and a timeout resolve, each its own way, exactly the registration pending under their key |
| AskUserRouting.ShutdownReachesExactly | crates/astrcode-extension-ask-user/src/registry.rs:222-250 | a shutdown resolves exactly the pending registrations of its session, or all, and forgets exactly its resolved keys, or all |
| AskUserRouting.GuardEndsItsOwn | crates/astrcode-extension-ask-user/src/registry.rs:271-357 | a dropped guard cancels its own registration exactly if that is pending; a failed emission takes it out without a resolution |
| AskUserRouting.MissingExactly | crates/astrcode-extension-ask-user/src/registry.rs:252-269 | a key reported as resolved had a registration that was; a key just resolved is reported so |
| AskUserRouting.OwnedWithoutRegister | crates/astrcode-extension-ask-user/src/registry.rs:95-357 | in every run without a registration of the key that condition stays true |
| AskUserRouting.UndisturbedAnswersFit | crates/astrcode-extension-ask-user/src/registry.rs:95-357 | in every history in which no key is registered anew between check and resolution, every delivered answer, given or automatic, fits the question it is delivered to |
| AskUserRouting.AnswersFitFromStart | crates/astrcode-extension-ask-user/src/registry.rs:95-357 | in particular in every such history of a new registry |
| AskUserRouting.ReRegistrationMisroutes | crates/astrcode-extension-ask-user/src/registry.rs:165-187 | between the two lock sections the key can be registered anew, and the answers go to a question they do not fit |
| AskUserRouting.EveryRunNewest | crates/astrcode-extension-ask-user/src/registry.rs:95-134 | in every run the pending registration of a key is its newest |
| AskUserRouting.TimeoutReachesExactly | crates/astrcode-extension-ask-user/src/lib.rs:157-195 | after its timeout a handler's registration is resolved; another registration changes if and only if it is pending under the same key, and then it is newer and the handler's own was resolved before |
| AskUserRouting.TimeoutHitsNewer | crates/astrcode-extension-ask-user/src/registry.rs:218-220 | a history in which a handler's timeout ends a newer question |
| GoalStore.Store.ContinueAfterStop | crates/astrcode-extension-goal/src/lib.rs:283-310 | a step is granted exactly while the goal is active, and on the way the goal is limited exactly when usage has grown by its budget since its baseline |
| GoalLifecycle.EveryRunKeeps | crates/astrcode-extension-goal/src/store.rs:85-166 | in every run a continuation prompt is pending only while Active, a budget prompt only while BudgetLimited, and every pending id has been drawn |
| GoalLifecycle.RevisionRises | crates/astrcode-extension-goal/src/store.rs:85-166 | every change of a goal raises its revision, and nothing lowers it |
| GoalLifecycle.RevisionBounded | crates/astrcode-extension-goal/src/store.rs:85-166 | the revision counts operations, so it cannot saturate in a run of feasible length |
| GoalLifecycle.AcknowledgedOnce | crates/astrcode-extension-goal/src/store.rs:135-154 | a contribution takes effect at most once in every continuation, below the largest revision |
| GoalLifecycle.SaturatedRevisionRepeats | crates/astrcode-extension-goal/src/store.rs:135-154 | at the largest revision every budget transition can take effect again, so the bound is exact |
| GoalLifecycle.PreparedSettlesOnlyItsOwn | crates/astrcode-extension-goal/src/lib.rs:226-281 | a contribution prepared earlier that still takes effect settles the goal and prompt it was prepared for, unchanged |
| GoalLifecycle.BudgetStopsContinuation | crates/astrcode-extension-goal/src/lib.rs:283-310 | once usage has reached the budget at most one more step is granted, in every order of stop hook and acknowledgement, until a restart |
| GoalLifecycle.InactiveStaysInactive | crates/astrcode-extension-goal/src/lib.rs:283-310 | without a restart an inactive goal is granted nothing |
| GoalLifecycle.StopsGrantedExactly | crates/astrcode-extension-goal/src/lib.rs:283-310 | every one of a series of stops of an active goal is granted if and only if the budget is reached at none but possibly the last |
| GoalLifecycle.BudgetInNumbers | crates/astrcode-extension-goal/src/lib.rs:92-114 | the budget of an active goal is reached if and only if usage has grown by it since the baseline |
| GoalLifecycle.NewGoalStopsInNumbers | crates/astrcode-extension-goal/src/lib.rs:283-310 | a new goal is granted every one of a series of stops if and only if at none but possibly the last usage has grown by the budget since its creation |
| GoalLifecycle.AdjustedStopsInNumbers | crates/astrcode-extension-goal/src/store.rs:289-303 | the same of a new budget, counted from the old baseline |
| GoalLifecycle.UnmeasuredNeverStops | crates/astrcode-extension-goal/src/lib.rs:92-114 | so a goal without budget, or created while usage could not be read, is never stopped, nor is any goal while usage cannot be read |
| GoalLifecycle.CreateExactly | crates/astrcode-extension-goal/src/store.rs:221-247 | when a goal is created, and everything it starts with |
| GoalLifecycle.ReactivationExactly | crates/astrcode-extension-goal/src/store.rs:267-303 | which goals can be resumed or given a new budget, and that both keep the goal, its baseline and its count |
| GoalLifecycle.DeactivationExactly | crates/astrcode-extension-goal/src/store.rs:212-265 | pausing, finishing and clearing |
| GoalLifecycle.GrantedStopIsPrompted | crates/astrcode-extension-goal/src/lib.rs:226-310 | the prompt that a granted stop leaves, under a fresh id, is what the next request is offered, and continuations are counted |
| GoalLifecycle.OfferedTakesEffect | crates/astrcode-extension-goal/src/lib.rs:226-281 | what is offered can be acknowledged, and acknowledging settles that prompt or limits the goal |
| GoalLifecycle.NothingOfferedExactly | crates/astrcode-extension-goal/src/lib.rs:226-272 | nothing is offered if and only if nothing is due |
| GoalLifecycle.Perform | crates/astrcode-extension-goal/src/store.rs:85-303 | every operation carried out by the store's methods on the saved goal is a step of the lifecycle, and grants what that grants |
| GoalLifecycle.PerformAll | crates/astrcode-extension-goal/src/store.rs:85-303 | every session carried out by the store's methods is a run of the lifecycle, grants what the run counts, and ends with prompts that agree with the status |
| DependencyCheck.CycleDetector.Dfs | scripts/check-deps.py:191-213 | the search ends, blackens its node, keeps the path a simple walk, and leaves every finished node's dependencies finished unless a cycle was reported |
| DependencyCheck.CycleDetector.Detect | scripts/check-deps.py:191-213 | every reported list is a simple closed walk along edges, and the report is empty if and only if the graph has no cycle |
| DependencyCheck.TopologicalIsAcyclic | scripts/check-deps.py:191-213 | the order in which nodes finish, when it is topological, excludes every closed walk |
| DependencyCheck.LayerViolations | scripts/check-deps.py:272-283 | exactly the dependencies against the layers that are not excepted are reported |
| DependencyCheck.LayersExcludeCycles | scripts/check-deps.py:272-283 | a graph that passes the layer rule has no cycle, given harmless exceptions |
| DependencyCheck.AllowedExceptionsAreHarmless | scripts/check-deps.py:84-90 | the exceptions in force are harmless for every layering that keeps each pair together |
| ProjectKey.EncodeProjectPathComponent | crates/astrcode-core/src/types.rs:183-193 | the encoding loop, as the function that decoding inverts |
| ProjectKey.HumanProjectKey | crates/astrcode-core/src/types.rs:163-181 | the key loop, with its trimming, its drive colon and its fallback, as the function the laws are about |
| ProjectKey.ComponentsAreNames | crates/astrcode-core/src/types.rs:163-181 | for every path: the components are its names between separators of either kind, whatever surrounds it, without a drive's colon |
| ProjectKey.EncodeCharExactly | crates/astrcode-core/src/types.rs:183-212 | exactly control characters, those with a meaning to a file system, the percent sign and the dash are encoded |
| ProjectKey.KeyIsSafe | crates/astrcode-core/src/types.rs:163-212 | no key contains such a character |
| ProjectKey.PartInverts | crates/astrcode-core/src/types.rs:183-212 | percent-decoding (RFC 3986 section 2.1) and then UTF-8 decoding inverts the encoding of every component |
| ProjectKey.KeyDecodes | crates/astrcode-core/src/types.rs:163-212 | every key with at least one component decodes back to the component list |
| ProjectKey.KeysCollideExactly | crates/astrcode-core/src/types.rs:163-212 | two paths share a key if and only if their canonical component lists are equal |
| ProjectKey.ColonCollides | crates/astrcode-core/src/types.rs:163-181 | an instance: a lone colon and a path whose only component is a colon share a key |
| ProjectKey.KeysConfuseOnlyColon | crates/astrcode-core/src/types.rs:163-212 | keys confuse different component lists if and only if one path is a colon between separators and the other's only component is a colon |
| McpNames.NormalizeComponent | crates/astrcode-extension-mcp/src/names.rs:7-22 | the loop with its separator flag yields the name's words, in lower case, joined by single underscores |
| McpNames.NormalChars | crates/astrcode-extension-mcp/src/names.rs:7-22 | a normalised name has small letters, digits and underscores only |
| McpNames.NormalIsIdempotent | crates/astrcode-extension-mcp/src/names.rs:7-22 | normalising again changes nothing, and the words stay |
| McpNames.CaseIsIrrelevant | crates/astrcode-extension-mcp/src/names.rs:7-22 | names that differ in case have the same words |
| McpNames.BuildToolName | crates/astrcode-extension-mcp/src/names.rs:1-5 | there is a name exactly when server and tool both have a word, and its spelling |
| McpNames.NamesIdentifyWords | crates/astrcode-extension-mcp/src/names.rs:1-22 | two names are equal if and only if server and tool agree word by word |
| McpNames.PiecesSplit | crates/astrcode-extension-mcp/src/names.rs:1-5 | a built name parses back into the words it was built from |
| McpDiscovery.DiscoverFromPool | crates/astrcode-extension-mcp/src/lib.rs:430-466 | the index knows exactly the offered names and sends each to its first offer; candidates are the first offers; every other offer and every failed server, and nothing else, is noted, in order, with its reason |
| McpDiscovery.WinnersAreFirst | crates/astrcode-extension-mcp/src/lib.rs:430-466 | candidates are the first offers of their names, in discovery order, each name once |
| McpDiscovery.AdvertisedIsServed | crates/astrcode-extension-mcp/src/lib.rs:430-466 | an advertised name is sent to the tool it was advertised for, and every name in the index is advertised |
| McpDiscovery.CallReachesFirst | crates/astrcode-extension-mcp/src/lib.rs:430-466 | a call of an offered name goes to the earliest offer that agrees with it word by word |
| EvalRunner.EnforcePatchBudget | crates/astrcode-eval/src/runner.rs:214-232 | a patch is kept exactly if it fits, a dropped one fails its result, and the count stays the size of what is kept |
| EvalRunner.DroppedFails | crates/astrcode-eval/src/runner.rs:224-232 | a result whose patch is dropped fails, says why, brings no patch and stays of the same run |
| EvalRunner.TakeResumed | crates/astrcode-eval/src/runner.rs:99-124 | a checkpoint is accepted if and only if its results are of different known cases within the limit; the error names the first offender; saturation does not change the verdict |
| EvalRunner.PrefixIsAcceptable | crates/astrcode-eval/src/runner.rs:99-124 | a checkpoint cut short anywhere stays acceptable |
| EvalRunner.SortAscends | crates/astrcode-eval/src/runner.rs:189 | sorting results with distinct case indices puts them in strict case order |
| EvalRun.RunAll | crates/astrcode-eval/src/runner.rs:86-195 | for every order of completion and every set of failed writes: one result per case in case order with resumed ones verbatim, if and only if no resumed id is shared by two cases; a patch is dropped only if it does not fit beside all that are kept; the limit always holds; the checkpoint holds what was reported and written, and is acceptable if and only if no two cases with the same id were both run and written |
| EvalRun.LengthExactly | crates/astrcode-eval/src/runner.rs:126-195 | the report has as many results as cases if and only if no resumed id is shared |
| EvalRun.ReportIsRight | crates/astrcode-eval/src/runner.rs:179-195 | whatever the order in which results arrived, the sorted report is the right one |
| EvalRun.CheckpointIsRight | crates/astrcode-eval/src/runner.rs:179-187 | the checkpoint holds the resumed results and every result whose write succeeded |
| EvalRun.FileAcceptableExactly | crates/astrcode-eval/src/runner.rs:99-187 | the checkpoint left behind is acceptable if and only if no two cases with the same id were both run and written |
| EvalRun.DistinctIdsAreEnough | crates/astrcode-eval/src/runner.rs:86-124 | distinct case ids are enough for both conditions |
| EvalRun.ResumeKeepsResults | crates/astrcode-eval/src/runner.rs:86-195 | a run resumed from any prefix of a run's checkpoint reports every checkpointed result as that run did; from a complete checkpoint it repeats the whole report |

## Left out

- HTTP, sockets, headers, endpoint redaction and keyword classification of error texts: foreign behaviour or one-branch facts; their outcomes are inputs here.
- JSON and serde: messages, checkpoint lines and goal files are values; a line torn by a crash in the middle of a write is not modelled.
- Prompt texts, tool definitions and the wording of goal contributions.
- Building system messages from the prompt: any list of visible system messages is allowed.
- The extensions' S5R runtime, user interfaces, installers, git and Docker: plumbing.
- MCP configuration refresh, server processes and their pool: the answers of the servers are inputs.
- File locks and atomic replacement around the goal file: load, change and save count as one step.
- The `select!` wait loop of the ask-user handler is not a method; what it relies on is WaitingIsServed and TimeoutReachesExactly.
- Clocks, deadlines and UUID generation: draws are parameters, and GoalLifecycle hands out fresh ones.
- Metrics and the summary of an evaluation report, and the running of a case itself.
- RequestWithRetries: how long the loop sleeps is stated by the delay lemmas, not by the loop, because the model has no clock.
- DelayWithinQuarter: stated for exponentials that fit 64 bits, where the source's multiplication does not overflow.
- UnanchoredFastPathExact: stated below saturation, because saturated estimates agree whatever they estimate.
- AnchoredFastPathExact: likewise.
- AllowedExceptionsAreHarmless: the layer table is a parameter, and only what it has to satisfy is stated.
- DiscoverFromPool: a diagnostic is its kind and its names; the wording is not modelled.
- EnforcePatchBudget: takes and returns the result instead of editing it through a reference, which no one else holds.
- SortAscends: the library's sort is modelled as an insertion sort on values.
- Token sums are unbounded until the padded total, where saturation is modelled.
