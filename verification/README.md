# Verification model of the OCG core

OCG orchestrates coding agents: it decodes provider streams, runs their tool calls, edits files,
serves a resumable chat tail, and keeps registries, profiles and fingerprints. This project models
the mechanisms of that core whose correctness is not visible in any single function, and proves
what they promise over every input, every run and every interleaving.

Stateful code is modelled by classes and methods with loops, each tied by its `ensures` to a
function of the old state; the promises are proved about those functions. Concurrency is modelled
as labelled steps over a shared state, one atomic operation to a step, with inductive invariants.
I/O failures, foreign writers, clocks, the provider and JSON parsing are parameters, so theorems
hold whatever they do.

- `ChatTail`, `ChatResume`, `LaneAdmission`: the resumable event stream and the two-lane admission of the control server.
- `Splice`, `Editor`, `EditOutcomes`, `EditCalls`: the transactional editor, from tool arguments to the committed file.
- `Utf8`, `Sse`, `SseLaws`: the incremental event-stream decoder.
- `AnthropicStream`, `AnthropicStreamLaws`, `ChatSummary`, `RoundInput`: reassembly of tool calls from block events.
- `AnthropicRound`, `AnthropicRoundLaws`: one round as a whole, from the bytes of the answer to its tool calls.
- `AnthropicRequest`, `ToolLoop`, `RequestContent`: the provider loop and the conversation it sends.
- `Facts`, `Resources`, `ResourceLaws`, `RecordHistory`, `RegistryStore`, `IdentityKeys`: the resource registry.
- `CallSchema`, `CallSchemaLaws`, `CallRecovery`, `CallRecoveryLaws`, `RecoveryInput`: argument repair.
- `Derived`, `CompilerFeedback`, `FeedbackInput`: the two diffs.
- `Profiles`, `ProfileStore`, `ProfileStoreLaws`, `ProfileOutcomes`: Profile and Vault as one transaction.
- `Calendar`, `Timestamps`, `Fingerprints`, `Setup`: dates, canonical forms and keys.
- `Options`, `Strings`: shared definitions, the byte order of text among them.

Each mechanism is proved against itself, as invariants over its runs, and against its input: `RoundInput`,
`RequestContent`, `EditOutcomes`, `RecoveryInput`, `FeedbackInput`, `RecordHistory` and `ProfileOutcomes` read
the answer off the input without the code's own steps.

`dafny verify dfyconfig.toml` checks everything.

## Where the code and its own description differ

The model follows the code. Each difference below is a lemma.

- The tail stops on a payload that contains `"error"`, meant for transport errors
  (`src/control_server.rs:1460-1464`). It also stops on a text delta that is `error` or ends in
  `"error`, and on no other delta (`ChatTail.MarksErrorOnText`, `StopsIff`). A client can then miss the
  rest of the turn (`ErrorDeltaTruncatesTurn`); a tail forwards everything there is if and only if no
  event between its resume point and the last one stops it (`CompleteIffUnmarked`).
- A stream can be refused although no stream is live, because another refused probe has not been
  taken back yet (`LaneAdmission.SpuriousStreamRefusal`; exactly when: `StreamRefusalExact`).
- A failed edit normally wrote nothing; when the directory sync after the rename fails, the call
  reports an I/O failure for an edit that is in the file (`Editor.FailedCallWrote`), and in no other
  case (`FailureWroteNothing`).
- Recovery never overwrites a supplied value by renaming, but a rebinding overwrites a value that was
  just renamed into the target: an edit of `b` spelled with `path` is dispatched as an edit of `a`
  (`CallRecoveryLaws.RebindingOverwritesRename`; exactly when: `RenamedSurvivesIff`). With two undeclared
  fields it never dispatches, and it can ask the model for no field at all (`AsksForNothing`; exactly
  when: `AsksForNothingIff`).
- The comment on `Diagnostic::identity` says text is excluded; the message is part of it
  (`CompilerFeedback.IdentityIsEverything`). Two different diagnostics can share an identity, and the
  second is then not listed (`IdentityCollides`; exactly when: `SharesIff`).
- Account and protocol are meant to keep resource identities apart, but values are joined unescaped
  (`IdentityKeys.KeysCollide`): every identity with two known dimensions shares its key with another
  one, and one with a single known value exactly when that value can be read as two (`SharesIff`).
- Merging never erases a known fact, but the bound can: a resource that was dropped and comes back has
  lost what was known of it (`ResourceLaws.FactForgotten`; exactly when: `NothingForgottenIff`).
- A credential can be removed while the Profile names it (`ProfileStoreLaws.NamedCredentialRemoved`);
  nothing else leaves a named credential missing (`NamedCredentialsAreStored`).
- Invalid bytes are meant to be dropped alone. What stands behind them waits for the next chunk, one
  broken sequence a chunk, and is lost when there is none (`SseLaws.StrayByteHides`; exactly what is lost:
  `LostIsLeft`; exactly when the chunking matters: `CutsNeverMatterIff`).
- A JSON answer whose leading white space comes in a chunk of its own is read as an event stream, and the
  round fails (`AnthropicRoundLaws.JsonRoundIff`).
- Set-up accepts credential names with a leading digit, which the Vault refuses
  (`Setup.AcceptableVersusVault`; exactly when: `NormalizeCredentialRef`), and its last resort can be a
  name in use (`Setup.FallbackCollides`).

## Model

| member | source | states |
|---|---|---|
| ChatTail.ChatBuffer.Forward | src/orchestration/canonical_control.rs:1812-1831 | The forwarder appends every event and goes on exactly until a terminal one. |
| ChatTail.TailHandler.constructor | src/control_server.rs:1349-1365 | Attaching resumes after the presented id, clamped to the buffer. |
| ChatTail.TailHandler.Drain | src/control_server.rs:1378-1421 | A batch is everything that arrived since the last one. |
| ChatTail.TailHandler.Expire | src/control_server.rs:1367-1377 | A timeout ends the tail with a notice that carries no id. |
| ChatTail.TailHandler.Ping | src/control_server.rs:1404-1418 | A heartbeat changes nothing, or ends the loop as a disconnect when it cannot be written. |
| ChatTail.TailHandler.Forward | src/control_server.rs:1423-1503 | One event is framed with its stable sequence number, or dropped, and stops the tail on a terminal, on a marked payload or on a failed write. |
| ChatTail.TailHandler.Send | src/control_server.rs:1423-1503 | A batch is forwarded up to the first stop. |
| ChatTail.StepKeepsInv | src/control_server.rs:1343-1511 | Every step of producer, handlers and client keeps the invariant: what is on any wire continues the client's prefix in order. |
| ChatTail.ReceivedExactly | src/control_server.rs:1343-1511 | Over every interleaving of appends, writes, cuts and reattachments the frames received are exactly the visible projection of the buffer up to the last id, each once, ids strictly increasing. |
| ChatTail.TerminalMeansComplete | src/control_server.rs:1485-1503 | A client that received the terminal frame received every visible event of the turn. |
| ChatTail.FinishedAtStop | src/control_server.rs:1460-1510 | A tail that ends without a disconnect stopped at a stopping event, the last of a finished turn exactly when it is terminal. |
| ChatTail.CompleteIffUnmarked | src/control_server.rs:1343-1511 | A handler that attached and is done, undisturbed, forwarded everything there is if and only if no event between its resume point and the last one stops a tail. |
| ChatTail.MarksErrorOnText | src/control_server.rs:1434-1464 | The substring test fires on a delta if and only if the delta is `error` or ends in `"error`. |
| ChatTail.MarksErrorOnOthers | src/control_server.rs:1434-1464 | On the other frames the test fires on provider errors and failures, whatever they say, and not on the finish. |
| ChatTail.StopsIff | src/control_server.rs:1460-1464 | Exactly which events stop a tail, by their kind and text. |
| ChatTail.ErrorDeltaTruncatesTurn | src/control_server.rs:1460-1464 | A run in which such a delta ends the tail of a turn that finished. |
| ChatResume.RegisteredIff | src/control_server.rs:1508-1512 | A chat stays registered as long as nobody removed it, its deadline has not passed and no handler left with its socket intact. |
| ChatResume.OverWithFirstEnd | src/orchestration/canonical_control.rs:1812-1831 | A turn is over with its first failure or finish, and not before. |
| ChatResume.CutClientCompletes | src/control_server.rs:1343-1512 | While the chat is registered a cut client that comes back gets the whole turn so far from one undisturbed connection, unless an event between its resume point and the last ends a tail. |
| ChatResume.ExpiryTells | src/control_server.rs:1367-1377 | The deadline tells the client so, without an id, and ends tail and chat. |
| ChatResume.FrameTells | src/control_server.rs:1434-1503 | Every frame names the kind of its event under its own key, and its text can be read back. |
| ChatResume.FramesTellApart | src/control_server.rs:1434-1503 | Two events have one frame only if they are of one kind and text, the two kinds of failure aside. |
| LaneAdmission.StepKeepsInv | src/control_server.rs:268-319 | Every atomic step keeps counters equal to occupancy. |
| LaneAdmission.CountersAreOccupancy | src/control_server.rs:268-319 | In every interleaving each counter is its live guards plus the probes in flight, guards stay within the bound, and no counter wraps. |
| LaneAdmission.QuiescentIsZero | src/control_server.rs:311-319 | When all connections are gone both counters are zero: no slot leaks or is freed twice, lane switches included. |
| LaneAdmission.ClientRefusalExact | src/control_server.rs:268-283 | A short request is refused if and only if `max_clients` guards are live. |
| LaneAdmission.StreamRefusalExact | src/control_server.rs:455-470 | A stream is refused if and only if live guards and probes about to be refused fill the lane. |
| LaneAdmission.SpuriousStreamRefusal | src/control_server.rs:455-470 | A reachable state in which a stream is refused with no stream guard live. |
| LaneAdmission.AllCanFinish | src/control_server.rs:268-319 | From every reachable state all connections can finish by their own next steps, and then both lanes are empty. |
| Splice.ResolveIffUnique | src/edit.rs:324-364 | A targeted edit succeeds if and only if its needle has a unique match, overlaps not counted, and then one range is replaced and all other text stays. |
| Splice.ResolvesExactly | src/edit.rs:324-364 | By text and target alone: what is sought is the target, or else the target in the line ends of the text; it is replaced where it matches uniquely, ambiguous when it occurs again past a match, missing when it does not occur. |
| Splice.NothingSought | src/edit.rs:331-343 | Where neither the target nor a form of it in other line ends can be sought it is missing. |
| Splice.OutcomesAreAll | src/edit.rs:324-364 | What is sought is one text, and the three outcomes are all there are. |
| Splice.InsertsAreReplaces | src/edit.rs:353-364 | Inserts equal a replace by content and needle in the right order. |
| Splice.ReversesIff | src/edit.rs:324-364 | A replace, by a recovered needle or not, is undone by the reverse exact replace of what was matched if and only if the new content is non-empty and is, where it was put, the unique match in the new text. |
| Splice.ReverseRestores | src/edit.rs:324-364 | So it is whenever the new content is non-empty and occurs once, overlaps counted. |
| Splice.ReverseDespiteOverlap | src/edit.rs:344-352 | That is not necessary: an edit that is undone although its content occurs twice. |
| Splice.ReverseNeedsUniqueness | src/edit.rs:344-352 | A concrete edit whose reverse goes elsewhere, because matches are counted without overlaps. |
| Splice.RecoveryKeepsLines | src/edit.rs:331-343 | A recovered needle differs from the requested target in line endings only. |
| EditCalls.BuiltIsCanonical | src/edit.rs:86-182 | Whatever construction accepts is never refused as ill-formed by the executor's own guards at lines 208-214. |
| EditCalls.SpelledIsBuilt | src/edit.rs:86-182 | Every canonical call has a spelling, and construction gives that call back. |
| EditCalls.BuiltIff | src/edit.rs:86-182 | Construction accepts exactly the arguments that fit the advertised tool schema, give the operation its own fields, and have a proper digest, file and target. |
| EditCalls.BuiltSays | src/edit.rs:86-182 | What is built has the operation, file, target and text of the arguments, and their revision in lower case. |
| Editor.Try | src/edit.rs:245-320 | One pass of the loop: snapshot, plan, second read, rename, with a fault at any step. |
| Editor.Apply | src/edit.rs:200-321 | The whole call equals the specification: its result and every write it and others made. |
| Editor.CallOutcome | src/edit.rs:244-320 | A call leaves no write of its own or exactly one, the resolution of the very content it replaces; a stale append or stale recovery never commits; flags tell how; at most two retries. |
| Editor.FailureWroteNothing | src/edit.rs:305-311 | A failed call wrote nothing if and only if it was not the directory sync after its rename that failed. |
| Editor.FailedCallWrote | src/edit.rs:305-311 | A failed append whose text is in the file. |
| Editor.QuietCall | src/edit.rs:244-320 | Undisturbed, a call succeeds at once if and only if its request resolves and is neither a stale append nor a stale recovery. |
| EditOutcomes.CallDecided | src/edit.rs:200-321 | A call is decided by its first pass that does not meet a change between its readings, or by the third, as that reading and the faults say; only then, with nothing in the way, does it commit. |
| Editor.NoLostUpdate | src/edit.rs:231-320 | In every run of cooperating editors with foreign writes at the hook no commit is computed from anything but the content it replaces. |
| Utf8.PrefixOfValid | src/provider_loop.rs:274-284 | Cut anywhere, valid text loses nothing: the undecoded rest continues validly with the bytes to come. |
| Utf8.RestIsShort | src/provider_loop.rs:274-284 | What stays undecoded never starts a complete character. |
| Utf8.ScalarIff | src/provider_loop.rs:274-284 | A character is found exactly where the text begins with the encoding of a scalar value (section 3 of RFC 3629). |
| Utf8.TruncatedIff | src/provider_loop.rs:274-284 | More bytes are awaited exactly behind a proper beginning of an encoding. |
| Utf8.BrokenDropsMost | src/provider_loop.rs:274-284 | Otherwise the longest beginning of an encoding is dropped, or one byte that begins none. |
| Sse.SseAccumulator.Consume | src/provider_loop.rs:207-214 | A chunk has the effect of the byte-wise reference decoder on its decodable prefix. |
| Sse.SseAccumulator.DrainCompleteLines | src/provider_loop.rs:220-238 | Draining equals folding the buffered text line by line. |
| Sse.SseAccumulator.Finish | src/provider_loop.rs:216-238 | End of stream treats a residue as a last line and closes the last event. |
| SseLaws.LostIsLeft | src/provider_loop.rs:207-214 | Of any bytes, however cut, the complete characters come out in order up to those of the undecoded end: besides broken sequences exactly that end is lost. |
| SseLaws.LeftIsTheEnd | src/provider_loop.rs:207-214 | The undecoded end is the end of what came. |
| SseLaws.CutsNeverMatterIff | src/provider_loop.rs:274-284 | Every chunking decodes to the same text if and only if no complete character stands behind the first broken sequence. |
| SseLaws.OneChunkStops | src/provider_loop.rs:207-214 | In one chunk everything behind the first broken sequence is lost. |
| SseLaws.StrayByteHides | src/provider_loop.rs:274-284 | A stray byte hides the event behind it in one chunk, and not in a chunk of its own. |
| SseLaws.RoundIsOfScanned | src/provider_loop.rs:181-284 | For any bytes and any split a round gives the events of one decode of the text the chunks decode to, where that has its terminal event last. |
| SseLaws.ChunkInvariance | src/provider_loop.rs:181-284 | Any split of a valid UTF-8 body with its terminal event last gives the events of one whole-body decode, or fails exactly when that fails. |
| SseLaws.EncodedEventsDecode | src/provider_loop.rs:216-272 | Whatever lines are sent, with either line end, with or without the space, other fields in between and a last event that was never closed, the decoder yields one value per payload, none for `[DONE]`, or fails when some payload has no value. |
| SseLaws.JoinedLines | src/provider_loop.rs:240-272 | The lines of a payload are joined by newlines. |
| SseLaws.IsDoneIff | src/provider_loop.rs:240-272 | The terminal payload is `[DONE]` between white space. |
| SseLaws.ModeOfFirstChunk | src/provider_loop.rs:164-174 | The mode chosen from the first chunk is that of the whole body if and only if the body is an event stream or the chunk reaches past the leading white space. |
| SseLaws.DetectModeIff | src/provider_loop.rs:164-174 | A chunk is taken for JSON exactly when a brace or bracket follows its ASCII white space. |
| AnthropicStream.AnthropicStreamState.Consume | src/anthropic/stream.rs:65-141 | One event has the specified effect on blocks, numbering, closure and emitted events. |
| AnthropicStream.AnthropicStreamState.StartBlock | src/anthropic/stream.rs:160-217 | A `tool_use` start takes the next index and the slot, whatever the slot held. |
| AnthropicStream.AnthropicStreamState.DeltaBlock | src/anthropic/stream.rs:219-267 | A fragment extends the block open on its index. |
| AnthropicStream.AnthropicStreamState.StopBlock | src/anthropic/stream.rs:269-290 | A stop removes the block and emits its completion, `{}` for blank arguments. |
| AnthropicStream.AnthropicStreamState.Finish | src/anthropic/stream.rs:143-158 | A round is accepted only closed, with a stop reason, without failure or open block. |
| AnthropicStreamLaws.StepKeepsInv | src/anthropic/stream.rs:65-290 | Every event keeps the numbering dense and every open block equal to the story of its own call. |
| AnthropicStreamLaws.ToolCallsReassembled | src/anthropic/stream.rs:65-290 | In an accepted round starts are numbered 0 to n-1 in order, and each has exactly one later completion with its id, name and concatenated fragments if and only if no start reused an open index. |
| RoundInput.RoundIsItsEvents | src/anthropic/stream.rs:65-290 | By the events alone: the summary of a round has their texts and thoughts and, per `tool_use` start, its id, name and the concatenation of its input with the fragments on its index up to its end; the round runs unless there are too many calls, and is accepted exactly when `message_stop` closes it after a stop reason with no call open. |
| RoundInput.RoundAnnounces | src/anthropic/stream.rs:65-141 | Besides its calls a round hands on its start, texts, thoughts and failure, piece by piece and in order. |
| ChatSummary.FinishedRoundCalls | src/openai_compatible/stream.rs:122-187 | An accepted round hands on one tool call per start, in order, told by its own events alone; a completed one is what its completion announced, and all are completed if and only if no open index was reused. |
| ChatSummary.StartAgain | src/openai_compatible/stream.rs:122-187 | A repeated start keeps the arguments so far, that of another call drops them. |
| AnthropicRound.AnthropicRoundState.Consume | src/provider_loop.rs:1958-1985 | A chunk has the specified effect on decoder, blocks and summary, and reading goes on until the terminal event. |
| AnthropicRound.AnthropicRoundState.Finish | src/provider_loop.rs:1987-2012 | The end of the stream flushes what is left, closes the round and validates its arguments. |
| AnthropicRound.ValidateArguments | src/anthropic/stream.rs:440-465 | Accepts exactly the calls whose arguments are all non-blank JSON objects. |
| AnthropicRound.Drive | src/provider_loop.rs:2209-2290 | The round over all its chunks has the specified outcome. |
| AnthropicRoundLaws.RoundIsOfScanned | src/provider_loop.rs:1931-2012 | For any bytes and any split, a round read as an event stream has the outcome of one decode of the text the chunks decode to, where that has `message_stop` last. |
| AnthropicRoundLaws.RoundIsOneDecode | src/provider_loop.rs:1931-2012 | Any split of a valid UTF-8 event-stream body with `message_stop` last has the outcome of one whole-body decode. |
| AnthropicRoundLaws.RoundIsItsBody | src/provider_loop.rs:1931-2012 | From bytes to summary: the outcome of an event-stream round is what the events in its decoded text say, or a failure exactly when they make no acceptable round. |
| AnthropicRoundLaws.JsonRoundIff | src/provider_loop.rs:1960-2000 | A JSON body is answered by the completion decoder if and only if the first chunk reaches past its leading white space; otherwise the round fails. |
| AnthropicRoundLaws.JsonChunksNeverMatterIff | src/provider_loop.rs:164-174 | So, empty first chunks aside, the chunking of an acceptable JSON body never matters if and only if it does not start with white space. |
| AnthropicRoundLaws.ChunksNeverMatter | src/provider_loop.rs:1931-2012 | Two splits of one body have one outcome, and an accepted one holds one call per start, in order, as its own events tell it, with valid arguments. |
| AnthropicRoundLaws.AcceptedRoundsEncode | src/anthropic/stream.rs:440-465 | Whatever bytes the endpoint answered with and however they were cut, each conversation the loop sends encodes if and only if the context does. |
| AnthropicRequest.MergeRoles | src/anthropic/request.rs:252-278 | The merging loop computes the specified merge. |
| AnthropicRequest.MergeLaws | src/anthropic/request.rs:252-278 | Merged roles strictly alternate and the flattened (role, block) sequence is unchanged. |
| AnthropicRequest.MergeIdempotent | src/anthropic/request.rs:252-278 | Merging twice is merging once. |
| ToolLoop.ChatRequest.PushResults | src/provider_loop.rs:1366-1422 | Results are pushed call by call until one is interrupted. |
| ToolLoop.ChatRequest.Execute | src/provider_loop.rs:1321-1433 | The loop returns the specified answer or error and sends the specified requests, at least one and at most 32. |
| ToolLoop.EverySentRequestPaired | src/provider_loop.rs:1321-1425 | At every `provider.complete` each assistant message the loop pushed is followed by exactly one tool message per call, same ids in order. |
| ToolLoop.SentEncodesIff | src/anthropic/request.rs:24-220 | With the arguments the round lets through, each sent conversation encodes if and only if the context does. |
| ToolLoop.PairedEncodesAnswered | src/anthropic/request.rs:136-220 | A paired conversation whose calls are whole encodes, to alternating turns in which each use is answered in the very next user turn. |
| ToolLoop.EncodedRequestAnswered | src/anthropic/request.rs:24-112 | So behind any context that encodes every request the loop sends encodes, alternates in full, and answers each use in the very next user turn. |
| RequestContent.RequestsAre | src/provider_loop.rs:1321-1433 | Every request is the context and, per round so far, the answer with its calls and then the result of each call; the loop goes on exactly as long as rounds call tools and get all results, up to 32, and ends as its last round says. |
| RequestContent.RequestSays | src/anthropic/request.rs:136-220 | On the wire stand behind the context exactly the text and use blocks of each answer, with parsed arguments, and a result block per call with the very text of the result. |
| RequestContent.ConversationSays | src/anthropic/request.rs:136-278 | A conversation that encodes says what its messages say, non-empty texts, calls and results, one after the other. |
| RequestContent.SystemLifted | src/anthropic/request.rs:143-148 | A system message is lifted out with its non-empty texts. |
| Facts.MergeAssociative | src/resources.rs:152-167 | Merging facts is associative. |
| Facts.NothingIsUnit | src/resources.rs:152-167 | The unknown fact is a right unit, and a left unit exactly for known facts and itself. |
| Facts.LaterWinsIff | src/resources.rs:152-167 | Of two known facts the later wins exactly when its source is stronger, or as strong and the fact no older. |
| Facts.FoldIsWinner | src/resources.rs:152-167 | A fold keeps the last fact among those maximal in (rank, time) and never loses a known value. |
| Facts.FoldPermutes | src/resources.rs:152-167 | With distinct (rank, time) keys arrival order is immaterial. |
| Resources.ResourceRegistry.EnforceBound | src/resources.rs:751-765 | Everything past the first 64 entries in rank order is removed, with its configured uses. |
| Resources.ResourceRegistry.MergeIn | src/resources.rs:731-749 | An observation is merged or inserted, then the bound is enforced. |
| Resources.ResourceRegistry.RegisterConfigured | src/resources.rs:618-635 | A configured use is remembered, at most the last 16, with an observation of its resource. |
| ResourceLaws.BoundedIsTop | src/resources.rs:751-765 | Everything kept outranks everything dropped by (time, key), and exactly 64 are kept when there are more. |
| ResourceLaws.RegistryIsTopOfHistory | src/resources.rs:616-765 | For every run from an empty registry with arbitrary, even backward, times the retained keys are the top 64 of the unbounded history by (largest time ever, key). |
| ResourceLaws.HistoryIsLargestTimes | src/resources.rs:731-749 | That history is exactly the keys observed with the largest time of each. |
| ResourceLaws.FactsAreFoldsSince | src/resources.rs:433-453 | In every run each fact of a record is the fold of what was reported since the record last came into the registry. |
| ResourceLaws.NothingForgottenIff | src/resources.rs:618-635 | It equals the fold of everything ever reported if and only if nothing known was lost with an earlier record, or something at least as strong and no older was reported since. |
| ResourceLaws.FactsAreFolds | src/resources.rs:433-453 | A resource that was never dropped is in the registry, and its facts are the folds of everything reported for it. |
| ResourceLaws.FewAreNeverDropped | src/resources.rs:618-635 | While at most 64 resources were named none was dropped. |
| ResourceLaws.FactForgotten | src/resources.rs:618-635 | A run of 65 resources in which a known fact of the first is gone when it comes back. |
| ResourceLaws.KnownStaysKnown | src/resources.rs:432-453 | A known fact of a retained resource never becomes unknown. |
| ResourceLaws.HealthAssociativeIff | src/resources.rs:456-466 | Exactly when merging three health observations, unknown ones included, is associative. |
| ResourceLaws.KnownHealthAssociativeIff | src/resources.rs:456-466 | For known states: always, except across an undated observation between a newer and an older one. |
| ResourceLaws.UnknownHealthBlocks | src/resources.rs:456-466 | An unknown observation never erases a known state; a newer unknown one keeps an older known state out. |
| ResourceLaws.UsesFollowRetained | src/resources.rs:618-635 | Configured keys are a subset of retained keys, with at most 16 distinct uses each. |
| RecordHistory.RecordIsOfTenure | src/resources.rs:433-453 | Every record has its own key, the merged health of the reports since it came in, the least of their times and the first identity that says something. |
| RecordHistory.NewestHealth | src/resources.rs:456-466 | Where these reports are dated and known, its health is the last of the newest. |
| RecordHistory.UsesAreOfTenure | src/resources.rs:618-635 | Its configured uses are among those registered since it came in: all of them in order while at most 16, and always the last. |
| RegistryStore.Load | src/resources.rs:869-951 | Loading any file gives the specified registry, corruption flag and issues. |
| RegistryStore.CorruptIff | src/resources.rs:869-951 | A file is corrupt exactly when it is there and is no document of the schema; then nothing loads and one issue names the file. |
| RegistryStore.RejectionIff | src/resources.rs:980-997 | Exactly why a record is rejected, told from the record. |
| RegistryStore.DeriveIsSafe | src/resources.rs:178-183 | Every derived id is a safe identifier. |
| RegistryStore.LoadIsSound | src/resources.rs:923-951 | Whatever the file holds, at most 64 records load and all of them validate. |
| RegistryStore.EveryRegistryValidates | src/resources.rs:980-998 | Every registry any run reaches, from an empty or loaded one, validates in full. |
| RegistryStore.AcceptedOrReported | src/resources.rs:923-943 | Accepted records and issues add up to the records of the file. |
| RegistryStore.RecordFate | src/resources.rs:923-943 | Each record is loaded unchanged or reported with its own reason. |
| RegistryStore.SaveThenLoad | src/resources.rs:1001-1014 | Save then load is the identity without issues if and only if the registry fits the bound and validates. |
| RegistryStore.RestartKeepsRegistry | src/resources.rs:869-1014 | So a restart after any run loses nothing. |
| IdentityKeys.KeyIdentifies | src/resources.rs:225-242 | Between identities none of whose values contains a bar, the name of a later dimension and an equals sign, the canonical key identifies the known dimensions. |
| IdentityKeys.KeysCollide | src/resources.rs:225-242 | Two identities with different accounts and one key. |
| IdentityKeys.SharesIff | src/resources.rs:225-242 | An identity shares its key with a different one if and only if it knows two dimensions, or knows one whose value can be read as a shorter value and a later dimension. |
| CallSchema.NoErrorsIffFits | src/call_recovery.rs:514-541 | A validator reports nothing if and only if the arguments are valid. |
| CallSchema.Classify | src/call_recovery.rs:544-625 | The classification loops compute the specified three lists. |
| CallSchemaLaws.MissingIff | src/call_recovery.rs:599-617 | A field is reported missing if and only if it is required and absent, or its value counts as null. |
| CallSchemaLaws.UnexpectedIsFirst | src/call_recovery.rs:676-685 | Only the first undeclared field is ever reported. |
| CallRecovery.FromCalls | src/call_recovery.rs:401-447 | Harvesting binds each target once, to the first call that established it. |
| CallRecovery.Recover | src/call_recovery.rs:721-850 | Recovery takes the specified action. |
| CallRecoveryLaws.BoundIffAgreed | src/call_recovery.rs:401-466 | A unique target exists if and only if completed calls of the tool named it and all named the same one; it is that of the first such call. |
| RecoveryInput.EstablishedIff | src/call_recovery.rs:401-447 | Exactly the completed native calls of a registered tool that give its target a non-empty text establish a binding. |
| CallRecoveryLaws.RecoverySound | src/call_recovery.rs:721-850 | A dispatched call is of the resolved tool, passes preflight, and equals the original with the recorded repairs replayed and undeclared fields dropped. |
| CallRecoveryLaws.DispatchIsReplay | src/call_recovery.rs:761-832 | The same for one definition and any record of the name's resolution. |
| CallRecoveryLaws.DispatchedIff | src/call_recovery.rs:761-832 | Exactly when a call is dispatched. |
| CallRecoveryLaws.FieldProvenance | src/call_recovery.rs:765-821 | Every dispatched field is the same-named one, came from a declared alias, or is the bound target, the latter two on record. |
| CallRecoveryLaws.SuppliedSurvives | src/call_recovery.rs:765-821 | A supplied declared value is unchanged if and only if it does not count as null, and only the target is ever replaced. |
| CallRecoveryLaws.RenamedSurvivesIff | src/call_recovery.rs:808-821 | A renamed value survives if and only if its field is not a required target bound to something else. |
| CallRecoveryLaws.RebindingOverwritesRename | src/call_recovery.rs:808-821 | An edit of one file dispatched as an edit of another. |
| CallRecoveryLaws.TwoUndeclaredNeverDispatch | src/call_recovery.rs:774-801 | Two undeclared fields always end in a constrained repair. |
| CallRecoveryLaws.AsksForNothingIff | src/call_recovery.rs:833-840 | The repair request is empty if and only if the arguments, their first undeclared field dealt with and the target refilled, still have undeclared fields and nothing else wrong. |
| CallRecoveryLaws.AsksForNothing | src/call_recovery.rs:833-840 | An edit call for which the model is asked for no field at all. |
| RecoveryInput.AsksForWhatIsWrong | src/call_recovery.rs:761-850 | Arguments that are no object need reasoning; others are dispatched, or the model is asked for exactly the fields that are wrong in the mended arguments, the missing ones first. |
| RecoveryInput.UnknownNeedsReasoning | src/call_recovery.rs:721-760 | An unknown name needs reasoning, and says which. |
| CallRecoveryLaws.ResolvedAnswers | src/native_tools.rs:359-393 | A resolved tool is registered and answers to the request under the reported kind of match, and no other tool claims the alias. |
| RecoveryInput.ResolvesIff | src/native_tools.rs:359-393 | A name stands for a tool exactly when no two tools share it as an alias and it is a name, an alias, or the loose spelling of one tool alone. |
| RecoveryInput.LooseSpelling | src/native_tools.rs:415-425 | Loose spelling ignores case and everything but letters and digits, and nothing else. |
| Derived.DigestParts | src/derived.rs:184-191 | The buffer digested is the length-prefixed encoding of the parts. |
| Derived.DecodeEncode | src/derived.rs:184-191 | The encoding can be decoded, so no two part lists share a buffer. |
| Derived.IdInjective | src/derived.rs:107-109 | Sources of two kinds never share an id. |
| Derived.DerivedBindings.Bind | src/derived.rs:311-313 | Last write wins and the displaced binding is returned. |
| Derived.DerivedBindings.Merge | src/derived.rs:358-362 | Later bindings win. |
| Derived.DerivedBindings.Fingerprint | src/derived.rs:344-355 | The fingerprint digests id and revision in identity order. |
| Derived.DerivedBindings.TransitionFrom | src/derived.rs:369-388 | The loops compute the specified diff. |
| Derived.DiffMembers | src/derived.rs:369-388 | The three lists are disjoint, duplicate-free and name exactly what appeared, moved or went. |
| Derived.TransitionApplies | src/derived.rs:369-388 | Applying the transition to the previous revisions gives the current ones. |
| Derived.ChainReplays | src/derived.rs:369-388 | The transitions of any chain of sets, applied from nothing, give the last one. |
| Derived.NoopIffSameFingerprint | src/derived.rs:344-388 | Fingerprints are equal if and only if the transition is a no-op, if and only if the revision maps are equal. |
| Derived.MergeAbsorbs | src/derived.rs:358-388 | Folding a set in removes nothing and leaves that set nothing new. |
| CompilerFeedback.FromJsonLines | src/compiler_feedback.rs:241-270 | The parsing loop computes the specified list. |
| CompilerFeedback.Truncate | src/compiler_feedback.rs:414-423 | A text over the cap is cut at the last character boundary within it, and marked. |
| CompilerFeedback.ParsedUnique | src/compiler_feedback.rs:257-267 | No identity is listed twice. |
| CompilerFeedback.ParsedReports | src/compiler_feedback.rs:241-270 | Exactly the identities some line reports are listed. |
| FeedbackInput.ReadIff | src/compiler_feedback.rs:272-315 | A line reports a diagnostic exactly when it is a compiler message of one of the two levels with a text and a span, and which: its first primary span, or else its first. |
| FeedbackInput.ParsedPrefix | src/compiler_feedback.rs:241-270 | Later lines only add behind. |
| CompilerFeedback.IdentityIsEverything | src/compiler_feedback.rs:94-112 | Over plain codes and files equal identities mean equal diagnostics, message included. |
| CompilerFeedback.SharesIff | src/compiler_feedback.rs:94-112 | A diagnostic shares its identity with a different one if and only if its code or file is missing, a dash or has a bar in it, or its message has a field that reads as a span. |
| CompilerFeedback.IdentityCollides | src/compiler_feedback.rs:104-111 | Two input lines that report different diagnostics of one identity, of which only the first is listed. |
| CompilerFeedback.DeltaPartitions | src/compiler_feedback.rs:319-361 | New and remaining partition the current set; resolved and remaining partition the previous identities. |
| FeedbackInput.WithinConcat | src/compiler_feedback.rs:338-352 | The parts of a delta keep the order of the lists they are taken from. |
| FeedbackInput.WithinOne | src/compiler_feedback.rs:338-352 | A part takes a diagnostic exactly when its identity is, or is not, in the other list. |
| FeedbackInput.NoBaseline | src/compiler_feedback.rs:319-330 | Without a baseline nothing is new, remaining or resolved. |
| CompilerFeedback.SwapSwaps | src/compiler_feedback.rs:319-361 | Comparing the other way around swaps new with resolved. |
| CompilerFeedback.ChainConserves | src/compiler_feedback.rs:241-361 | Over every chain of compiles the current count is the first count plus all new minus all resolved. |
| Profiles.EndpointTestsAgree | src/profile.rs:121-150 | The endpoint checks of validation and of execution readiness accept the same endpoints. |
| Profiles.NamedCredentialsSuffice | src/profile.rs:198-226 | In a valid Profile whose credentials are stored in a well-formed Vault a model is executable if and only if its provider has an endpoint. |
| ProfileOutcomes.ValidIff | src/profile.rs:118-185 | Exactly which Profiles are valid. |
| ProfileOutcomes.ExecutableIff | src/profile.rs:198-226 | Exactly which models can be executed, of any Profile. |
| ProfileStore.Stores.Replace | src/profile.rs:465-469 | The edit has the specified outcome and writes. |
| ProfileStore.Stores.ReplaceUnderLock | src/profile.rs:486-517 | The compare-and-swap on the revision has the specified outcome and writes. |
| ProfileStore.Stores.ReplaceWithCredential | src/profile.rs:471-484 | The nested transaction has the specified outcome and writes, rollback included. |
| ProfileStore.Stores.SetCredential | src/vault.rs:51-60 | Setting checks name and value, then replaces that one entry, or nothing when a step fails. |
| ProfileStore.Stores.RemoveCredential | src/vault.rs:62-71 | Removing one writes only when it was there, and says so. |
| ProfileStore.Stores.Bootstrap | src/profile.rs:451-461 | Bootstrap creates an empty Profile and never overwrites an existing one. |
| ProfileStoreLaws.EditIsOfPresented | src/profile.rs:486-517 | A success is applied to exactly the document whose revision was presented, other sections preserved, and returns the new revision. |
| ProfileStoreLaws.StaleNeverCommits | src/profile.rs:490-494 | A call with a stale revision fails and does not write the Profile. |
| ProfileStoreLaws.CredentialEditIsAtomic | src/vault.rs:89-120 | Both stores change, or neither, or the rollback is reported failed and only the new credential is left. |
| ProfileStoreLaws.FailureIsCleanIff | src/vault.rs:108-119 | A failed call changed something if and only if it reports a failed rollback. |
| ProfileOutcomes.ReplacedIff | src/profile.rs:465-517 | An edit succeeds exactly when the Profile is valid, nothing fails and the presented text is in the file; it is stale exactly when a readable file holds another. |
| ProfileOutcomes.ReplacedWithCredentialIff | src/profile.rs:471-484 | The transaction succeeds exactly when both parts can, and reports a failed rollback exactly when the credential went in, the edit did not and taking it out failed. |
| ProfileOutcomes.SetIff | src/vault.rs:51-60 | Exactly when a credential is set, and then it alone changes. |
| ProfileOutcomes.RemovedIff | src/vault.rs:62-71 | Exactly when one is removed, and then it alone goes. |
| ProfileOutcomes.BootstrappedIff | src/profile.rs:451-461 | Bootstrap succeeds exactly when there is no Profile yet, and leaves a valid, empty one. |
| ProfileStoreLaws.VaultFirst | src/vault.rs:99-120 | At every intermediate point the credential is stored before the Profile changes, others are untouched, and a name in use is never written. |
| ProfileStoreLaws.SuccessesFormOneChain | src/profile.rs:451-517 | In every run, whatever fails, the successes form one chain: each presented exactly the text the one before it left, from the initial text to the final one. |
| ProfileStoreLaws.NoLostUpdate | src/profile.rs:486-494 | Of two successful edits made from one reading the second landed only because the success just before it had put that very text back. |
| ProfileStoreLaws.OtherSectionsSurvive | src/profile.rs:496-502 | No run changes another section of the document. |
| ProfileStoreLaws.NamedCredentialsAreStored | src/profile.rs:471-484 | In every run of editors that name only what they read or bring, whatever is removed and whatever fails, every named credential is stored after every write if and only if no removal took out a credential that was named at that point. |
| ProfileStoreLaws.NamedCredentialRemoved | src/vault.rs:62-71 | A run after which the Profile names a credential that is gone. |
| ProfileStoreLaws.RunsStayStorable | src/vault.rs:51-60 | No run puts an invalid name or an empty value into the Vault. |
| ProfileStoreLaws.ExecutableAfterRuns | src/profile.rs:198-226 | After every run in which no removal did that, a model can be executed if and only if its provider has an endpoint. |
| Calendar.Epoch | src/observability.rs:160-178 | Day 0 is 1970-01-01. |
| Calendar.CivilSteps | src/observability.rs:160-178 | Day d+1 is the proleptic Gregorian next day of day d, for all d, negative included. |
| Calendar.CivilIsValid | src/observability.rs:160-178 | Month and day are within the limits of section 5.7 of RFC 3339. |
| Calendar.CivilIsMonotone | src/observability.rs:160-178 | Later numbers name later dates. |
| Timestamps.TimestampsSortAsText | src/observability.rs:144-158 | For years 0 to 9999 text order is time order. |
| Timestamps.TimestampReads | src/observability.rs:144-158 | A timestamp tells date and time of day at fixed places, in UTC. |
| Fingerprints.SortBy | src/fingerprint.rs:109-119 | Sorting permutes. |
| Fingerprints.Dedup | src/fingerprint.rs:115-120 | Removing neighbours that are equal leaves each member once. |
| Fingerprints.NewSpawnInput | src/fingerprint.rs:102-131 | Both lists are in normal form and the other fields as given. |
| Fingerprints.SpawnInputIsCanonical | src/fingerprint.rs:102-131 | Two inputs are equal if and only if their lists have the same members, whatever order and repetition. |
| Fingerprints.SpawnInputIsFixedPoint | src/fingerprint.rs:102-131 | Normalizing a normalized input changes nothing. |
| Fingerprints.RefusedIffFloatOccurs | src/fingerprint.rs:179-198 | A value is refused if and only if a binary float occurs somewhere in it. |
| Fingerprints.PreimagesSeparate | src/fingerprint.rs:200-208 | Pre-images of the three domains never coincide. |
| Fingerprints.Hex | src/fingerprint.rs:210-218 | The loop renders the specified hexadecimal text. |
| Fingerprints.FingerprintsIdentify | src/fingerprint.rs:200-218 | With a collision-free hash equal fingerprints mean equal domain and input. |
| Setup.PercentDecode | src/control_server.rs:1769-1787 | The decoding loop computes the specified decoding. |
| Setup.SuffixDecodes | src/setup.rs:162-174 | The suffix of a model key decodes to the upstream id (section 2.1 of RFC 3986). |
| Setup.ModelKeyInjective | src/setup.rs:162-174 | Model keys are jointly injective over colon-free provider keys. |
| Setup.CollideIff | src/setup.rs:162-174 | Two provider keys can collide if and only if one is the other, a colon, and an encoded text. |
| Setup.NormalizeProviderKey | src/setup.rs:12-50 | The first free candidate is returned; with fewer than 999 existing keys the result is always fresh. |
| Setup.BaseKeySays | src/setup.rs:12-35 | The base of a key is the name from its first to its last letter or digit, in lower case, with underscores for the rest. |
| Setup.CandidateColonFree | src/setup.rs:12-50 | Normalized provider keys never contain a colon. |
| Setup.NormalizeCredentialRef | src/setup.rs:54-81 | A fresh acceptable candidate is returned when there is one, the numbered fallback otherwise; exactly when the result is fresh, and exactly when the Vault accepts it. |
| Setup.KeptSays | src/setup.rs:54-65 | Of a name the letters, digits and underscores are kept, in upper case and in order. |
| Setup.CandidateAcceptableIff | src/setup.rs:54-92 | Which candidates are acceptable, in terms of the provider name. |
| Setup.HasFreeRefIff | src/setup.rs:54-81 | With fewer than 999 references and a short name there is a candidate if and only if the name is ASCII and makes no reserved prefix. |
| Setup.FallbackCollides | src/setup.rs:54-81 | A name and a reference list for which the result is a name in use. |
| Setup.AcceptableVersusVault | src/setup.rs:83-92 | The set-up check and the Vault's own differ exactly on leading digits and reserved names. |
| Setup.DigitNameRefused | src/setup.rs:54-92 | A provider name whose credential name the Vault refuses. |

## Left out

- SHA-256, AES-GCM, YAML, JSON and RFC 8785: parameters, taken to be collision-free, lawful or given where a theorem says so.
- Revisions in `Editor`: modelled by the content itself, so digests are taken to be collision-free.
- Between the editor's second read and its rename, and between the two reads of the Profile under its lock, no write by a process that ignores the lock is assumed.
- Sockets, threads, file locks, process spawning, TLS and proxies: only their effect is modelled (byte chunks, atomic steps, mutual exclusion, atomic replacement).
- Path checks of the editor (absolute or parent components, symbolic links) and permission bits.
- `resolve_call` and the admission and settlement of native calls in the provider loop: the text of each tool result is a parameter, and the domain repository behind it is not part of this model.
- `apply_active_context` and compaction: the assembled context is an arbitrary conversation.
- Usage, stop-reason mapping, `reasoning_content` and non-text content parts of messages.
- EncodedRequestAnswered: tools, tool choice, system text and numeric parameters of `build_request` are not modelled.
- ChunkInvariance: with its terminal event last, because reading stops at `[DONE]`; what follows an earlier one is read or not as the chunks fall. RoundIsOneDecode likewise, with `message_stop`.
- AnthropicRound: the decoder of a body that is one JSON document (`apply_message`) is a parameter; cancellation and HTTP errors of the transport are left out.
- The six facts of a resource share one value type here; telemetry redaction of health reasons is left out.
- KeyIdentifies: a condition on both sides; `SharesIff` is the exact condition on one side.
- IdentityIsEverything: codes and files that are no dash and have no bar, on both sides; `SharesIff` is the exact condition on one side.
- Record deserialization: a record is either its observation or unreadable.
- Schema errors: the order in which the schema library lists errors is fixed here (required, undeclared, then fields by name); only the first undeclared field in document order matters to recovery. Observed texts are reduced to whether they render as null.
- AsksForNothingIff: the wording and size caps of observations are not modelled.
- `transition_from_kind`: a filter of the same diff.
- Rendered compiler output (`parse_rendered`), observation text and code lists.
- Bootstrap: writes a new file in place; the incomplete file a failure can leave is not modelled, a failed write counts as none.
- Legacy placeholder cleaning when a Profile is read.
- PercentDecode: the final lossy conversion to text, which keeps valid UTF-8, is not modelled.
- Upper and lower casing and Unicode alphanumerics of provider names: a parameter; the ASCII mapping is modelled.
- `Calendar`: 64-bit overflow at day numbers beyond any representable clock.
- Routing, CLI, reports, prompts, the frontend, lifecycle tables and the event registry: plumbing, or finite enumerations settled by reading.
