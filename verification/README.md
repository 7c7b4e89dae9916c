# Verification of five components

A Dafny model of five independent parts of the repository, with the properties each of them exists for.

- **Acknowledged relay** (`AckRelay*.dfy`). A sliding-window sender: admission by bytes, cumulative acknowledgements, replay
  after a reconnect, a grace deadline, two watermarks, and foreign code that may call back into the adapter from inside
  `sendFrame` or a listener. `AckRelayFifo` is the plain FIFO, `AckRelayBatchQueue` the tombstoned array that stands for
  it, `AckRelayMachine` the adapter as a state machine over events, `AckRelayProtocol` the adapter as the object it is,
  and `AckRelayNetwork` the sender with a lossy link and an in-order receiver. Foreign code is a script: every time
  control leaves the object it takes the next reaction, a list of calls back into the object and an outcome, so a
  proof for every script holds for every environment. `Valid()` says that the object's fields are the machine's state
  after the events performed so far, hence what is proved of all runs of the machine holds of the object. Beside the
  object, a ledger accounts for every inbound payload that came in during a send, and the perils are what its environment
  does, or will do, that may end it: a listener that throws, a payload that is no frame, a request. Nothing else ends it,
  but for the faults whose cause the machine sees in its own state (`EndedForCause`).
  `AckRelayFullySent` says which acknowledgements are from the future.
- **Relay without acknowledgements** (`PlainRelay.dfy`). Buffering sender and gap-checking receiver, both ends of one closure.
- **Option maps** (`Cel*.dfy`, `Json.dfy`, `MergePatch*.dfy`, `OptionMaps.dfy`). Tokenizer, precedence-climbing parser, evaluator,
  static check, memo caches, and ordered JSON merge patches with ownership of leaf paths. What the language is, is said
  without the code's own tables and formulas: `CelLayout` is every way of writing tokens as text, `CelGrammar` and
  `CelReading` every way of writing an expression as tokens and what it means, `CelArithmetic` what numbers, numerals and
  operators are, `CelMistakes` the errors, and `CelSource` puts them together from source text to program.
- **Configuration with many writers** (`PersonalConfig.dfy`, `BuiltinRelease.dfy`). Lock-free polling beside locked commits; an
  Active release that many processes converge.
- **Trace trees** (`RenderBudget.dfy`, `TraceTree.dfy`). A render budget threaded through a recursion; unfolding a product
  model to a bounded depth.

The code that updates objects in place is modelled by classes and loops, each method proved equal to a function of the old
state; interleavings of several processes are state machines over those same functions. No lemma relies on Dafny's automatic
induction: all of them carry `{:induction false}`.

## Where the code does something else than one would expect

- `consume` and `expect` compare a token's value and never its kind, so a string literal can close a bracket.
  `RoundTrip` is therefore an if-and-only-if with the exact side condition; `FailingShapes` has the two refused inputs.
- A patch leaf `{}` keeps an object that is there and replaces anything else, so an owned leaf path does not always
  hold the patch's own value; `Written` says exactly what it holds.
- `replayUnacknowledged` has no guard against being called inside `sendFrame`. `ReplayInsideSendIsHarmless` says exactly when
  that makes no difference: when nothing retained has been sent before, so that there is nothing to rewind. Otherwise the
  first retained frame is skipped, or the queue loses its shape; `SecondInsideIsReached` is a run into a state where, by
  `ReplayInsideSendBreaks`, the next frame index then lies past the end.
- A poll of the personal configuration that began before anything was observed can move the observed revision
  back to an older commit. `MovesBackExactlyWhenBlind` says that this is the only way, `AnEarlyFailureIsBlind` how it arises:
  an `update` that fails before the first `read`.
- One commit of `update` can be announced twice, by a poll and by the update, although the generation counter and the
  observed revision are there to prevent it. `TwoNoticesExactly` says when: a poll of the current generation reads the
  commit and ends before its write has ended. `TwoNoticesHappen` is such a run. Never more than two, by `NoNoticeTwice`.
- `cloneForRender` called on a budget of zero counts one hidden node, whatever is below it (`ConservedExactly`).

## Model

| member | source | states |
|---|---|---|
| `AckRelayFifo.ReleaseThroughIsExact` | packages/client/src/webRemoteControlAcknowledgedRelayBatchQueue.ts:55-70 | with increasing message numbers, a release removes exactly the batches numbered at most `ack`, and removed plus kept bytes are all bytes |
| `AckRelayFifo.ReleaseTwice` | packages/client/src/webRemoteControlAcknowledgedRelayBatchQueue.ts:55-70 | acknowledging twice is acknowledging the larger number once, wherever the cursor stands |
| `AckRelayBatchQueue.BatchQueue.Ends` | packages/client/src/webRemoteControlAcknowledgedRelayBatchQueue.ts:10-16 | `oldest` and `nextUnsent` are the head and the cursor entry of the FIFO, absent exactly when it has none |
| `AckRelayBatchQueue.BatchQueue.Append` | packages/client/src/webRemoteControlAcknowledgedRelayBatchQueue.ts:39-41 | the array with its cursors refines appending to the FIFO |
| `AckRelayBatchQueue.BatchQueue.AdvanceUnsent` | packages/client/src/webRemoteControlAcknowledgedRelayBatchQueue.ts:43-45 | refines moving the FIFO's cursor, never past its end |
| `AckRelayBatchQueue.BatchQueue.ResetReplay` | packages/client/src/webRemoteControlAcknowledgedRelayBatchQueue.ts:47-53 | refines rewinding every retained batch and the cursor |
| `AckRelayBatchQueue.BatchQueue.ReleaseThrough` | packages/client/src/webRemoteControlAcknowledgedRelayBatchQueue.ts:55-70 | refines the FIFO's release through tombstoning and compaction, and returns its exact count and byte sum |
| `AckRelayBatchQueue.BatchQueue.CompactReleasedPrefix` | packages/client/src/webRemoteControlAcknowledgedRelayBatchQueue.ts:78-91 | compaction leaves the FIFO alone, restores the space bound, and copies no more slots over the whole life of the queue than were released |
| `AckRelayBatchQueue.BatchQueue.Clear` | packages/client/src/webRemoteControlAcknowledgedRelayBatchQueue.ts:72-76 | refines the empty FIFO |
| `AckRelayBatchQueue.BatchQueue.SlotsAreBounded` | packages/client/src/webRemoteControlAcknowledgedRelayBatchQueue.ts:3-25 | retained slots stay below the larger of active + 1024 and twice the active ones |
| `AckRelayBatchQueue.BatchQueue.RetainedBatchReferenceCount` | packages/client/src/webRemoteControlAcknowledgedRelayBatchQueue.ts:27-31 | no released batch is still referenced, compacted or not |
| `AckRelayBatchQueue.BatchQueue.RetainedPayloadBytes` | packages/client/src/webRemoteControlAcknowledgedRelayBatchQueue.ts:33-37 | the bytes of exactly the retained batches |
| `AckRelayMachine.StepKeepsInv` | packages/client/src/webRemoteControlAcknowledgedRelayProtocol.ts:124-335 | every event, inside or outside a send, keeps the sender invariant |
| `AckRelayMachine.RunKeepsInv` | packages/client/src/webRemoteControlAcknowledgedRelayProtocol.ts:124-335 | in every run: retained batches are messages lastAcked+1 to nextMessageSeq-1, contiguous physical numbers from 1, the cursor shape, byte count equal to the retained bytes and within the limit, watermark hysteresis, strictly alternating saturation events |
| `AckRelayMachine.ReleaseNeverUnderflows` | packages/client/src/webRemoteControlAcknowledgedRelayProtocol.ts:327-329 | the clamp of the byte count at zero never acts |
| `AckRelayMachine.ExpiredIsExact` | packages/client/src/webRemoteControlAcknowledgedRelayDeadline.ts:29-35 | looking at the head batch and the pending acknowledgement is as good as looking at everything retained |
| `AckRelayMachine.GraceSafety` | packages/client/src/webRemoteControlAcknowledgedRelayDeadline.ts:53-76 | in every run, at every send, nothing retained and no pending acknowledgement is past its grace period |
| `AckRelayMachine.NothingAfterTheEnd` | packages/client/src/webRemoteControlAcknowledgedRelayProtocol.ts:352-390 | once degraded or disposed nothing is sent, delivered, admitted or released, and the first fault stands |
| `AckRelayMachine.CallIsStable` | packages/client/src/webRemoteControlAcknowledgedRelayProtocol.ts:181-239 | while `sendFrame` runs, whatever it calls back, the captured batch, the cursor and the acknowledgement state stay as they were |
| `AckRelayMachine.DeathHasItsCause` | packages/client/src/webRemoteControlAcknowledgedRelayProtocol.ts:124-367 | in every run, what ended a live adapter had its cause in the state before it: a request to dispose, an acknowledgement beyond what was fully sent, a message beyond the byte limit, something past its grace period, a call of `sendFrame` under way |
| `AckRelayMachine.GraceFaultIsDue` | packages/client/src/webRemoteControlAcknowledgedRelayDeadline.ts:53-76 | the fault of an expired deadline names the pending acknowledgement or the oldest retained message, whichever waits longer, and that one is past its grace period |
| `AckRelayMachine.SaturationIsHysteresis` | packages/client/src/webRemoteControlAcknowledgedRelayProtocol.ts:175-180 | after every event the sender is saturated exactly when the bytes are above the high mark, or were saturated and are above the low one; every change fires its event and nothing else does |
| `AckRelayFullySent.FullySentIsAccepted` | packages/client/src/webRemoteControlAcknowledgedRelayProtocol.ts:222-240 | in every run the mark of what is fully sent is the last message whose final frame the link has accepted |
| `AckRelayFullySent.FutureAckExactly` | packages/client/src/webRemoteControlAcknowledgedRelayProtocol.ts:317-329 | an acknowledgement ends the adapter as one from the future exactly when the link has never accepted the final frame of its message; otherwise everything up to it is released |
| `AckRelayNetwork.WorldRunKeepsInv` | packages/client/src/webRemoteControlAcknowledgedRelayProtocol.ts:192-335 | what sender, lossy link and receiver know of each other, kept by every step of every run |
| `AckRelayNetwork.EndToEnd` | packages/client/src/webRemoteControlAcknowledgedRelayProtocol.ts:192-335 | in every run the receiver sees no gap, keeps a prefix of the frames issued, holds every frame of every acknowledged message, and no truthful acknowledgement becomes a fault |
| `AckRelayNetwork.NoGapOnTheWire` | packages/client/src/webRemoteControlAcknowledgedRelayProtocol.ts:222-239 | a data frame handed over on a working link is at most one above what the receiver holds or will hold |
| `AckRelayNetwork.TruthfulAckIsNotFuture` | packages/client/src/webRemoteControlAcknowledgedRelayProtocol.ts:317-326 | an acknowledgement of what the receiver has is never judged to be of the future, even one that came during the last frame |
| `AckRelayNetwork.ReplayRecovers` | packages/client/src/webRemoteControlAcknowledgedRelayProtocol.ts:246-250 | whatever was lost, from every state a replay over a working link can bring the receiver every frame of every message |
| `AckRelayNetwork.ResumeWithoutReplay` | packages/client/src/webRemoteControlAcknowledgedRelayProtocol.ts:246-250 | a link that resumes without a replay shows a gap exactly when frames had been lost |
| `AckRelayNetwork.ReplayInsideSendKeepsShape` | packages/client/src/webRemoteControlAcknowledgedRelayProtocol.ts:229-250 | a replay inside `sendFrame` leaves the queue well formed exactly when the frame in flight is of the oldest batch |
| `AckRelayNetwork.ReplayInsideSendSkipsAFrame` | packages/client/src/webRemoteControlAcknowledgedRelayProtocol.ts:229-250 | even then the first retained frame is skipped |
| `AckRelayNetwork.ReplayInsideSendIsHarmless` | packages/client/src/webRemoteControlAcknowledgedRelayProtocol.ts:229-250 | a replay inside `sendFrame` makes no difference if and only if the frame in flight is the first of the oldest retained batch |
| `AckRelayNetwork.SecondInsideIsReached` | packages/client/src/webRemoteControlAcknowledgedRelayProtocol.ts:124-239 | a run of two admissions and two sends that ends inside `sendFrame` of the second message |
| `AckRelayNetwork.ReplayInsideSendBreaks` | packages/client/src/webRemoteControlAcknowledgedRelayProtocol.ts:229-250 | in the state that run reaches, such a replay makes the next index point past the batch's frames |
| `AckRelayProtocol.FieldsKeepInv` | packages/client/src/webRemoteControlAcknowledgedRelayProtocol.ts:47-62 | the sender invariant on the object's own fields, between any two calls however nested |
| `AckRelayProtocol.MeasureBatchBytes` | packages/client/src/webRemoteControlAcknowledgedRelayProtocolTypes.ts:86-103 | the exact byte sum, or a refusal exactly when some frame has no admissible size |
| `AckRelayProtocol.AcknowledgedRelayProtocol.ReserveMessage` | packages/client/src/webRemoteControlAcknowledgedRelayProtocol.ts:124-174 | a live adapter whose deadline has not passed admits a message if and only if it can be encoded, every frame has an admissible size and its bytes fit the limit beside those counted; else the first fault says which failed; from outside a flush everything is sent then, or the link has refused something |
| `AckRelayProtocol.AcknowledgedRelayProtocol.EncodeAndAdmit` | packages/client/src/webRemoteControlAcknowledgedRelayProtocol.ts:126-173 | refused exactly when the encoder fails, a frame cannot be measured or the bytes exceed the limit, with that fault; else the batch is the whole message under the next numbers |
| `AckRelayProtocol.AcknowledgedRelayProtocol.CheckDeadline` | packages/client/src/webRemoteControlAcknowledgedRelayDeadline.ts:29-35 | expired exactly when the deadline has passed at the reading of the clock it took, with the fault that is due |
| `AckRelayProtocol.AcknowledgedRelayProtocol.Admit` | packages/client/src/webRemoteControlAcknowledgedRelayProtocol.ts:155-180 | the batch admitted carries the next numbers and the current time, and the state is the machine's after admitting it |
| `AckRelayProtocol.AcknowledgedRelayProtocol.InvokeSend` | packages/client/src/webRemoteControlAcknowledgedRelayProtocol.ts:181-191 | a send with re-entry: what was captured before it is still there after it, unless the adapter has died |
| `AckRelayProtocol.AcknowledgedRelayProtocol.FlushPendingFrames` | packages/client/src/webRemoteControlAcknowledgedRelayProtocol.ts:192-245 | every send in it is an event the machine allows; the outermost flush of a surviving adapter leaves no payload queued; started with none, true means nothing is left to go out and false that the link refused something |
| `AckRelayProtocol.AcknowledgedRelayProtocol.ProcessNext` | packages/client/src/webRemoteControlAcknowledgedRelayProtocol.ts:262-268 | the oldest queued payload is taken out and handled, and the ledger stays right whatever re-enters |
| `AckRelayProtocol.QueuedIsHandled` | packages/client/src/webRemoteControlAcknowledgedRelayProtocol.ts:251-268 | with nothing left in the queue, every payload ever queued during a send has been handled, in order |
| `AckRelayProtocol.AcknowledgedRelayProtocol.ReplayUnacknowledged` | packages/client/src/webRemoteControlAcknowledgedRelayProtocol.ts:246-250 | a live adapter has rewound every retained batch before it flushes; true and false mean what they mean for the flush |
| `AckRelayProtocol.AcknowledgedRelayProtocol.AcceptPayload` | packages/client/src/webRemoteControlAcknowledgedRelayProtocol.ts:251-261 | true exactly for a live adapter and a payload addressed to it; queued inside a send, else fully handled |
| `AckRelayProtocol.AcknowledgedRelayProtocol.ProcessInbound` | packages/client/src/webRemoteControlAcknowledgedRelayProtocol.ts:269-305 | each kind of payload has its effect on the event history: release, delivery before acknowledgement, or a fault; an acknowledgement owed has gone out, or the link has refused something |
| `AckRelayProtocol.AcknowledgedRelayProtocol.ProcessVerdict` | packages/client/src/webRemoteControlAcknowledgedRelayProtocol.ts:277-305 | a frame that is incomplete, faulty without being terminal, or a duplicate without a message changes nothing; a terminal fault is the fault reported |
| `AckRelayProtocol.AcknowledgedRelayProtocol.DeliverMessage` | packages/client/src/webRemoteControlAcknowledgedRelayProtocol.ts:293-304 | a completed message is delivered once, and acknowledged after that, unless a listener throws |
| `AckRelayProtocol.AcknowledgedRelayProtocol.QueueAck` | packages/client/src/webRemoteControlAcknowledgedRelayProtocol.ts:306-315 | the acknowledgement is queued and, from outside a flush, sent unless the link refuses |
| `AckRelayProtocol.AcknowledgedRelayProtocol.RecordAck` | packages/client/src/webRemoteControlAcknowledgedRelayProtocol.ts:306-314 | the largest number waits with the time of the first it stands for |
| `AckRelayProtocol.AcknowledgedRelayProtocol.ProcessAck` | packages/client/src/webRemoteControlAcknowledgedRelayProtocol.ts:317-335 | old news changes nothing, a number beyond what is fully sent is a fault, any other is the release of the machine |
| `AckRelayProtocol.AcknowledgedRelayProtocol.EnterDegraded` | packages/client/src/webRemoteControlAcknowledgedRelayProtocol.ts:352-367 | the first fault is recorded and stands, whatever the listeners do; a dead adapter keeps the fault it had |
| `AckRelayProtocol.AcknowledgedRelayProtocol.Dispose` | packages/client/src/webRemoteControlAcknowledgedRelayProtocol.ts:368-384 | disposed for good, in the machine's disposed state, whatever the abort listeners do |
| `AckRelayProtocol.EndedForCause` | packages/client/src/webRemoteControlAcknowledgedRelayProtocol.ts:352-384 | the object is disposed only on request, its fault is one that its own state shows or that foreign code has given reason for, and the event that ended it had its cause in the state before |
| `PlainRelay.RunKeeps` | packages/client/src/webRemoteControlRelayProtocol.ts:97-183 | in every run the buffer is the tail of what was issued, accepted frames come before it in order, and issued = accepted + buffered + dropped |
| `PlainRelay.NothingDropped` | packages/client/src/webRemoteControlRelayProtocol.ts:97-134 | with nothing dropped, accepted frames followed by the buffer are everything issued, in order |
| `PlainRelay.SendPuts` | packages/client/src/webRemoteControlRelayProtocol.ts:153-182 | with room in the buffer, the new frame goes behind the buffered ones and as many leave from the front as the link says yes in a row |
| `PlainRelay.FlushPuts` | packages/client/src/webRemoteControlRelayProtocol.ts:116-134 | a flush sends as many buffered frames from the front as the link says yes in a row, and keeps the rest |
| `PlainRelay.OverflowDrops` | packages/client/src/webRemoteControlRelayProtocol.ts:97-107 | without room the frame and the whole buffer are thrown away, and nothing is sent |
| `PlainRelay.IssuedIsSent` | packages/client/src/webRemoteControlRelayProtocol.ts:153-183 | what is issued is what was passed to `send`, up to the end of the adapter |
| `PlainRelay.EndToEndPrefix` | packages/client/src/webRemoteControlRelayProtocol.ts:192-216 | over any channel that drops, repeats and reorders, with any refusals, overflows and timeouts, what is delivered is a prefix of what was sent |
| `PlainRelay.StopsAtTheFirstMissing` | packages/client/src/webRemoteControlRelayProtocol.ts:192-216 | nothing at or after a frame the link never accepted is delivered |
| `PlainRelay.InOrderChannel` | packages/client/src/webRemoteControlRelayProtocol.ts:192-216 | over an in-order channel the receiver degrades exactly when a frame is missing, and delivers all before it |
| `PlainRelay.AnyChannel` | packages/client/src/webRemoteControlRelayProtocol.ts:192-216 | for genuine frames in any order, repeated or late: the receiver degrades exactly at the first gap and has delivered everything up to the highest number before it |
| `PlainRelay.OthersAreIgnored` | packages/client/src/webRemoteControlRelayProtocol.ts:192-200 | payloads of another kind or another session make no difference |
| `PlainRelay.NothingIsLost` | packages/client/src/webRemoteControlRelayProtocol.ts:97-216 | both ends together, nothing dropped: delivered plus buffered is everything sent |
| `PlainRelay.RelayProtocol.Send` | packages/client/src/webRemoteControlRelayProtocol.ts:155-181 | the closure's variables change as the sender's function says; an overflow is reported with its exact count, and nothing else is |
| `PlainRelay.RelayProtocol.FlushPendingFrames` | packages/client/src/webRemoteControlRelayProtocol.ts:116-134 | the flush loop; true exactly when there was something and all of it went out |
| `PlainRelay.RelayProtocol.AcceptPayload` | packages/client/src/webRemoteControlRelayProtocol.ts:192-216 | the receiver's variables change as its function says; one gap report, with both numbers, when it degrades |
| `CelTokenizer.Tokenize` | packages/model-option-map/src/tokenizer.ts:22-73 | the loop yields exactly the specified spans, for sources without escapes of surrogates |
| `CelTokenizer.ReadStringLiteral` | packages/model-option-map/src/tokenizer.ts:83-124 | the loop reads exactly the specified text, or fails with its error; a surrogate escape is an error here |
| `CelTokenizer.SpansTile` | packages/model-option-map/src/tokenizer.ts:22-73 | spans are ordered and disjoint, one end token comes last, and every character outside them is white space |
| `CelLayout.LayoutReads` | packages/model-option-map/src/tokenizer.ts:22-73 | every layout of a token list, with any white space around the tokens, or none where the next character cannot belong to the token, is tokenized to that list |
| `CelLayout.TokensAreLexemes` | packages/model-option-map/src/tokenizer.ts:22-141 | every token of a source is the text of such a lexeme, standing where the token says |
| `CelLayout.NamesAndSymbols` | packages/model-option-map/src/tokenizer.ts:18-70 | the names, operators and punctuation there are, by their characters |
| `CelLayout.ReadStringOfGlyphs` | packages/model-option-map/src/tokenizer.ts:83-135 | a literal is read as its characters, each of them raw, behind a backslash or as four hexadecimal digits in either case |
| `CelLayout.StringIsSpelled` | packages/model-option-map/src/tokenizer.ts:83-135 | whatever is read as a literal is spelled with such characters |
| `CelMistakes.LiteralMistakes` | packages/model-option-map/src/tokenizer.ts:83-124 | whatever is in order before it: a literal that ends with the text or the line, and each bad escape, gives its own error |
| `CelLexemes.ReadStringOfEscaped` | packages/model-option-map/src/tokenizer.ts:83-135 | quoting any text and reading it gives the text back |
| `CelLexemes.TokenizeRendered` | packages/model-option-map/src/tokenizer.ts:22-81 | writing tokens out and tokenizing gives the same tokens |
| `CelParserObject.Parser.Parse` | packages/model-option-map/src/parser.ts:61-77 | the cursor object does what the grammar functions say, and succeeds only when every token was used; what they say is `WrittenIsParsed` and `ParsedIsWritten` |
| `CelParserObject.Parser.ParseBinary` | packages/model-option-map/src/parser.ts:112-128 | the loop of a level yields the expression the grammar says; which one that is says `TighterBindsFirst` |
| `CelParserObject.Parser.ParseArray` | packages/model-option-map/src/parser.ts:182-190 | the do-while over elements refines the grammar |
| `CelParserObject.Parser.ParseObject` | packages/model-option-map/src/parser.ts:192-214 | the do-while over entries refines the grammar, duplicate keys refused |
| `CelParserObject.Parser.Consume` | packages/model-option-map/src/parser.ts:216-220 | compares the value only, whatever the kind |
| `CelParser.Parse` | packages/model-option-map/src/parser.ts:147-214 | every parsed expression has only JSON-safe number literals and distinct object keys |
| `CelGrammar.WrittenIsParsed` | packages/model-option-map/src/parser.ts:61-214 | every proper way of writing an expression, with parentheses anywhere and chains of operators that split where they bind the least, is parsed to what it means |
| `CelGrammar.ChainReads` | packages/model-option-map/src/parser.ts:79-128 | a chain of operators is read as its split at the last of the weakest operators says |
| `CelGrammar.TighterBindsFirst` | packages/model-option-map/src/parser.ts:88-110 | of two operators between three leaves the tighter one binds first, and of two alike the left one, for all thirteen |
| `CelGrammar.ParenthesesRead` | packages/model-option-map/src/parser.ts:173-177 | what stands in parentheses is read as it is read alone |
| `CelGrammar.NoTwoMeanings` | packages/model-option-map/src/parser.ts:61-214 | no token list has two meanings |
| `CelReading.ParsedIsWritten` | packages/model-option-map/src/parser.ts:61-240 | whatever is parsed is such a way of writing the expression, up to tokens of the same value in place of punctuation |
| `CelMistakes.TokenLeftOver` | packages/model-option-map/src/parser.ts:61-77 | a token behind a whole expression is told of as member access or as unexpected |
| `CelMistakes.UnknownName` | packages/model-option-map/src/parser.ts:158-172 | a name before a parenthesis is a function call, any other name but the variable and the three constants is unknown |
| `CelMistakes.NoOperand` | packages/model-option-map/src/parser.ts:178-180 | what cannot begin an operand is unexpected |
| `CelMistakes.ParenthesisOpen` | packages/model-option-map/src/parser.ts:173-177 | a parenthesis that is not closed behind its expression is told of |
| `CelMistakes.BracketOpen` | packages/model-option-map/src/parser.ts:182-190 | so is a bracket |
| `CelMistakes.BadKey` | packages/model-option-map/src/parser.ts:192-209 | an object key that is no text, or has no colon behind it |
| `CelMistakes.KeyAgain` | packages/model-option-map/src/parser.ts:201-206 | the same key twice |
| `CelMistakes.BranchMissing` | packages/model-option-map/src/parser.ts:79-86 | a choice without its second branch |
| `CelRoundTrip.PrintReads` | packages/model-option-map/src/parser.ts:79-214 | at every level and before any admissible follower, a strict reader reads back exactly the faithful expressions and fails on all others |
| `CelStrictness.CompareConditional` | packages/model-option-map/src/parser.ts:216-229 | the parser and the strict reader differ only where a literal was used up as punctuation |
| `CelRoundTrip.RoundTrip` | packages/model-option-map/src/parser.ts:61-240 | printing and parsing gives the expression back if and only if it is faithful |
| `CelMinimal.PrintIsShortest` | packages/model-option-map/src/parser.ts:61-240 | any token list parsed to an expression is at least as long as the printed one: the printer uses the fewest parentheses |
| `CelRoundTrip.FailingShapes` | packages/model-option-map/src/parser.ts:182-220 | the array of the text "]" and the object with the key "}" are refused |
| `CelText.SourceRoundTrip` | packages/model-option-map/src/tokenizer.ts:22-141 | the same from expression to source text and back through the tokenizer |
| `CelTrim.TrimKeepsTokens` | packages/model-option-map/src/compiler.ts:59-65 | trimming a source that can be tokenized changes none of its tokens |
| `CelTrim.CompiledSourceMeansTheSame` | packages/model-option-map/src/compiler.ts:17-33 | an expression written as source compiles to itself exactly when faithful, and then evaluates the same for every input |
| `CelTrim.SourceOfAProgram` | packages/model-option-map/src/compiler.ts:17-33 | a program's normalised source compiles to that program |
| `CelSource.WrittenCompiles` | packages/model-option-map/src/compiler.ts:17-74 | from source text to meaning: every proper way of writing, in every layout, compiles to what it means for the option |
| `CelSource.OwnVariable` | packages/model-option-map/src/compiler.ts:67-78 | each option has its own name as the variable of its map |
| `CelSource.CompiledIsWritten` | packages/model-option-map/src/compiler.ts:67-74 | whatever compiles was written so |
| `CelSource.SourceIsTrimmed` | packages/model-option-map/src/compiler.ts:59-65 | a program keeps its source without the white space around it, and nothing else is cut off |
| `CelSource.EmptyExactly` | packages/model-option-map/src/compiler.ts:59-65 | a source is refused as empty exactly when it is all white space |
| `CelEvaluator.JsonEqualsIsEquality` | packages/model-option-map/src/evaluator.ts:180-199 | negative zero aside, comparing lengths, key counts and one side's keys decides equality of values, both ways |
| `CelEvaluator.CompareIsATotalOrder` | packages/model-option-map/src/evaluator.ts:122-145 | on exact numbers, without a negative zero, and on strings ordered by characters, the four comparisons agree with each other and with `==`, and are transitive |
| `CelEvaluator.ConnectivesAreConditionals` | packages/model-option-map/src/evaluator.ts:58-72 | `&&` and `\|\|` skip their right operand as conditionals would, and De Morgan's law holds with all errors |
| `CelEvaluator.RemainderIsExact` | packages/model-option-map/src/evaluator.ts:92-93 | the remainder is what a whole quotient leaves, smaller than the divisor and of the dividend's sign |
| `CelArithmetic.ArithmeticIsExact` | packages/model-option-map/src/evaluator.ts:81-120 | sum, difference, product, quotient and remainder of two numbers: the one number x with x = a + b, x + b = a, x = a * b, x * b = a, or what a whole multiple leaves, exactly when it is JSON-safe |
| `CelArithmetic.ArithmeticGivesANumber` | packages/model-option-map/src/evaluator.ts:107-166 | two numbers give a JSON-safe number or the refusal of it, nothing else |
| `CelArithmetic.SignsAreExact` | packages/model-option-map/src/evaluator.ts:52-56 | a minus gives the number that adds up to zero with the operand, a plus the operand |
| `CelArithmetic.TextsAreJoined` | packages/model-option-map/src/evaluator.ts:80-82 | the sum of two texts begins with the left one, and the rest is the right one |
| `CelArithmetic.OnlyNumbersCount` | packages/model-option-map/src/evaluator.ts:107-158 | every other pair of values is refused |
| `CelArithmetic.FailuresPass` | packages/model-option-map/src/evaluator.ts:58-75 | the left operand fails first, and a failing operand that is looked at stands |
| `CelArithmetic.ComparisonsAreTheOrder` | packages/model-option-map/src/evaluator.ts:122-145 | the comparisons are those of the numbers, or the dictionary order of the texts, and refused otherwise |
| `CelArithmetic.EqualityIsDecided` | packages/model-option-map/src/evaluator.ts:76-79 | `==` is true exactly for equal values, `!=` exactly for different ones |
| `CelEvaluator.DecimalIsRead` | packages/model-option-map/src/parser.ts:149-155 | a whole number in decimal notation is one literal with that value |
| `CelArithmetic.NumeralIsRead` | packages/model-option-map/src/tokenizer.ts:75-81 | every numeral, with fraction and exponent of either sign, is one literal with the value its digits write |
| `CelArithmetic.NumberIsNumeral` | packages/model-option-map/src/tokenizer.ts:75-81 | and nothing else is a number literal |
| `CelEvaluator.EvaluateObject` | packages/model-option-map/src/evaluator.ts:25-36 | the loop over entries, stopping at the first error |
| `CelEvaluator.ObjectHasItsEntries` | packages/model-option-map/src/evaluator.ts:25-36 | an object evaluates exactly when all entries do, and has exactly their keys with their values |
| `CelEvaluator.ArrayHasItsElements` | packages/model-option-map/src/evaluator.ts:23-24 | an array evaluates exactly when all elements do, and has their values in order |
| `CelEvaluator.FirstElementFails` | packages/model-option-map/src/evaluator.ts:23-24 | where elements fail, the first failure stands |
| `CelEvaluator.FirstEntryFails` | packages/model-option-map/src/evaluator.ts:25-36 | where entries fail, the first failure stands |
| `CelEvaluator.ResultIsSafe` | packages/model-option-map/src/evaluator.ts:17-166 | every number anywhere in a successful result is JSON-safe |
| `CelEvaluator.ObjectExactlyWhenTaken` | packages/model-option-map/src/evaluator.ts:45-48 | a result is that of the branch taken, and an object exactly when that branch is an object literal |
| `CelEvaluator.AcceptsExactly` | packages/model-option-map/src/compiler.ts:80-88 | the static check accepts exactly where all branches are object literals; a refused branch never gives an object |
| `CelEvaluator.StaticCheckIsSound` | packages/model-option-map/src/compiler.ts:80-88 | an accepted expression gives, for every input, an object or an error |
| `CelCompiler.CompiledMapsGiveObjects` | packages/model-option-map/src/compiler.ts:43-53 | the check of the result never fires for a compiled map, and its numbers are JSON-safe |
| `CelCompiler.MapIsEvaluated` | packages/model-option-map/src/compiler.ts:45-51 | a map is evaluated on a text or a JSON-safe number, on nothing else, and gives the object it evaluates to |
| `CelCompiler.CacheKeyIsInjective` | packages/model-option-map/src/compiler.ts:76-78 | two pairs of source and option share a key only when they are the same |
| `CelCompiler.Compiler.CompileRestrictedCel` | packages/model-option-map/src/compiler.ts:17-33 | with the caches the result is what compiling without them gives, and only that entry is added |
| `CelCompiler.Compiler.CompileModelOptionMap` | packages/model-option-map/src/compiler.ts:35-57 | the same for option maps, with the static check |
| `CelCompiler.TokensAreEndTerminated` | packages/model-option-map/src/tokenizer.ts:71-73 | the tokenizer delivers what the parser's termination needs |
| `MergePatch.MergedIsRfc7396` | packages/model-option-map/src/merge-patch.ts:63-78 | merging objects is MergePatch of section 2 of RFC 7396 |
| `MergePatch.MergedTwice` | packages/model-option-map/src/merge-patch.ts:63-78 | merging twice is merging once |
| `MergePatch.CompatibleIsConflictFree` | packages/model-option-map/src/merge-patch.ts:35-57 | two patches own overlapping leaf paths exactly when some key clashes, found key by key |
| `MergePatch.OwnPathsDoNotOverlap` | packages/model-option-map/src/merge-patch.ts:35-49 | a patch never conflicts with itself |
| `MergePatch.Commute` | packages/model-option-map/src/merge-patch.ts:63-78 | compatible patches commute on every target |
| `MergePatch.OwnedPathsAreWritten` | packages/model-option-map/src/merge-patch.ts:63-78 | an owned leaf path holds exactly what the patch writes there |
| `MergePatch.OtherPathsAreKept` | packages/model-option-map/src/merge-patch.ts:63-78 | a path that overlaps no owned path keeps its value |
| `MergePatchOrder.CollectWrittenPaths` | packages/model-option-map/src/merge-patch.ts:35-49 | collects exactly the owned leaf paths, each once |
| `MergePatchOrder.PathsOverlap` | packages/model-option-map/src/merge-patch.ts:51-57 | true exactly when one path is a prefix of the other |
| `MergePatchOrder.MergeObject` | packages/model-option-map/src/merge-patch.ts:63-78 | the loop that sets and deletes keys yields the specified merge |
| `MergePatchOrder.ApplyOrderedJsonMergePatches` | packages/model-option-map/src/merge-patch.ts:13-33 | succeeds exactly when no two different patches overlap, with the merge of all; else names a real conflict |
| `MergePatchOrder.AnyOrder` | packages/model-option-map/src/merge-patch.ts:13-33 | every permutation of conflict-free patches is conflict-free and gives the same object |
| `MergePatchOrder.EveryPatchPrevails` | packages/model-option-map/src/merge-patch.ts:13-33 | in a conflict-free list each patch's leaves end up as that patch alone writes them |
| `MergePatchOrder.UntouchedPathsAreKept` | packages/model-option-map/src/merge-patch.ts:13-33 | a path no patch overlaps keeps the body's value |
| `OptionMaps.CompileModelOptionMaps` | packages/model-option-map/src/option-maps.ts:20-34 | both maps compile, or the first error is reported |
| `OptionMaps.Apply` | packages/model-option-map/src/option-maps.ts:24-42 | every outcome of a request, each map evaluated on the value of its own option: missing level, evaluation error, conflict exactly when the patches overlap, else both merged |
| `OptionMaps.OptionsCommute` | packages/model-option-map/src/option-maps.ts:29-31 | which option is applied first makes no difference |
| `OptionMaps.AppliedBodyIsSafe` | packages/model-option-map/src/option-maps.ts:20-42 | compiled maps never fail the object check and keep a body of JSON-safe numbers one |
| `PersonalConfig.StepKeepsInv` | packages/provider-node/src/personal-provider-config-repository.ts:54-217 | every stretch between two awaits, the failing lock and the late notice of an update included, keeps what polls, reads, updates and the lock know of the commits |
| `PersonalConfig.OnlyBlindPollsMoveBack` | packages/provider-node/src/personal-provider-config-repository.ts:190-200 | a step that takes the observed revision to an older commit ends a poll of the current generation that began before anything was observed |
| `PersonalConfig.MovesBackExactlyWhenBlind` | packages/provider-node/src/personal-provider-config-repository.ts:174-200 | when the timer is due, some interleaving moves the observed revision back if and only if nothing has been observed yet |
| `PersonalConfig.AnEarlyFailureIsBlind` | packages/provider-node/src/personal-provider-config-repository.ts:69-95 | an update that fails before the first read leads there |
| `PersonalConfig.ObservationNeverMovesBack` | packages/provider-node/src/personal-provider-config-repository.ts:54-217 | in every interleaving in which no update fails before the first observation, the observed revision never moves to an older commit |
| `PersonalConfig.PollCatchesUp` | packages/provider-node/src/personal-provider-config-repository.ts:190-217 | a poll that no local commit overtook leaves the repository at what it read, announced exactly when new |
| `PersonalConfig.OvertakenPollIsDiscarded` | packages/provider-node/src/personal-provider-config-repository.ts:195-203 | an overtaken poll changes nothing, succeeded or failed |
| `PersonalConfig.ErrorIsToldOnce` | packages/provider-node/src/personal-provider-config-repository.ts:194-210 | in every run an error is told of exactly when a poll that was not overtaken fails in a live repository and the last such poll before it did not |
| `PersonalConfig.ReadsAreSettled` | packages/provider-node/src/personal-provider-config-repository.ts:111-141 | in every run a read gives the imported settings where there was no file, and a file only in canonical form |
| `PersonalConfig.WhatIsWritten` | packages/provider-node/src/personal-provider-config-repository.ts:126-151 | what is written before a read or an update goes on: the imported settings, or the same document in canonical form |
| `PersonalConfig.TwoNoticesExactly` | packages/provider-node/src/personal-provider-config-repository.ts:143-200 | in every run, a poll announces the commit of an update as well if and only if a poll of the current generation reads it and ends before its write has ended, with another revision observed until then |
| `PersonalConfig.TwoNoticesHappen` | packages/provider-node/src/personal-provider-config-repository.ts:143-200 | a run from the start with both notices of one commit |
| `PersonalConfig.NoNoticeTwice` | packages/provider-node/src/personal-provider-config-repository.ts:85-90 | in every run a commit is announced at most once by polls and at most once by its update, and no update that has released the lock is forgotten before disposal |
| `PersonalConfig.QuietOnceFinished` | packages/provider-node/src/personal-provider-config-repository.ts:85-96 | once the write of an update has ended, and until something else is committed, no poll tells of anything but its own failure |
| `PersonalConfig.PersonalConfigRepository.ConcludePoll` | packages/provider-node/src/personal-provider-config-repository.ts:194-212 | the fields after a poll, in each of its cases |
| `PersonalConfig.PollingGoesOn` | packages/provider-node/src/personal-provider-config-repository.ts:174-217 | a timer is armed only with polling on, no poll in flight and no disposal; once a read, update or poll has ended, a poll is due or in flight, exactly one of the two, until disposal |
| `BuiltinRelease.SelectsTheNewest` | packages/provider-node/src/zcode-builtin-provider-config-source.ts:208-234 | the newest valid candidate, Bundled among equals, an error exactly when there is none |
| `BuiltinRelease.MaterialisedExactly` | packages/provider-node/src/zcode-builtin-provider-config-source.ts:103-116 | succeeds exactly when a candidate is valid and Active is or can be brought up to date, and then Active holds it |
| `BuiltinRelease.ReadIsNotOlderThanBundled` | packages/provider-node/src/zcode-builtin-provider-config-source.ts:49-65 | a read is never older than a valid Bundled, even when Active is out of reach |
| `BuiltinRelease.BaselineRebuildsActive` | packages/provider-node/src/zcode-builtin-provider-config-source.ts:183-196 | with both files deleted, what the process remembers of Bundled brings Active back |
| `BuiltinRelease.BundledIsRemembered` | packages/provider-node/src/zcode-builtin-provider-config-source.ts:183-196 | a Bundled release read once is remembered: with its file deleted, any later read of the process is no older, and with no Active file left gives it |
| `BuiltinRelease.OwnWriteIsNotAnnounced` | packages/provider-node/src/zcode-builtin-provider-config-source.ts:81-86 | a release that a source applied is not announced to it again by its watcher |
| `BuiltinRelease.OthersAreTold` | packages/provider-node/src/zcode-builtin-provider-config-source.ts:67-151 | when one source has applied a release, every other one of the same Active file that has observed something else tells of the change once at its next refresh, and nothing at the one after |
| `BuiltinRelease.RefreshTells` | packages/provider-node/src/zcode-builtin-provider-config-source.ts:136-151 | a refresh tells of an error exactly when lock, candidates or write fail, of a change exactly when what it reads differs from what was observed, and observes it |
| `BuiltinRelease.ApplyAnswers` | packages/provider-node/src/zcode-builtin-provider-config-source.ts:67-87 | the answer by the newest candidate there, what Active holds then, and that only an applied release is told of |
| `BuiltinRelease.ReadingTellsNothing` | packages/provider-node/src/zcode-builtin-provider-config-source.ts:49-65 | a read tells nothing and changes what was observed only the first time |
| `BuiltinRelease.NoChangeIsSwallowed` | packages/provider-node/src/zcode-builtin-provider-config-source.ts:49-151 | in every run of all sources, a live source still stands by what it had observed or has told of a change since |
| `BuiltinRelease.NextRefreshTells` | packages/provider-node/src/zcode-builtin-provider-config-source.ts:136-151 | whatever has changed in a run, by whomever, has been told of after the next refresh that can read |
| `BuiltinRelease.StepTakesTheNewest` | packages/provider-node/src/zcode-builtin-provider-config-source.ts:67-116 | one operation leaves a maximum of what was there and what it offers |
| `BuiltinRelease.NeverDecreases` | packages/provider-node/src/zcode-builtin-provider-config-source.ts:67-116 | across any interleaving of any number of sources the Active revision never decreases |
| `BuiltinRelease.EndsAtTheMaximum` | packages/provider-node/src/zcode-builtin-provider-config-source.ts:67-116 | a run ends at a maximum of the first Active and all candidates offered |
| `BuiltinRelease.OrderMakesNoDifference` | packages/provider-node/src/zcode-builtin-provider-config-source.ts:67-116 | where equal revisions mean equal releases, the outcome does not depend on the order |
| `BuiltinRelease.BuiltinConfigSource.ApplyRemoteRelease` | packages/provider-node/src/zcode-builtin-provider-config-source.ts:67-87 | stale, unchanged, refused for different content or written, with the files and fields after each |
| `BuiltinRelease.BuiltinConfigSource.Read` | packages/provider-node/src/zcode-builtin-provider-config-source.ts:49-65 | the release, files, memory and fields after a read, with its fallback |
| `BuiltinRelease.BuiltinConfigSource.Refresh` | packages/provider-node/src/zcode-builtin-provider-config-source.ts:136-151 | the fields and announcements after a change in the watched directory |
| `RenderBudget.KeepsTheFirstNodes` | packages/formal-proof/src/main.ts:702-723 | for every tree and budget of at least one: the first nodes in preorder are kept, the budget is used up by exactly their number, kept plus counted is all |
| `RenderBudget.ConservedExactly` | packages/formal-proof/src/main.ts:702-743 | kept plus counted is all if and only if the budget is at least one or there is only the root |
| `RenderBudget.DrawingPrunes` | packages/formal-proof/src/main.ts:702-735 | the drawing is the tree with, at each node, a tail of children folded into one summary with their exact count |
| `RenderBudget.Budget.CloneForRender` | packages/formal-proof/src/main.ts:702-723 | the recursion on the shared budget object is the function of the budget |
| `RenderBudget.CountTree` | packages/formal-proof/src/main.ts:737-743 | the loop counts every node |
| `RenderBudget.PathLeadsThere` | packages/formal-proof/src/main.ts:817-835 | there is a path exactly when some node has the id; it goes down from the root, child by child, to such a node |
| `RenderBudget.PathIsTheFirst` | packages/formal-proof/src/main.ts:817-835 | of several nodes with the id it goes to the first in preorder |
| `RenderBudget.FindPath` | packages/formal-proof/src/main.ts:817-835 | pushing and popping on one shared path yields that path, or the root alone |
| `TraceTree.QueueRemembersTheKinds` | packages/formal-proof/src/model.ts:867-875 | folding from empty gives empty, the only kind, or mixed, according to the kinds enqueued |
| `TraceTree.CutOffIsNeverTaken` | packages/formal-proof/src/model.ts:335-372 | the repeated-context cut-off never acts: the tree is the one without the record |
| `TraceTree.TraceTreeUnfolds` | packages/formal-proof/src/model.ts:250-261 | for every context and depth: below a state all user candidates and then exactly the applicable system ones, in order; below each its guard, its effect, and a next state exactly for an allowed, queued or system event with a next context |
| `TraceTree.TraceTreeIsWellFormed` | packages/formal-proof/src/model.ts:335-462 | for every context and depth: leaves and cases are the same nodes, node numbers are unique, cases are numbered 1, 2, 3, … in tree order |
| `TraceTree.TraceBuilder.BuildTraceTree` | packages/formal-proof/src/model.ts:258-261 | the builder with its two counters builds the specified tree |

## Left out

- The frame encoder and the message assembler of `@zcode/shared` are not part of this model; a list of frames with contiguous numbers from the one asked for, and one verdict per inbound frame, are assumed of them.
- The receiver across the network is assumed to keep frames in order, to ignore those it has, and to acknowledge a message only when it holds every frame up to it.
- AckRelayNetwork.EndToEnd: two premises about the link are assumed: while it is up it has taken the frames it accepted and not those it refused, and it comes up again only with a replay; what happens without the second is `ResumeWithoutReplay`.
- AckRelayMachine.RunKeepsInv: assumes that `replayUnacknowledged` is not called inside `sendFrame`; the counterexample and the exact condition are in `AckRelayNetwork`.
- Timers, their handles and their rescheduling: a timer is a call the environment may make at any time; the clock is a reading that never goes back.
- Exceptions of listeners other than those of `onMessage`, and the assembly timer's own expiry, which enters as a fault of the environment.
- AckRelayProtocol.AcknowledgedRelayProtocol.Dispose: the abort listeners come after the fields are cleared, not before; a disposed adapter refuses every call either way.
- Resolution of default limits: only that the low watermark is at most the high one is used.
- PlainRelay: `sendFrame` does not call back into the sender; frames carry bytes, without base64, generation or recovery id.
- Source offsets of expressions and the wording of error messages; errors are told apart by kind. Which error a text gives is stated where the mistake is in the first operand; deeper down it is what the grammar functions say.
- CelTokenizer.ReadStringLiteral: source text is a sequence of characters, not UTF-16 units, so a `\u` escape of a surrogate, which the code accepts, is an error of its own.
- CelTokenizer.Tokenize: for the same reason it refuses a source with such an escape.
- CelEvaluator.CompareIsATotalOrder: strings are ordered by characters, which differs from UTF-16 units beyond the basic plane; a negative zero, which is both at most and at least zero and yet not equal to it, is not modelled.
- CelEvaluator.JsonEqualsIsEquality: the code tells zero from negative zero, which exact numbers cannot.
- IEEE rounding, NaN and negative zero: numbers are exact. A double is JSON-safe exactly when it does not exceed the largest safe integer in size, and that bound is the check here.
- JSON key order, prototypes, copying and freezing of values: objects are maps and values do not change.
- The caches hand out equal programs; that they are the same object is not modelled.
- PersonalConfig.ObservationNeverMovesBack: reads of the file do not fail and its content can be decoded; a read that falls back to the empty configuration is not modelled, a failing poll is.
- Canonical encoding and hashing of the personal configuration: a revision is the document itself.
- Atomic rename, lock files and `fs.watch`: a locked section is atomic where it awaits nothing that others can see, and its writes are single steps.
- BuiltinRelease.EndsAtTheMaximum: Active and Bundled are different files, and only sources write Active; what is written decodes to what it was.
- A dispose in the middle of a locked section of the built-in source acts like a write that is refused.
- The rules of the product model (`evaluate`, which candidates apply) are a parameter of the trace tree; the record of visited contexts is keyed by the pair of round and context instead of a string.
- Titles, details and labels of trace nodes, statistics, export, the graph view and everything about the DOM; the remaining packages.
