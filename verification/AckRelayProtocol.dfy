/**
 The acknowledged relay adapter in its own, imperative form. Foreign code (the `sendFrame` callback and
 the emitters' listeners) is a script: each time control leaves the adapter it takes the next reaction, makes
 the calls listed there, re-entering the adapter, and then returns or throws. A proof for every script is a proof for
 every environment; when the script is used up the link refuses and the listeners do nothing.
 */
module AckRelayProtocol {
  import opened Wrappers
  import opened AckRelayFifo
  import opened AckRelayBatchQueue
  import opened AckRelayMachine

  const MAX_SAFE_INTEGER := 9007199254740991

  datatype Identity = Identity(bridgeSessionId: string, bridgeGeneration: Option<int>, recoveryId: Option<string>)

  /** What the assembler of inbound frames answers for one frame. */
  datatype Verdict =
    | Faulty(terminal: bool)
    | Incomplete
    | Duplicate(ackMessageSeq: Option<nat>)
    | Complete(messageSeq: nat, bytes: Bytes)

  datatype Inbound = Invalid | AckPayload(ackMessageSeq: nat) | FramePayload(verdict: Verdict)

  datatype Payload = Payload(isTransportCandidate: bool, identity: Identity, content: Inbound)

  datatype Call =
    | CallSend(bytes: Bytes)
    | CallAccept(payload: Payload)
    | CallFlush
    | CallReplay
    | CallMarkDegraded
    | CallDeadlineTimer
    | CallDispose

  /** What foreign code can do to end the adapter: give it reason for a fault, or dispose it. */
  datatype Peril = Fails(reason: Reason) | Closes

  /** The faults whose cause is in the adapter's own state. */
  const OWN_FAULTS := {FutureAck, ReplayBufferExceeded, AckGraceExceeded, ReplayGraceExceeded}

  /** How one round of the send loop ends. */
  datatype Round = Again | Empty | Stopped

  datatype Outcome = Returned(accepted: bool) | Thrown

  datatype Reaction = Reaction(calls: seq<Call>, outcome: Outcome)

  /** The contract of the frame encoder: a non-empty list with consecutive numbers from the one it was given. */
  ghost predicate EncoderOk(encode: (Bytes, nat, nat) -> Option<seq<Frame>>) {
    forall bytes, first, messageSeq :: encode(bytes, first, messageSeq).Some? ==>
      && encode(bytes, first, messageSeq).value != []
      && Contiguous(encode(bytes, first, messageSeq).value, first)
  }

  predicate MeasureOk(bytes: int, maxPhysicalFrameBytes: nat) {
    bytes <= MAX_SAFE_INTEGER && 0 < bytes <= maxPhysicalFrameBytes
  }

  function TotalBytes(frames: seq<Frame>, measure: Frame -> int): int {
    if frames == [] then 0 else TotalBytes(frames[..|frames| - 1], measure) + measure(frames[|frames| - 1])
  }

  /** The bytes of a whole batch, refused as soon as one frame has no admissible size. */
  method MeasureBatchBytes(frames: seq<Frame>, measure: Frame -> int, maxPhysicalFrameBytes: nat)
    returns (total: Option<nat>)
    ensures total.Some? <==> forall i :: 0 <= i < |frames| ==> MeasureOk(measure(frames[i]), maxPhysicalFrameBytes)
    ensures total.Some? ==> total.value == TotalBytes(frames, measure)
  {
    var sum: nat := 0;
    for i := 0 to |frames|
      invariant forall j :: 0 <= j < i ==> MeasureOk(measure(frames[j]), maxPhysicalFrameBytes)
      invariant sum == TotalBytes(frames[..i], measure)
    {
      var frameBytes := measure(frames[i]);
      if frameBytes > MAX_SAFE_INTEGER || frameBytes <= 0 || frameBytes > maxPhysicalFrameBytes {
        return None;
      }
      sum := sum + frameBytes;
      assert frames[..i + 1][..i] == frames[..i];
    }
    assert frames[..|frames|] == frames;
    return Some(sum);
  }

  ghost predicate InboundThreatens(candidate: Inbound, p: Peril) {
    || (candidate.Invalid? && p == Fails(InvalidPayload))
    || (candidate == FramePayload(Faulty(true)) && p == Fails(AssemblyFault))
  }

  // ---------- what has become of the payloads that came in during a send

  ghost predicate LoggedIn(hist: seq<Event>, from: nat, e: Event) {
    exists i :: from <= i < |hist| && hist[i] == e
  }

  ghost predicate LoggedThen(hist: seq<Event>, from: nat, e: Event, e': Event) {
    exists i, j :: from <= i < j < |hist| && hist[i] == e && hist[j] == e'
  }

  /** Processing this payload leaves an acknowledgement to be sent. */
  predicate OwesAck(candidate: Inbound) {
    && candidate.FramePayload?
    && (candidate.verdict.Complete? || (candidate.verdict.Duplicate? && candidate.verdict.ackMessageSeq.Some?))
  }

  /** What processing one payload must have done, unless the adapter has died. */
  ghost predicate HandledIn(hist: seq<Event>, from: nat, candidate: Inbound) {
    match candidate
    case Invalid => false
    case AckPayload(ack) => LoggedIn(hist, from, Acked(ack))
    case FramePayload(Faulty(terminal)) => !terminal
    case FramePayload(Incomplete) => true
    case FramePayload(Duplicate(None)) => true
    case FramePayload(Duplicate(Some(ack))) => LoggedIn(hist, from, Event.QueueAck(ack))
    case FramePayload(Complete(messageSeq, bytes)) =>
      LoggedThen(hist, from, Deliver(bytes), Event.QueueAck(messageSeq))
  }

  /**
   Every payload ever queued, in order; for each that has been taken out again, in the same order, how many events there
   were by then; and which of those are still being handled, or were when the adapter died.
   */
  datatype Ledger = Ledger(queued: seq<Inbound>, takenAt: seq<nat>, open: set<nat>)

  ghost predicate Attended(hist: seq<Event>, l: Ledger) {
    && |l.takenAt| <= |l.queued|
    && (forall j :: j in l.open ==> j < |l.takenAt|)
    && forall j :: 0 <= j < |l.takenAt| && j !in l.open ==> HandledIn(hist, l.takenAt[j], l.queued[j])
  }

  lemma {:induction false} StaysAttended(hist: seq<Event>, e: Event, l: Ledger)
    requires Attended(hist, l)
    ensures Attended(hist + [e], l)
  {
    forall j | 0 <= j < |l.takenAt| && j !in l.open
      ensures HandledIn(hist + [e], l.takenAt[j], l.queued[j])
    {
      StaysHandled(hist, e, l.takenAt[j], l.queued[j]);
    }
  }

  lemma {:induction false} StaysHandled(hist: seq<Event>, e: Event, from: nat, candidate: Inbound)
    requires HandledIn(hist, from, candidate)
    ensures HandledIn(hist + [e], from, candidate)
  {
    forall f | LoggedIn(hist, from, f)
      ensures LoggedIn(hist + [e], from, f)
    {
      var i :| from <= i < |hist| && hist[i] == f;
      assert (hist + [e])[i] == f;
    }
    forall f, f' | LoggedThen(hist, from, f, f')
      ensures LoggedThen(hist + [e], from, f, f')
    {
      var i, j :| from <= i < j < |hist| && hist[i] == f && hist[j] == f';
      assert (hist + [e])[i] == f && (hist + [e])[j] == f';
    }
  }

  /** Nothing is forgotten, and while the adapter lives, everything that was begun meanwhile has been finished. */
  ghost predicate LedgerLater(l: Ledger, l': Ledger, live: bool) {
    l.queued <= l'.queued && l.takenAt <= l'.takenAt && (live ==> l'.open == l.open)
  }

  class AcknowledgedRelayProtocol {
    const limits: Limits
    const identity: Identity
    const encode: (Bytes, nat, nat) -> Option<seq<Frame>>
    const measure: Frame -> int
    const maxPhysicalFrameBytes: nat
    const outboundBatches: BatchQueue
    var queuedInbound: seq<Inbound>
    var pendingAckMessageSeq: Option<nat>
    var pendingAckQueuedAt: Option<int>
    var nextPhysicalSeq: nat
    var nextMessageSeq: nat
    var highestFullySentMessageSeq: nat
    var lastAckedMessageSeq: nat
    var unacknowledgedByteCount: nat
    var saturated: bool
    var disposed: bool
    var degraded: bool
    var flushing: bool
    var outboundCallDepth: nat

    /** The environment: what foreign code will do, and the latest reading of its clock. */
    var script: seq<Reaction>
    var clock: int

    /** The events performed so far and the machine state they lead to. */
    ghost const start: int
    ghost var hist: seq<Event>
    ghost var model: State
    ghost var ledger: Ledger

    /** The first fault reported, what may end the adapter from outside, and the messages that came in whole. */
    ghost var firstFault: Option<Fault>
    ghost var perils: iset<Peril>
    ghost var completed: seq<Bytes>

    ghost predicate Valid()
      reads this, outboundBatches, outboundBatches.repr
    {
      ValidAs(model)
    }

    /** The fields are those of this state, and the events lead to the model. */
    ghost predicate ValidAs(s: State)
      reads this, outboundBatches, outboundBatches.repr
    {
      && Follows() && Mirrors(s) && Accounted() && Foreseen()
      && (pendingAckMessageSeq.Some? <==> pendingAckQueuedAt.Some?)
      && (pendingAckMessageSeq.Some? <==> s.acks.pending.Some?)
      && (s.acks.pending.Some? ==>
            && s.acks.pending.value.messageSeq == pendingAckMessageSeq.value
            && s.acks.pending.value.queuedAt == pendingAckQueuedAt.value)
      && s.degraded == degraded && s.disposed == disposed && s.clock == clock && s.fault == firstFault
      && s.delivered == completed
      && (outboundCallDepth > 0 ==> flushing && !s.inCall.Idle?)
    }

    /** The model is where the events lead. */
    ghost predicate Follows()
      reads this`hist, this`model, outboundBatches, outboundBatches.repr
    {
      LimitsOk(limits) && EncoderOk(encode) && outboundBatches.Valid() && Run(limits, start, hist) == Some(model)
    }

    /** The window and the byte count are those of this state. */
    ghost predicate Mirrors(s: State)
      reads this`nextPhysicalSeq, this`nextMessageSeq, this`highestFullySentMessageSeq, this`lastAckedMessageSeq,
            this`unacknowledgedByteCount, this`saturated, outboundBatches
    {
      && s.window.fifo == outboundBatches.view
      && s.window.nextPhysicalSeq == nextPhysicalSeq
      && s.window.nextMessageSeq == nextMessageSeq
      && s.window.highestFullySentMessageSeq == highestFullySentMessageSeq
      && s.window.lastAckedMessageSeq == lastAckedMessageSeq
      && s.flow.unacknowledgedByteCount == unacknowledgedByteCount
      && s.flow.saturated == saturated
    }

    /** The queue is what has been queued and not been taken out, and what has been taken out is attended to. */
    ghost predicate Accounted()
      reads this`queuedInbound, this`ledger, this`hist, this`degraded, this`disposed
    {
      Attended(hist, ledger) && (!degraded && !disposed ==> queuedInbound == ledger.queued[|ledger.takenAt|..])
    }

    /**
     Nothing ends the adapter without need: a fault has its cause in the adapter's state, as the machine checks, or in
     something foreign code does that deserves it; and nothing but a request disposes it.
     */
    ghost predicate Foreseen()
      reads this`script, this`queuedInbound, this`firstFault, this`disposed, this`perils
    {
      && (forall k, p :: 0 <= k < |script| && Threatens(script[k], p) ==> p in perils)
      && (forall k, p :: 0 <= k < |queuedInbound| && InboundThreatens(queuedInbound[k], p) ==> p in perils)
      && (firstFault.Some? ==> Excused(firstFault.value))
      && (disposed ==> Closes in perils)
    }

    ghost predicate Excused(fault: Fault)
      reads this`perils
    {
      fault.reason in OWN_FAULTS || Fails(fault.reason) in perils
    }

    ghost predicate ScriptThreatens(script: seq<Reaction>, p: Peril) {
      exists k :: 0 <= k < |script| && Threatens(script[k], p)
    }

    ghost predicate Threatens(reaction: Reaction, p: Peril) {
      || (reaction.outcome.Thrown? && p in {Fails(SendFailed), Fails(DeliveryFailed)})
      || exists k :: 0 <= k < |reaction.calls| && CallThreatens(reaction.calls[k], p)
    }

    ghost predicate CallThreatens(call: Call, p: Peril) {
      match call
      case CallSend(bytes) =>
        || (p == Fails(EncodingFailed) && exists first, messageSeq :: encode(bytes, first, messageSeq).None?)
        || (p == Fails(OuterMeterFailed) && exists first, messageSeq :: !Measurable(encode(bytes, first, messageSeq)))
      case CallAccept(payload) => InboundThreatens(payload.content, p)
      case CallMarkDegraded => p == Fails(ManuallyDegraded)
      case CallDispose => p == Closes
      case _ => false
    }

    ghost function PerilsOf(call: Call): iset<Peril> {
      iset p: Peril | CallThreatens(call, p)
    }

    /** Every frame has an admissible size. */
    predicate Measurable(frames: Option<seq<Frame>>) {
      frames.Some? ==>
        forall i :: 0 <= i < |frames.value| ==> MeasureOk(measure(frames.value[i]), maxPhysicalFrameBytes)
    }

    /** The fault with which a message is refused, if it is. */
    function Refusal(bytes: Bytes, first: nat, messageSeq: nat, unacknowledged: nat): Option<Fault> {
      var frames := encode(bytes, first, messageSeq);
      if frames.None? then Some(Fault(EncodingFailed, None))
      else if !Measurable(frames) then Some(Fault(OuterMeterFailed, None))
      else if unacknowledged + TotalBytes(frames.value, measure) > limits.replayBufferMaxBytes then
        Some(Fault(ReplayBufferExceeded, Some(messageSeq)))
      else None
    }

    /** The machine is inside a call exactly when `sendFrame` is on the stack. */
    ghost predicate Settled()
      reads this
    {
      outboundCallDepth == 0 <==> model.inCall.Idle?
    }

    ghost predicate Logged(from: nat, e: Event)
      reads this
    {
      LoggedIn(hist, from, e)
    }

    /** What every method keeps of the past. */
    twostate predicate Progress()
      reads this, outboundBatches
    {
      Kept() && perils == old(perils)
    }

    /** The same, where this call has been made from outside. */
    twostate predicate Answered(call: Call)
      reads this, outboundBatches
    {
      Kept() && perils == old(perils) + PerilsOf(call)
    }

    twostate predicate Kept()
      reads this, outboundBatches
    {
      && old(hist) <= hist
      && |script| <= |old(script)|
      && flushing == old(flushing) && outboundCallDepth == old(outboundCallDepth)
      && old(outboundBatches.repr) <= outboundBatches.repr
      && fresh(outboundBatches.repr - old(outboundBatches.repr))
      && Later(old(model), model) && LedgerLater(old(ledger), ledger, Live(model))
      && (!old(model).inCall.Idle? && Live(model) ==> SameSlots())
      && (!old(flushing) && old(queuedInbound) == [] && Live(model) ==> queuedInbound == [])
    }

    twostate predicate SameSlots()
      reads outboundBatches
    {
      && old(outboundBatches.storage) <= outboundBatches.storage
      && outboundBatches.headIndex == old(outboundBatches.headIndex)
      && outboundBatches.nextUnsentIndex == old(outboundBatches.nextUnsentIndex)
    }

    /** Control has not left the adapter. */
    twostate predicate OnlyStateChanged()
      reads this, outboundBatches
    {
      && script == old(script) && flushing == old(flushing) && outboundCallDepth == old(outboundCallDepth)
      && outboundBatches.repr == old(outboundBatches.repr)
    }

    twostate predicate QueueKept()
      reads this
    {
      queuedInbound == old(queuedInbound) && ledger == old(ledger)
    }

    /** The environment has been used, or nothing more is waiting than before. */
    twostate predicate Bounded()
      reads this
    {
      |script| < |old(script)| || (script == old(script) && |queuedInbound| <= |old(queuedInbound)|)
    }

    constructor (limits: Limits, identity: Identity, encode: (Bytes, nat, nat) -> Option<seq<Frame>>,
                 measure: Frame -> int, maxPhysicalFrameBytes: nat, clock: int, script: seq<Reaction>)
      requires LimitsOk(limits) && EncoderOk(encode)
      ensures Valid() && Settled() && fresh(outboundBatches) && fresh(outboundBatches.repr)
      ensures hist == [] && model == Init(clock) && this.script == script
      ensures queuedInbound == [] && ledger == Ledger([], [], {})
      ensures perils == iset p: Peril | ScriptThreatens(script, p)
    {
      this.limits := limits;
      this.identity := identity;
      this.encode := encode;
      this.measure := measure;
      this.maxPhysicalFrameBytes := maxPhysicalFrameBytes;
      var queue := new BatchQueue();
      outboundBatches := queue;
      queuedInbound := [];
      pendingAckMessageSeq, pendingAckQueuedAt := None, None;
      nextPhysicalSeq, nextMessageSeq := 1, 1;
      highestFullySentMessageSeq, lastAckedMessageSeq := 0, 0;
      unacknowledgedByteCount := 0;
      saturated, disposed, degraded, flushing := false, false, false, false;
      outboundCallDepth := 0;
      this.script := script;
      this.clock := clock;
      start := clock;
      hist := [];
      model := Init(clock);
      ledger := Ledger([], [], {});
      firstFault, completed := None, [];
      new;
      perils := iset p: Peril | ScriptThreatens(script, p);
    }

    /** A call from outside is made. */
    ghost method Foresee(call: Call)
      requires Valid()
      modifies this`perils
      ensures Valid() && perils == old(perils) + PerilsOf(call)
    {
      hide Follows, Mirrors, Accounted, Threatens, CallThreatens, InboundThreatens;
      perils := perils + PerilsOf(call);
    }

    /** An event has been performed. */
    ghost method Log(e: Event)
      requires Step(limits, model, e).Some? && ValidAs(Step(limits, model, e).value)
      modifies this`hist, this`model
      ensures Valid() && hist == old(hist) + [e] && model == Step(limits, old(model), e).value
    {
      hide Run, Step, Attended, Mirrors, Foreseen, EncoderOk, BatchQueue.Valid, LimitsOk;
      StaysAttended(hist, e, ledger);
      RunSnoc(limits, start, hist, e);
      model := Step(limits, model, e).value;
      hist := hist + [e];
    }

    /** A reading of the clock: never earlier than the one before. */
    method Now() returns (now: int)
      requires Valid()
      modifies this`clock, this`hist, this`model
      ensures Valid() && now == clock >= old(clock)
      ensures hist == old(hist) + [Tick(now)] && model == old(model).(clock := now)
      ensures Later(old(model), model)
    {
      now :| now >= clock;
      clock := now;
      Log(Tick(now));
    }

    /** Foreign code runs. */
    method React() returns (outcome: Outcome)
      requires Valid() && Settled()
      modifies this, outboundBatches, outboundBatches.repr
      ensures Valid() && Settled() && Progress()
      ensures old(script) == [] ==> outcome == Returned(false) && unchanged(this) && unchanged(outboundBatches)
      ensures old(script) != [] ==> |script| < |old(script)|
      ensures outcome.Thrown? ==> Fails(SendFailed) in perils && Fails(DeliveryFailed) in perils
      decreases |script|, 0, |queuedInbound|, 1
    {
      hide Follows, Mirrors, Accounted;
      if script == [] {
        return Returned(false);
      }
      var reaction := NextReaction();
      RunCalls(reaction.calls);
      outcome := reaction.outcome;
    }

    method NextReaction() returns (reaction: Reaction)
      requires Valid() && script != []
      modifies this`script
      ensures Valid() && [reaction] + script == old(script)
      ensures forall k :: 0 <= k < |reaction.calls| ==> PerilsOf(reaction.calls[k]) <= perils
      ensures reaction.outcome.Thrown? ==> Fails(SendFailed) in perils && Fails(DeliveryFailed) in perils
    {
      hide Follows, Mirrors, Accounted, CallThreatens, InboundThreatens;
      reaction := script[0];
      script := script[1..];
      assert forall p :: Threatens(reaction, p) ==> p in perils;
    }

    method RunCalls(calls: seq<Call>)
      requires Valid() && Settled() && forall k :: 0 <= k < |calls| ==> PerilsOf(calls[k]) <= perils
      modifies this, outboundBatches, outboundBatches.repr
      ensures Valid() && Settled() && Progress()
      decreases |script|, 2, 0, 0
    {
      hide Follows, Mirrors, Accounted, Foreseen, PerilsOf;
      for i := 0 to |calls|
        invariant Valid() && Settled() && Progress()
      {
        Dispatch(calls[i]);
      }
    }

    method Dispatch(call: Call)
      requires Valid() && Settled() && PerilsOf(call) <= perils
      modifies this, outboundBatches, outboundBatches.repr
      ensures Valid() && Settled() && Progress()
      decreases |script|, 1, 0, 0
    {
      hide Follows, Mirrors, Accounted, Foreseen, PerilsOf;
      assert perils + PerilsOf(call) == perils;
      match call
      case CallSend(bytes) =>
        var _, _ := ReserveMessage(bytes);
      case CallAccept(payload) =>
        var _ := AcceptPayload(payload);
      case CallFlush =>
        var _ := FlushPendingFrames();
      case CallReplay =>
        // Environment assumption: replay is not requested while sendFrame is on the stack.
        if outboundCallDepth == 0 {
          var _ := ReplayUnacknowledged();
        }
      case CallMarkDegraded =>
        MarkDegraded();
      case CallDeadlineTimer =>
        if !disposed && !degraded {
          var _, _ := CheckDeadline();
        }
      case CallDispose =>
        Dispose();
    }

    method MarkDegraded()
      requires Valid() && Settled()
      modifies this, outboundBatches, outboundBatches.repr
      ensures Valid() && Settled() && Answered(CallMarkDegraded) && Bounded() && !Live(model)
      ensures Live(old(model)) ==> firstFault == Some(Fault(ManuallyDegraded, None))
      decreases |script|, 0, |queuedInbound|, 4
    {
      hide Follows, Mirrors, Accounted, Foreseen, Run, Step, SameWindowStart;
      Foresee(CallMarkDegraded);
      Fail(Fault(ManuallyDegraded, None));
    }

    method EnterDegraded(fault: Fault, ghost e: Event)
      requires Valid() && Settled()
      requires Step(limits, model, e) == Some(Degraded(model, fault)) && Excused(fault)
      modifies this, outboundBatches, outboundBatches.repr
      ensures Valid() && Settled() && Progress() && Bounded() && !Live(model)
      ensures Live(old(model)) ==> firstFault == Some(fault) && Logged(|old(hist)|, e)
      decreases |script|, 0, |queuedInbound|, 2
    {
      hide Follows, Mirrors, Accounted, Foreseen, Run, Step, SameWindowStart;
      if disposed || degraded {
        return;
      }
      CloseDown(fault, e);
      assert hist[|old(hist)|] == e;
      ghost var closed := model;
      var _ := React();  // listeners of the abort signal
      ghost var aborted := model;
      var _ := React();  // listeners of onDegraded
      LaterIsTransitive(closed, aborted, model);
      LaterIsTransitive(old(model), closed, model);
    }

    /** The state changes of a fault, before any listener hears of it. */
    method CloseDown(fault: Fault, ghost e: Event)
      requires Valid() && Settled() && Live(model) && Excused(fault)
      requires Step(limits, model, e) == Some(Degraded(model, fault))
      modifies this`firstFault, this`degraded, this`saturated, this`queuedInbound, this`pendingAckMessageSeq,
               this`pendingAckQueuedAt, this`unacknowledgedByteCount, this`hist, this`model, outboundBatches
      ensures Valid() && model == Degraded(old(model), fault) && hist == old(hist) + [e]
      ensures queuedInbound == [] && OnlyStateChanged() && ledger == old(ledger)
    {
      hide BatchQueue.Valid, Accounted, Run, Step, EncoderOk, Foreseen, Excused;
      outboundBatches.Clear();
      SetDegraded(fault);
      ForgetEverything();
      Log(e);
    }

    method SetDegraded(ghost fault: Fault)
      requires Foreseen() && Accounted() && Excused(fault)
      modifies this`degraded, this`saturated, this`firstFault
      ensures Foreseen() && Accounted() && degraded && !saturated && firstFault == Some(fault)
    {
      hide ScriptThreatens, Threatens, InboundThreatens, Attended;
      degraded, saturated, firstFault := true, false, Some(fault);
    }

    /** What degrading and disposing have in common, besides the batches. */
    method ForgetEverything()
      requires Foreseen() && Accounted() && (degraded || disposed)
      modifies this`queuedInbound, this`pendingAckMessageSeq, this`pendingAckQueuedAt, this`unacknowledgedByteCount
      ensures queuedInbound == [] && unacknowledgedByteCount == 0
      ensures pendingAckMessageSeq == None && pendingAckQueuedAt == None && Foreseen() && Accounted()
    {
      hide Threatens, InboundThreatens, Excused, Attended;
      queuedInbound := [];
      pendingAckMessageSeq := None;
      pendingAckQueuedAt := None;
      unacknowledgedByteCount := 0;
    }

    method SetDisposed()
      requires Foreseen() && Accounted() && Closes in perils
      modifies this`disposed
      ensures disposed && Foreseen() && Accounted()
    {
      hide Threatens, InboundThreatens, Excused, Attended;
      disposed := true;
    }

    method Dispose()
      requires Valid() && Settled()
      modifies this, outboundBatches, outboundBatches.repr
      ensures Valid() && Settled() && Answered(CallDispose) && Bounded() && disposed
      decreases |script|, 0, |queuedInbound|, 2
    {
      hide Follows, Mirrors, Accounted, Foreseen, Run, Step, SameWindowStart;
      Foresee(CallDispose);
      if disposed {
        return;
      }
      var aborts := !degraded;
      DisposeEnabled(limits, model);
      CloseForGood();
      ghost var closed := model;
      if aborts {
        var _ := React();  // listeners of the abort signal
      }
      LaterIsTransitive(old(model), closed, model);
    }

    method CloseForGood()
      requires Valid() && !disposed && Step(limits, model, Event.Dispose) == Some(Disposed(model)) && Closes in perils
      modifies this`disposed, this`queuedInbound, this`pendingAckMessageSeq, this`pendingAckQueuedAt,
               this`unacknowledgedByteCount, this`hist, this`model, outboundBatches
      ensures Valid() && model == Disposed(old(model)) && hist == old(hist) + [Event.Dispose]
      ensures queuedInbound == [] && OnlyStateChanged() && ledger == old(ledger)
    {
      hide BatchQueue.Valid, Accounted, Run, Step, EncoderOk, Foreseen;
      outboundBatches.Clear();
      SetDisposed();
      ForgetEverything();
      Log(Event.Dispose);
    }

    /** The grace deadline, read from the head batch and the pending acknowledgement. */
    method CheckDeadline() returns (expired: bool, ghost now: int)
      requires Valid() && Settled() && Live(model)
      modifies this, outboundBatches, outboundBatches.repr
      ensures Valid() && Settled() && Progress() && Bounded()
      ensures now >= old(clock) && (expired <==> Expired(limits, old(model).(clock := now)))
      ensures expired ==>
                && !Live(model) && Logged(|old(hist)|, Tick(now))
                && firstFault == DueFault(limits, old(model).(clock := now))
      ensures !expired ==>
                && model == old(model).(clock := now) && !Expired(limits, model)
                && unchanged(outboundBatches) && script == old(script) && QueueKept()
      decreases |script|, 0, |queuedInbound|, 4
    {
      hide Follows, Mirrors, Accounted, Foreseen, Run, Step, Later, Select, Expired, DueFault, Caused;
      LaterIsReflexive(model);
      now := clock;
      DeadlineDecides(limits, model);
      var selected := NextDeadline();
      if selected.None? {
        return false, now;
      }
      var reading := Now();
      now := reading;
      DeadlineDecides(limits, model);
      ghost var read := model;
      if reading < selected.value.at {
        return false, now;
      }
      assert hist[|old(hist)|] == Tick(now);
      Fail(selected.value.fault);
      LaterIsTransitive(old(model), read, model);
      return true, now;
    }

    /** The grace deadline of the head batch and the pending acknowledgement. */
    method NextDeadline() returns (selected: Option<Deadline>)
      requires Valid()
      ensures selected == Select(limits, AckRelayMachine.Oldest(model.window.fifo), model.acks.pending)
      ensures selected.Some? ==> selected.value.fault.reason in OWN_FAULTS
    {
      DeadlineIsTheModels();
      hide Follows, Mirrors, Accounted, Foreseen;
      var oldest := outboundBatches.Oldest();
      var data := if oldest == null then None else Some(oldest.batch);
      var ack := if pendingAckQueuedAt.None? || pendingAckMessageSeq.None? then None
                 else Some(PendingAck(pendingAckMessageSeq.value, pendingAckQueuedAt.value));
      return Select(limits, data, ack);
    }

    /** The head of the queue and the pending acknowledgement are those of the model. */
    lemma {:induction false} DeadlineIsTheModels()
      requires Valid()
      ensures var oldest := outboundBatches.Oldest();
              && AckRelayMachine.Oldest(model.window.fifo) == (if oldest == null then None else Some(oldest.batch))
              && (oldest != null ==> oldest in outboundBatches.repr)
    {
      outboundBatches.Ends();
      hide Run, EncoderOk, Attended;
    }

    /** A fault found anywhere but in an acknowledgement. */
    method Fail(fault: Fault)
      requires Valid() && Settled() && Excused(fault) && (Live(model) ==> Caused(limits, model, fault))
      modifies this, outboundBatches, outboundBatches.repr
      ensures Valid() && Settled() && Progress() && Bounded() && !Live(model)
      ensures Live(old(model)) ==> firstFault == Some(fault) && Logged(|old(hist)|, Degrade(fault))
      decreases |script|, 0, |queuedInbound|, 3
    {
      DegradeEnabled(limits, model, fault);
      hide Follows, Mirrors, Accounted, Foreseen, Run, Step, Caused, Excused;
      EnterDegraded(fault, Degrade(fault));
    }

    /**
     Sends one message. A live adapter whose deadline has not passed admits it exactly when it can be encoded, every
     frame has an admissible size and its bytes fit the limit; otherwise the fault says which of these it is. What is
     admitted is the encoding of the whole message under the next message number and the next physical numbers.
     */
    method ReserveMessage(bytes: Bytes) returns (ghost admitted: Option<Batch>, ghost now: int)
      requires Valid() && Settled()
      modifies this, outboundBatches, outboundBatches.repr
      ensures Valid() && Settled() && Answered(CallSend(bytes)) && Bounded()
      ensures now >= old(clock)
      ensures var s, refusal := old(model).(clock := now), old(RefusalNow(bytes));
              if !Live(s) then admitted.None?
              else if Expired(limits, s) then admitted.None? && !Live(model) && firstFault == DueFault(limits, s)
              else if refusal.Some? then admitted.None? && !Live(model) && firstFault == refusal
              else admitted.Some?
      ensures admitted.Some? ==>
                && Logged(|old(hist)|, Reserve(admitted.value))
                && IsEncodingOf(admitted.value, bytes, old(nextPhysicalSeq), old(nextMessageSeq))
      ensures admitted.Some? && !old(flushing) && old(queuedInbound) == [] && Live(model) ==> Flushed(|old(hist)|)
      decreases |script|, 0, |queuedInbound|, 13
    {
      hide Follows, Mirrors, Accounted, Foreseen, Run, Step, SameWindowStart, Refusal, Expired, IsEncodingOf;
      admitted, now := None, clock;
      Foresee(CallSend(bytes));
      if disposed || degraded {
        return;
      }
      WindowOfModel();
      var expired, reading := CheckDeadline();
      now := reading;
      if expired {
        return;
      }
      WindowOfModel();
      ghost var checked := model;
      admitted := AdmitAndFlush(bytes);
      LaterIsTransitive(old(model), checked, model);
    }

    /** What sending does once the deadline has been checked. */
    method AdmitAndFlush(bytes: Bytes) returns (batch: Option<Batch>)
      requires Valid() && Settled() && Live(model) && PerilsOf(CallSend(bytes)) <= perils
      modifies this, outboundBatches, outboundBatches.repr
      ensures Valid() && Settled() && Progress() && Bounded()
      ensures batch.None? <==> old(RefusalNow(bytes)).Some?
      ensures batch.None? ==> !Live(model) && firstFault == old(RefusalNow(bytes))
      ensures batch.Some? ==>
                && Logged(|old(hist)|, Reserve(batch.value))
                && IsEncodingOf(batch.value, bytes, old(nextPhysicalSeq), old(nextMessageSeq))
      ensures batch.Some? && !old(flushing) && old(queuedInbound) == [] && Live(model) ==> Flushed(|old(hist)|)
      decreases |script|, 0, |queuedInbound|, 12
    {
      hide Follows, Mirrors, Accounted, Foreseen, Run, Step, SameWindowStart, Refusal, PerilsOf, IsEncodingOf;
      batch := EncodeAndAdmit(bytes);
      if batch.Some? {
        ghost var reserved := model;
        var _ := FlushPendingFrames();
        LaterIsTransitive(old(model), reserved, model);
      }
    }

    /** The whole message, encoded under these numbers, with the size of all its frames. */
    ghost predicate IsEncodingOf(batch: Batch, bytes: Bytes, first: nat, messageSeq: nat) {
      && Some(batch.frames) == encode(bytes, first, messageSeq) && batch.messageSeq == messageSeq
      && batch.outerBytes == TotalBytes(batch.frames, measure)
    }

    ghost function RefusalNow(bytes: Bytes): Option<Fault>
      reads this
    {
      Refusal(bytes, nextPhysicalSeq, nextMessageSeq, unacknowledgedByteCount)
    }

    /** Encoding, measuring and admission of one message, none of which sends anything. */
    method EncodeAndAdmit(bytes: Bytes) returns (batch: Option<Batch>)
      requires Valid() && Settled() && Live(model) && PerilsOf(CallSend(bytes)) <= perils
      modifies this, outboundBatches, outboundBatches.repr
      ensures Valid() && Settled() && Progress() && Bounded()
      ensures batch.None? <==> old(RefusalNow(bytes)).Some?
      ensures batch.None? ==> !Live(model) && firstFault == old(RefusalNow(bytes))
      ensures batch.Some? ==>
                && Logged(|old(hist)|, Reserve(batch.value))
                && IsEncodingOf(batch.value, bytes, old(nextPhysicalSeq), old(nextMessageSeq))
      decreases |script|, 0, |queuedInbound|, 4
    {
      RefusalIsForeseen(bytes);
      RefusalDecides(bytes, encode(bytes, nextPhysicalSeq, nextMessageSeq));
      WindowOfModel();
      hide Follows, Mirrors, Accounted, Foreseen, Run, Step, SameWindowStart, PerilsOf, Refusal;
      var frames := encode(bytes, nextPhysicalSeq, nextMessageSeq);
      if frames.None? {
        Fail(Fault(EncodingFailed, None));
        return None;
      }
      var outerBytes := MeasureBatchBytes(frames.value, measure, maxPhysicalFrameBytes);
      if outerBytes.None? {
        Fail(Fault(OuterMeterFailed, None));
        return None;
      }
      if unacknowledgedByteCount + outerBytes.value > limits.replayBufferMaxBytes {
        RejectEnabled(limits, model, outerBytes.value);
        EnterDegraded(Fault(ReplayBufferExceeded, Some(nextMessageSeq)), Reject(outerBytes.value));
        return None;
      }
      var admitted := Admit(frames.value, outerBytes.value);
      return Some(admitted);
    }

    /** What cannot be encoded or measured is among the perils of sending it. */
    lemma {:induction false} RefusalIsForeseen(bytes: Bytes)
      requires PerilsOf(CallSend(bytes)) <= perils
      ensures encode(bytes, nextPhysicalSeq, nextMessageSeq).None? ==> Fails(EncodingFailed) in perils
      ensures !Measurable(encode(bytes, nextPhysicalSeq, nextMessageSeq)) ==> Fails(OuterMeterFailed) in perils
    {
      assert encode(bytes, nextPhysicalSeq, nextMessageSeq).None? ==>
               Fails(EncodingFailed) in PerilsOf(CallSend(bytes));
      assert !Measurable(encode(bytes, nextPhysicalSeq, nextMessageSeq)) ==>
               Fails(OuterMeterFailed) in PerilsOf(CallSend(bytes));
    }

    lemma {:induction false} RefusalDecides(bytes: Bytes, frames: Option<seq<Frame>>)
      requires frames == encode(bytes, nextPhysicalSeq, nextMessageSeq)
      ensures RefusalNow(bytes)
           == if frames.None? then Some(Fault(EncodingFailed, None))
              else if !Measurable(frames) then Some(Fault(OuterMeterFailed, None))
              else if unacknowledgedByteCount + TotalBytes(frames.value, measure) > limits.replayBufferMaxBytes then
                Some(Fault(ReplayBufferExceeded, Some(nextMessageSeq)))
              else None
    {
    }

    lemma {:induction false} WindowOfModel()
      requires Valid()
      ensures model.flow.unacknowledgedByteCount == unacknowledgedByteCount
      ensures model.window.nextPhysicalSeq == nextPhysicalSeq && model.window.nextMessageSeq == nextMessageSeq
      ensures EncoderOk(encode)
    {
      hide BatchQueue.Valid, Run, EncoderOk;
    }

    /** Admission: saturation is announced once the batch is in the queue. */
    method Admit(frames: seq<Frame>, outerBytes: nat) returns (batch: Batch)
      requires Valid() && Settled() && Live(model)
      requires frames != [] && Contiguous(frames, nextPhysicalSeq)
      requires unacknowledgedByteCount + outerBytes <= limits.replayBufferMaxBytes
      modifies this, outboundBatches, outboundBatches.repr
      ensures Valid() && Settled() && Progress() && Bounded()
      ensures Logged(|old(hist)|, Reserve(batch))
      ensures batch.frames == frames && batch.outerBytes == outerBytes && batch.messageSeq == old(nextMessageSeq)
      decreases |script|, 0, |queuedInbound|, 2
    {
      hide Follows, Mirrors, Accounted, Foreseen, Run, Step, SameWindowStart, Contiguous, WindowReserve, FlowReserve;
      var queuedAt := Now();
      batch := Batch(nextMessageSeq, frames, outerBytes, queuedAt);
      ghost var before := model;
      var saturates := AdmitBatch(batch);
      ghost var appended := model;
      assert hist[|old(hist)| + 1] == Reserve(batch);
      if saturates {
        var _ := React();  // listeners of onSaturated
      }
      LaterIsTransitive(before, appended, model);
      LaterIsTransitive(old(model), before, model);
    }

    method AdmitBatch(batch: Batch) returns (saturates: bool)
      requires Valid() && Settled() && Live(model)
      requires batch.frames != [] && Contiguous(batch.frames, nextPhysicalSeq)
      requires batch.messageSeq == nextMessageSeq && batch.queuedAt == clock
      requires unacknowledgedByteCount + batch.outerBytes <= limits.replayBufferMaxBytes
      modifies this`unacknowledgedByteCount, this`nextMessageSeq, this`nextPhysicalSeq, this`saturated,
               this`hist, this`model, outboundBatches
      ensures Valid() && Settled() && hist == old(hist) + [Reserve(batch)] && Later(old(model), model)
      ensures saturates <==> model.flow.signals != old(model).flow.signals
      ensures outboundCallDepth == old(outboundCallDepth) && QueueKept() && SameSlots()
      ensures old(outboundBatches.repr) <= outboundBatches.repr
      ensures fresh(outboundBatches.repr - old(outboundBatches.repr))
    {
      WindowOfModel();
      hide Follows, Mirrors, Accounted, Foreseen, Run, Step, Contiguous, EncoderOk;
      ReserveEnabled(limits, model, batch);
      StepIsLater(limits, model, Reserve(batch));
      var retained := new OutboundBatch(batch);
      saturates := AppendBatch(batch, retained);
    }

    /** Appends the batch, advances both counters and updates saturation. */
    method AppendBatch(batch: Batch, retained: OutboundBatch) returns (saturates: bool)
      requires retained.batch == batch && retained.nextFrameIndex == 0 && retained !in outboundBatches.repr
      requires Valid() && batch.frames != [] && Contiguous(batch.frames, nextPhysicalSeq)
      requires Step(limits, model, Reserve(batch))
            == Some(model.(window := WindowReserve(model.window, batch),
                           flow := FlowReserve(limits, model.flow, batch.outerBytes)))
      modifies this`unacknowledgedByteCount, this`nextMessageSeq, this`nextPhysicalSeq, this`saturated,
               this`hist, this`model, outboundBatches
      ensures Valid() && hist == old(hist) + [Reserve(batch)]
      ensures model == old(model).(window := WindowReserve(old(model).window, batch),
                                   flow := FlowReserve(limits, old(model).flow, batch.outerBytes))
      ensures saturates <==> model.flow.signals != old(model).flow.signals
      ensures script == old(script) && flushing == old(flushing) && outboundCallDepth == old(outboundCallDepth)
      ensures QueueKept()
      ensures outboundBatches.repr == old(outboundBatches.repr) + {retained} && SameSlots()
    {
      hide BatchQueue.Valid, Accounted, Foreseen, Run, Step, EncoderOk;
      outboundBatches.Append(retained);
      saturates := CountBatch(batch);
      Log(Reserve(batch));
    }

    method CountBatch(batch: Batch) returns (saturates: bool)
      requires batch.frames != [] && Contiguous(batch.frames, nextPhysicalSeq)
      modifies this`unacknowledgedByteCount, this`nextMessageSeq, this`nextPhysicalSeq, this`saturated
      ensures nextMessageSeq == old(nextMessageSeq) + 1 && nextPhysicalSeq == old(nextPhysicalSeq) + |batch.frames|
      ensures unacknowledgedByteCount == old(unacknowledgedByteCount) + batch.outerBytes
      ensures saturates <==> !old(saturated) && unacknowledgedByteCount > limits.highWaterMarkBytes
      ensures saturated <==> old(saturated) || saturates
    {
      unacknowledgedByteCount := unacknowledgedByteCount + batch.outerBytes;
      nextMessageSeq := nextMessageSeq + 1;
      nextPhysicalSeq := batch.frames[|batch.frames| - 1].seqNo + 1;
      saturates := !saturated && unacknowledgedByteCount > limits.highWaterMarkBytes;
      if saturates {
        saturated := true;
      }
    }

    /** One call of `sendFrame`. Anything may happen inside it except that the captured batch moves. */
    method InvokeSend(ghost begin: Event, ghost call: InCall) returns (accepted: bool)
      requires Valid() && Settled() && Live(model) && outboundCallDepth == 0 && flushing
      requires IsSend(begin) && !call.Idle? && Step(limits, model, begin) == Some(model.(inCall := call))
      modifies this, outboundBatches, outboundBatches.repr
      ensures Valid() && outboundCallDepth == 0 && flushing
      ensures model.inCall == call && perils == old(perils)
      ensures old(hist) + [begin] <= hist && LedgerLater(old(ledger), ledger, Live(model))
      ensures old(outboundBatches.repr) <= outboundBatches.repr
      ensures fresh(outboundBatches.repr - old(outboundBatches.repr))
      ensures (old(disposed) ==> disposed) && (old(degraded) ==> degraded)
      ensures Live(model) ==> SameWindowStart(old(model), model) && SameSlots()
      ensures if old(script) == [] then !accepted && Bounded() else |script| < |old(script)|
      decreases |script|, 0, |queuedInbound|, 5
    {
      hide Follows, Accounted, Foreseen, Run, Step, EncoderOk, Later, SameWindowStart;
      outboundCallDepth := outboundCallDepth + 1;
      Log(begin);
      accepted := CallSendFrame();
      LaterInsideSend(old(model), call, model);
      outboundCallDepth := outboundCallDepth - 1;
    }

    /** `sendFrame` itself: what it throws is a fault, and then the frame is not accepted. */
    method CallSendFrame() returns (accepted: bool)
      requires Valid() && Settled() && outboundCallDepth > 0
      modifies this, outboundBatches, outboundBatches.repr
      ensures Valid() && Settled() && Progress()
      ensures if old(script) == [] then !accepted && Bounded() else |script| < |old(script)|
      decreases |script|, 0, |queuedInbound|, 4
    {
      hide Follows, Mirrors, Accounted, Foreseen, Run, Step, SameWindowStart;
      var outcome := React();
      if outcome.Thrown? {
        ghost var reacted := model;
        Fail(Fault(SendFailed, None));
        LaterIsTransitive(old(model), reacted, model);
        accepted := false;
      } else {
        accepted := outcome.accepted;
      }
    }

    /** One round of the send loop for the pending acknowledgement. True: accepted, and the adapter is still alive. */
    method SendPendingAck() returns (goOn: bool)
      requires Valid() && Settled() && Live(model) && outboundCallDepth == 0 && flushing
      requires pendingAckMessageSeq.Some? && !Expired(limits, model)
      modifies this, outboundBatches, outboundBatches.repr
      ensures Valid() && Settled() && Progress() && Bounded()
      ensures Logged(|old(hist)|, BeginAck)
      ensures goOn ==> Live(model) && |script| < |old(script)|
      ensures !goOn ==> !Live(model) || Logged(|old(hist)|, EndAck(false))
      decreases |script|, 0, |queuedInbound|, 6
    {
      BeginAckEnabled(limits, model);
      hide Follows, Mirrors, Accounted, Foreseen, Run, Step;
      var ackMessageSeq := pendingAckMessageSeq.value;
      var accepted := InvokeSend(BeginAck, SendingAck(ackMessageSeq));
      assert hist[|old(hist)|] == BeginAck;
      goOn := FinishAck(ackMessageSeq, accepted);
      assert hist[|old(hist)|] == BeginAck && hist[|hist| - 1] == EndAck(accepted);
    }

    /** What follows a call of `sendFrame` with an acknowledgement. */
    method FinishAck(ackMessageSeq: nat, accepted: bool) returns (goOn: bool)
      requires Valid() && model.inCall == SendingAck(ackMessageSeq) && outboundCallDepth == 0
      modifies this`hist, this`model, this`pendingAckMessageSeq, this`pendingAckQueuedAt
      ensures Valid() && Settled() && hist == old(hist) + [EndAck(accepted)]
      ensures degraded == old(degraded) && disposed == old(disposed)
      ensures goOn <==> accepted && Live(model)
    {
      EndAckEnabled(limits, model, accepted);
      hide Follows, Mirrors, Accounted, Foreseen, Run, Step, Expired;
      if !accepted || degraded || disposed {
        FinishCall(EndAck(accepted));
        return false;
      }
      AckAccepted(ackMessageSeq);
      return true;
    }

    /** A call of `sendFrame` that was refused, or after which the adapter is dead. */
    method FinishCall(ghost e: Event)
      requires Valid() && outboundCallDepth == 0 && Step(limits, model, e) == Some(model.(inCall := Idle))
      modifies this`hist, this`model
      ensures Valid() && Settled() && model == old(model).(inCall := Idle)
      ensures hist == old(hist) + [e] && hist[|old(hist)|] == e
    {
      hide Follows, Accounted, Foreseen, Run, Step, EncoderOk;
      Log(e);
    }

    /** The acknowledgement has gone out; a larger one may have come meanwhile and still waits. */
    method AckAccepted(ackMessageSeq: nat)
      requires Valid() && Live(model) && outboundCallDepth == 0 && model.inCall == SendingAck(ackMessageSeq)
      modifies this`hist, this`model, this`pendingAckMessageSeq, this`pendingAckQueuedAt
      ensures Valid() && Settled() && hist == old(hist) + [EndAck(true)]
      ensures model == old(model).(inCall := Idle, acks := AckRelayMachine.AckAccepted(old(model).acks, ackMessageSeq))
    {
      EndAckEnabled(limits, model, true);
      hide Follows, Accounted, Foreseen, Run, Step, EncoderOk;
      if pendingAckMessageSeq == Some(ackMessageSeq) {
        pendingAckMessageSeq := None;
        pendingAckQueuedAt := None;
      }
      Log(EndAck(true));
    }

    /** One round of the send loop for the next data frame of the batch under the cursor. */
    method SendNextFrame(batch: OutboundBatch) returns (goOn: bool)
      requires Valid() && Settled() && Live(model) && outboundCallDepth == 0 && flushing
      requires pendingAckMessageSeq.None? && !Expired(limits, model) && batch == outboundBatches.NextUnsent()
      modifies this, outboundBatches, outboundBatches.repr
      ensures Valid() && Settled() && Progress() && Bounded()
      ensures Logged(|old(hist)|, BeginData)
      ensures goOn ==> Live(model) && |script| < |old(script)| && Logged(|old(hist)|, EndData(true))
      ensures !goOn ==> !Live(model) || Logged(|old(hist)|, EndData(false))
      decreases |script|, 0, |queuedInbound|, 6
    {
      NextFrameIsReady(batch);
      hide Follows, Mirrors, Accounted, Foreseen, Run, Step, EncoderOk, Expired;
      var frame := batch.batch.frames[batch.nextFrameIndex];
      var accepted := InvokeSend(BeginData, SendingData(frame));
      goOn := FinishData(batch, accepted);
      assert hist[|old(hist)|] == BeginData && hist[|hist| - 1] == EndData(accepted);
    }

    /** What follows a call of `sendFrame` with a data frame. */
    method FinishData(batch: OutboundBatch, accepted: bool) returns (goOn: bool)
      requires Valid() && model.inCall.SendingData? && outboundCallDepth == 0
      requires accepted && Live(model) ==> batch == outboundBatches.NextUnsent()
      modifies this`highestFullySentMessageSeq, this`hist, this`model, outboundBatches, batch
      ensures Valid() && Settled() && hist == old(hist) + [EndData(accepted)]
      ensures OnlyStateChanged() && QueueKept() && degraded == old(degraded) && disposed == old(disposed)
      ensures goOn <==> accepted && Live(model)
    {
      hide Follows, Mirrors, Accounted, Foreseen, Run, Step, EncoderOk, Expired;
      if !accepted || degraded || disposed {
        EndDataRefused(limits, model, accepted);
        FinishCall(EndData(accepted));
        return false;
      }
      FrameAccepted(batch);
      return true;
    }

    /** The captured batch has a frame left, and it is the one the machine sends next. */
    lemma {:induction false} NextFrameIsReady(batch: OutboundBatch)
      requires Valid() && Live(model) && model.inCall.Idle? && pendingAckMessageSeq.None? && !Expired(limits, model)
      requires batch == outboundBatches.NextUnsent()
      ensures batch.nextFrameIndex < |batch.batch.frames| && batch in outboundBatches.repr
      ensures Step(limits, model, BeginData)
           == Some(model.(inCall := SendingData(batch.batch.frames[batch.nextFrameIndex])))
    {
      RunKeepsInv(limits, start, hist);
      outboundBatches.Ends();
      BeginDataEnabled(limits, model);
      hide BatchQueue.Valid, Accounted, Foreseen, Run, Step, EncoderOk;
      assert model.window.fifo.entries[model.window.fifo.cursor] == EntryOf(batch);
    }

    /** The captured batch advances, and the window with it once the batch is complete. */
    method FrameAccepted(batch: OutboundBatch)
      requires Valid() && Live(model) && model.inCall.SendingData? && outboundCallDepth == 0
      requires batch == outboundBatches.NextUnsent()
      modifies this`highestFullySentMessageSeq, this`hist, this`model, outboundBatches, batch
      ensures Valid()
      ensures model == old(model).(inCall := Idle,
                                   window := AfterAccepted(old(model).window, old(model).window.fifo.cursor))
      ensures hist == old(hist) + [EndData(true)] && OnlyStateChanged() && QueueKept()
    {
      EndDataAccepted(limits, model);
      hide Follows, Mirrors, Accounted, Foreseen, Run, Step, AfterAccepted;
      AdvanceCaptured(batch);
      Log(EndData(true));
    }

    method AdvanceCaptured(batch: OutboundBatch)
      requires Valid() && outboundCallDepth == 0 && batch == outboundBatches.NextUnsent()
      modifies this`highestFullySentMessageSeq, outboundBatches, batch
      ensures model.window.fifo.cursor < |model.window.fifo.entries|
      ensures ValidAs(model.(inCall := Idle, window := AfterAccepted(model.window, model.window.fifo.cursor)))
      ensures OnlyStateChanged() && QueueKept()
    {
      outboundBatches.Ends();
      hide BatchQueue.Valid, Accounted, Foreseen, Run, EncoderOk;
      outboundBatches.BumpCaptured(batch);
      if batch.nextFrameIndex == |batch.batch.frames| {
        outboundBatches.AdvanceUnsent();
        highestFullySentMessageSeq := Max(highestFullySentMessageSeq, batch.batch.messageSeq);
      }
    }

    /**
     Flushes until nothing is left, the link refuses, or the adapter dies. A flush asked for while one is running does
     nothing, and neither does one on a dead adapter.
     */
    method FlushPendingFrames() returns (drained: bool)
      requires Valid() && Settled()
      modifies this, outboundBatches, outboundBatches.repr
      ensures Valid() && Settled() && Progress() && Bounded()
      ensures !Live(old(model)) || old(flushing) ==> !drained
      ensures drained ==> pendingAckMessageSeq == None
      ensures !old(flushing) && Live(model) ==> queuedInbound == []
      ensures !old(flushing) && old(queuedInbound) == [] && Live(model) ==>
                if drained then AllSent(model) else RefusedSince(|old(hist)|)
      decreases |script|, 0, |queuedInbound|, 11
    {
      hide Follows, Mirrors, Accounted, Foreseen, Run, Step, SameWindowStart;
      if disposed || degraded {
        return false;
      }
      var expired, _ := CheckDeadline();
      if expired {
        return false;
      }
      if flushing {
        return false;
      }
      ghost var checked := model;
      drained := RunFlush();
      LaterIsTransitive(old(model), checked, model);
    }

    /** The flush itself: the loop, and then what came in during its last send. */
    method RunFlush() returns (drained: bool)
      requires Valid() && Settled() && Live(model) && !flushing
      modifies this, outboundBatches, outboundBatches.repr
      ensures Valid() && Settled() && Progress() && Bounded()
      ensures Live(model) ==> queuedInbound == []
      ensures drained ==> pendingAckMessageSeq == None
      ensures old(queuedInbound) == [] && Live(model) ==> if drained then AllSent(model) else RefusedSince(|old(hist)|)
      decreases |script|, 0, |queuedInbound|, 10
    {
      hide Follows, Mirrors, Accounted, Foreseen, Run, Step, SameWindowStart;
      flushing := true;
      var locallyDrained := SendLoop();
      ghost var looped := model;
      flushing := false;
      if !disposed && !degraded {
        DrainQueuedInbound();
      }
      LaterIsTransitive(old(model), looped, model);
      return locallyDrained && pendingAckMessageSeq.None?;
    }

    /** Nothing is waiting to go out. */
    ghost predicate AllSent(s: State) {
      s.window.fifo.cursor == |s.window.fifo.entries| && s.acks.pending.None?
    }

    /** Everything has gone out, or the link has refused something since the event log had this length. */
    ghost predicate Flushed(from: nat)
      reads this
    {
      AllSent(model) || RefusedSince(from)
    }

    /** The link refused something since the event log had this length. */
    ghost predicate RefusedSince(from: nat)
      reads this
    {
      Logged(from, EndData(false)) || Logged(from, EndAck(false))
    }

    /** The send loop: acknowledgements first, then the frames under the cursor; inbound payloads after each send. */
    method SendLoop() returns (locallyDrained: bool)
      requires Valid() && Settled() && Live(model) && flushing && outboundCallDepth == 0
      modifies this, outboundBatches, outboundBatches.repr
      ensures Valid() && Settled() && Progress() && Bounded()
      ensures Live(model) ==> if locallyDrained then AllSent(model) else RefusedSince(|old(hist)|)
      ensures Live(model) && locallyDrained && old(queuedInbound) == [] ==> queuedInbound == []
      decreases |script|, 0, |queuedInbound|, 9
    {
      hide Follows, Mirrors, Accounted, Foreseen, Run, Step, SameWindowStart;
      locallyDrained := true;
      while !disposed && !degraded
        invariant Valid() && Settled() && Progress() && Bounded()
        invariant old(queuedInbound) == [] && Live(model) ==> queuedInbound == []
        decreases |script|
      {
        ghost var before := model;
        var round := SendRound();
        LaterIsTransitive(old(model), before, model);
        if round != Again {
          locallyDrained := round == Empty;
          break;
        }
      }
    }

    /** Where the queue has nothing unsent, the model has sent everything. */
    lemma {:induction false} NothingUnsent()
      requires Valid()
      ensures outboundBatches.NextUnsent() == null <==> model.window.fifo.cursor == |model.window.fifo.entries|
    {
      outboundBatches.Ends();
      hide Run, EncoderOk, Attended;
    }

    /** One round of the loop. */
    method SendRound() returns (round: Round)
      requires Valid() && Settled() && Live(model) && flushing && outboundCallDepth == 0
      modifies this, outboundBatches, outboundBatches.repr
      ensures Valid() && Settled() && Progress() && Bounded()
      ensures round == Again ==> |script| < |old(script)| && (Live(model) ==> queuedInbound == [])
      ensures round == Empty ==> Live(model) && AllSent(model) && queuedInbound == old(queuedInbound)
      ensures round == Stopped && Live(model) ==> RefusedSince(|old(hist)|)
      decreases |script|, 0, |queuedInbound|, 8
    {
      hide Follows, Mirrors, Accounted, Foreseen, Run, Step, SameWindowStart, Expired;
      var expired, _ := CheckDeadline();
      if expired {
        return Stopped;
      }
      ghost var checked := model;
      round := SendWaiting();
      if round == Again {
        ghost var sent := model;
        DrainQueuedInbound();
        LaterIsTransitive(checked, sent, model);
      }
      LaterIsTransitive(old(model), checked, model);
    }

    /** The pending acknowledgement goes first, then the next frame of the batch under the cursor. */
    method SendWaiting() returns (round: Round)
      requires Valid() && Settled() && Live(model) && flushing && outboundCallDepth == 0 && !Expired(limits, model)
      modifies this, outboundBatches, outboundBatches.repr
      ensures Valid() && Settled() && Progress() && Bounded()
      ensures round == Again ==> Live(model) && |script| < |old(script)|
      ensures round == Empty ==> Live(model) && AllSent(model) && queuedInbound == old(queuedInbound)
      ensures round == Stopped && Live(model) ==> RefusedSince(|old(hist)|)
      decreases |script|, 0, |queuedInbound|, 7
    {
      NothingUnsent();
      hide Follows, Mirrors, Accounted, Foreseen, Run, Step, SameWindowStart, Expired;
      LaterIsReflexive(model);
      var goOn: bool;
      if pendingAckMessageSeq.Some? {
        goOn := SendPendingAck();
      } else {
        var batch := outboundBatches.NextUnsent();
        if batch == null {
          return Empty;
        }
        goOn := SendNextFrame(batch);
      }
      return if goOn then Again else Stopped;
    }

    /** Everything queued while a send was running is processed, in order. */
    method DrainQueuedInbound()
      requires Valid() && Settled()
      modifies this, outboundBatches, outboundBatches.repr
      ensures Valid() && Settled() && Progress() && Bounded()
      ensures outboundCallDepth == 0 && Live(model) ==> queuedInbound == []
      ensures old(queuedInbound) == [] ==> unchanged(this) && unchanged(outboundBatches)
      decreases |script|, 0, |queuedInbound|, 5
    {
      hide Follows, Mirrors, Accounted, Foreseen, Run, Step, SameWindowStart;
      LaterIsReflexive(model);
      if outboundCallDepth > 0 || disposed || degraded {
        return;
      }
      while |queuedInbound| > 0 && !disposed && !degraded
        invariant Valid() && Settled() && Progress() && Bounded()
        invariant old(queuedInbound) == [] ==> unchanged(this) && unchanged(outboundBatches)
        decreases |script|, |queuedInbound|
      {
        ghost var before := model;
        ProcessNext();
        LaterIsTransitive(old(model), before, model);
      }
    }

    ghost predicate HandledSince(from: nat, candidate: Inbound)
      reads this
    {
      HandledIn(hist, from, candidate)
    }

    /** The oldest payload in the queue is taken out and handled. */
    method ProcessNext()
      requires Valid() && Settled() && Live(model) && outboundCallDepth == 0 && queuedInbound != []
      modifies this, outboundBatches, outboundBatches.repr
      ensures Valid() && Settled() && Progress()
      ensures |script| < |old(script)| || (script == old(script) && |queuedInbound| < |old(queuedInbound)|)
      decreases |script|, 0, |queuedInbound|, 4
    {
      hide Follows, Mirrors, Accounted, Foreseen, Run, Step, SameWindowStart;
      ghost var j := |ledger.takenAt|;
      var candidate := TakeInbound();
      ProcessInbound(candidate);
      if !disposed && !degraded {
        FinishInbound(j);
      }
    }

    method TakeInbound() returns (candidate: Inbound)
      requires Accounted() && Foreseen() && !degraded && !disposed && queuedInbound != []
      modifies this`queuedInbound, this`ledger
      ensures Accounted() && Foreseen() && PerilsOfInbound(candidate) <= perils
      ensures [candidate] + queuedInbound == old(queuedInbound)
      ensures ledger == old(ledger).(takenAt := old(ledger).takenAt + [|hist|],
                                     open := old(ledger).open + {|old(ledger).takenAt|})
      ensures |old(ledger).takenAt| < |ledger.queued| && ledger.queued[|old(ledger).takenAt|] == candidate
      ensures |old(ledger).takenAt| !in old(ledger).open
    {
      hide HandledIn, Threatens;
      candidate := queuedInbound[0];
      queuedInbound := queuedInbound[1..];
      ledger := ledger.(takenAt := ledger.takenAt + [|hist|], open := ledger.open + {|ledger.takenAt|});
    }

    ghost method FinishInbound(j: nat)
      requires Accounted() && j < |ledger.takenAt| && j < |ledger.queued|
      requires HandledIn(hist, ledger.takenAt[j], ledger.queued[j])
      modifies this`ledger
      ensures Accounted() && ledger == old(ledger).(open := old(ledger).open - {j})
    {
      hide HandledIn;
      ledger := ledger.(open := ledger.open - {j});
    }

    ghost function PerilsOfInbound(candidate: Inbound): iset<Peril> {
      iset p: Peril | InboundThreatens(candidate, p)
    }

    method ProcessInbound(candidate: Inbound)
      requires Valid() && Settled() && Live(model) && outboundCallDepth == 0 && PerilsOfInbound(candidate) <= perils
      modifies this, outboundBatches, outboundBatches.repr
      ensures Valid() && Settled() && Progress() && Bounded()
      ensures Live(model) ==> HandledSince(|old(hist)|, candidate)
      ensures OwesAck(candidate) && !old(flushing) && old(queuedInbound) == [] && Live(model) ==> Flushed(|old(hist)|)
      decreases |script|, 0, |queuedInbound|, 16
    {
      hide Follows, Mirrors, Accounted, Foreseen, Run, Step, SameWindowStart;
      match candidate
      case Invalid =>
        assert Fails(InvalidPayload) in PerilsOfInbound(candidate);
        Fail(Fault(InvalidPayload, None));
      case AckPayload(ack) => ProcessAck(ack);
      case FramePayload(verdict) =>
        var _ := Now();
        ghost var read := model;
        ProcessVerdict(verdict);
        LaterIsTransitive(old(model), read, model);
    }

    /** A frame that is incomplete, not terminally faulty, or known without a message to acknowledge, does nothing. */
    method ProcessVerdict(verdict: Verdict)
      requires Valid() && Settled() && Live(model) && outboundCallDepth == 0
      requires PerilsOfInbound(FramePayload(verdict)) <= perils
      modifies this, outboundBatches, outboundBatches.repr
      ensures Valid() && Settled() && Progress() && Bounded()
      ensures Live(model) ==> HandledSince(|old(hist)|, FramePayload(verdict))
      ensures !OwesAck(FramePayload(verdict)) && verdict != Faulty(true) ==>
                unchanged(this) && unchanged(outboundBatches)
      ensures verdict == Faulty(true) ==> firstFault == Some(Fault(AssemblyFault, None))
      ensures OwesAck(FramePayload(verdict)) && !old(flushing) && old(queuedInbound) == [] && Live(model) ==>
                Flushed(|old(hist)|)
      decreases |script|, 0, |queuedInbound|, 15
    {
      hide Follows, Mirrors, Accounted, Foreseen, Run, Step, SameWindowStart;
      LaterIsReflexive(model);
      match verdict
      case Faulty(terminal) =>
        if terminal {
          assert Fails(AssemblyFault) in PerilsOfInbound(FramePayload(verdict));
          Fail(Fault(AssemblyFault, None));
        }
      case Incomplete =>
      case Duplicate(ack) =>
        if ack.Some? {
          QueueAck(ack.value);
        }
      case Complete(messageSeq, bytes) =>
        NoteCompleted(bytes);
        DeliverMessage(messageSeq, bytes);
    }

    ghost method NoteCompleted(bytes: Bytes)
      requires Valid()
      modifies this`completed
      ensures ValidAs(model.(delivered := model.delivered + [bytes]))
    {
      hide Follows, Accounted, Foreseen;
      completed := completed + [bytes];
    }

    /** A complete message goes to the RPC layer, once, and then is acknowledged unless the layer throws. */
    method DeliverMessage(messageSeq: nat, bytes: Bytes)
      requires ValidAs(model.(delivered := model.delivered + [bytes]))
      requires Settled() && Live(model) && outboundCallDepth == 0
      modifies this, outboundBatches, outboundBatches.repr
      ensures Valid() && Settled() && Progress() && Bounded()
      ensures Live(model) ==> Delivered(|old(hist)|, bytes, messageSeq)
      ensures !old(flushing) && old(queuedInbound) == [] && Live(model) ==> Flushed(|old(hist)|)
      decreases |script|, 0, |queuedInbound|, 14
    {
      hide Follows, Mirrors, Accounted, Foreseen, Run, Step, SameWindowStart;
      HandOver(bytes);
      ghost var delivered := model;
      var outcome := React();  // listeners of onMessage
      ghost var reacted := model;
      AfterDelivery(outcome, messageSeq);
      assert hist[|old(hist)|] == Deliver(bytes);
      LaterIsTransitive(delivered, reacted, model);
      LaterIsTransitive(old(model), delivered, model);
    }

    /** First delivered, then acknowledged. */
    ghost predicate Delivered(from: nat, bytes: Bytes, messageSeq: nat)
      reads this
    {
      LoggedThen(hist, from, Deliver(bytes), Event.QueueAck(messageSeq))
    }

    method HandOver(bytes: Bytes)
      requires ValidAs(model.(delivered := model.delivered + [bytes]))
      requires Settled() && Live(model) && outboundCallDepth == 0
      modifies this`hist, this`model
      ensures Valid() && Settled() && Later(old(model), model)
      ensures hist == old(hist) + [Deliver(bytes)]
    {
      DeliverEnabled(limits, model, bytes);
      hide Follows, Accounted, Foreseen, Run, Step, EncoderOk;
      Log(Deliver(bytes));
    }

    method AfterDelivery(outcome: Outcome, messageSeq: nat)
      requires Valid() && Settled() && outboundCallDepth == 0
      requires outcome.Thrown? ==> Fails(DeliveryFailed) in perils
      modifies this, outboundBatches, outboundBatches.repr
      ensures Valid() && Settled() && Progress() && Bounded()
      ensures Live(model) ==> Logged(|old(hist)|, Event.QueueAck(messageSeq))
      ensures outcome.Thrown? ==> !Live(model)
      ensures !old(flushing) && old(queuedInbound) == [] && Live(model) ==> Flushed(|old(hist)|)
      decreases |script|, 0, |queuedInbound|, 13
    {
      hide Follows, Mirrors, Accounted, Foreseen, Run, Step, SameWindowStart;
      if outcome.Thrown? {
        Fail(Fault(DeliveryFailed, Some(messageSeq)));
      } else {
        QueueAck(messageSeq);
      }
    }

    /** The largest acknowledgement waits, with the time of the first it stands for, until the link takes it. */
    method QueueAck(messageSeq: nat)
      requires Valid() && Settled() && outboundCallDepth == 0
      modifies this, outboundBatches, outboundBatches.repr
      ensures Valid() && Settled() && Progress() && Bounded()
      ensures Live(old(model)) ==> Logged(|old(hist)|, Event.QueueAck(messageSeq))
      ensures !old(flushing) && old(queuedInbound) == [] && Live(model) ==> Flushed(|old(hist)|)
      decreases |script|, 0, |queuedInbound|, 12
    {
      hide Follows, Mirrors, Accounted, Foreseen, Run, Step, SameWindowStart;
      if disposed || degraded {
        return;
      }
      RecordAck(messageSeq);
      ghost var recorded := model;
      var _ := FlushPendingFrames();
      LaterIsTransitive(old(model), recorded, model);
    }

    method RecordAck(messageSeq: nat)
      requires Valid() && Live(model) && model.inCall.Idle?
      modifies this`pendingAckMessageSeq, this`pendingAckQueuedAt, this`clock, this`hist, this`model
      ensures Valid() && OnlyStateChanged() && QueueKept() && unchanged(outboundBatches)
      ensures exists now :: model == old(model).(clock := now, acks := AckQueued(old(model).acks, messageSeq, now))
      // The larger number waits, with the time of the first one it stands for.
      ensures pendingAckMessageSeq == Some(if old(pendingAckMessageSeq).None? then messageSeq
                                           else Max(old(pendingAckMessageSeq).value, messageSeq))
      ensures pendingAckQueuedAt == if old(pendingAckMessageSeq).None? then Some(clock) else old(pendingAckQueuedAt)
      ensures old(hist) <= hist && Logged(|old(hist)|, Event.QueueAck(messageSeq))
    {
      hide Follows, Accounted, Foreseen, Run, Step, EncoderOk;
      if pendingAckMessageSeq.None? {
        var now := Now();
        pendingAckMessageSeq := Some(messageSeq);
        pendingAckQueuedAt := Some(now);
      } else if messageSeq > pendingAckMessageSeq.value {
        pendingAckMessageSeq := Some(messageSeq);
      }
      QueueAckEnabled(limits, model, messageSeq);
      Log(Event.QueueAck(messageSeq));
      assert hist[|hist| - 1] == Event.QueueAck(messageSeq);
    }

    /** An acknowledgement: old news, a fault, or the release of everything through it. */
    method ProcessAck(ackMessageSeq: nat)
      requires Valid() && Settled() && Live(model) && outboundCallDepth == 0
      modifies this, outboundBatches, outboundBatches.repr
      ensures Valid() && Settled() && Progress() && Bounded()
      ensures Logged(|old(hist)|, Acked(ackMessageSeq))
      // Old news changes nothing, and a number beyond what is fully sent is a fault.
      ensures ackMessageSeq <= old(lastAckedMessageSeq) ==>
                model == old(model) && script == old(script) && QueueKept() && unchanged(outboundBatches)
      ensures ackMessageSeq > old(highestFullySentMessageSeq) && ackMessageSeq > old(lastAckedMessageSeq) ==>
                !Live(model) && firstFault == Some(Fault(FutureAck, Some(ackMessageSeq)))
      decreases |script|, 0, |queuedInbound|, 4
    {
      AckedEnabled(limits, model, ackMessageSeq);
      LaterIsReflexive(model);
      assert lastAckedMessageSeq == model.window.lastAckedMessageSeq;
      assert highestFullySentMessageSeq == model.window.highestFullySentMessageSeq;
      hide Follows, Mirrors, Accounted, Foreseen, Run, Step, SameWindowStart;
      if ackMessageSeq <= lastAckedMessageSeq {
        RecordOldAck(ackMessageSeq);
        return;
      }
      if ackMessageSeq > highestFullySentMessageSeq {
        EnterDegraded(Fault(FutureAck, Some(ackMessageSeq)), Acked(ackMessageSeq));
        return;
      }
      var drains := ReleaseAcked(ackMessageSeq);
      assert hist[|old(hist)|] == Acked(ackMessageSeq);
      ghost var released := model;
      if drains {
        var _ := React();  // listeners of onDrained
      }
      LaterIsTransitive(old(model), released, model);
    }

    method RecordOldAck(ackMessageSeq: nat)
      requires Valid() && Step(limits, model, Acked(ackMessageSeq)) == Some(model)
      modifies this`hist, this`model
      ensures Valid() && model == old(model) && hist == old(hist) + [Acked(ackMessageSeq)]
      ensures Logged(|old(hist)|, Acked(ackMessageSeq))
    {
      hide Follows, Accounted, Foreseen, Run, Step, EncoderOk;
      Log(Acked(ackMessageSeq));
      assert hist[|old(hist)|] == Acked(ackMessageSeq);
    }

    method ReleaseAcked(ackMessageSeq: nat) returns (drains: bool)
      requires Valid() && lastAckedMessageSeq < ackMessageSeq <= highestFullySentMessageSeq
      requires Step(limits, model, Acked(ackMessageSeq)) == Some(Released(limits, model, ackMessageSeq))
      modifies this`unacknowledgedByteCount, this`lastAckedMessageSeq, this`saturated, this`hist, this`model,
               outboundBatches
      ensures Valid() && model == Released(limits, old(model), ackMessageSeq)
      ensures hist == old(hist) + [Acked(ackMessageSeq)]
      ensures OnlyStateChanged() && QueueKept()
      ensures drains <==> model.flow.signals != old(model).flow.signals
    {
      hide BatchQueue.Valid, Accounted, Foreseen, Run, Step, EncoderOk;
      var releasedBytes, _ := outboundBatches.ReleaseThrough(ackMessageSeq);
      drains := CountReleased(releasedBytes, ackMessageSeq);
      Log(Acked(ackMessageSeq));
    }

    method CountReleased(releasedBytes: nat, ackMessageSeq: nat) returns (drains: bool)
      modifies this`unacknowledgedByteCount, this`lastAckedMessageSeq, this`saturated
      ensures lastAckedMessageSeq == ackMessageSeq
      ensures unacknowledgedByteCount == Max(0, old(unacknowledgedByteCount) - releasedBytes)
      ensures drains <==> old(saturated) && unacknowledgedByteCount <= limits.lowWaterMarkBytes
      ensures saturated <==> old(saturated) && !drains
    {
      unacknowledgedByteCount := Max(0, unacknowledgedByteCount - releasedBytes);
      lastAckedMessageSeq := ackMessageSeq;
      drains := saturated && unacknowledgedByteCount <= limits.lowWaterMarkBytes;
      if drains {
        saturated := false;
      }
    }

    /** Reconnection: every retained batch starts again from its first frame. */
    method ReplayUnacknowledged() returns (drained: bool)
      requires Valid() && Settled() && outboundCallDepth == 0
      modifies this, outboundBatches, outboundBatches.repr
      ensures Valid() && Settled() && Progress() && Bounded()
      ensures Live(model) ==> Logged(|old(hist)|, Replay)
      ensures !Live(old(model)) || old(flushing) ==> !drained
      ensures drained ==> pendingAckMessageSeq == None
      ensures !old(flushing) && old(queuedInbound) == [] && Live(model) ==>
                if drained then AllSent(model) else RefusedSince(|old(hist)|)
      decreases |script|, 0, |queuedInbound|, 12
    {
      hide Follows, Mirrors, Accounted, Foreseen, Run, Step, SameWindowStart;
      if disposed || degraded {
        return false;
      }
      var expired, _ := CheckDeadline();
      if expired {
        return false;
      }
      ghost var checked := model;
      Rewind();
      ghost var rewound := model;
      drained := FlushPendingFrames();
      LaterIsTransitive(checked, rewound, model);
      LaterIsTransitive(old(model), checked, model);
    }

    method Rewind()
      requires Valid() && Live(model) && model.inCall.Idle?
      modifies this`hist, this`model, outboundBatches, outboundBatches.repr
      ensures Valid() && model == old(model).(window := old(model).window.(fifo := ResetReplay(old(model).window.fifo)))
      ensures hist == old(hist) + [Replay] && OnlyStateChanged() && QueueKept()
      ensures Logged(|old(hist)|, Replay)
    {
      ReplayEnabled(limits, model);
      hide BatchQueue.Valid, Accounted, Foreseen, Run, Step, EncoderOk;
      outboundBatches.ResetReplay();
      Log(Replay);
      assert hist[|old(hist)|] == Replay;
    }

    method QueueInbound(candidate: Inbound)
      requires Valid() && PerilsOfInbound(candidate) <= perils
      modifies this`queuedInbound, this`ledger
      ensures Valid() && queuedInbound == old(queuedInbound) + [candidate]
      ensures ledger == old(ledger).(queued := old(ledger).queued + [candidate])
    {
      hide Follows, Mirrors, Threatens;
      assert forall p :: InboundThreatens(candidate, p) ==> p in PerilsOfInbound(candidate);
      queuedInbound := queuedInbound + [candidate];
      ledger := ledger.(queued := ledger.queued + [candidate]);
    }

    /**
     An inbound payload: refused when the adapter is dead or the payload is not addressed to it; queued while a send is
     running; processed otherwise.
     */
    method AcceptPayload(payload: Payload) returns (accepted: bool)
      requires Valid() && Settled()
      modifies this, outboundBatches, outboundBatches.repr
      ensures Valid() && Settled() && Answered(CallAccept(payload))
      ensures accepted <==> Live(old(model)) && payload.isTransportCandidate && payload.identity == identity
      ensures accepted && Live(model) ==>
                if old(outboundCallDepth) > 0 then queuedInbound == old(queuedInbound) + [payload.content]
                else HandledSince(|old(hist)|, payload.content)
      ensures accepted && OwesAck(payload.content) && old(outboundCallDepth) == 0 && !old(flushing)
              && old(queuedInbound) == [] && Live(model) ==>
                Flushed(|old(hist)|)
      decreases |script|, 0, |queuedInbound|, 18
    {
      hide Follows, Mirrors, Accounted, Foreseen, Run, Step, SameWindowStart;
      Foresee(CallAccept(payload));
      LaterIsReflexive(model);
      if disposed || degraded || !payload.isTransportCandidate {
        return false;
      }
      if payload.identity != identity {
        return false;
      }
      var expired, _ := CheckDeadline();
      if expired {
        return true;
      }
      ghost var checked := model;
      TakeOver(payload.content);
      LaterIsTransitive(old(model), checked, model);
      return true;
    }

    /** Inside a send the payload waits, outside it is processed. */
    method TakeOver(candidate: Inbound)
      requires Valid() && Settled() && Live(model) && PerilsOfInbound(candidate) <= perils
      modifies this, outboundBatches, outboundBatches.repr
      ensures Valid() && Settled() && Progress()
      ensures Live(model) ==>
                if old(outboundCallDepth) > 0 then queuedInbound == old(queuedInbound) + [candidate]
                else HandledSince(|old(hist)|, candidate)
      ensures OwesAck(candidate) && old(outboundCallDepth) == 0 && !old(flushing) && old(queuedInbound) == []
              && Live(model) ==>
                Flushed(|old(hist)|)
      decreases |script|, 0, |queuedInbound|, 17
    {
      hide Follows, Mirrors, Accounted, Foreseen, Run, Step, SameWindowStart;
      LaterIsReflexive(model);
      if outboundCallDepth > 0 {
        QueueInbound(candidate);
        return;
      }
      ProcessInbound(candidate);
    }
  }

  /** The sender invariant, read off the object's own fields: it holds between any two calls, however they nest. */
  lemma {:induction false} FieldsKeepInv(p: AcknowledgedRelayProtocol)
    requires p.Valid()
    ensures Inv(p.limits, p.model)
    ensures p.unacknowledgedByteCount == SumBytes(p.outboundBatches.view.entries) <= p.limits.replayBufferMaxBytes
    ensures p.lastAckedMessageSeq <= p.highestFullySentMessageSeq < p.nextMessageSeq
    ensures !p.disposed && !p.degraded ==>
              |p.outboundBatches.view.entries| == p.nextMessageSeq - 1 - p.lastAckedMessageSeq
  {
    RunKeepsInv(p.limits, p.start, p.hist);
    hide Run, Step, BatchQueue.Valid, EncoderOk;
  }

  /**
   Nothing ends the adapter without need. It is disposed only on request, its fault is its own or one that foreign
   code has given reason for, and the event that ended it had its cause in the state before.
   */
  lemma {:induction false} EndedForCause(p: AcknowledgedRelayProtocol, k: nat)
    requires p.Valid() && k < |p.hist|
    ensures p.disposed ==> Closes in p.perils
    ensures p.degraded ==> p.firstFault.Some?
    ensures p.firstFault.Some? ==>
              p.firstFault.value.reason in OWN_FAULTS || Fails(p.firstFault.value.reason) in p.perils
    ensures Run(p.limits, p.start, p.hist[..k]).Some? && Run(p.limits, p.start, p.hist[..k + 1]).Some?
    ensures var s := Run(p.limits, p.start, p.hist[..k]).value;
            var s' := Run(p.limits, p.start, p.hist[..k + 1]).value;
            Live(s) && !Live(s') ==> HasItsCause(p.limits, s, p.hist[k], s')
  {
    assert p.degraded ==> p.firstFault.Some? by {
      RunKeepsInv(p.limits, p.start, p.hist);
      hide Run, Step, BatchQueue.Valid, EncoderOk, Attended;
    }
    assert LimitsOk(p.limits) && Run(p.limits, p.start, p.hist).Some?;
    hide Run, Step, BatchQueue.Valid, EncoderOk, HasItsCause, Attended;
    EndInRun(p.limits, p.start, p.hist, k);
  }

  lemma {:induction false} EndInRun(lim: Limits, clock: int, events: seq<Event>, k: nat)
    requires LimitsOk(lim) && Run(lim, clock, events).Some? && k < |events|
    ensures Run(lim, clock, events[..k]).Some? && Run(lim, clock, events[..k + 1]).Some?
    ensures var s, s' := Run(lim, clock, events[..k]).value, Run(lim, clock, events[..k + 1]).value;
            Live(s) && !Live(s') ==> HasItsCause(lim, s, events[k], s')
  {
    hide Run, HasItsCause;
    PrefixRuns(lim, clock, events, k + 1);
    assert events[..k + 1] == events[..k] + [events[k]];
    DeathHasItsCause(lim, clock, events[..k], events[k]);
  }

  /** Between two calls from outside, with nothing left in the queue, every payload ever queued has been handled. */
  lemma {:induction false} QueuedIsHandled(p: AcknowledgedRelayProtocol)
    requires p.Valid() && !p.disposed && !p.degraded && p.queuedInbound == [] && p.ledger.open == {}
    ensures |p.ledger.takenAt| == |p.ledger.queued|
    ensures forall j :: 0 <= j < |p.ledger.queued| ==> HandledIn(p.hist, p.ledger.takenAt[j], p.ledger.queued[j])
  {
    hide HandledIn;
  }
}
