/**
 The acknowledged relay sender as a state machine over values. One event is one uninterrupted stretch
 of the adapter's code between two points where foreign code may run (a call of `sendFrame`, an
 emitter), so an interleaving with re-entrant callers is just a sequence of events. The class
 `AckRelayProtocol.AcknowledgedRelayProtocol` logs the events it performs and is proved to follow this machine.
 */
module AckRelayMachine {
  import opened Wrappers
  import opened AckRelayFifo

  datatype Limits = Limits(highWaterMarkBytes: nat, lowWaterMarkBytes: nat, replayBufferMaxBytes: nat,
                           replayBufferGraceMs: nat)

  datatype Reason =
    | EncodingFailed | OuterMeterFailed | ReplayBufferExceeded | SendFailed
    | InvalidPayload | AssemblyFault | DeliveryFailed | FutureAck
    | AckGraceExceeded | ReplayGraceExceeded | ManuallyDegraded

  datatype Fault = Fault(reason: Reason, messageSeq: Option<nat>)

  datatype PendingAck = PendingAck(messageSeq: nat, queuedAt: int)

  /** What is inside `sendFrame` right now. */
  datatype InCall = Idle | SendingData(frame: Frame) | SendingAck(ackMessageSeq: nat)

  datatype Signal = Saturated | Drained

  /** Numbering and retention of outbound messages. */
  datatype Window = Window(
    fifo: Fifo,
    reserved: seq<Batch>,            // history: every batch ever admitted
    nextPhysicalSeq: nat,
    nextMessageSeq: nat,
    highestFullySentMessageSeq: nat,
    lastAckedMessageSeq: nat)

  /** Byte accounting and its two watermarks. */
  datatype Flow = Flow(unacknowledgedByteCount: nat, saturated: bool,
                       signals: seq<Signal>)  // history: the saturation events fired

  /** Acknowledgements this side owes its peer. */
  datatype Acks = Acks(pending: Option<PendingAck>,
                       owed: nat,       // history: the largest acknowledgement ever queued
                       accepted: nat)   // history: the largest acknowledgement the link accepted

  datatype State = State(
    window: Window,
    flow: Flow,
    acks: Acks,
    degraded: bool,
    disposed: bool,
    inCall: InCall,
    clock: int,                      // the latest reading of `now`
    fault: Option<Fault>,            // the first fault
    delivered: seq<Bytes>)           // history: the messages handed to the RPC layer

  datatype Event =
    | Tick(now: int)
    | Reserve(batch: Batch)
    | BeginData
    | EndData(accepted: bool)
    | BeginAck
    | EndAck(accepted: bool)
    | Replay
    | Acked(ackMessageSeq: nat)
    | QueueAck(messageSeq: nat)
    | Deliver(bytes: Bytes)
    | Reject(outerBytes: nat)
    | Degrade(fault: Fault)
    | Dispose

  function Init(clock: int): State {
    State(Window(EMPTY, [], 1, 1, 0, 0), Flow(0, false, []), Acks(None, 0, 0), false, false, Idle, clock, None, [])
  }

  predicate Live(s: State) {
    !s.disposed && !s.degraded
  }

  // ---------- the grace deadline

  datatype Deadline = Deadline(at: int, fault: Fault)

  /** Only the head batch and the pending acknowledgement are looked at. */
  function Select(lim: Limits, oldest: Option<Batch>, ack: Option<PendingAck>): Option<Deadline> {
    if oldest.None? && ack.None? then None
    else if ack.Some? && (oldest.None? || ack.value.queuedAt <= oldest.value.queuedAt) then
      Some(Deadline(ack.value.queuedAt + lim.replayBufferGraceMs + 1,
                    Fault(AckGraceExceeded, Some(ack.value.messageSeq))))
    else
      Some(Deadline(oldest.value.queuedAt + lim.replayBufferGraceMs + 1,
                    Fault(ReplayGraceExceeded, Some(oldest.value.messageSeq))))
  }

  function Oldest(q: Fifo): Option<Batch> {
    if q.entries == [] then None else Some(q.entries[0].batch)
  }

  predicate Expired(lim: Limits, s: State) {
    var selected := Select(lim, Oldest(s.window.fifo), s.acks.pending);
    selected.Some? && s.clock >= selected.value.at
  }

  // ---------- steps

  predicate Contiguous(frames: seq<Frame>, first: nat) {
    forall i :: 0 <= i < |frames| ==> frames[i].seqNo == first + i
  }

  function Degraded(s: State, fault: Fault): State {
    if !Live(s) then s
    else s.(degraded := true, fault := Some(fault), window := s.window.(fifo := EMPTY),
            flow := s.flow.(unacknowledgedByteCount := 0, saturated := false), acks := s.acks.(pending := None))
  }

  function Disposed(s: State): State {
    if s.disposed then s
    else s.(disposed := true, window := s.window.(fifo := EMPTY),
            flow := s.flow.(unacknowledgedByteCount := 0), acks := s.acks.(pending := None))
  }

  function WindowReserve(w: Window, batch: Batch): Window {
    w.(fifo := Append(w.fifo, batch), reserved := w.reserved + [batch],
       nextMessageSeq := w.nextMessageSeq + 1, nextPhysicalSeq := w.nextPhysicalSeq + |batch.frames|)
  }

  function FlowReserve(lim: Limits, f: Flow, outerBytes: nat): Flow {
    var bytes := f.unacknowledgedByteCount + outerBytes;
    if !f.saturated && bytes > lim.highWaterMarkBytes then Flow(bytes, true, f.signals + [Saturated])
    else f.(unacknowledgedByteCount := bytes)
  }

  function FlowRelease(lim: Limits, f: Flow, releasedBytes: nat): Flow {
    var bytes := Max(0, f.unacknowledgedByteCount - releasedBytes);
    if f.saturated && bytes <= lim.lowWaterMarkBytes then Flow(bytes, false, f.signals + [Drained])
    else f.(unacknowledgedByteCount := bytes)
  }

  function WindowRelease(w: Window, ack: nat): Window {
    w.(fifo := ReleaseThrough(w.fifo, ack), lastAckedMessageSeq := ack)
  }

  function Released(lim: Limits, s: State, ack: nat): State {
    if ack <= s.window.lastAckedMessageSeq then s
    else if ack > s.window.highestFullySentMessageSeq then Degraded(s, Fault(FutureAck, Some(ack)))
    else
      var entries := s.window.fifo.entries;
      s.(window := WindowRelease(s.window, ack),
         flow := FlowRelease(lim, s.flow, SumBytes(entries[..CoveredBy(entries, ack)])))
  }

  /** The frame of the entry under the cursor that goes out next. */
  function NextFrame(q: Fifo): Option<Frame> {
    if q.cursor < |q.entries| && q.entries[q.cursor].nextFrameIndex < |q.entries[q.cursor].batch.frames| then
      Some(q.entries[q.cursor].batch.frames[q.entries[q.cursor].nextFrameIndex])
    else None
  }

  /**
   After an accepted data frame: the captured batch `i` advances by one frame, and when that completes it the
   cursor (wherever it stands by then) advances too.
   */
  function AfterAccepted(w: Window, i: nat): Window
    requires i < |w.fifo.entries|
  {
    var q := Bump(w.fifo, i);
    var entry := q.entries[i];
    if entry.nextFrameIndex == |entry.batch.frames| then
      w.(fifo := AdvanceUnsent(q),
         highestFullySentMessageSeq := Max(w.highestFullySentMessageSeq, entry.batch.messageSeq))
    else
      w.(fifo := q)
  }

  function AckQueued(a: Acks, messageSeq: nat, now: int): Acks {
    var a' := a.(owed := Max(a.owed, messageSeq));
    if a.pending.None? then a'.(pending := Some(PendingAck(messageSeq, now)))
    else if messageSeq > a.pending.value.messageSeq then
      a'.(pending := Some(a.pending.value.(messageSeq := messageSeq)))
    else a'
  }

  function AckAccepted(a: Acks, ack: nat): Acks {
    var a' := a.(accepted := Max(a.accepted, ack));
    if a.pending.Some? && a.pending.value.messageSeq == ack then a'.(pending := None) else a'
  }

  /**
   The cause of a fault that the adapter's own state shows. An acknowledgement from the future and a message that is
   too large are found by `Acked` and `Reject`; what foreign code has done to deserve a fault is not in the state.
   */
  predicate Caused(lim: Limits, s: State, fault: Fault) {
    match fault.reason
    case FutureAck => false
    case ReplayBufferExceeded => false
    case AckGraceExceeded => Expired(lim, s) && DueFault(lim, s) == Some(fault)
    case ReplayGraceExceeded => Expired(lim, s) && DueFault(lim, s) == Some(fault)
    case SendFailed => !s.inCall.Idle?
    case DeliveryFailed => s.inCall.Idle?
    case _ => true
  }

  function DueFault(lim: Limits, s: State): Option<Fault> {
    var selected := Select(lim, Oldest(s.window.fifo), s.acks.pending);
    if selected.None? then None else Some(selected.value.fault)
  }

  lemma {:induction false} DeadlineDecides(lim: Limits, s: State)
    ensures var selected := Select(lim, Oldest(s.window.fifo), s.acks.pending);
            if selected.None? then !Expired(lim, s)
            else
              && (Expired(lim, s) <==> s.clock >= selected.value.at) && DueFault(lim, s) == Some(selected.value.fault)
              && (Expired(lim, s) ==> Caused(lim, s, selected.value.fault))
  {
  }

  /** The successor state, or None where the code does not perform the event. */
  function Step(lim: Limits, s: State, e: Event): Option<State> {
    match e
    case Tick(now) =>
      if now >= s.clock then Some(s.(clock := now)) else None
    case Reserve(batch) =>
      if Live(s) && batch.frames != [] && Contiguous(batch.frames, s.window.nextPhysicalSeq)
         && batch.messageSeq == s.window.nextMessageSeq && batch.queuedAt == s.clock
         && s.flow.unacknowledgedByteCount + batch.outerBytes <= lim.replayBufferMaxBytes
      then Some(s.(window := WindowReserve(s.window, batch), flow := FlowReserve(lim, s.flow, batch.outerBytes)))
      else None
    case BeginData =>
      if Live(s) && s.inCall.Idle? && s.acks.pending.None? && !Expired(lim, s) && NextFrame(s.window.fifo).Some?
      then Some(s.(inCall := SendingData(NextFrame(s.window.fifo).value))) else None
    case EndData(accepted) =>
      if !s.inCall.SendingData? then None
      else if !accepted || !Live(s) then Some(s.(inCall := Idle))
      else if s.window.fifo.cursor < |s.window.fifo.entries| then
        Some(s.(inCall := Idle, window := AfterAccepted(s.window, s.window.fifo.cursor)))
      else None
    case BeginAck =>
      if Live(s) && s.inCall.Idle? && s.acks.pending.Some? && !Expired(lim, s)
      then Some(s.(inCall := SendingAck(s.acks.pending.value.messageSeq))) else None
    case EndAck(accepted) =>
      if !s.inCall.SendingAck? then None
      else if !accepted || !Live(s) then Some(s.(inCall := Idle))
      else Some(s.(inCall := Idle, acks := AckAccepted(s.acks, s.inCall.ackMessageSeq)))
    case Replay =>
      // Environment assumption: no replay is requested from inside a send.
      if Live(s) && s.inCall.Idle? then Some(s.(window := s.window.(fifo := ResetReplay(s.window.fifo)))) else None
    case Acked(ack) =>
      if Live(s) && s.inCall.Idle? then Some(Released(lim, s, ack)) else None
    case QueueAck(messageSeq) =>
      if Live(s) && s.inCall.Idle? then Some(s.(acks := AckQueued(s.acks, messageSeq, s.clock))) else None
    case Deliver(bytes) =>
      if Live(s) && s.inCall.Idle? then Some(s.(delivered := s.delivered + [bytes])) else None
    case Reject(outerBytes) =>
      if Live(s) && s.flow.unacknowledgedByteCount + outerBytes > lim.replayBufferMaxBytes
      then Some(Degraded(s, Fault(ReplayBufferExceeded, Some(s.window.nextMessageSeq)))) else None
    case Degrade(fault) => if Live(s) && !Caused(lim, s, fault) then None else Some(Degraded(s, fault))
    case Dispose => Some(Disposed(s))
  }

  /** What admission does, where it is performed. */
  lemma {:induction false} ReserveEnabled(lim: Limits, s: State, batch: Batch)
    requires Live(s) && batch.frames != [] && Contiguous(batch.frames, s.window.nextPhysicalSeq)
    requires batch.messageSeq == s.window.nextMessageSeq && batch.queuedAt == s.clock
    requires s.flow.unacknowledgedByteCount + batch.outerBytes <= lim.replayBufferMaxBytes
    ensures Step(lim, s, Reserve(batch))
         == Some(s.(window := WindowReserve(s.window, batch), flow := FlowReserve(lim, s.flow, batch.outerBytes)))
  {
  }

  lemma {:induction false} BeginAckEnabled(lim: Limits, s: State)
    requires Live(s) && s.inCall.Idle? && s.acks.pending.Some? && !Expired(lim, s)
    ensures Step(lim, s, BeginAck) == Some(s.(inCall := SendingAck(s.acks.pending.value.messageSeq)))
  {
  }

  lemma {:induction false} EndAckEnabled(lim: Limits, s: State, accepted: bool)
    requires s.inCall.SendingAck?
    ensures Step(lim, s, EndAck(accepted))
         == Some(if accepted && Live(s) then s.(inCall := Idle, acks := AckAccepted(s.acks, s.inCall.ackMessageSeq))
                 else s.(inCall := Idle))
  {
  }

  lemma {:induction false} BeginDataEnabled(lim: Limits, s: State)
    requires Live(s) && s.inCall.Idle? && s.acks.pending.None? && !Expired(lim, s)
    requires FifoShape(s.window.fifo) && s.window.fifo.cursor < |s.window.fifo.entries|
    ensures NextFrame(s.window.fifo).Some?
    ensures Step(lim, s, BeginData) == Some(s.(inCall := SendingData(NextFrame(s.window.fifo).value)))
  {
  }

  lemma {:induction false} EndDataRefused(lim: Limits, s: State, accepted: bool)
    requires s.inCall.SendingData? && (!accepted || !Live(s))
    ensures Step(lim, s, EndData(accepted)) == Some(s.(inCall := Idle))
  {
  }

  lemma {:induction false} EndDataAccepted(lim: Limits, s: State)
    requires s.inCall.SendingData? && Live(s) && s.window.fifo.cursor < |s.window.fifo.entries|
    ensures Step(lim, s, EndData(true))
         == Some(s.(inCall := Idle, window := AfterAccepted(s.window, s.window.fifo.cursor)))
  {
  }

  lemma {:induction false} ReplayEnabled(lim: Limits, s: State)
    requires Live(s) && s.inCall.Idle?
    ensures Step(lim, s, Replay) == Some(s.(window := s.window.(fifo := ResetReplay(s.window.fifo))))
  {
  }

  lemma {:induction false} AckedEnabled(lim: Limits, s: State, ack: nat)
    requires Live(s) && s.inCall.Idle?
    ensures Step(lim, s, Acked(ack)) == Some(Released(lim, s, ack))
  {
  }

  lemma {:induction false} QueueAckEnabled(lim: Limits, s: State, messageSeq: nat)
    requires Live(s) && s.inCall.Idle?
    ensures Step(lim, s, QueueAck(messageSeq)) == Some(s.(acks := AckQueued(s.acks, messageSeq, s.clock)))
  {
  }

  lemma {:induction false} DeliverEnabled(lim: Limits, s: State, bytes: Bytes)
    requires Live(s) && s.inCall.Idle?
    ensures Step(lim, s, Deliver(bytes)) == Some(s.(delivered := s.delivered + [bytes]))
  {
  }

  lemma {:induction false} RejectEnabled(lim: Limits, s: State, outerBytes: nat)
    requires Live(s) && s.flow.unacknowledgedByteCount + outerBytes > lim.replayBufferMaxBytes
    ensures Step(lim, s, Reject(outerBytes))
         == Some(Degraded(s, Fault(ReplayBufferExceeded, Some(s.window.nextMessageSeq))))
  {
  }

  lemma {:induction false} DegradeEnabled(lim: Limits, s: State, fault: Fault)
    requires Live(s) ==> Caused(lim, s, fault)
    ensures Step(lim, s, Degrade(fault)) == Some(Degraded(s, fault))
  {
  }

  lemma {:induction false} DisposeEnabled(lim: Limits, s: State)
    ensures Step(lim, s, Dispose) == Some(Disposed(s))
  {
  }

  /** The state after a whole run, or None when the run is not one the code can perform. */
  function Run(lim: Limits, clock: int, events: seq<Event>): Option<State> {
    if events == [] then Some(Init(clock))
    else
      var before := Run(lim, clock, events[..|events| - 1]);
      if before.None? then None else Step(lim, before.value, events[|events| - 1])
  }

  lemma {:induction false} RunSnoc(lim: Limits, clock: int, events: seq<Event>, e: Event)
    requires Run(lim, clock, events).Some?
    ensures Run(lim, clock, events + [e]) == Step(lim, Run(lim, clock, events).value, e)
  {
    assert (events + [e])[..|events|] == events;
  }

  // ---------- the invariant

  /** All frames of the batches, in the order they were numbered. */
  function Flatten(batches: seq<Batch>): seq<Frame> {
    if batches == [] then [] else Flatten(batches[..|batches| - 1]) + batches[|batches| - 1].frames
  }

  /** How many frames the first `k` messages have. */
  function Through(batches: seq<Batch>, k: nat): nat
    requires k <= |batches|
  {
    |Flatten(batches[..k])|
  }

  ghost predicate NumberedBatches(batches: seq<Batch>) {
    && (forall i :: 0 <= i < |batches| ==> batches[i].messageSeq == i + 1 && batches[i].frames != [])
    && Contiguous(Flatten(batches), 1)
  }

  ghost predicate NumberingInv(w: Window) {
    && NumberedBatches(w.reserved)
    && w.nextMessageSeq == |w.reserved| + 1
    && w.nextPhysicalSeq == |Flatten(w.reserved)| + 1
    && w.lastAckedMessageSeq <= w.highestFullySentMessageSeq <= |w.reserved|
  }

  /** Entries before the cursor are complete, the one under it is strictly inside, later ones are untouched. */
  ghost predicate FifoShape(q: Fifo) {
    && q.cursor <= |q.entries|
    && (forall i :: 0 <= i < q.cursor ==> q.entries[i].nextFrameIndex == |q.entries[i].batch.frames|)
    && (q.cursor < |q.entries| ==> q.entries[q.cursor].nextFrameIndex < |q.entries[q.cursor].batch.frames|)
    && (forall i :: q.cursor < i < |q.entries| ==> q.entries[i].nextFrameIndex == 0)
  }

  /** The retained batches are exactly messages lastAcked+1 .. nextMessageSeq-1. */
  ghost predicate WindowInv(w: Window) {
    && FifoShape(w.fifo)
    && |w.fifo.entries| == |w.reserved| - w.lastAckedMessageSeq
    && (forall i :: 0 <= i < |w.fifo.entries| ==> w.fifo.entries[i].batch == w.reserved[w.lastAckedMessageSeq + i])
    && w.lastAckedMessageSeq + w.fifo.cursor <= w.highestFullySentMessageSeq
  }

  ghost predicate FlowInv(lim: Limits, f: Flow, entries: seq<Entry>) {
    && f.unacknowledgedByteCount == SumBytes(entries)
    && f.unacknowledgedByteCount <= lim.replayBufferMaxBytes
    && (f.saturated ==> f.unacknowledgedByteCount > lim.lowWaterMarkBytes)
    && (!f.saturated ==> f.unacknowledgedByteCount <= lim.highWaterMarkBytes)
    && (f.saturated <==> |f.signals| % 2 == 1)
  }

  /** The two saturation events alternate, starting with Saturated. */
  ghost predicate Alternating(signals: seq<Signal>) {
    forall i :: 0 <= i < |signals| ==> signals[i] == if i % 2 == 0 then Saturated else Drained
  }

  ghost predicate AckInv(a: Acks) {
    a.owed <= Max(a.accepted, if a.pending.Some? then a.pending.value.messageSeq else 0)
  }

  ghost predicate CallInv(call: InCall, q: Fifo, pending: Option<PendingAck>) {
    match call
    case Idle => true
    case SendingData(frame) => pending.None? && NextFrame(q) == Some(frame)
    case SendingAck(ack) => pending.Some? && pending.value.messageSeq == ack
  }

  ghost predicate LiveInv(lim: Limits, s: State) {
    && WindowInv(s.window)
    && FlowInv(lim, s.flow, s.window.fifo.entries)
    && AckInv(s.acks)
    && CallInv(s.inCall, s.window.fifo, s.acks.pending)
  }

  ghost predicate Inv(lim: Limits, s: State) {
    && NumberingInv(s.window)
    && Alternating(s.flow.signals)
    && (Live(s) ==> LiveInv(lim, s))
    && (!Live(s) ==> s.window.fifo == EMPTY && s.flow.unacknowledgedByteCount == 0 && s.acks.pending.None?)
    && (s.fault.Some? <==> s.degraded)
  }

  predicate LimitsOk(lim: Limits) {
    lim.lowWaterMarkBytes <= lim.highWaterMarkBytes
  }

  // ---------- every step keeps the invariant

  lemma {:induction false} FlattenSnoc(batches: seq<Batch>, batch: Batch)
    ensures Flatten(batches + [batch]) == Flatten(batches) + batch.frames
  {
    assert (batches + [batch])[..|batches|] == batches;
  }

  lemma {:induction false} NumberingReserveKeeps(w: Window, batch: Batch)
    requires NumberingInv(w) && batch.frames != [] && Contiguous(batch.frames, w.nextPhysicalSeq)
    requires batch.messageSeq == w.nextMessageSeq
    ensures NumberingInv(WindowReserve(w, batch))
  {
    FlattenSnoc(w.reserved, batch);
  }

  lemma {:induction false} WindowReserveKeeps(w: Window, batch: Batch)
    requires WindowInv(w) && batch.frames != []
    ensures WindowInv(WindowReserve(w, batch))
    ensures SumBytes(WindowReserve(w, batch).fifo.entries) == SumBytes(w.fifo.entries) + batch.outerBytes
  {
    SumBytesConcat(w.fifo.entries, [Entry(batch, 0)]);
    assert SumBytes([Entry(batch, 0)]) == batch.outerBytes;
    assert FifoShape(Append(w.fifo, batch));
  }

  /** One accepted frame of the batch under the cursor. */
  function Accept(q: Fifo): Fifo
    requires q.cursor < |q.entries|
  {
    var q' := Bump(q, q.cursor);
    var entry := q'.entries[q.cursor];
    if entry.nextFrameIndex == |entry.batch.frames| then AdvanceUnsent(q') else q'
  }

  lemma {:induction false} AcceptKeepsShape(q: Fifo)
    requires FifoShape(q) && q.cursor < |q.entries|
    requires q.cursor + 1 < |q.entries| ==> q.entries[q.cursor + 1].batch.frames != []
    ensures FifoShape(Accept(q))
  {
  }

  lemma {:induction false} ReleaseKeepsShape(q: Fifo, ack: nat)
    requires FifoShape(q)
    requires forall i :: 0 <= i < |q.entries| ==> q.entries[i].batch.frames != []
    ensures FifoShape(ReleaseThrough(q, ack))
  {
    hide CoveredBy;
    var k, q' := CoveredBy(q.entries, ack), ReleaseThrough(q, ack);
    assert forall i :: 0 <= i < |q'.entries| ==> q'.entries[i] == q.entries[k + i];
  }

  lemma {:induction false} BatchesOfWindow(w: Window)
    requires NumberingInv(w) && WindowInv(w)
    ensures forall i :: 0 <= i < |w.fifo.entries| ==>
              && w.fifo.entries[i].batch.frames != []
              && w.fifo.entries[i].batch.messageSeq == w.lastAckedMessageSeq + i + 1
  {
  }

  lemma {:induction false} AfterAcceptedKeeps(w: Window)
    requires NumberingInv(w) && WindowInv(w) && w.fifo.cursor < |w.fifo.entries|
    ensures var w' := AfterAccepted(w, w.fifo.cursor);
            NumberingInv(w') && WindowInv(w') && SumBytes(w'.fifo.entries) == SumBytes(w.fifo.entries)
  {
    hide NumberedBatches, SumBytes;
    var w', c := AfterAccepted(w, w.fifo.cursor), w.fifo.cursor;
    assert FifoShape(Accept(w.fifo)) && w.fifo.entries[c].batch.messageSeq == w.lastAckedMessageSeq + c + 1 by {
      BatchesOfWindow(w);
      AcceptKeepsShape(w.fifo);
    }
    assert w'.fifo == Accept(w.fifo);
    SumBytesOfBatches(w.fifo.entries, w'.fifo.entries);
  }

  lemma {:induction false} ResetReplayKeeps(w: Window)
    requires NumberingInv(w) && WindowInv(w)
    ensures var w' := w.(fifo := ResetReplay(w.fifo));
            NumberingInv(w') && WindowInv(w') && SumBytes(w'.fifo.entries) == SumBytes(w.fifo.entries)
  {
    SumBytesOfBatches(w.fifo.entries, Rewound(w.fifo.entries));
    BatchesOfWindow(w);
  }

  /** An accepted acknowledgement releases exactly the messages between the last one and itself. */
  lemma {:induction false} ReleasedCount(w: Window, ack: nat)
    requires NumberingInv(w) && WindowInv(w)
    requires w.lastAckedMessageSeq <= ack <= |w.reserved|
    ensures CoveredBy(w.fifo.entries, ack) == ack - w.lastAckedMessageSeq
  {
    var entries := w.fifo.entries;
    var n := ack - w.lastAckedMessageSeq;
    BatchesOfWindow(w);
    CoveredByIsExact(entries, ack);
    var k := CoveredBy(entries, ack);
    assert k < |entries| ==> entries[k].batch.messageSeq > ack;
    assert n < |entries| ==> entries[n].batch.messageSeq == ack + 1;
    assert k > 0 ==> entries[k - 1].batch.messageSeq <= ack;
  }

  lemma {:induction false} ReleaseSplitsBytes(q: Fifo, ack: nat)
    ensures SumBytes(q.entries) == SumBytes(q.entries[..CoveredBy(q.entries, ack)])
                                   + SumBytes(ReleaseThrough(q, ack).entries)
  {
    var released := CoveredBy(q.entries, ack);
    assert q.entries == q.entries[..released] + q.entries[released..];
    SumBytesConcat(q.entries[..released], q.entries[released..]);
  }

  lemma {:induction false} WindowReleaseKeeps(w: Window, ack: nat)
    requires NumberingInv(w) && WindowInv(w)
    requires w.lastAckedMessageSeq <= ack <= w.highestFullySentMessageSeq
    ensures NumberingInv(WindowRelease(w, ack)) && WindowInv(WindowRelease(w, ack))
    ensures SumBytes(w.fifo.entries) == SumBytes(w.fifo.entries[..CoveredBy(w.fifo.entries, ack)])
                                        + SumBytes(WindowRelease(w, ack).fifo.entries)
  {
    hide FifoShape, SumBytes, NumberedBatches, CoveredBy, Flatten;
    ReleasedCount(w, ack);
    ReleaseSplitsBytes(w.fifo, ack);
    BatchesOfWindow(w);
    ReleaseKeepsShape(w.fifo, ack);
  }

  lemma {:induction false} ReserveKeepsInv(lim: Limits, s: State, batch: Batch)
    requires LimitsOk(lim) && Inv(lim, s) && Step(lim, s, Reserve(batch)).Some?
    ensures Inv(lim, Step(lim, s, Reserve(batch)).value)
  {
    NumberingReserveKeeps(s.window, batch);
    WindowReserveKeeps(s.window, batch);
    FlowReserveKeeps(lim, s.flow, batch.outerBytes, s.window.fifo.entries);
    CallKeeps(s.inCall, s.window.fifo, s.acks.pending, batch);
    hide NumberingInv, WindowInv, FlowInv, CallInv, SumBytes, WindowReserve, FlowReserve, Alternating, Contiguous;
    assert WindowReserve(s.window, batch).fifo == Append(s.window.fifo, batch);
  }

  lemma {:induction false} FlowReserveKeeps(lim: Limits, f: Flow, bytes: nat, entries: seq<Entry>)
    requires LimitsOk(lim) && FlowInv(lim, f, entries) && Alternating(f.signals)
    requires f.unacknowledgedByteCount + bytes <= lim.replayBufferMaxBytes
    ensures Alternating(FlowReserve(lim, f, bytes).signals)
    ensures forall entries' :: SumBytes(entries') == SumBytes(entries) + bytes ==>
              FlowInv(lim, FlowReserve(lim, f, bytes), entries')
  {
    hide SumBytes;
  }

  lemma {:induction false} CallKeeps(call: InCall, q: Fifo, pending: Option<PendingAck>, batch: Batch)
    requires CallInv(call, q, pending)
    ensures CallInv(call, Append(q, batch), pending)
  {
  }

  lemma {:induction false} EndDataKeepsInv(lim: Limits, s: State, accepted: bool)
    requires Inv(lim, s) && Step(lim, s, EndData(accepted)).Some?
    ensures Inv(lim, Step(lim, s, EndData(accepted)).value)
  {
    if accepted && Live(s) {
      AfterAcceptedKeeps(s.window);
    }
  }

  lemma {:induction false} AckedKeepsInv(lim: Limits, s: State, ack: nat)
    requires LimitsOk(lim) && Inv(lim, s) && Step(lim, s, Acked(ack)).Some?
    ensures Inv(lim, Step(lim, s, Acked(ack)).value)
  {
    hide NumberedBatches, SumBytes, FifoShape;
    if s.window.lastAckedMessageSeq < ack <= s.window.highestFullySentMessageSeq {
      WindowReleaseKeeps(s.window, ack);
      assert CallInv(s.inCall, s.window.fifo, s.acks.pending);
    }
  }

  lemma {:induction false} StepKeepsInv(lim: Limits, s: State, e: Event)
    requires LimitsOk(lim) && Inv(lim, s) && Step(lim, s, e).Some?
    ensures Inv(lim, Step(lim, s, e).value)
  {
    hide NumberedBatches, SumBytes, FifoShape, Alternating;
    match e
    case Reserve(batch) => ReserveKeepsInv(lim, s, batch);
    case EndData(accepted) => EndDataKeepsInv(lim, s, accepted);
    case Replay => ResetReplayKeeps(s.window);
    case Acked(ack) => AckedKeepsInv(lim, s, ack);
    case _ =>
  }

  /** Sender invariant: it holds after every run, whatever re-entered where. */
  lemma {:induction false} RunKeepsInv(lim: Limits, clock: int, events: seq<Event>)
    requires LimitsOk(lim) && Run(lim, clock, events).Some?
    ensures Inv(lim, Run(lim, clock, events).value)
  {
    if events != [] {
      RunKeepsInv(lim, clock, events[..|events| - 1]);
      StepKeepsInv(lim, Run(lim, clock, events[..|events| - 1]).value, events[|events| - 1]);
    }
  }

  /** The clamp in the byte update never acts: an acknowledgement never releases more bytes than are counted. */
  lemma {:induction false} ReleaseNeverUnderflows(lim: Limits, s: State, ack: nat)
    requires Inv(lim, s) && Live(s) && s.window.lastAckedMessageSeq < ack <= s.window.highestFullySentMessageSeq
    ensures var releasedBytes := SumBytes(s.window.fifo.entries[..CoveredBy(s.window.fifo.entries, ack)]);
            && releasedBytes <= s.flow.unacknowledgedByteCount
            && Released(lim, s, ack).flow.unacknowledgedByteCount == s.flow.unacknowledgedByteCount - releasedBytes
  {
    ReleaseSplitsBytes(s.window.fifo, ack);
  }

  // ---------- the grace deadline

  ghost predicate TimeInv(s: State) {
    && (forall i, j :: 0 <= i <= j < |s.window.reserved| ==>
          s.window.reserved[i].queuedAt <= s.window.reserved[j].queuedAt)
    && (forall i :: 0 <= i < |s.window.reserved| ==> s.window.reserved[i].queuedAt <= s.clock)
    && (s.acks.pending.Some? ==> s.acks.pending.value.queuedAt <= s.clock)
  }

  lemma {:induction false} StepKeepsTimeInv(lim: Limits, s: State, e: Event)
    requires TimeInv(s) && Step(lim, s, e).Some?
    ensures TimeInv(Step(lim, s, e).value)
  {
    hide CoveredBy, SumBytes, Expired;
  }

  lemma {:induction false} RunKeepsTimeInv(lim: Limits, clock: int, events: seq<Event>)
    requires Run(lim, clock, events).Some?
    ensures TimeInv(Run(lim, clock, events).value)
  {
    if events != [] {
      RunKeepsTimeInv(lim, clock, events[..|events| - 1]);
      StepKeepsTimeInv(lim, Run(lim, clock, events[..|events| - 1]).value, events[|events| - 1]);
    }
  }

  /** A retained batch, or the pending acknowledgement, is older than the grace period. */
  ghost predicate SomethingOverdue(lim: Limits, s: State) {
    || (exists i :: 0 <= i < |s.window.fifo.entries|
                    && s.clock - s.window.fifo.entries[i].batch.queuedAt > lim.replayBufferGraceMs)
    || (s.acks.pending.Some? && s.clock - s.acks.pending.value.queuedAt > lim.replayBufferGraceMs)
  }

  /** Looking at the head batch and the pending acknowledgement only is enough: the check is exact. */
  lemma {:induction false} ExpiredIsExact(lim: Limits, s: State)
    requires WindowInv(s.window) && TimeInv(s)
    ensures Expired(lim, s) <==> SomethingOverdue(lim, s)
  {
    var entries := s.window.fifo.entries;
    if entries != [] {
      assert entries[0].batch == s.window.reserved[s.window.lastAckedMessageSeq];
      assert forall i :: 0 <= i < |entries| ==> entries[0].batch.queuedAt <= entries[i].batch.queuedAt;
    }
  }

  predicate IsSend(e: Event) {
    e.BeginData? || e.BeginAck?
  }

  /** In every run, at every send, no retained batch and no pending acknowledgement is past its grace period. */
  lemma {:induction false} GraceSafety(lim: Limits, clock: int, events: seq<Event>, k: nat)
    requires LimitsOk(lim) && Run(lim, clock, events).Some?
    requires k < |events| && IsSend(events[k])
    ensures Run(lim, clock, events[..k]).Some? && !SomethingOverdue(lim, Run(lim, clock, events[..k]).value)
  {
    PrefixRuns(lim, clock, events, k + 1);
    assert events[..k + 1][..k] == events[..k];
    RunKeepsInv(lim, clock, events[..k]);
    RunKeepsTimeInv(lim, clock, events[..k]);
    ExpiredIsExact(lim, Run(lim, clock, events[..k]).value);
  }

  lemma {:induction false} PrefixRuns(lim: Limits, clock: int, events: seq<Event>, k: nat)
    requires k <= |events| && Run(lim, clock, events).Some?
    ensures Run(lim, clock, events[..k]).Some?
    decreases |events|
  {
    if k < |events| {
      var shorter := events[..|events| - 1];
      PrefixRuns(lim, clock, shorter, k);
      assert shorter[..k] == events[..k];
    } else {
      assert events[..k] == events;
    }
  }

  // ---------- what brings the end

  /** The fault of an expired deadline names what is overdue, and of two overdue things the one that waits longer. */
  lemma {:induction false} GraceFaultIsDue(lim: Limits, s: State)
    requires WindowInv(s.window) && NumberingInv(s.window) && TimeInv(s) && Expired(lim, s)
    ensures DueFault(lim, s).Some?
    ensures var f := DueFault(lim, s).value;
            if f.reason.AckGraceExceeded? then
              && s.acks.pending.Some? && f.messageSeq == Some(s.acks.pending.value.messageSeq)
              && s.clock - s.acks.pending.value.queuedAt > lim.replayBufferGraceMs
              && forall i :: 0 <= i < |s.window.fifo.entries| ==>
                   s.acks.pending.value.queuedAt <= s.window.fifo.entries[i].batch.queuedAt
            else
              && f == Fault(ReplayGraceExceeded, Some(s.window.lastAckedMessageSeq + 1))
              && s.window.fifo.entries != []
              && s.clock - s.window.fifo.entries[0].batch.queuedAt > lim.replayBufferGraceMs
              && (s.acks.pending.Some? ==> s.window.fifo.entries[0].batch.queuedAt < s.acks.pending.value.queuedAt)
  {
    BatchesOfWindow(s.window);
    var entries := s.window.fifo.entries;
    if entries != [] {
      assert entries[0].batch == s.window.reserved[s.window.lastAckedMessageSeq];
      assert forall i :: 0 <= i < |entries| ==> entries[0].batch.queuedAt <= entries[i].batch.queuedAt;
    }
  }

  /** Why an adapter that was alive is not any more. */
  ghost predicate HasItsCause(lim: Limits, s: State, e: Event, s': State) {
    match e
    case Dispose => s'.disposed
    case Acked(ack) =>
      ack > s.window.highestFullySentMessageSeq && s'.fault == Some(Fault(FutureAck, Some(ack)))
    case Reject(outerBytes) =>
      && s.flow.unacknowledgedByteCount + outerBytes > lim.replayBufferMaxBytes
      && s'.fault == Some(Fault(ReplayBufferExceeded, Some(s.window.nextMessageSeq)))
    case Degrade(fault) =>
      && s'.fault == Some(fault) && !fault.reason.FutureAck? && !fault.reason.ReplayBufferExceeded?
      && (fault.reason.AckGraceExceeded? || fault.reason.ReplayGraceExceeded? ==> SomethingOverdue(lim, s))
      && (fault.reason.SendFailed? ==> !s.inCall.Idle?)
    case _ => false
  }

  /** In every run, whatever ended the adapter had its cause in the state before it. */
  lemma {:induction false} DeathHasItsCause(lim: Limits, clock: int, events: seq<Event>, e: Event)
    requires LimitsOk(lim) && Run(lim, clock, events + [e]).Some?
    ensures Run(lim, clock, events).Some?
    ensures var s, s' := Run(lim, clock, events).value, Run(lim, clock, events + [e]).value;
            Live(s) && !Live(s') ==> HasItsCause(lim, s, e, s')
  {
    PrefixRuns(lim, clock, events + [e], |events|);
    assert (events + [e])[..|events|] == events;
    RunSnoc(lim, clock, events, e);
    RunKeepsInv(lim, clock, events);
    RunKeepsTimeInv(lim, clock, events);
    var s := Run(lim, clock, events).value;
    if Live(s) {
      ExpiredIsExact(lim, s);
      hide Run, Inv, TimeInv, Expired, SomethingOverdue, WindowInv;
      EndHasItsCause(lim, s, e);
    }
  }

  lemma {:induction false} EndHasItsCause(lim: Limits, s: State, e: Event)
    requires Live(s) && Step(lim, s, e).Some? && (Expired(lim, s) ==> SomethingOverdue(lim, s))
    ensures !Live(Step(lim, s, e).value) ==> HasItsCause(lim, s, e, Step(lim, s, e).value)
  {
    hide Expired, SomethingOverdue, CoveredBy, SumBytes;
  }

  /**
   The watermarks: the sender becomes saturated when the bytes rise above the high one, and stays so until they are down
   to the low one. Every change is announced, and nothing else is.
   */
  lemma {:induction false} SaturationIsHysteresis(lim: Limits, s: State, e: Event)
    requires LimitsOk(lim) && Inv(lim, s) && Step(lim, s, e).Some? && Live(Step(lim, s, e).value)
    ensures var f, f' := s.flow, Step(lim, s, e).value.flow;
            && (f'.saturated <==> f'.unacknowledgedByteCount > lim.highWaterMarkBytes
                                  || (f.saturated && f'.unacknowledgedByteCount > lim.lowWaterMarkBytes))
            && f'.signals == f.signals + (if !f.saturated && f'.saturated then [Saturated]
                                          else if f.saturated && !f'.saturated then [Drained] else [])
  {
    hide NumberedBatches, FifoShape, Expired, Alternating;
    if e.Acked? && Live(s) && s.window.lastAckedMessageSeq < e.ackMessageSeq <= s.window.highestFullySentMessageSeq {
      ReleaseNeverUnderflows(lim, s, e.ackMessageSeq);
    }
  }

  // ---------- after the end

  /** Once degraded or disposed, a run never sends, delivers, admits or releases again, and its first fault stands. */
  lemma {:induction false} NothingAfterTheEnd(lim: Limits, clock: int, events: seq<Event>, k: nat)
    requires k <= |events| && Run(lim, clock, events).Some?
    requires Run(lim, clock, events[..k]).Some? && !Live(Run(lim, clock, events[..k]).value)
    ensures forall j :: k <= j < |events| ==>
              events[j].Tick? || events[j].EndData? || events[j].EndAck? || events[j].Degrade? || events[j].Dispose?
    ensures var s, s' := Run(lim, clock, events[..k]).value, Run(lim, clock, events).value;
            && !Live(s') && s'.fault == s.fault && s'.delivered == s.delivered
            && s'.window.reserved == s.window.reserved
            && s'.flow.signals == s.flow.signals && s'.window.lastAckedMessageSeq == s.window.lastAckedMessageSeq
    decreases |events|
  {
    hide Step;
    if k == |events| {
      assert events[..k] == events;
    } else {
      var shorter := events[..|events| - 1];
      assert shorter[..k] == events[..k];
      NothingAfterTheEnd(lim, clock, shorter, k);
      NothingInADeadStep(lim, Run(lim, clock, shorter).value, events[|events| - 1]);
    }
  }

  lemma {:induction false} NothingInADeadStep(lim: Limits, s: State, e: Event)
    requires !Live(s) && Step(lim, s, e).Some?
    ensures e.Tick? || e.EndData? || e.EndAck? || e.Degrade? || e.Dispose?
    ensures var s' := Step(lim, s, e).value;
            && !Live(s') && s'.fault == s.fault && s'.delivered == s.delivered
            && s'.window.reserved == s.window.reserved
            && s'.flow.signals == s.flow.signals && s'.window.lastAckedMessageSeq == s.window.lastAckedMessageSeq
  {
    hide Expired, Caused;
  }

  /** Everything the sender captured before a send still holds: batches may only have been appended. */
  ghost predicate SameWindowStart(s: State, s': State) {
    && s.window.fifo.entries <= s'.window.fifo.entries
    && s'.window.fifo.cursor == s.window.fifo.cursor
    && s'.window.lastAckedMessageSeq == s.window.lastAckedMessageSeq
    && s'.window.highestFullySentMessageSeq == s.window.highestFullySentMessageSeq
    && s'.acks == s.acks
  }

  /** The dead stay dead, and nothing about them changes; inside a send the captured batch stays where it is. */
  ghost predicate Later(s: State, s': State) {
    && (s.disposed ==> s'.disposed) && (s.degraded ==> s'.degraded)
    && (!Live(s) ==>
          s'.fault == s.fault && s'.delivered == s.delivered && s'.window.reserved == s.window.reserved)
    && (!s.inCall.Idle? ==> s'.inCall == s.inCall && (Live(s') ==> SameWindowStart(s, s')))
  }

  lemma {:induction false} LaterIsReflexive(s: State)
    ensures Later(s, s)
  {
  }

  lemma {:induction false} LaterIsTransitive(s: State, s': State, s'': State)
    requires Later(s, s') && Later(s', s'')
    ensures Later(s, s'')
  {
  }

  lemma {:induction false} LaterInsideSend(s: State, call: InCall, s': State)
    requires !call.Idle? && Later(s.(inCall := call), s')
    ensures s'.inCall == call && (s.disposed ==> s'.disposed) && (s.degraded ==> s'.degraded)
    ensures Live(s') ==> SameWindowStart(s, s')
  {
  }

  /** While `sendFrame` runs, whatever foreign code does, the sender finds its captured batch as it left it. */
  lemma {:induction false} StepIsLater(lim: Limits, s: State, e: Event)
    requires Step(lim, s, e).Some? && !e.EndData? && !e.EndAck?
    ensures Later(s, Step(lim, s, e).value)
  {
  }

  lemma {:induction false} CallIsStable(lim: Limits, clock: int, events: seq<Event>, k: nat)
    requires k <= |events| && Run(lim, clock, events).Some? && Run(lim, clock, events[..k]).Some?
    requires forall j :: k <= j < |events| ==> !events[j].EndData? && !events[j].EndAck?
    ensures Later(Run(lim, clock, events[..k]).value, Run(lim, clock, events).value)
    decreases |events|
  {
    if k == |events| {
      assert events[..k] == events;
    } else {
      var shorter := events[..|events| - 1];
      assert shorter[..k] == events[..k];
      CallIsStable(lim, clock, shorter, k);
      StepIsLater(lim, Run(lim, clock, shorter).value, events[|events| - 1]);
      LaterIsTransitive(Run(lim, clock, events[..k]).value, Run(lim, clock, shorter).value,
                        Run(lim, clock, events).value);
    }
  }
}
