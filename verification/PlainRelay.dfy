/**
 The relay protocol without acknowledgements: a sender that numbers frames and buffers what the link refuses, and a
 receiver that accepts only the next number. Both ends are the same closure; its variables are the state here.
 */
module PlainRelay {

  type Bytes = seq<bv8>

  datatype Frame = Frame(bridgeSessionId: string, seqNo: int, data: Bytes)

  datatype Payload = RpcFrame(frame: Frame) | OtherPayload

  datatype Config = Config(bridgeSessionId: string, maxBufferedFrames: int, hasTimeout: bool)

  datatype State = State(
    disposed: bool,
    degraded: bool,
    seqNo: nat,
    inboundSeq: int,
    timerArmed: bool,
    bufferedFrames: seq<Frame>,
    answers: seq<bool>,        // what `sendFrame` will answer; it refuses once these are used up
    issued: seq<Frame>,        // history: every frame `send` numbered
    wire: seq<Frame>,          // history: every frame the link accepted
    dropped: nat,              // history: how many frames were thrown away
    delivered: seq<Bytes>)     // history: what the receiver handed on

  function Init(answers: seq<bool>): State {
    State(false, false, 0, 0, false, [], answers, [], [], 0, [])
  }

  // ---------- the operations as functions of the state

  function ArmTimer(c: Config, s: State): State {
    if s.timerArmed || s.bufferedFrames == [] || !c.hasTimeout then s else s.(timerArmed := true)
  }

  function Dropped(s: State): State {
    s.(bufferedFrames := [], timerArmed := false, dropped := s.dropped + |s.bufferedFrames|)
  }

  function Buffered(c: Config, s: State, frame: Frame): State {
    if |s.bufferedFrames| >= c.maxBufferedFrames then Dropped(s).(dropped := s.dropped + |s.bufferedFrames| + 1)
    else ArmTimer(c, s.(bufferedFrames := s.bufferedFrames + [frame]))
  }

  function Accepts(s: State): bool {
    s.answers != [] && s.answers[0]
  }

  function Asked(s: State): State {
    if s.answers == [] then s else s.(answers := s.answers[1..])
  }

  function FlushLoop(c: Config, s: State): State
    decreases |s.bufferedFrames|
  {
    if s.bufferedFrames == [] then s.(timerArmed := false)
    else if !Accepts(s) then ArmTimer(c, Asked(s))
    else FlushLoop(c, Asked(s).(wire := s.wire + [s.bufferedFrames[0]], bufferedFrames := s.bufferedFrames[1..]))
  }

  function Flushed(c: Config, s: State): State {
    if s.disposed || s.degraded || s.bufferedFrames == [] then s else FlushLoop(c, s)
  }

  function Sent(c: Config, s: State, data: Bytes): State {
    if s.disposed || s.degraded then s
    else
      var frame := Frame(c.bridgeSessionId, s.seqNo + 1, data);
      var s' := s.(seqNo := s.seqNo + 1, issued := s.issued + [frame]);
      if s.bufferedFrames != [] then Flushed(c, Buffered(c, s', frame))
      else if Accepts(s') then Asked(s').(wire := s.wire + [frame])
      else Buffered(c, Asked(s'), frame)
  }

  /** The next frame finds no room: it has to be buffered, and the buffer is full. */
  predicate Overflows(c: Config, s: State) {
    !s.disposed && !s.degraded && |s.bufferedFrames| >= c.maxBufferedFrames && (s.bufferedFrames != [] || !Accepts(s))
  }

  function MarkedDegraded(s: State): State {
    if s.degraded then s else Dropped(s.(degraded := true))
  }

  function Accepted(c: Config, s: State, payload: Payload): State {
    if s.disposed || s.degraded || payload.OtherPayload? || payload.frame.bridgeSessionId != c.bridgeSessionId then s
    else if payload.frame.seqNo <= s.inboundSeq then s
    else if payload.frame.seqNo != s.inboundSeq + 1 then MarkedDegraded(s)
    else s.(inboundSeq := payload.frame.seqNo, delivered := s.delivered + [payload.frame.data])
  }

  function Disposed(s: State): State {
    Dropped(s).(disposed := true)
  }

  datatype Op = Send(data: Bytes) | Flush | TimerFires | Drop | MarkDegraded | Accept(payload: Payload) | Dispose

  function Apply(c: Config, s: State, op: Op): State {
    match op
    case Send(data) => Sent(c, s, data)
    case Flush => Flushed(c, s)
    case TimerFires => if s.timerArmed then Dropped(s) else s
    case Drop => Dropped(s)
    case MarkDegraded => MarkedDegraded(s)
    case Accept(payload) => Accepted(c, s, payload)
    case Dispose => Disposed(s)
  }

  function Run(c: Config, answers: seq<bool>, ops: seq<Op>): State {
    if ops == [] then Init(answers) else Apply(c, Run(c, answers, ops[..|ops| - 1]), ops[|ops| - 1])
  }

  // ---------- the sender

  ghost predicate Numbered(c: Config, frames: seq<Frame>) {
    forall i :: 0 <= i < |frames| ==> frames[i].seqNo == i + 1 && frames[i].bridgeSessionId == c.bridgeSessionId
  }

  ghost predicate Genuine(frame: Frame, issued: seq<Frame>) {
    1 <= frame.seqNo <= |issued| && frame == issued[frame.seqNo - 1]
  }

  /** Issued frames in the order of their numbers, none beyond the bound. */
  ghost predicate Ordered(wire: seq<Frame>, issued: seq<Frame>, bound: int) {
    && (forall i :: 0 <= i < |wire| ==> Genuine(wire[i], issued) && wire[i].seqNo <= bound)
    && (forall i, j :: 0 <= i < j < |wire| ==> wire[i].seqNo < wire[j].seqNo)
  }

  lemma {:induction false} OrderedSnoc(wire: seq<Frame>, issued: seq<Frame>, bound: int, frame: Frame)
    requires Ordered(wire, issued, bound) && Genuine(frame, issued) && frame.seqNo == bound + 1
    ensures Ordered(wire + [frame], issued, bound + 1)
  {
  }

  lemma {:induction false} OrderedStays(wire: seq<Frame>, issued: seq<Frame>, bound: int, frame: Frame, bound': int)
    requires Ordered(wire, issued, bound) && bound <= bound'
    ensures Ordered(wire, issued + [frame], bound')
  {
  }

  /**
   Accepted frames keep the order of sending, the buffer is the tail of what was issued and comes after all of them, and
   every frame issued is exactly one of accepted, buffered, dropped.
   */
  ghost predicate Conserved(c: Config, s: State) {
    && Numbered(c, s.issued) && s.seqNo == |s.issued|
    && |s.bufferedFrames| <= |s.issued|
    && s.bufferedFrames == s.issued[|s.issued| - |s.bufferedFrames|..]
    && Ordered(s.wire, s.issued, |s.issued| - |s.bufferedFrames|)
    && |s.wire| + |s.bufferedFrames| + s.dropped == |s.issued|
  }

  ghost predicate SenderInv(c: Config, s: State) {
    && Conserved(c, s)
    && (s.timerArmed <==> s.bufferedFrames != [] && c.hasTimeout)
    && (s.disposed || s.degraded ==> s.bufferedFrames == [])
  }

  lemma {:induction false} ShiftKeeps(c: Config, s: State)
    requires Conserved(c, s) && s.bufferedFrames != []
    ensures Conserved(c, Asked(s).(wire := s.wire + [s.bufferedFrames[0]], bufferedFrames := s.bufferedFrames[1..]))
  {
    var frame := s.bufferedFrames[0];
    assert frame == s.issued[|s.issued| - |s.bufferedFrames|];
    OrderedSnoc(s.wire, s.issued, |s.issued| - |s.bufferedFrames|, frame);
    hide Ordered;
  }

  lemma {:induction false} FlushLoopKeeps(c: Config, s: State)
    requires Conserved(c, s) && !s.disposed && !s.degraded
    requires (s.timerArmed ==> c.hasTimeout) && (s.bufferedFrames != [] && c.hasTimeout ==> s.timerArmed)
    ensures SenderInv(c, FlushLoop(c, s))
    decreases |s.bufferedFrames|
  {
    if s.bufferedFrames != [] && Accepts(s) {
      ShiftKeeps(c, s);
      FlushLoopKeeps(c, Asked(s).(wire := s.wire + [s.bufferedFrames[0]], bufferedFrames := s.bufferedFrames[1..]));
    }
  }

  /** The state once `send` has numbered its frame and handed it neither to the link nor to the buffer. */
  function Issued(s: State, frame: Frame): State {
    s.(seqNo := s.seqNo + 1, issued := s.issued + [frame])
  }

  lemma {:induction false} BufferKeeps(c: Config, s: State, frame: Frame)
    requires SenderInv(c, s) && !s.disposed && !s.degraded
    requires frame.seqNo == s.seqNo + 1 && frame.bridgeSessionId == c.bridgeSessionId
    ensures SenderInv(c, Buffered(c, Issued(s, frame), frame))
  {
    var n := |s.issued|;
    OrderedStays(s.wire, s.issued, n - |s.bufferedFrames|, frame, n - |s.bufferedFrames|);
    OrderedStays(s.wire, s.issued, n - |s.bufferedFrames|, frame, n + 1);
    NumberedSnoc(c, s.issued, frame);
    hide Ordered, Numbered;
    if |s.bufferedFrames| < c.maxBufferedFrames {
      assert (s.issued + [frame])[n - |s.bufferedFrames|..] == s.issued[n - |s.bufferedFrames|..] + [frame];
    } else {
      assert (s.issued + [frame])[n + 1..] == [];
    }
  }

  lemma {:induction false} NumberedSnoc(c: Config, issued: seq<Frame>, frame: Frame)
    requires Numbered(c, issued) && frame.seqNo == |issued| + 1 && frame.bridgeSessionId == c.bridgeSessionId
    ensures Numbered(c, issued + [frame])
  {
  }

  lemma {:induction false} DirectKeeps(c: Config, s: State, frame: Frame)
    requires SenderInv(c, s) && s.bufferedFrames == []
    requires frame.seqNo == s.seqNo + 1 && frame.bridgeSessionId == c.bridgeSessionId
    ensures SenderInv(c, Asked(Issued(s, frame)).(wire := s.wire + [frame]))
  {
    OrderedStays(s.wire, s.issued, |s.issued|, frame, |s.issued|);
    OrderedSnoc(s.wire, s.issued + [frame], |s.issued|, frame);
    assert (s.issued + [frame])[|s.issued| + 1..] == [];
    hide Ordered;
  }

  lemma {:induction false} AskedKeeps(c: Config, s: State)
    requires SenderInv(c, s)
    ensures SenderInv(c, Asked(s))
  {
  }

  lemma {:induction false} SentKeeps(c: Config, s: State, data: Bytes)
    requires SenderInv(c, s)
    ensures SenderInv(c, Sent(c, s, data))
  {
    hide Conserved, Buffered, FlushLoop;
    if !s.disposed && !s.degraded {
      var frame := Frame(c.bridgeSessionId, s.seqNo + 1, data);
      if s.bufferedFrames != [] {
        BufferKeeps(c, s, frame);
        var buffered := Buffered(c, Issued(s, frame), frame);
        if buffered.bufferedFrames != [] {
          FlushLoopKeeps(c, buffered);
        }
      } else if Accepts(Issued(s, frame)) {
        DirectKeeps(c, s, frame);
      } else {
        AskedKeeps(c, s);
        BufferKeeps(c, Asked(s), frame);
        assert Asked(Issued(s, frame)) == Issued(Asked(s), frame);
      }
    }
  }

  lemma {:induction false} DropKeeps(c: Config, s: State)
    requires Conserved(c, s)
    ensures Conserved(c, Dropped(s))
  {
  }

  lemma {:induction false} ApplyKeeps(c: Config, s: State, op: Op)
    requires SenderInv(c, s)
    ensures SenderInv(c, Apply(c, s, op))
  {
    match op
    case Send(data) => SentKeeps(c, s, data);
    case Flush =>
      if !s.disposed && !s.degraded && s.bufferedFrames != [] {
        FlushLoopKeeps(c, s);
      }
    case TimerFires => DropKeeps(c, s);
    case Drop => DropKeeps(c, s);
    case MarkDegraded => DropKeeps(c, s.(degraded := true));
    case Accept(payload) => DropKeeps(c, s.(degraded := true));
    case Dispose => DropKeeps(c, s);
  }

  /** The sender's invariant holds after every run, whatever the link answers. */
  lemma {:induction false} RunKeeps(c: Config, answers: seq<bool>, ops: seq<Op>)
    ensures SenderInv(c, Run(c, answers, ops))
  {
    if ops != [] {
      RunKeeps(c, answers, ops[..|ops| - 1]);
      ApplyKeeps(c, Run(c, answers, ops[..|ops| - 1]), ops[|ops| - 1]);
    }
  }

  /** Where nothing was dropped, what the link accepted followed by what is buffered is everything issued, in order. */
  lemma {:induction false} NothingDropped(c: Config, answers: seq<bool>, ops: seq<Op>)
    ensures var s := Run(c, answers, ops); s.dropped == 0 ==> s.wire + s.bufferedFrames == s.issued
  {
    RunKeeps(c, answers, ops);
    var s := Run(c, answers, ops);
    if s.dropped == 0 {
      var n := |s.wire|;
      forall i | 0 <= i < n
        ensures s.wire[i] == s.issued[i]
      {
        IncreasingInRange(s.wire, s.issued, i);
      }
    }
  }

  /** n increasing numbers between 1 and n are 1..n. */
  lemma {:induction false} IncreasingInRange(wire: seq<Frame>, issued: seq<Frame>, i: nat)
    requires i < |wire| <= |issued|
    requires forall k :: 0 <= k < |wire| ==> Genuine(wire[k], issued) && wire[k].seqNo <= |wire|
    requires forall j, k :: 0 <= j < k < |wire| ==> wire[j].seqNo < wire[k].seqNo
    ensures wire[i].seqNo == i + 1
  {
    AtLeast(wire, i);
    AtMost(wire, i);
  }

  lemma {:induction false} AtLeast(wire: seq<Frame>, i: nat)
    requires i < |wire| && forall k :: 0 <= k < |wire| ==> wire[k].seqNo >= 1
    requires forall j, k :: 0 <= j < k < |wire| ==> wire[j].seqNo < wire[k].seqNo
    ensures wire[i].seqNo >= i + 1
  {
    if i > 0 {
      AtLeast(wire, i - 1);
    }
  }

  lemma {:induction false} AtMost(wire: seq<Frame>, i: nat)
    requires i < |wire| && forall k :: 0 <= k < |wire| ==> wire[k].seqNo <= |wire|
    requires forall j, k :: 0 <= j < k < |wire| ==> wire[j].seqNo < wire[k].seqNo
    ensures wire[i].seqNo <= i + 1
    decreases |wire| - i
  {
    if i + 1 < |wire| {
      AtMost(wire, i + 1);
    }
  }

  // ---------- what one call of `send` or a flush puts on the wire

  /** How many answers in a row are yes. */
  function Yes(answers: seq<bool>): (n: nat)
    ensures n <= |answers|
  {
    if answers == [] || !answers[0] then 0 else 1 + Yes(answers[1..])
  }

  /** The link takes frames from the front of the list for as long as it says yes, and is asked once more if it can. */
  ghost predicate PutsOnWire(s: State, all: seq<Frame>, s': State) {
    var k := if Yes(s.answers) < |all| then Yes(s.answers) else |all|;
    && s'.wire == s.wire + all[..k] && s'.bufferedFrames == all[k..]
    && s'.answers == s.answers[if k < |all| && k < |s.answers| then k + 1 else k..]
    && s'.dropped == s.dropped
  }

  lemma {:induction false} FlushLoopPuts(c: Config, s: State)
    ensures PutsOnWire(s, s.bufferedFrames, FlushLoop(c, s))
    ensures FlushLoop(c, s).seqNo == s.seqNo
    decreases |s.bufferedFrames|
  {
    if s.bufferedFrames != [] && Accepts(s) {
      hide PutsOnWire, Accepts;
      var next := Asked(s).(wire := s.wire + [s.bufferedFrames[0]], bufferedFrames := s.bufferedFrames[1..]);
      assert FlushLoop(c, s) == FlushLoop(c, next);
      hide FlushLoop;
      FlushLoopPuts(c, next);
      FirstGoesOut(s, FlushLoop(c, next));
    } else {
      hide PutsOnWire;
      NothingGoesOut(c, s);
    }
  }

  lemma {:induction false} NothingGoesOut(c: Config, s: State)
    requires s.bufferedFrames == [] || !Accepts(s)
    ensures PutsOnWire(s, s.bufferedFrames, FlushLoop(c, s)) && FlushLoop(c, s).seqNo == s.seqNo
  {
    assert Yes(s.answers) == 0 || s.bufferedFrames == [];
    assert s.wire + s.bufferedFrames[..0] == s.wire;
  }

  lemma {:induction false} FirstGoesOut(s: State, s': State)
    requires s.bufferedFrames != [] && Accepts(s)
    requires PutsOnWire(Asked(s).(wire := s.wire + [s.bufferedFrames[0]], bufferedFrames := s.bufferedFrames[1..]),
                        s.bufferedFrames[1..], s')
    ensures PutsOnWire(s, s.bufferedFrames, s')
  {
    var frames, k := s.bufferedFrames, Yes(s.answers[1..]);
    assert Yes(s.answers) == k + 1;
    hide Yes;
    k := if k < |frames| - 1 then k else |frames| - 1;
    assert frames[..k + 1] == [frames[0]] + frames[1..][..k];
    assert s.wire + [frames[0]] + frames[1..][..k] == s.wire + frames[..k + 1];
  }

  /** A flush sends the buffered frames from the front, as far as the link takes them. */
  lemma {:induction false} FlushPuts(c: Config, s: State)
    requires !s.disposed && !s.degraded
    ensures PutsOnWire(s, s.bufferedFrames, Flushed(c, s))
    ensures Flushed(c, s).issued == s.issued && Flushed(c, s).seqNo == s.seqNo
  {
    FlushLoopPuts(c, s);
    FlushLoopIssues(c, s);
  }

  /** Sending puts the new frame behind the buffered ones and then sends from the front, unless there is no room. */
  lemma {:induction false} SendPuts(c: Config, s: State, data: Bytes)
    requires !s.disposed && !s.degraded && !Overflows(c, s)
    ensures var frame := Frame(c.bridgeSessionId, s.seqNo + 1, data);
            && PutsOnWire(s, s.bufferedFrames + [frame], Sent(c, s, data))
            && Sent(c, s, data).issued == s.issued + [frame] && Sent(c, s, data).seqNo == s.seqNo + 1
  {
    var frame := Frame(c.bridgeSessionId, s.seqNo + 1, data);
    if s.bufferedFrames != [] {
      FlushLoopPuts(c, Buffered(c, Issued(s, frame), frame));
      FlushLoopIssues(c, Buffered(c, Issued(s, frame), frame));
    } else {
      assert [] + [frame] == [frame];
    }
  }

  /** Where there is no room, the frame and everything buffered are thrown away, and nothing is sent. */
  lemma {:induction false} OverflowDrops(c: Config, s: State, data: Bytes)
    requires Overflows(c, s)
    ensures var s' := Sent(c, s, data);
            && s'.wire == s.wire && s'.bufferedFrames == [] && s'.dropped == s.dropped + |s.bufferedFrames| + 1
            && s'.seqNo == s.seqNo + 1 && !s'.timerArmed && !s'.disposed && !s'.degraded
  {
  }

  // ---------- end to end

  function Data(frames: seq<Frame>): (d: seq<Bytes>)
    ensures |d| == |frames| && forall i :: 0 <= i < |d| ==> d[i] == frames[i].data
  {
    seq(|frames|, i requires 0 <= i < |frames| => frames[i].data)
  }

  /** The buffers passed to `send`, in order. */
  function SentBuffers(ops: seq<Op>): seq<Bytes> {
    if ops == [] then []
    else
      var before, last := SentBuffers(ops[..|ops| - 1]), ops[|ops| - 1];
      if last.Send? then before + [last.data] else before
  }

  lemma {:induction false} FlushLoopIssues(c: Config, s: State)
    ensures FlushLoop(c, s).issued == s.issued
    ensures FlushLoop(c, s).disposed == s.disposed && FlushLoop(c, s).degraded == s.degraded
    ensures FlushLoop(c, s).inboundSeq == s.inboundSeq && FlushLoop(c, s).delivered == s.delivered
    decreases |s.bufferedFrames|
  {
    if s.bufferedFrames != [] && Accepts(s) {
      FlushLoopIssues(c, Asked(s).(wire := s.wire + [s.bufferedFrames[0]], bufferedFrames := s.bufferedFrames[1..]));
    }
  }

  /** Sending issues the buffer, or the adapter is dead for good. */
  lemma {:induction false} IssuedIsSent(c: Config, answers: seq<bool>, ops: seq<Op>)
    ensures Data(Run(c, answers, ops).issued) <= SentBuffers(ops)
    ensures var s := Run(c, answers, ops); !s.disposed && !s.degraded ==> Data(s.issued) == SentBuffers(ops)
  {
    if ops != [] {
      IssuedIsSent(c, answers, ops[..|ops| - 1]);
      ApplyIssues(c, Run(c, answers, ops[..|ops| - 1]), ops[|ops| - 1]);
    }
  }

  lemma {:induction false} ApplyIssues(c: Config, s: State, op: Op)
    ensures var s' := Apply(c, s, op);
            && (s.disposed ==> s'.disposed) && (s.degraded ==> s'.degraded)
            && Data(s'.issued) == Data(s.issued) + if op.Send? && !s.disposed && !s.degraded then [op.data] else []
  {
    match op
    case Send(data) => SentIssues(c, s, data);
    case Flush => FlushLoopIssues(c, s);
    case _ =>
  }

  lemma {:induction false} SentIssues(c: Config, s: State, data: Bytes)
    ensures var s' := Sent(c, s, data);
            && (s.disposed ==> s'.disposed) && (s.degraded ==> s'.degraded)
            && Data(s'.issued) == Data(s.issued) + if !s.disposed && !s.degraded then [data] else []
  {
    if !s.disposed && !s.degraded {
      var frame := Frame(c.bridgeSessionId, s.seqNo + 1, data);
      FlushLoopIssues(c, Buffered(c, Issued(s, frame), frame));
      DataConcat(s.issued, [frame]);
      hide FlushLoop, Data, ArmTimer;
    }
  }

  predicate IsFrameOf(c: Config, op: Op) {
    op.Accept? && op.payload.RpcFrame? && op.payload.frame.bridgeSessionId == c.bridgeSessionId
  }

  /** Every payload of this session that arrives was accepted by the link on the other side at some time. */
  ghost predicate Arrives(c: Config, ops: seq<Op>, wire: seq<Frame>) {
    forall i :: 0 <= i < |ops| && IsFrameOf(c, ops[i]) ==> ops[i].payload.frame in wire
  }

  ghost predicate OnWire(wire: seq<Frame>, d: int) {
    exists i :: 0 <= i < |wire| && wire[i].seqNo == d
  }

  ghost predicate ReceiverInv(s: State, issued: seq<Frame>) {
    && 0 <= s.inboundSeq == |s.delivered| <= |issued|
    && s.delivered == Data(issued[..s.inboundSeq])
  }

  lemma {:induction false} ApplyReceives(c: Config, s: State, op: Op, issued: seq<Frame>)
    requires ReceiverInv(s, issued)
    requires IsFrameOf(c, op) ==> Genuine(op.payload.frame, issued)
    ensures ReceiverInv(Apply(c, s, op), issued)
    ensures var s' := Apply(c, s, op);
            s'.inboundSeq == s.inboundSeq
            || (IsFrameOf(c, op) && s'.inboundSeq == op.payload.frame.seqNo == s.inboundSeq + 1)
  {
    match op
    case Send(data) =>
      if !s.disposed && !s.degraded {
        var frame := Frame(c.bridgeSessionId, s.seqNo + 1, data);
        FlushLoopIssues(c, Buffered(c, Issued(s, frame), frame));
      }
    case Flush => FlushLoopIssues(c, s);
    case _ =>
  }

  lemma {:induction false} RunReceives(c: Config, answers: seq<bool>, ops: seq<Op>, wire: seq<Frame>,
                                       issued: seq<Frame>)
    requires Arrives(c, ops, wire) && forall f :: f in wire ==> Genuine(f, issued)
    ensures ReceiverInv(Run(c, answers, ops), issued)
    ensures forall d :: 1 <= d <= Run(c, answers, ops).inboundSeq ==> OnWire(wire, d)
  {
    if ops != [] {
      var last := ops[|ops| - 1];
      RunReceives(c, answers, ops[..|ops| - 1], wire, issued);
      ApplyReceives(c, Run(c, answers, ops[..|ops| - 1]), last, issued);
    }
  }

  /**
   End-to-end prefix safety: over any channel that loses, repeats, delays and reorders frames, with any pattern of
   refusals, overflows and timeouts, what the receiver hands on is a prefix of the buffers passed to `send`.
   */
  lemma {:induction false} EndToEndPrefix(c: Config, answers: seq<bool>, ops: seq<Op>, peerAnswers: seq<bool>,
                                           peerOps: seq<Op>)
    requires Arrives(c, peerOps, Run(c, answers, ops).wire)
    ensures Run(c, peerAnswers, peerOps).delivered <= SentBuffers(ops)
  {
    RunKeeps(c, answers, ops);
    IssuedIsSent(c, answers, ops);
    var s := Run(c, answers, ops);
    RunReceives(c, peerAnswers, peerOps, s.wire, s.issued);
  }

  /** Nothing at or after a frame the link never accepted is handed on: nothing follows a dropped request. */
  lemma {:induction false} StopsAtTheFirstMissing(c: Config, answers: seq<bool>, ops: seq<Op>, peerAnswers: seq<bool>,
                                                   peerOps: seq<Op>, d: int)
    requires Arrives(c, peerOps, Run(c, answers, ops).wire)
    requires d >= 1 && !OnWire(Run(c, answers, ops).wire, d)
    ensures |Run(c, peerAnswers, peerOps).delivered| < d
  {
    hide Run;
    RunKeeps(c, answers, ops);
    var s := Run(c, answers, ops);
    RunReceives(c, peerAnswers, peerOps, s.wire, s.issued);
  }

  function AcceptAll(frames: seq<Frame>): seq<Op> {
    seq(|frames|, i requires 0 <= i < |frames| => Accept(RpcFrame(frames[i])))
  }

  /** How many leading frames are numbered 1, 2, 3, … */
  function Leading(frames: seq<Frame>): (n: nat)
    ensures n <= |frames|
  {
    if frames == [] then 0
    else
      var n := Leading(frames[..|frames| - 1]);
      if n == |frames| - 1 && frames[n].seqNo == n + 1 then n + 1 else n
  }

  /** Over a channel that delivers all in order, the receiver degrades exactly when something was dropped before. */
  lemma {:induction false} InOrderChannel(c: Config, wire: seq<Frame>, issued: seq<Frame>)
    requires Numbered(c, issued) && forall i :: 0 <= i < |wire| ==> Genuine(wire[i], issued)
    requires forall i, j :: 0 <= i < j < |wire| ==> wire[i].seqNo < wire[j].seqNo
    ensures var r, n := Run(c, [], AcceptAll(wire)), Leading(wire);
            && ReceiverInv(r, issued) && r.inboundSeq == n
            && (r.degraded <==> n < |wire|) && !r.disposed
  {
    if wire != [] {
      var shorter, last := wire[..|wire| - 1], wire[|wire| - 1];
      InOrderChannel(c, shorter, issued);
      AcceptAllStep(c, wire);
      AtLeast(wire, |wire| - 1);
      hide Run, AcceptAll, ReceiverInv, Accepted;
      OneInOrder(c, Run(c, [], AcceptAll(shorter)), last, issued);
    }
  }

  lemma {:induction false} AcceptAllStep(c: Config, wire: seq<Frame>)
    requires wire != []
    ensures Run(c, [], AcceptAll(wire))
         == Accepted(c, Run(c, [], AcceptAll(wire[..|wire| - 1])), RpcFrame(wire[|wire| - 1]))
  {
    assert AcceptAll(wire)[..|wire| - 1] == AcceptAll(wire[..|wire| - 1]);
  }

  lemma {:induction false} OneInOrder(c: Config, r: State, frame: Frame, issued: seq<Frame>)
    requires ReceiverInv(r, issued) && Numbered(c, issued) && Genuine(frame, issued) && !r.disposed
    requires frame.seqNo > r.inboundSeq
    ensures var r' := Accepted(c, r, RpcFrame(frame));
            && ReceiverInv(r', issued) && !r'.disposed
            && r'.inboundSeq == (if !r.degraded && frame.seqNo == r.inboundSeq + 1 then frame.seqNo else r.inboundSeq)
            && (r'.degraded <==> r.degraded || frame.seqNo != r.inboundSeq + 1)
  {
  }

  // ---------- any channel

  function Highest(frames: seq<Frame>): (n: int)
    ensures n >= 0
  {
    if frames == [] then 0
    else
      var n, last := Highest(frames[..|frames| - 1]), frames[|frames| - 1].seqNo;
      if last > n then last else n
  }

  /** This frame is beyond the next one after all that came before it. */
  predicate Gap(frames: seq<Frame>, i: nat)
    requires i < |frames|
  {
    frames[i].seqNo > Highest(frames[..i]) + 1
  }

  function FirstGap(frames: seq<Frame>): (n: nat)
    ensures n <= |frames|
  {
    if frames == [] then 0
    else
      var n := FirstGap(frames[..|frames| - 1]);
      if n < |frames| - 1 then n else if Gap(frames, n) then n else n + 1
  }

  lemma {:induction false} FirstGapIsFirst(frames: seq<Frame>)
    ensures FirstGap(frames) < |frames| ==> Gap(frames, FirstGap(frames))
    ensures forall i :: 0 <= i < FirstGap(frames) ==> !Gap(frames, i)
  {
    if frames != [] {
      var front := frames[..|frames| - 1];
      FirstGapIsFirst(front);
      hide Gap;
      forall i | 0 <= i < |front|
        ensures Gap(frames, i) <==> Gap(front, i)
      {
        GapOfFront(frames, i);
      }
    }
  }

  lemma {:induction false} GapOfFront(frames: seq<Frame>, i: nat)
    requires i < |frames| - 1
    ensures Gap(frames, i) <==> Gap(frames[..|frames| - 1], i)
  {
    assert frames[..|frames| - 1][..i] == frames[..i];
  }

  /**
   Frames may be lost, repeated, delayed and reordered. The receiver degrades exactly when there is a gap; it has handed
   on everything up to the highest number before that, and repeated or late frames make no difference.
   */
  lemma {:induction false} AnyChannel(c: Config, frames: seq<Frame>, issued: seq<Frame>)
    requires Numbered(c, issued) && forall i :: 0 <= i < |frames| ==> Genuine(frames[i], issued)
    ensures var r, n := Run(c, [], AcceptAll(frames)), FirstGap(frames);
            && (r.degraded <==> n < |frames|) && !r.disposed
            && r.inboundSeq == Highest(frames[..n]) && ReceiverInv(r, issued)
  {
    if frames != [] {
      var front, last := frames[..|frames| - 1], frames[|frames| - 1];
      AnyChannel(c, front, issued);
      AcceptAllStep(c, frames);
      FirstGapSnoc(frames);
      hide Run, AcceptAll, Accepted, FirstGap, Highest;
      OneArrives(c, Run(c, [], AcceptAll(front)), last, issued);
    }
  }

  lemma {:induction false} FirstGapSnoc(frames: seq<Frame>)
    requires frames != []
    ensures var front, last, n := frames[..|frames| - 1], frames[|frames| - 1], FirstGap(frames[..|frames| - 1]);
            && (n < |front| ==> FirstGap(frames) == n && frames[..n] == front[..n])
            && (n == |front| ==>
                  && front[..n] == front
                  && (last.seqNo > Highest(front) + 1 ==> FirstGap(frames) == n && frames[..n] == front)
                  && (last.seqNo <= Highest(front) + 1 ==>
                        && FirstGap(frames) == |frames| && frames[..|frames|] == frames
                        && Highest(frames) == if last.seqNo > Highest(front) then last.seqNo else Highest(front)))
  {
  }

  lemma {:induction false} OneArrives(c: Config, r: State, frame: Frame, issued: seq<Frame>)
    requires ReceiverInv(r, issued) && Numbered(c, issued) && Genuine(frame, issued) && !r.disposed
    ensures var r' := Accepted(c, r, RpcFrame(frame));
            && ReceiverInv(r', issued) && !r'.disposed
            && r'.inboundSeq == (if !r.degraded && frame.seqNo == r.inboundSeq + 1 then frame.seqNo else r.inboundSeq)
            && (r'.degraded <==> r.degraded || frame.seqNo > r.inboundSeq + 1)
  {
  }

  function AcceptEach(payloads: seq<Payload>): seq<Op> {
    seq(|payloads|, i requires 0 <= i < |payloads| => Accept(payloads[i]))
  }

  /** The frames of this session among the payloads. */
  function Mine(c: Config, payloads: seq<Payload>): seq<Frame> {
    if payloads == [] then []
    else
      var front, last := Mine(c, payloads[..|payloads| - 1]), payloads[|payloads| - 1];
      if last.RpcFrame? && last.frame.bridgeSessionId == c.bridgeSessionId then front + [last.frame] else front
  }

  /** Payloads of another kind or of another session make no difference. */
  lemma {:induction false} OthersAreIgnored(c: Config, answers: seq<bool>, payloads: seq<Payload>)
    ensures Run(c, answers, AcceptEach(payloads)) == Run(c, answers, AcceptAll(Mine(c, payloads)))
  {
    if payloads != [] {
      var front := payloads[..|payloads| - 1];
      OthersAreIgnored(c, answers, front);
      assert AcceptEach(payloads)[..|payloads| - 1] == AcceptEach(front);
      var mine := Mine(c, payloads);
      if mine != Mine(c, front) {
        assert mine[..|mine| - 1] == Mine(c, front);
        assert AcceptAll(mine)[..|mine| - 1] == AcceptAll(Mine(c, front));
      }
    }
  }

  /** Both ends together: nothing dropped, nothing lost on the way, so delivered plus buffered is everything sent. */
  lemma {:induction false} NothingIsLost(c: Config, answers: seq<bool>, ops: seq<Op>)
    requires Run(c, answers, ops).dropped == 0
    ensures var s, r := Run(c, answers, ops), Run(c, [], AcceptAll(Run(c, answers, ops).wire));
            && !r.degraded && r.delivered + Data(s.bufferedFrames) == Data(s.issued)
            && (!s.disposed && !s.degraded ==> r.delivered + Data(s.bufferedFrames) == SentBuffers(ops))
  {
    hide Run, Leading, SentBuffers, AcceptAll;
    RunKeeps(c, answers, ops);
    NothingDropped(c, answers, ops);
    IssuedIsSent(c, answers, ops);
    var s := Run(c, answers, ops);
    InOrderChannel(c, s.wire, s.issued);
    assert s.issued[..|s.wire|] == s.wire;
    assert forall i :: 0 <= i < |s.wire| ==> s.wire[i] == s.issued[i];
    AllLeading(s.wire);
    DataConcat(s.wire, s.bufferedFrames);
  }

  lemma {:induction false} DataConcat(a: seq<Frame>, b: seq<Frame>)
    ensures Data(a) + Data(b) == Data(a + b)
  {
  }

  lemma {:induction false} AllLeading(frames: seq<Frame>)
    requires forall i :: 0 <= i < |frames| ==> frames[i].seqNo == i + 1
    ensures Leading(frames) == |frames|
  {
    if frames != [] {
      AllLeading(frames[..|frames| - 1]);
    }
  }

  // ---------- the closure itself

  /** The protocol object: the closure's variables are its fields. */
  class RelayProtocol {
    const config: Config
    var disposed: bool
    var degraded: bool
    var seqNo: nat
    var inboundSeq: int
    var timerArmed: bool
    var bufferedFrames: seq<Frame>

    /** What `sendFrame` will answer. It does not call back into the protocol. */
    var answers: seq<bool>

    ghost var issued: seq<Frame>
    ghost var wire: seq<Frame>
    ghost var dropped: nat
    ghost var delivered: seq<Bytes>

    /** The counts reported through onBufferedFrameTimeout, and the gaps reported through onFrameGap. */
    var reports: seq<nat>
    var gaps: seq<(int, int)>

    ghost function View(): State
      reads this
    {
      State(disposed, degraded, seqNo, inboundSeq, timerArmed, bufferedFrames, answers, issued, wire, dropped,
            delivered)
    }

    constructor (config: Config, answers: seq<bool>)
      ensures View() == Init(answers) && this.config == config && reports == [] && gaps == []
    {
      this.config := config;
      disposed, degraded, timerArmed := false, false, false;
      seqNo, inboundSeq := 0, 0;
      bufferedFrames := [];
      this.answers := answers;
      issued, wire, dropped, delivered := [], [], 0, [];
      reports, gaps := [], [];
    }

    method StartBufferedFrameTimer()
      modifies this`timerArmed
      ensures View() == ArmTimer(config, old(View()))
    {
      if timerArmed || |bufferedFrames| == 0 {
        return;
      }
      if !config.hasTimeout {
        return;
      }
      timerArmed := true;
    }

    /** The timer's callback. */
    method TimerFires()
      modifies this
      ensures View() == Apply(config, old(View()), Op.TimerFires)
      ensures reports == if old(timerArmed) then old(reports) + [|old(bufferedFrames)|] else old(reports)
      ensures gaps == old(gaps)
    {
      if !timerArmed {
        return;
      }
      timerArmed := false;
      var timedOutCount := |bufferedFrames|;
      dropped := dropped + |bufferedFrames|;
      bufferedFrames := [];
      reports := reports + [timedOutCount];
    }

    method BufferFrame(frame: Frame)
      modifies this
      ensures View() == Buffered(config, old(View()), frame)
      ensures reports == if |old(bufferedFrames)| < config.maxBufferedFrames then old(reports)
                         else old(reports) + [|old(bufferedFrames)| + 1]
      ensures gaps == old(gaps)
    {
      if |bufferedFrames| >= config.maxBufferedFrames {
        var droppedCount := |bufferedFrames| + 1;
        bufferedFrames := [];
        timerArmed := false;
        dropped := dropped + droppedCount;
        reports := reports + [droppedCount];
        return;
      }
      bufferedFrames := bufferedFrames + [frame];
      StartBufferedFrameTimer();
    }

    method TrySendFrame(frame: Frame) returns (sent: bool)
      modifies this`answers, this`wire
      ensures sent <==> !degraded && Accepts(old(View()))
      ensures View() == if degraded then old(View())
                        else if sent then Asked(old(View())).(wire := old(wire) + [frame]) else Asked(old(View()))
    {
      if degraded {
        return false;
      }
      if answers == [] {
        return false;
      }
      sent := answers[0];
      answers := answers[1..];
      if sent {
        wire := wire + [frame];
      }
    }

    /** True when the buffer has just been emptied by sending. */
    method FlushPendingFrames() returns (flushed: bool)
      modifies this`answers, this`wire, this`bufferedFrames, this`timerArmed
      ensures View() == Apply(config, old(View()), Flush)
      ensures flushed <==> old(!disposed && !degraded && bufferedFrames != []) && bufferedFrames == []
    {
      if disposed || degraded || |bufferedFrames| == 0 {
        return false;
      }
      while |bufferedFrames| > 0
        invariant !disposed && !degraded
        invariant FlushLoop(config, View()) == FlushLoop(config, old(View()))
        decreases |bufferedFrames|
      {
        var frame := bufferedFrames[0];
        var sent := TrySendFrame(frame);
        if !sent {
          StartBufferedFrameTimer();
          return false;
        }
        bufferedFrames := bufferedFrames[1..];
      }
      timerArmed := false;
      return true;
    }

    method DropBufferedFrames() returns (droppedCount: nat)
      modifies this
      ensures View() == Apply(config, old(View()), Drop) && droppedCount == |old(bufferedFrames)|
      ensures reports == old(reports) && gaps == old(gaps)
    {
      droppedCount := |bufferedFrames|;
      bufferedFrames := [];
      timerArmed := false;
      dropped := dropped + droppedCount;
    }

    method MarkDegraded()
      modifies this
      ensures View() == Apply(config, old(View()), Op.MarkDegraded)
      ensures reports == old(reports) && gaps == old(gaps)
    {
      if degraded {
        return;
      }
      degraded := true;
      var _ := DropBufferedFrames();
    }

    method Send(data: Bytes)
      modifies this
      ensures View() == Apply(config, old(View()), Op.Send(data))
      ensures gaps == old(gaps)
      // An overflow is reported, with everything it throws away; and nothing else is.
      ensures reports == if !old(Overflows(config, View())) then old(reports)
                         else old(reports) + [|old(bufferedFrames)| + 1]
    {
      if disposed {
        return;
      }
      if degraded {
        return;
      }
      seqNo := seqNo + 1;
      var frame := Frame(config.bridgeSessionId, seqNo, data);
      issued := issued + [frame];
      if |bufferedFrames| > 0 {
        BufferFrame(frame);
        var _ := FlushPendingFrames();
        return;
      }
      var sent := TrySendFrame(frame);
      if !sent {
        BufferFrame(frame);
      }
    }

    method AcceptPayload(payload: Payload)
      modifies this
      ensures View() == Apply(config, old(View()), Op.Accept(payload))
      ensures reports == old(reports)
      // A gap is reported exactly when it degrades the adapter, with the number expected.
      ensures gaps == if degraded && !old(degraded) then old(gaps) + [(payload.frame.seqNo, old(inboundSeq) + 1)]
                      else old(gaps)
    {
      if disposed || degraded || payload.OtherPayload? || payload.frame.bridgeSessionId != config.bridgeSessionId {
        return;
      }
      var expectedSeq := inboundSeq + 1;
      if payload.frame.seqNo <= inboundSeq {
        return;
      }
      if payload.frame.seqNo != expectedSeq {
        MarkDegraded();
        gaps := gaps + [(payload.frame.seqNo, expectedSeq)];
        return;
      }
      inboundSeq := payload.frame.seqNo;
      delivered := delivered + [payload.frame.data];
    }

    method Dispose()
      modifies this
      ensures View() == Apply(config, old(View()), Op.Dispose)
      ensures reports == old(reports) && gaps == old(gaps)
    {
      disposed := true;
      dropped := dropped + |bufferedFrames|;
      bufferedFrames := [];
      timerArmed := false;
    }
  }
}
