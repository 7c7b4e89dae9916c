/**
 The sender together with a lossy link and a receiver: a frame handed to `sendFrame` may be taken by the
 link, frames in flight arrive in order until the link is lost, and the link only comes back with a replay.
 The receiver keeps frames in order, ignores those it has, and acknowledges a message only once it holds
 every frame of the messages up to it.
 */
module AckRelayNetwork {
  import opened Wrappers
  import opened AckRelayFifo
  import opened AckRelayMachine

  datatype Net = Net(
    flight: seq<Frame>,   // taken by the link, not yet received
    got: seq<Frame>,      // kept by the receiver, in order of arrival
    gap: bool,            // the receiver saw a frame beyond the next one it needs
    linkUp: bool,
    taken: bool,          // the frame inside the current sendFrame call has been taken by the link
    highWater: nat,       // history: the largest sequence number the link ever took
    claimed: nat)         // the largest message number the receiver has acknowledged

  datatype World = World(sender: State, net: Net)

  datatype Act =
    | Sender(event: Event, take: bool)
    | Receive
    | LoseLink
    | Acknowledge(messageSeq: nat)

  function InitWorld(clock: int): World {
    World(Init(clock), Net([], [], false, true, false, 0, 0))
  }

  /** What the environment allows a sender event to do. */
  predicate Allowed(w: World, e: Event) {
    match e
    // The receiver's acknowledgements are truthful, however late they arrive.
    case Acked(ack) => ack <= w.net.claimed
    // A link that is up took what it accepted; what it refused it did not take.
    case EndData(accepted) => if accepted then w.net.linkUp ==> w.net.taken else Live(w.sender) ==> !w.net.taken
    case _ => true
  }

  function NetAfter(w: World, e: Event, take: bool): Net {
    var n := w.net;
    match e
    case BeginData =>
      if take && n.linkUp && NextFrame(w.sender.window.fifo).Some? then
        var frame := NextFrame(w.sender.window.fifo).value;
        n.(flight := n.flight + [frame], taken := true, highWater := Max(n.highWater, frame.seqNo))
      else n.(taken := false)
    case EndData(_) => n.(taken := false)
    case Replay => n.(linkUp := true)
    case _ => n
  }

  function WorldStep(lim: Limits, w: World, a: Act): Option<World> {
    match a
    case Sender(e, take) =>
      var s' := Step(lim, w.sender, e);
      if s'.Some? && Allowed(w, e) then Some(World(s'.value, NetAfter(w, e, take))) else None
    case Receive =>
      if w.net.flight == [] then None
      else
        var frame, n := w.net.flight[0], w.net.(flight := w.net.flight[1..]);
        Some(w.(net :=
          if frame.seqNo == |n.got| + 1 then n.(got := n.got + [frame])
          else if frame.seqNo <= |n.got| then n
          else n.(gap := true)))
    case LoseLink => Some(w.(net := w.net.(flight := [], linkUp := false)))
    case Acknowledge(m) =>
      if m <= |w.sender.window.reserved| && Through(w.sender.window.reserved, m) <= |w.net.got| then
        Some(w.(net := w.net.(claimed := Max(w.net.claimed, m))))
      else None
  }

  function WorldRun(lim: Limits, clock: int, acts: seq<Act>): Option<World> {
    if acts == [] then Some(InitWorld(clock))
    else
      var before := WorldRun(lim, clock, acts[..|acts| - 1]);
      if before.None? then None else WorldStep(lim, before.value, acts[|acts| - 1])
  }

  // ---------- frames and positions

  lemma {:induction false} FlattenPrefix(batches: seq<Batch>, k: nat)
    requires k <= |batches|
    ensures Flatten(batches[..k]) <= Flatten(batches)
  {
    if k == |batches| {
      assert batches[..k] == batches;
    } else {
      var shorter := batches[..|batches| - 1];
      FlattenPrefix(shorter, k);
      assert shorter[..k] == batches[..k];
    }
  }

  lemma {:induction false} ThroughStep(batches: seq<Batch>, k: nat)
    requires k < |batches|
    ensures Flatten(batches[..k + 1]) == Flatten(batches[..k]) + batches[k].frames
  {
    assert batches[..k + 1] == batches[..k] + [batches[k]];
    FlattenSnoc(batches[..k], batches[k]);
  }

  lemma {:induction false} ThroughMonotone(batches: seq<Batch>, i: nat, j: nat)
    requires i <= j <= |batches|
    ensures Through(batches, i) <= Through(batches, j)
    ensures i < j && batches[i].frames != [] ==> Through(batches, i) < Through(batches, j)
  {
    assert batches[..j][..i] == batches[..i];
    FlattenPrefix(batches[..j], i);
    if i < j {
      ThroughStep(batches, i);
      assert batches[..j][..i + 1] == batches[..i + 1];
      FlattenPrefix(batches[..j], i + 1);
    }
  }

  /** How many frames, counted from the very first, precede the one that goes out next. */
  function NextPos(w: Window): nat
    requires w.lastAckedMessageSeq + w.fifo.cursor <= |w.reserved|
  {
    Through(w.reserved, w.lastAckedMessageSeq + w.fifo.cursor)
    + if w.fifo.cursor < |w.fifo.entries| then w.fifo.entries[w.fifo.cursor].nextFrameIndex else 0
  }

  /** The next frame is the one at that position of all frames ever issued, and it stays within its message. */
  lemma {:induction false} NextFrameIsAt(w: Window)
    requires NumberingInv(w) && WindowInv(w) && w.fifo.cursor < |w.fifo.entries|
    ensures NextPos(w) < Through(w.reserved, w.lastAckedMessageSeq + w.fifo.cursor + 1) <= |Flatten(w.reserved)|
    ensures NextFrame(w.fifo) == Some(Flatten(w.reserved)[NextPos(w)])
    ensures NextFrame(w.fifo).value.seqNo == NextPos(w) + 1
  {
    var k := w.lastAckedMessageSeq + w.fifo.cursor;
    assert w.fifo.entries[w.fifo.cursor].batch == w.reserved[k];
    ThroughStep(w.reserved, k);
    FlattenPrefix(w.reserved, k + 1);
  }

  lemma {:induction false} NextPosAfterAccept(w: Window)
    requires WindowInv(w) && w.lastAckedMessageSeq <= |w.reserved| && w.fifo.cursor < |w.fifo.entries|
    ensures var w' := AfterAccepted(w, w.fifo.cursor);
            w'.lastAckedMessageSeq + w'.fifo.cursor <= |w'.reserved| && NextPos(w') == NextPos(w) + 1
  {
    var k := w.lastAckedMessageSeq + w.fifo.cursor;
    assert w.fifo.entries[w.fifo.cursor].batch == w.reserved[k];
    ThroughStep(w.reserved, k);
  }

  lemma {:induction false} NextPosAfterReserve(w: Window, batch: Batch)
    requires WindowInv(w) && w.lastAckedMessageSeq <= |w.reserved|
    ensures var w' := WindowReserve(w, batch);
            w'.lastAckedMessageSeq + w'.fifo.cursor <= |w'.reserved| && NextPos(w') == NextPos(w)
  {
    var w' := WindowReserve(w, batch);
    var k := w.lastAckedMessageSeq + w.fifo.cursor;
    assert w'.reserved[..k] == w.reserved[..k];
  }

  /** Releasing moves the next position only when it releases what is yet to be replayed, and then to the new head. */
  lemma {:induction false} NextPosAfterRelease(w: Window, ack: nat)
    requires NumberingInv(w) && WindowInv(w)
    requires w.lastAckedMessageSeq <= ack <= w.highestFullySentMessageSeq
    ensures var w' := WindowRelease(w, ack);
            && ack + w'.fifo.cursor <= |w.reserved|
            && NextPos(w') == Max(NextPos(w), Through(w.reserved, ack))
  {
    ReleasedCount(w, ack);
    if w.fifo.cursor < ack - w.lastAckedMessageSeq {
      NextPosBehindRelease(w, ack);
    } else {
      NextPosAheadOfRelease(w, ack);
    }
  }

  lemma {:induction false} NextPosBehindRelease(w: Window, ack: nat)
    requires NumberingInv(w) && WindowInv(w)
    requires w.lastAckedMessageSeq + w.fifo.cursor < ack <= |w.reserved|
    requires CoveredBy(w.fifo.entries, ack) == ack - w.lastAckedMessageSeq
    ensures NextPos(w) < Through(w.reserved, ack) == NextPos(WindowRelease(w, ack))
  {
    var w' := WindowRelease(w, ack);
    StartsAfresh(w, ack);
    assert NextPos(w') == Through(w.reserved, ack);
    hide *;
    NextFrameIsAt(w);
    ThroughMonotone(w.reserved, w.lastAckedMessageSeq + w.fifo.cursor + 1, ack);
  }

  /** What is left after a release beyond the cursor has not been sent yet. */
  lemma {:induction false} StartsAfresh(w: Window, ack: nat)
    requires WindowInv(w) && w.lastAckedMessageSeq + w.fifo.cursor < ack <= |w.reserved|
    requires CoveredBy(w.fifo.entries, ack) == ack - w.lastAckedMessageSeq
    ensures var w' := WindowRelease(w, ack);
            && w'.fifo.cursor == 0 && w'.lastAckedMessageSeq == ack && w'.reserved == w.reserved
            && (|w'.fifo.entries| > 0 ==> w'.fifo.entries[0].nextFrameIndex == 0)
  {
    hide CoveredBy, SumBytes;
  }

  lemma {:induction false} NextPosAheadOfRelease(w: Window, ack: nat)
    requires WindowInv(w) && w.lastAckedMessageSeq <= ack <= w.lastAckedMessageSeq + w.fifo.cursor <= |w.reserved|
    requires CoveredBy(w.fifo.entries, ack) == ack - w.lastAckedMessageSeq
    ensures NextPos(w) == NextPos(WindowRelease(w, ack)) >= Through(w.reserved, ack)
  {
    ThroughMonotone(w.reserved, ack, w.lastAckedMessageSeq + w.fifo.cursor);
  }

  // ---------- what is in flight

  function Held(held: nat, seqNo: nat): nat {
    if seqNo == held + 1 then seqNo else held
  }

  /** What the receiver will hold once everything in flight has arrived. */
  function HeldAfter(held: nat, flight: seq<Frame>): (h: nat)
    ensures h >= held
    decreases |flight|
  {
    if flight == [] then held else HeldAfter(Held(held, flight[0].seqNo), flight[1..])
  }

  predicate ArrivesWithoutGap(held: nat, flight: seq<Frame>)
    decreases |flight|
  {
    flight == [] ||
    (flight[0].seqNo <= held + 1 && ArrivesWithoutGap(Held(held, flight[0].seqNo), flight[1..]))
  }

  lemma {:induction false} OneMoreInFlight(held: nat, flight: seq<Frame>, frame: Frame)
    requires ArrivesWithoutGap(held, flight) && frame.seqNo <= HeldAfter(held, flight) + 1
    ensures ArrivesWithoutGap(held, flight + [frame])
    ensures HeldAfter(held, flight + [frame]) == Held(HeldAfter(held, flight), frame.seqNo)
    decreases |flight|
  {
    if flight == [] {
      assert flight + [frame] == [frame];
    } else {
      assert (flight + [frame])[1..] == flight[1..] + [frame];
      OneMoreInFlight(Held(held, flight[0].seqNo), flight[1..], frame);
    }
  }

  // ---------- the invariant of the whole system

  ghost predicate Genuine(frame: Frame, issued: seq<Frame>) {
    1 <= frame.seqNo <= |issued| && frame == issued[frame.seqNo - 1]
  }

  ghost predicate ReceiverInv(w: Window, n: Net) {
    var issued := Flatten(w.reserved);
    && !n.gap
    && n.got <= issued
    && |n.got| <= n.highWater <= |issued|
    && (forall f :: f in n.flight ==> Genuine(f, issued) && f.seqNo <= n.highWater)
    && ArrivesWithoutGap(|n.got|, n.flight)
  }

  /** Nothing is released before the receiver holds it. */
  ghost predicate AckedIsHeld(w: Window, n: Net)
    requires w.lastAckedMessageSeq <= |w.reserved|
  {
    && Through(w.reserved, w.lastAckedMessageSeq) <= |n.got|
    && n.claimed <= |w.reserved|
    && Through(w.reserved, n.claimed) <= |n.got|
  }

  predicate FrameTaken(s: State, n: Net) {
    n.taken && s.inCall.SendingData?
  }

  /** With the link up, the next frame is at most one beyond what the receiver will hold. */
  ghost predicate LinkInv(s: State, n: Net)
    requires NumberingInv(s.window) && WindowInv(s.window)
  {
    var next := NextPos(s.window);
    n.linkUp ==> HeldAfter(|n.got|, n.flight) >= if FrameTaken(s, n) then next + 1 else next
  }

  /** A message the link took completely has been counted as fully sent, or is being counted right now. */
  ghost predicate SentInv(s: State, n: Net)
    requires NumberingInv(s.window) && WindowInv(s.window)
  {
    var h := s.window.highestFullySentMessageSeq;
    h < |s.window.reserved| ==>
      || n.highWater < Through(s.window.reserved, h + 1)
      || (FrameTaken(s, n) && n.highWater == Through(s.window.reserved, h + 1) == NextPos(s.window) + 1)
  }

  ghost predicate NoFalseAlarm(s: State) {
    s.fault.Some? ==> s.fault.value.reason != FutureAck
  }

  ghost predicate WorldInv(lim: Limits, w: World) {
    && Inv(lim, w.sender)
    && ReceiverInv(w.sender.window, w.net)
    && AckedIsHeld(w.sender.window, w.net)
    && NoFalseAlarm(w.sender)
    && (Live(w.sender) ==> LinkInv(w.sender, w.net) && SentInv(w.sender, w.net))
  }

  // ---------- every step keeps it

  lemma {:induction false} ReceiveKeeps(lim: Limits, w: World)
    requires WorldInv(lim, w) && w.net.flight != []
    ensures WorldInv(lim, WorldStep(lim, w, Receive).value)
  {
    hide Inv, Through, NextPos, Flatten;
    var n, n' := w.net, WorldStep(lim, w, Receive).value.net;
    var frame, issued := n.flight[0], Flatten(w.sender.window.reserved);
    assert frame in n.flight && Genuine(frame, issued);
    assert forall f :: f in n'.flight ==> f in n.flight;
    assert |n'.got| == Held(|n.got|, frame.seqNo);
  }

  /** The frame being sent is the next one the receiver needs, or one it already has or will have. */
  lemma {:induction false} NextFrameFits(s: State, n: Net)
    requires NumberingInv(s.window) && WindowInv(s.window) && s.window.fifo.cursor < |s.window.fifo.entries|
    requires ReceiverInv(s.window, n) && LinkInv(s, n) && n.linkUp
    ensures NextFrame(s.window.fifo).Some?
    ensures var frame := NextFrame(s.window.fifo).value;
            && frame.seqNo == NextPos(s.window) + 1
            && frame.seqNo <= HeldAfter(|n.got|, n.flight) + 1
            && Genuine(frame, Flatten(s.window.reserved))
  {
    NextFrameIsAt(s.window);
  }

  lemma {:induction false} BeginDataKeepsReceiver(lim: Limits, w: World, take: bool)
    requires WorldInv(lim, w) && Step(lim, w.sender, BeginData).Some?
    ensures ReceiverInv(w.sender.window, NetAfter(w, BeginData, take))
    ensures LinkInv(Step(lim, w.sender, BeginData).value, NetAfter(w, BeginData, take))
  {
    var n' := NetAfter(w, BeginData, take);
    if take && w.net.linkUp {
      NextFrameFits(w.sender, w.net);
      var frame := NextFrame(w.sender.window.fifo).value;
      OneMoreInFlight(|w.net.got|, w.net.flight, frame);
      assert forall f :: f in n'.flight ==> f in w.net.flight || f == frame;
    }
  }

  lemma {:induction false} NextWithinUnsent(w: Window)
    requires NumberingInv(w) && WindowInv(w) && w.fifo.cursor < |w.fifo.entries|
    ensures NextFrame(w.fifo).Some? && NextFrame(w.fifo).value.seqNo == NextPos(w) + 1
    ensures w.highestFullySentMessageSeq < |w.reserved| ==>
              NextPos(w) + 1 <= Through(w.reserved, w.highestFullySentMessageSeq + 1)
  {
    NextFrameIsAt(w);
    if w.highestFullySentMessageSeq < |w.reserved| {
      ThroughMonotone(w.reserved, w.lastAckedMessageSeq + w.fifo.cursor + 1, w.highestFullySentMessageSeq + 1);
    }
  }

  lemma {:induction false} BeginDataKeepsSent(lim: Limits, w: World, take: bool)
    requires WorldInv(lim, w) && Step(lim, w.sender, BeginData).Some?
    ensures SentInv(Step(lim, w.sender, BeginData).value, NetAfter(w, BeginData, take))
  {
    NextWithinUnsent(w.sender.window);
  }

  /** Completing a message raises the fully-sent mark before any acknowledgement of it can be looked at. */
  lemma {:induction false} AcceptKeepsSent(s: State, n: Net)
    requires NumberingInv(s.window) && WindowInv(s.window) && s.window.fifo.cursor < |s.window.fifo.entries|
    requires SentInv(s, n)
    ensures var w' := AfterAccepted(s.window, s.window.fifo.cursor);
            w'.highestFullySentMessageSeq < |w'.reserved| ==>
              n.highWater < Through(w'.reserved, w'.highestFullySentMessageSeq + 1)
  {
    hide Flatten, SumBytes;
    var w, w' := s.window, AfterAccepted(s.window, s.window.fifo.cursor);
    var k, h := w.lastAckedMessageSeq + w.fifo.cursor, w.highestFullySentMessageSeq;
    assert w.fifo.entries[w.fifo.cursor].batch == w.reserved[k];
    ThroughStep(w.reserved, k);
    NextFrameIsAt(w);
    var h' := w'.highestFullySentMessageSeq;
    if h' < |w.reserved| {
      ThroughMonotone(w.reserved, k + 1, h + 1);
      ThroughMonotone(w.reserved, h + 1, h' + 1);
    }
  }

  lemma {:induction false} AcceptKeepsLink(lim: Limits, s: State, n: Net)
    requires NumberingInv(s.window) && WindowInv(s.window) && s.window.fifo.cursor < |s.window.fifo.entries|
    requires LinkInv(s, n) && SentInv(s, n) && s.inCall.SendingData? && (n.linkUp ==> n.taken)
    ensures var s' := s.(inCall := Idle, window := AfterAccepted(s.window, s.window.fifo.cursor));
            var n' := n.(taken := false);
            NumberingInv(s'.window) && WindowInv(s'.window) && LinkInv(s', n') && SentInv(s', n')
  {
    hide Flatten, SumBytes, NumberedBatches, FifoShape;
    AfterAcceptedKeeps(s.window);
    NextPosAfterAccept(s.window);
    AcceptKeepsSent(s, n);
  }

  lemma {:induction false} EndDataKeeps(lim: Limits, w: World, accepted: bool)
    requires LimitsOk(lim) && WorldInv(lim, w)
    requires Step(lim, w.sender, EndData(accepted)).Some? && Allowed(w, EndData(accepted))
    requires Inv(lim, Step(lim, w.sender, EndData(accepted)).value)
    ensures WorldInv(lim, World(Step(lim, w.sender, EndData(accepted)).value, NetAfter(w, EndData(accepted), false)))
  {
    if accepted && Live(w.sender) {
      EndAcceptedKeeps(lim, w);
    } else {
      EndRefusedKeeps(lim, w, accepted);
    }
  }

  lemma {:induction false} EndAcceptedKeeps(lim: Limits, w: World)
    requires WorldInv(lim, w) && Live(w.sender) && w.sender.inCall.SendingData? && (w.net.linkUp ==> w.net.taken)
    requires w.sender.window.fifo.cursor < |w.sender.window.fifo.entries|
    requires Inv(lim, Step(lim, w.sender, EndData(true)).value)
    ensures WorldInv(lim, World(Step(lim, w.sender, EndData(true)).value, w.net.(taken := false)))
  {
    var s, n := w.sender, w.net;
    EndDataAccepted(lim, s);
    AcceptKeepsLink(lim, s, n);
    hide Step, Flatten, SumBytes, FifoShape, NumberedBatches, Alternating, FlowInv, AckInv;
  }

  lemma {:induction false} EndRefusedKeeps(lim: Limits, w: World, accepted: bool)
    requires WorldInv(lim, w) && w.sender.inCall.SendingData? && (accepted ==> !Live(w.sender))
    requires Live(w.sender) ==> !w.net.taken
    requires Inv(lim, w.sender.(inCall := Idle))
    ensures WorldInv(lim, World(Step(lim, w.sender, EndData(accepted)).value, w.net.(taken := false)))
  {
    EndDataRefused(lim, w.sender, accepted);
    hide Step, Flatten, SumBytes, FifoShape, NumberedBatches, Alternating, FlowInv, AckInv;
  }

  /** A truthful acknowledgement is never taken for one of a message not fully sent yet. */
  lemma {:induction false} TruthfulAckIsNotFuture(lim: Limits, w: World, ack: nat)
    requires WorldInv(lim, w) && Live(w.sender) && w.sender.inCall.Idle? && ack <= w.net.claimed
    ensures ack <= w.sender.window.highestFullySentMessageSeq
  {
    var win := w.sender.window;
    if win.highestFullySentMessageSeq < ack {
      ThroughMonotone(win.reserved, win.highestFullySentMessageSeq + 1, w.net.claimed);
    }
  }

  lemma {:induction false} ReleaseKeepsLink(s: State, n: Net, ack: nat, flow: Flow)
    requires NumberingInv(s.window) && WindowInv(s.window) && LinkInv(s, n) && SentInv(s, n) && s.inCall.Idle?
    requires s.window.lastAckedMessageSeq <= ack <= s.window.highestFullySentMessageSeq
    requires Through(s.window.reserved, ack) <= |n.got|
    ensures var s' := s.(window := WindowRelease(s.window, ack), flow := flow);
            NumberingInv(s'.window) && WindowInv(s'.window) && LinkInv(s', n) && SentInv(s', n)
  {
    WindowReleaseKeeps(s.window, ack);
    NextPosAfterRelease(s.window, ack);
    MovedOnKeepsLink(s, n, WindowRelease(s.window, ack), flow);
    hide *;
  }

  /** Moving the next position on to something the receiver holds does no harm. */
  lemma {:induction false} MovedOnKeepsLink(s: State, n: Net, w: Window, flow: Flow)
    requires NumberingInv(s.window) && WindowInv(s.window) && LinkInv(s, n) && SentInv(s, n) && s.inCall.Idle?
    requires NumberingInv(w) && WindowInv(w) && w.reserved == s.window.reserved
    requires w.highestFullySentMessageSeq == s.window.highestFullySentMessageSeq
    requires NextPos(w) <= Max(NextPos(s.window), |n.got|)
    ensures LinkInv(s.(window := w, flow := flow), n) && SentInv(s.(window := w, flow := flow), n)
  {
    hide NumberingInv, WindowInv, NextPos, Through, HeldAfter;
  }

  lemma {:induction false} ReleaseKeeps(lim: Limits, w: World, ack: nat, flow: Flow)
    requires WorldInv(lim, w) && Live(w.sender) && w.sender.inCall.Idle? && ack <= w.net.claimed
    requires w.sender.window.lastAckedMessageSeq <= ack <= w.sender.window.highestFullySentMessageSeq
    requires Inv(lim, w.sender.(window := WindowRelease(w.sender.window, ack), flow := flow))
    ensures WorldInv(lim, w.(sender := w.sender.(window := WindowRelease(w.sender.window, ack), flow := flow)))
  {
    ThroughMonotone(w.sender.window.reserved, ack, w.net.claimed);
    ReleaseKeepsLink(w.sender, w.net, ack, flow);
  }

  lemma {:induction false} AckedKeeps(lim: Limits, w: World, ack: nat)
    requires LimitsOk(lim) && WorldInv(lim, w) && Step(lim, w.sender, Acked(ack)).Some? && ack <= w.net.claimed
    requires Inv(lim, Step(lim, w.sender, Acked(ack)).value)
    ensures WorldInv(lim, World(Step(lim, w.sender, Acked(ack)).value, w.net))
  {
    TruthfulAckIsNotFuture(lim, w, ack);
    if ack > w.sender.window.lastAckedMessageSeq {
      ReleaseKeeps(lim, w, ack, Released(lim, w.sender, ack).flow);
    }
  }

  lemma {:induction false} ReserveKeepsReceiver(w: Window, n: Net, batch: Batch)
    requires w.lastAckedMessageSeq <= |w.reserved| && ReceiverInv(w, n) && AckedIsHeld(w, n)
    ensures ReceiverInv(WindowReserve(w, batch), n) && AckedIsHeld(WindowReserve(w, batch), n)
  {
    FlattenSnoc(w.reserved, batch);
    assert forall k :: 0 <= k <= |w.reserved| ==> (w.reserved + [batch])[..k] == w.reserved[..k];
    assert forall f :: f in n.flight ==> Genuine(f, Flatten(w.reserved)) ==> Genuine(f, Flatten(w.reserved + [batch]));
  }

  lemma {:induction false} ReserveKeepsSent(lim: Limits, s: State, n: Net, batch: Batch)
    requires NumberingInv(s.window) && WindowInv(s.window) && ReceiverInv(s.window, n)
    requires LinkInv(s, n) && SentInv(s, n)
    requires Step(lim, s, Reserve(batch)).Some?
    requires var s' := Step(lim, s, Reserve(batch)).value; NumberingInv(s'.window) && WindowInv(s'.window)
    ensures LinkInv(Step(lim, s, Reserve(batch)).value, n) && SentInv(Step(lim, s, Reserve(batch)).value, n)
  {
    var w, w' := s.window, WindowReserve(s.window, batch);
    assert Step(lim, s, Reserve(batch)).value == s.(window := w', flow := FlowReserve(lim, s.flow, batch.outerBytes));
    hide Step, Expired, FlowReserve;
    NextPosAfterReserve(w, batch);
    var h := w.highestFullySentMessageSeq;
    FlattenSnoc(w.reserved, batch);
    if h < |w.reserved| {
      assert w'.reserved[..h + 1] == w.reserved[..h + 1];
    } else {
      assert w'.reserved[..h + 1] == w'.reserved;
    }
  }

  lemma {:induction false} ReserveKeeps(lim: Limits, w: World, batch: Batch)
    requires LimitsOk(lim) && WorldInv(lim, w) && Step(lim, w.sender, Reserve(batch)).Some?
    requires Inv(lim, Step(lim, w.sender, Reserve(batch)).value)
    ensures WorldInv(lim, World(Step(lim, w.sender, Reserve(batch)).value, w.net))
  {
    ReserveKeepsReceiver(w.sender.window, w.net, batch);
    ReserveKeepsSent(lim, w.sender, w.net, batch);
  }

  /** A replay starts again with the first frame that has not been acknowledged. */
  lemma {:induction false} ReplayIsBehind(w: Window)
    requires NumberingInv(w) && WindowInv(w)
    ensures var w' := w.(fifo := ResetReplay(w.fifo));
            && w'.lastAckedMessageSeq + w'.fifo.cursor <= |w'.reserved|
            && NextPos(w') == Through(w.reserved, w.lastAckedMessageSeq)
  {
  }

  lemma {:induction false} RewoundKeeps(lim: Limits, w: World)
    requires WorldInv(lim, w) && Live(w.sender) && w.sender.inCall.Idle?
    requires Inv(lim, w.sender.(window := w.sender.window.(fifo := ResetReplay(w.sender.window.fifo))))
    ensures WorldInv(lim, World(w.sender.(window := w.sender.window.(fifo := ResetReplay(w.sender.window.fifo))),
                                w.net.(linkUp := true)))
  {
    ReplayIsBehind(w.sender.window);
    hide Flatten, SumBytes, FifoShape, NumberedBatches, Alternating, FlowInv, AckInv, ResetReplay;
  }

  lemma {:induction false} ReplayKeeps(lim: Limits, w: World)
    requires LimitsOk(lim) && WorldInv(lim, w) && Step(lim, w.sender, Replay).Some?
    requires Inv(lim, Step(lim, w.sender, Replay).value)
    ensures WorldInv(lim, World(Step(lim, w.sender, Replay).value, NetAfter(w, Replay, false)))
  {
    ReplayEnabled(lim, w.sender);
    RewoundKeeps(lim, w);
    assert NetAfter(w, Replay, false) == w.net.(linkUp := true);
    hide *;
  }

  predicate TouchesWindow(e: Event) {
    e.BeginData? || e.EndData? || e.Replay? || e.Acked? || e.Reserve?
  }

  lemma {:induction false} OtherStepFrame(lim: Limits, s: State, e: Event)
    requires Step(lim, s, e).Some? && !TouchesWindow(e) && NoFalseAlarm(s)
    ensures var s' := Step(lim, s, e).value;
            && s'.window.reserved == s.window.reserved
            && s'.window.lastAckedMessageSeq == s.window.lastAckedMessageSeq
            && NoFalseAlarm(s')
            && (Live(s') ==> Live(s) && s'.window == s.window && s'.inCall.SendingData? == s.inCall.SendingData?)
  {
  }

  lemma {:induction false} OtherStepKeeps(lim: Limits, w: World, e: Event, take: bool)
    requires WorldInv(lim, w) && Step(lim, w.sender, e).Some? && !TouchesWindow(e)
    requires Inv(lim, Step(lim, w.sender, e).value)
    ensures WorldInv(lim, World(Step(lim, w.sender, e).value, NetAfter(w, e, take)))
  {
    OtherStepFrame(lim, w.sender, e);
    WorldInvTransfers(lim, w, Step(lim, w.sender, e).value);
  }

  lemma {:induction false} WorldInvTransfers(lim: Limits, w: World, s': State)
    requires WorldInv(lim, w) && Inv(lim, s') && NoFalseAlarm(s')
    requires s'.window.reserved == w.sender.window.reserved
    requires s'.window.lastAckedMessageSeq == w.sender.window.lastAckedMessageSeq
    requires Live(s') ==>
               && Live(w.sender) && s'.window == w.sender.window
               && s'.inCall.SendingData? == w.sender.inCall.SendingData?
    ensures WorldInv(lim, World(s', w.net))
  {
  }

  lemma {:induction false} BeginDataKeeps(lim: Limits, w: World, take: bool)
    requires WorldInv(lim, w) && Step(lim, w.sender, BeginData).Some?
    requires Inv(lim, Step(lim, w.sender, BeginData).value)
    ensures WorldInv(lim, World(Step(lim, w.sender, BeginData).value, NetAfter(w, BeginData, take)))
  {
    BeginDataKeepsReceiver(lim, w, take);
    BeginDataKeepsSent(lim, w, take);
  }

  lemma {:induction false} SenderStepKeeps(lim: Limits, w: World, e: Event, take: bool)
    requires LimitsOk(lim) && WorldInv(lim, w) && WorldStep(lim, w, Sender(e, take)).Some?
    ensures WorldInv(lim, WorldStep(lim, w, Sender(e, take)).value)
  {
    StepKeepsInv(lim, w.sender, e);
    if !TouchesWindow(e) {
      OtherStepKeeps(lim, w, e, take);
    } else {
      match e
      case BeginData => BeginDataKeeps(lim, w, take);
      case EndData(accepted) => EndDataKeeps(lim, w, accepted);
      case Replay => ReplayKeeps(lim, w);
      case Acked(ack) => AckedKeeps(lim, w, ack);
      case Reserve(batch) => ReserveKeeps(lim, w, batch);
    }
  }

  lemma {:induction false} WorldRunKeepsInv(lim: Limits, clock: int, acts: seq<Act>)
    requires LimitsOk(lim) && WorldRun(lim, clock, acts).Some?
    ensures WorldInv(lim, WorldRun(lim, clock, acts).value)
  {
    if acts != [] {
      WorldRunKeepsInv(lim, clock, acts[..|acts| - 1]);
      var w, a := WorldRun(lim, clock, acts[..|acts| - 1]).value, acts[|acts| - 1];
      match a
      case Sender(e, take) => SenderStepKeeps(lim, w, e, take);
      case Receive => ReceiveKeeps(lim, w);
      case LoseLink =>
      case Acknowledge(_) =>
    }
  }

  // ---------- main results

  /**
   For every run of sends, refusals, truthful acknowledgements and link losses: the receiver never sees a gap, what it
   keeps is always the first frames issued, in order and each once, a batch leaves the replay buffer only after
   every one of its frames has been kept, and no truthful acknowledgement is ever treated as a fault.
   */
  lemma {:induction false} EndToEnd(lim: Limits, clock: int, acts: seq<Act>)
    requires LimitsOk(lim) && WorldRun(lim, clock, acts).Some?
    ensures var w := WorldRun(lim, clock, acts).value;
            var issued := Flatten(w.sender.window.reserved);
            && !w.net.gap
            && w.net.got <= issued
            && w.sender.window.lastAckedMessageSeq <= |w.sender.window.reserved|
            && Flatten(w.sender.window.reserved[..w.sender.window.lastAckedMessageSeq]) <= w.net.got
            && (w.sender.fault.Some? ==> w.sender.fault.value.reason != FutureAck)
  {
    WorldRunKeepsInv(lim, clock, acts);
    var w := WorldRun(lim, clock, acts).value;
    FlattenPrefix(w.sender.window.reserved, w.sender.window.lastAckedMessageSeq);
  }

  /** Every data frame handed over while the link is up is at most one beyond what the receiver holds or will hold. */
  lemma {:induction false} NoGapOnTheWire(lim: Limits, clock: int, acts: seq<Act>)
    requires LimitsOk(lim) && WorldRun(lim, clock, acts).Some?
    requires var w := WorldRun(lim, clock, acts).value; Step(lim, w.sender, BeginData).Some? && w.net.linkUp
    ensures var w := WorldRun(lim, clock, acts).value;
            NextFrame(w.sender.window.fifo).value.seqNo <= HeldAfter(|w.net.got|, w.net.flight) + 1
  {
    WorldRunKeepsInv(lim, clock, acts);
    var w := WorldRun(lim, clock, acts).value;
    NextFrameFits(w.sender, w.net);
  }

  function Continue(lim: Limits, w: World, acts: seq<Act>): Option<World>
    decreases |acts|
  {
    if acts == [] then Some(w)
    else
      var next := WorldStep(lim, w, acts[0]);
      if next.None? then None else Continue(lim, next.value, acts[1..])
  }

  lemma {:induction false} ContinueConcat(lim: Limits, w: World, first: seq<Act>, second: seq<Act>)
    requires Continue(lim, w, first).Some?
    ensures Continue(lim, w, first + second) == Continue(lim, Continue(lim, w, first).value, second)
    decreases |first|
  {
    if first == [] {
      assert first + second == second;
    } else {
      assert (first + second)[1..] == first[1..] + second;
      ContinueConcat(lim, WorldStep(lim, w, first[0]).value, first[1..], second);
    }
  }

  /** Receiving whatever is in flight. */
  lemma {:induction false} ReceiveAll(lim: Limits, w: World) returns (acts: seq<Act>)
    requires WorldInv(lim, w)
    ensures Continue(lim, w, acts).Some?
    ensures var w' := Continue(lim, w, acts).value;
            w'.sender == w.sender && WorldInv(lim, w') && |w'.net.got| == HeldAfter(|w.net.got|, w.net.flight)
    decreases |w.net.flight|
  {
    acts := [];
    if w.net.flight != [] {
      var frame := w.net.flight[0];
      assert frame in w.net.flight;
      ReceiveKeeps(lim, w);
      var next := WorldStep(lim, w, Receive).value;
      assert |next.net.got| == Held(|w.net.got|, frame.seqNo);
      var rest := ReceiveAll(lim, next);
      acts := [Receive] + rest;
      assert acts[1..] == rest;
    }
  }

  ghost predicate ReadyToSend(lim: Limits, w: World) {
    && WorldInv(lim, w) && Live(w.sender) && w.sender.inCall.Idle? && w.sender.acks.pending.None?
    && !Expired(lim, w.sender) && w.net.linkUp
  }

  /** One frame taken and accepted. */
  lemma {:induction false} SendOne(lim: Limits, w: World) returns (w': World)
    requires LimitsOk(lim) && ReadyToSend(lim, w) && w.sender.window.fifo.cursor < |w.sender.window.fifo.entries|
    ensures Continue(lim, w, [Sender(BeginData, true), Sender(EndData(true), true)]) == Some(w')
    ensures ReadyToSend(lim, w') && w'.sender.window.reserved == w.sender.window.reserved
    ensures NextPos(w'.sender.window) == NextPos(w.sender.window) + 1
  {
    var w1 := BeginOne(lim, w);
    w' := EndOne(lim, w, w1);
    hide *;
    assert [Sender(BeginData, true), Sender(EndData(true), true)][1..] == [Sender(EndData(true), true)];
    TwoActs(lim, w, Sender(BeginData, true), w1, Sender(EndData(true), true), w');
  }

  lemma {:induction false} TwoActs(lim: Limits, w: World, a: Act, w1: World, b: Act, w2: World)
    requires WorldStep(lim, w, a) == Some(w1) && WorldStep(lim, w1, b) == Some(w2)
    ensures Continue(lim, w, [a, b]) == Some(w2)
  {
    hide WorldStep;
    assert [a, b][1..] == [b] && [b][1..] == [];
    assert Continue(lim, w1, [b]) == Some(w2);
  }

  lemma {:induction false} BeginOne(lim: Limits, w: World) returns (w1: World)
    requires LimitsOk(lim) && ReadyToSend(lim, w) && w.sender.window.fifo.cursor < |w.sender.window.fifo.entries|
    ensures WorldStep(lim, w, Sender(BeginData, true)) == Some(w1) && WorldInv(lim, w1) && Live(w1.sender)
    ensures NextFrame(w.sender.window.fifo).Some?
    ensures w1.sender == w.sender.(inCall := SendingData(NextFrame(w.sender.window.fifo).value))
    ensures w1.net.linkUp == w.net.linkUp && w1.net.taken == w.net.linkUp
  {
    NextFrameIsAt(w.sender.window);
    w1 := WorldStep(lim, w, Sender(BeginData, true)).value;
    SenderStepKeeps(lim, w, BeginData, true);
    hide WorldInv, Expired;
  }

  lemma {:induction false} EndOne(lim: Limits, w: World, w1: World) returns (w': World)
    requires LimitsOk(lim) && ReadyToSend(lim, w) && w.sender.window.fifo.cursor < |w.sender.window.fifo.entries|
    requires WorldInv(lim, w1) && NextFrame(w.sender.window.fifo).Some?
    requires w1.sender == w.sender.(inCall := SendingData(NextFrame(w.sender.window.fifo).value))
    requires w1.net.linkUp == w.net.linkUp && w1.net.taken == w.net.linkUp
    ensures WorldStep(lim, w1, Sender(EndData(true), true)) == Some(w')
    ensures ReadyToSend(lim, w') && w'.sender.window.reserved == w.sender.window.reserved
    ensures NextPos(w'.sender.window) == NextPos(w.sender.window) + 1
  {
    w' := WorldStep(lim, w1, Sender(EndData(true), true)).value;
    SenderStepKeeps(lim, w1, EndData(true), true);
    NextPosAfterAccept(w.sender.window);
  }

  lemma {:induction false} SendAll(lim: Limits, w: World) returns (acts: seq<Act>, w': World)
    requires LimitsOk(lim) && ReadyToSend(lim, w)
    ensures Continue(lim, w, acts) == Some(w')
    ensures WorldInv(lim, w') && w'.sender.window.reserved == w.sender.window.reserved
    ensures w'.net.got == Flatten(w'.sender.window.reserved)
    decreases |Flatten(w.sender.window.reserved)| - NextPos(w.sender.window)
  {
    var win := w.sender.window;
    if win.fifo.cursor < |win.fifo.entries| {
      NextFrameIsAt(win);
      hide *;
      var w1 := SendOne(lim, w);
      var rest;
      rest, w' := SendAll(lim, w1);
      acts := [Sender(BeginData, true), Sender(EndData(true), true)] + rest;
      ContinueConcat(lim, w, [Sender(BeginData, true), Sender(EndData(true), true)], rest);
    } else {
      acts, w' := ReceiveTheRest(lim, w);
    }
  }

  lemma {:induction false} ReceiveTheRest(lim: Limits, w: World) returns (acts: seq<Act>, w': World)
    requires LimitsOk(lim) && ReadyToSend(lim, w) && w.sender.window.fifo.cursor >= |w.sender.window.fifo.entries|
    ensures Continue(lim, w, acts) == Some(w')
    ensures WorldInv(lim, w') && w'.sender.window.reserved == w.sender.window.reserved
    ensures w'.net.got == Flatten(w'.sender.window.reserved)
  {
    NothingLeft(lim, w);
    acts := ReceiveAll(lim, w);
    w' := Continue(lim, w, acts).value;
    hide *;
    HasEverything(lim, w');
  }

  /** Everything has been handed over, and a link that is up has taken it. */
  lemma {:induction false} NothingLeft(lim: Limits, w: World)
    requires ReadyToSend(lim, w) && w.sender.window.fifo.cursor >= |w.sender.window.fifo.entries|
    ensures HeldAfter(|w.net.got|, w.net.flight) >= |Flatten(w.sender.window.reserved)|
  {
    var win := w.sender.window;
    assert win.reserved[..|win.reserved|] == win.reserved;
    hide Flatten, SumBytes, Expired, FlowInv, Alternating, NumberedBatches;
  }

  lemma {:induction false} HasEverything(lim: Limits, w: World)
    requires WorldInv(lim, w) && |w.net.got| >= |Flatten(w.sender.window.reserved)|
    ensures w.net.got == Flatten(w.sender.window.reserved)
  {
  }

  /**
   Recovery: whatever has been lost so far, a replay over a working link leads to a receiver that holds every frame of
   every message ever admitted, provided the sender is alive, owes no acknowledgement and is within its grace period.
   */
  lemma {:induction false} ReplayRecovers(lim: Limits, w: World) returns (acts: seq<Act>, w': World)
    requires LimitsOk(lim) && WorldInv(lim, w) && Live(w.sender) && w.sender.inCall.Idle?
    requires w.sender.acks.pending.None? && !Expired(lim, w.sender)
    ensures acts != [] && acts[0] == Sender(Replay, false)
    ensures Continue(lim, w, acts) == Some(w') && w'.sender.window.reserved == w.sender.window.reserved
    ensures w'.net.got == Flatten(w.sender.window.reserved)
  {
    var w1 := WorldStep(lim, w, Sender(Replay, false)).value;
    SenderStepKeeps(lim, w, Replay, false);
    var rest;
    rest, w' := SendAll(lim, w1);
    acts := [Sender(Replay, false)] + rest;
    assert acts[1..] == rest;
  }

  // ---------- the two environment assumptions are needed

  /** A link that comes back without a replay: the next frame is received beyond a gap exactly when some were lost. */
  lemma {:induction false} ResumeWithoutReplay(lim: Limits, w: World)
    requires LimitsOk(lim) && WorldInv(lim, w) && Live(w.sender) && w.sender.inCall.Idle? && w.sender.acks.pending.None?
    requires !Expired(lim, w.sender) && w.net.flight == []
    requires w.sender.window.fifo.cursor < |w.sender.window.fifo.entries|
    ensures var resumed := w.(net := w.net.(linkUp := true));
            var after := Continue(lim, resumed, [Sender(BeginData, true), Receive]);
            after.Some? && (after.value.net.gap <==> |w.net.got| < NextPos(w.sender.window))
  {
    NextFrameIsAt(w.sender.window);
    var resumed := w.(net := w.net.(linkUp := true));
    var acts := [Sender(BeginData, true), Receive];
    assert acts[1..] == [Receive];
    var sending := WorldStep(lim, resumed, acts[0]).value;
    assert sending.net.flight == [NextFrame(w.sender.window.fifo).value];
  }

  /** What the code does when a replay is requested inside `sendFrame`: the captured batch is still the one bumped. */
  function ReplayInsideSend(w: Window): Window
    requires w.fifo.cursor < |w.fifo.entries|
  {
    AfterAccepted(w.(fifo := ResetReplay(w.fifo)), w.fifo.cursor)
  }

  /** It leaves the queue well formed exactly when the frame in flight belongs to the oldest retained message. */
  lemma {:induction false} ReplayInsideSendKeepsShape(w: Window)
    requires NumberingInv(w) && WindowInv(w) && w.fifo.cursor < |w.fifo.entries|
    ensures FifoShape(ReplayInsideSend(w).fifo) <==> w.fifo.cursor == 0
  {
    var c, q := w.fifo.cursor, ReplayInsideSend(w).fifo;
    assert forall i :: 0 <= i < |w.fifo.entries| && i != c ==> q.entries[i] == Entry(w.fifo.entries[i].batch, 0);
    assert q.entries[c] == Entry(w.fifo.entries[c].batch, 1);
    BatchesOfWindow(w);
  }

  /**
   Even then it skips the first retained frame, which is the frame in flight exactly when nothing retained
   had been sent before it.
   */
  lemma {:induction false} ReplayInsideSendSkipsAFrame(w: Window)
    requires NumberingInv(w) && WindowInv(w) && w.fifo.cursor < |w.fifo.entries| && w.fifo.cursor == 0
    ensures var w' := ReplayInsideSend(w);
            && w'.lastAckedMessageSeq + w'.fifo.cursor <= |w'.reserved|
            && NextPos(w') == Through(w.reserved, w.lastAckedMessageSeq) + 1
            && (NextPos(w) == Through(w.reserved, w.lastAckedMessageSeq) <==> w.fifo.entries[0].nextFrameIndex == 0)
  {
    var reset := w.(fifo := ResetReplay(w.fifo));
    ResetReplayKeeps(w);
    NextPosAfterAccept(reset);
  }

  /** The replay makes no difference exactly when there is nothing to rewind: no retained frame has been sent before. */
  lemma {:induction false} ReplayInsideSendIsHarmless(w: Window)
    requires NumberingInv(w) && WindowInv(w) && w.fifo.cursor < |w.fifo.entries|
    ensures ReplayInsideSend(w) == AfterAccepted(w, w.fifo.cursor)
       <==> w.fifo.cursor == 0 && w.fifo.entries[0].nextFrameIndex == 0
  {
    var c, q, q' := w.fifo.cursor, AfterAccepted(w, w.fifo.cursor).fifo, ReplayInsideSend(w).fifo;
    BatchesOfWindow(w);
    assert q'.entries[c].nextFrameIndex == 1 && q.entries[c].nextFrameIndex == w.fifo.entries[c].nextFrameIndex + 1;
    if c > 0 {
      assert q'.entries[0].nextFrameIndex == 0 && q.entries[0].nextFrameIndex == |w.fifo.entries[0].batch.frames|;
    } else if w.fifo.entries[0].nextFrameIndex == 0 {
      assert ResetReplay(w.fifo).entries == w.fifo.entries;
    }
  }

  /** Two one-frame messages: the first has been sent, and the second is inside `sendFrame`. */
  function SecondInside(a: Frame, b: Frame): Window {
    Window(Fifo([Entry(Batch(1, [a], 1, 0), 1), Entry(Batch(2, [b], 1, 0), 0)], 1),
           [Batch(1, [a], 1, 0), Batch(2, [b], 1, 0)], 3, 3, 1, 0)
  }

  /** A run that leads there: each message is admitted and sent before the next. */
  lemma {:induction false} SecondInsideIsReached(lim: Limits, a: Frame, b: Frame)
    requires LimitsOk(lim) && lim.replayBufferMaxBytes >= 2
    requires a.seqNo == 1 && b.seqNo == 2
    ensures var s := Run(lim, 0, [Reserve(Batch(1, [a], 1, 0)), BeginData, EndData(true), Reserve(Batch(2, [b], 1, 0)),
                                  BeginData]);
            s.Some? && s.value.window == SecondInside(a, b) && s.value.inCall == SendingData(b)
  {
    var first, second := Reserve(Batch(1, [a], 1, 0)), Reserve(Batch(2, [b], 1, 0));
    FirstIsSent(lim, a);
    var s3 := Run(lim, 0, [first, BeginData, EndData(true)]).value;
    SecondIsSending(lim, s3, a, b);
    hide *;
    var three := [first, BeginData, EndData(true)];
    RunSnoc(lim, 0, three, second);
    RunSnoc(lim, 0, three + [second], BeginData);
    assert three + [second] + [BeginData] == [first, BeginData, EndData(true), second, BeginData];
  }

  lemma {:induction false} FirstIsSent(lim: Limits, a: Frame)
    requires LimitsOk(lim) && lim.replayBufferMaxBytes >= 2 && a.seqNo == 1
    ensures var s := Run(lim, 0, [Reserve(Batch(1, [a], 1, 0)), BeginData, EndData(true)]);
            s.Some? && FirstSent(s.value, a)
  {
    var first := Reserve(Batch(1, [a], 1, 0));
    FirstIsAccepted(lim, a);
    assert Run(lim, 0, []) == Some(Init(0));
    hide *;
    RunSnoc(lim, 0, [], first);
    RunSnoc(lim, 0, [] + [first], BeginData);
    RunSnoc(lim, 0, [] + [first] + [BeginData], EndData(true));
    assert [] + [first] + [BeginData] + [EndData(true)] == [first, BeginData, EndData(true)];
  }

  lemma {:induction false} FirstIsAccepted(lim: Limits, a: Frame)
    requires LimitsOk(lim) && lim.replayBufferMaxBytes >= 2 && a.seqNo == 1
    ensures var s1 := Step(lim, Init(0), Reserve(Batch(1, [a], 1, 0)));
            s1.Some? && var s2 := Step(lim, s1.value, BeginData);
                        s2.Some? && var s3 := Step(lim, s2.value, EndData(true)); s3.Some? && FirstSent(s3.value, a)
  {
  }

  ghost predicate FirstSent(s: State, a: Frame) {
    && s.window == Window(Fifo([Entry(Batch(1, [a], 1, 0), 1)], 1), [Batch(1, [a], 1, 0)], 2, 2, 1, 0)
    && Live(s) && s.inCall.Idle? && s.acks.pending.None? && s.clock == 0 && s.flow.unacknowledgedByteCount == 1
  }

  lemma {:induction false} SecondIsSending(lim: Limits, s: State, a: Frame, b: Frame)
    requires FirstSent(s, a) && lim.replayBufferMaxBytes >= 2 && b.seqNo == 2
    ensures var s1 := Step(lim, s, Reserve(Batch(2, [b], 1, 0)));
            s1.Some? && var s2 := Step(lim, s1.value, BeginData);
                        s2.Some? && s2.value.window == SecondInside(a, b) && s2.value.inCall == SendingData(b)
  {
  }

  /** When the replay comes there, the next index is past the end of the batch under the cursor. */
  lemma {:induction false} ReplayInsideSendBreaks(a: Frame, b: Frame)
    requires a.seqNo == 1 && b.seqNo == 2
    ensures var w := SecondInside(a, b);
            var q := ReplayInsideSend(w).fifo;
            && NumberingInv(w) && WindowInv(w)
            && q.cursor == 1 && q.entries[1].nextFrameIndex == |q.entries[1].batch.frames|
            && q.entries[0].nextFrameIndex == 0 && NextFrame(q).None?
  {
    var w := SecondInside(a, b);
    assert w.reserved[..1] == [Batch(1, [a], 1, 0)] && w.reserved[..1][..0] == [];
    assert Flatten(w.reserved[..1]) == [] + [a];
    assert Flatten(w.reserved) == [a] + [b];
  }
}
