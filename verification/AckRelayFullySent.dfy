/**
 Which acknowledgements come from the future: the number the adapter compares them with is the last message whose
 final frame the link has ever accepted.
 */
module AckRelayFullySent {
  import opened Wrappers
  import opened AckRelayFifo
  import opened AckRelayMachine
  import opened AckRelayNetwork

  /** The numbers of the frames that the link has accepted from a live adapter in this run. */
  ghost function AcceptedNumbers(lim: Limits, clock: int, events: seq<Event>): set<nat> {
    if events == [] then {}
    else
      var front, last := events[..|events| - 1], events[|events| - 1];
      var before := Run(lim, clock, front);
      AcceptedNumbers(lim, clock, front)
      + if last == EndData(true) && before.Some? && Live(before.value) && before.value.inCall.SendingData?
        then {before.value.inCall.frame.seqNo} else {}
  }

  function LastNumber(batch: Batch): nat
    requires batch.frames != []
  {
    batch.frames[|batch.frames| - 1].seqNo
  }

  /** The final frame of this message has been accepted. */
  ghost predicate FullySent(reserved: seq<Batch>, numbers: set<nat>, m: nat)
    requires forall i :: 0 <= i < |reserved| ==> reserved[i].frames != []
  {
    1 <= m <= |reserved| && LastNumber(reserved[m - 1]) in numbers
  }

  ghost predicate Counted(w: Window, numbers: set<nat>) {
    && NumberingInv(w)
    && (forall x :: x in numbers ==> x < w.nextPhysicalSeq)
    && forall m :: 1 <= m <= |w.reserved| ==> (m <= w.highestFullySentMessageSeq <==> FullySent(w.reserved, numbers, m))
  }

  /** The final frame of message k has the number of all frames up to it. */
  lemma {:induction false} LastNumberIs(reserved: seq<Batch>, k: nat)
    requires NumberedBatches(reserved) && 1 <= k <= |reserved|
    ensures LastNumber(reserved[k - 1]) == Through(reserved, k)
  {
    ThroughStep(reserved, k - 1);
    FlattenPrefix(reserved, k);
    var all, upTo := Flatten(reserved), Flatten(reserved[..k]);
    assert upTo[|upTo| - 1] == reserved[k - 1].frames[|reserved[k - 1].frames| - 1];
    assert all[|upTo| - 1] == upTo[|upTo| - 1];
  }

  lemma {:induction false} ReserveCounts(w: Window, batch: Batch, numbers: set<nat>)
    requires Counted(w, numbers) && batch.frames != [] && Contiguous(batch.frames, w.nextPhysicalSeq)
    requires batch.messageSeq == w.nextMessageSeq
    ensures Counted(WindowReserve(w, batch), numbers)
  {
    NumberingReserveKeeps(w, batch);
    var w' := WindowReserve(w, batch);
    hide NumberedBatches;
    assert LastNumber(batch) >= w.nextPhysicalSeq;
    forall m | 1 <= m <= |w'.reserved|
      ensures m <= w'.highestFullySentMessageSeq <==> FullySent(w'.reserved, numbers, m)
    {
      if m <= |w.reserved| {
        assert w'.reserved[m - 1] == w.reserved[m - 1];
        assert m <= w.highestFullySentMessageSeq <==> FullySent(w.reserved, numbers, m);
      }
    }
  }

  lemma {:induction false} AcceptedCounts(w: Window, numbers: set<nat>)
    requires Counted(w, numbers) && WindowInv(w) && w.fifo.cursor < |w.fifo.entries|
    ensures NextFrame(w.fifo).Some?
    ensures Counted(AfterAccepted(w, w.fifo.cursor), numbers + {NextFrame(w.fifo).value.seqNo})
  {
    var w', k := AfterAccepted(w, w.fifo.cursor), w.lastAckedMessageSeq + w.fifo.cursor + 1;
    var number := NextFrame(w.fifo).value.seqNo;
    AfterAcceptedKeeps(w);
    NextFrameIsAt(w);
    CompletedMessage(w);
    hide AfterAccepted, NumberedBatches, FifoShape, NextFrame;
    forall m | 1 <= m <= |w.reserved|
      ensures m <= w'.highestFullySentMessageSeq <==> FullySent(w.reserved, numbers + {number}, m)
    {
      OthersUnchanged(w, number, k, m);
      assert m <= w.highestFullySentMessageSeq <==> FullySent(w.reserved, numbers, m);
    }
  }

  /** The accepted frame completes its message exactly when it is the final one. */
  lemma {:induction false} CompletedMessage(w: Window)
    requires NumberingInv(w) && WindowInv(w) && w.fifo.cursor < |w.fifo.entries|
    ensures NextFrame(w.fifo).Some?
    ensures var k := w.lastAckedMessageSeq + w.fifo.cursor + 1;
            var number := NextFrame(w.fifo).value.seqNo;
            && Through(w.reserved, k - 1) < number <= Through(w.reserved, k)
            && AfterAccepted(w, w.fifo.cursor).reserved == w.reserved
            && AfterAccepted(w, w.fifo.cursor).nextPhysicalSeq == w.nextPhysicalSeq
            && AfterAccepted(w, w.fifo.cursor).highestFullySentMessageSeq
            == if number == Through(w.reserved, k) then Max(w.highestFullySentMessageSeq, k)
               else w.highestFullySentMessageSeq
  {
    var k := w.lastAckedMessageSeq + w.fifo.cursor + 1;
    NextFrameIsAt(w);
    ThroughStep(w.reserved, k - 1);
    BatchesOfWindow(w);
    assert w.fifo.entries[w.fifo.cursor].batch == w.reserved[k - 1];
    hide NumberedBatches, FifoShape;
  }

  lemma {:induction false} OthersUnchanged(w: Window, number: nat, k: nat, m: nat)
    requires NumberingInv(w) && 1 <= m <= |w.reserved| && 1 <= k <= |w.reserved|
    requires Through(w.reserved, k - 1) < number <= Through(w.reserved, k)
    ensures LastNumber(w.reserved[m - 1]) == number <==> m == k && number == Through(w.reserved, k)
  {
    LastNumberIs(w.reserved, m);
    if m < k {
      ThroughMonotone(w.reserved, m, k - 1);
    } else if m > k {
      ThroughMonotone(w.reserved, k, m);
    }
  }

  lemma {:induction false} StepCounts(lim: Limits, s: State, e: Event, numbers: set<nat>)
    requires LimitsOk(lim) && Inv(lim, s) && Counted(s.window, numbers) && Step(lim, s, e).Some?
    ensures Counted(Step(lim, s, e).value.window,
                    numbers + if e == EndData(true) && Live(s) && s.inCall.SendingData? then {s.inCall.frame.seqNo}
                              else {})
  {
    if e.Reserve? {
      ReserveCounts(s.window, e.batch, numbers);
      assert numbers + {} == numbers;
    } else if e == EndData(true) && Live(s) {
      AcceptedCounts(s.window, numbers);
    } else {
      hide NumberedBatches, AfterAccepted, FifoShape;
      assert numbers + {} == numbers;
    }
  }

  /** In every run the mark of what is fully sent is the last message whose final frame the link has ever accepted. */
  lemma {:induction false} FullySentIsAccepted(lim: Limits, clock: int, events: seq<Event>)
    requires LimitsOk(lim) && Run(lim, clock, events).Some?
    ensures Counted(Run(lim, clock, events).value.window, AcceptedNumbers(lim, clock, events))
  {
    if events != [] {
      var front := events[..|events| - 1];
      FullySentIsAccepted(lim, clock, front);
      RunKeepsInv(lim, clock, front);
      hide Counted, Inv, Step;
      StepCounts(lim, Run(lim, clock, front).value, events[|events| - 1], AcceptedNumbers(lim, clock, front));
    }
  }

  /**
   An acknowledgement is from the future exactly when the link has never accepted the final frame of its message. Then
   it ends the adapter; otherwise the adapter lives on and has released every message up to it.
   */
  lemma {:induction false} FutureAckExactly(lim: Limits, clock: int, events: seq<Event>, ack: nat)
    requires LimitsOk(lim) && Run(lim, clock, events).Some?
    requires var s := Run(lim, clock, events).value; Live(s) && s.inCall.Idle? && ack > s.window.lastAckedMessageSeq
    ensures Run(lim, clock, events + [Acked(ack)]).Some?
    ensures var s, s' := Run(lim, clock, events).value, Run(lim, clock, events + [Acked(ack)]).value;
            NumberingInv(s.window)
            && if FullySent(s.window.reserved, AcceptedNumbers(lim, clock, events), ack) then
                 && Live(s') && s'.window.lastAckedMessageSeq == ack
                 && forall i :: 0 <= i < |s'.window.fifo.entries| ==> s'.window.fifo.entries[i].batch.messageSeq > ack
               else s'.degraded && s'.fault == Some(Fault(FutureAck, Some(ack)))
  {
    FullySentIsAccepted(lim, clock, events);
    RunKeepsInv(lim, clock, events);
    RunSnoc(lim, clock, events, Acked(ack));
    RunKeepsInv(lim, clock, events + [Acked(ack)]);
    var s, s' := Run(lim, clock, events).value, Run(lim, clock, events + [Acked(ack)]).value;
    var numbers := AcceptedNumbers(lim, clock, events);
    hide Run, AcceptedNumbers;
    assert ack <= s.window.highestFullySentMessageSeq <==> FullySent(s.window.reserved, numbers, ack);
    assert s' == Released(lim, s, ack);
    if ack <= s.window.highestFullySentMessageSeq {
      BatchesOfWindow(s'.window);
    }
  }
}
