/**
 The retained batches of the acknowledged relay seen as values: a plain FIFO of entries plus a
 cursor to the first entry that is not fully sent. The class `AckRelayBatchQueue.BatchQueue`
 refines it; the protocol machine `AckRelayMachine` is stated over it.
 */
module AckRelayFifo {

  type Bytes = seq<bv8>

  /** One physical frame: its sequence number on the wire, its message, and its share of the payload. */
  datatype Frame = Frame(seqNo: nat, messageSeq: nat, chunk: Bytes)

  /** The read-only part of an outbound batch: one message, encoded and measured. */
  datatype Batch = Batch(messageSeq: nat, frames: seq<Frame>, outerBytes: nat, queuedAt: int)

  datatype Entry = Entry(batch: Batch, nextFrameIndex: nat)

  datatype Fifo = Fifo(entries: seq<Entry>, cursor: nat)

  const EMPTY := Fifo([], 0)

  function Max(a: int, b: int): (m: int)
    ensures m >= a && m >= b && (m == a || m == b)
  {
    if a < b then b else a
  }

  function SumBytes(entries: seq<Entry>): nat {
    if entries == [] then 0 else entries[0].batch.outerBytes + SumBytes(entries[1..])
  }

  function Append(q: Fifo, batch: Batch): Fifo {
    Fifo(q.entries + [Entry(batch, 0)], q.cursor)
  }

  function AdvanceUnsent(q: Fifo): Fifo {
    if q.cursor < |q.entries| then Fifo(q.entries, q.cursor + 1) else q
  }

  function Rewound(entries: seq<Entry>): seq<Entry> {
    seq(|entries|, i requires 0 <= i < |entries| => Entry(entries[i].batch, 0))
  }

  function ResetReplay(q: Fifo): Fifo {
    Fifo(Rewound(q.entries), 0)
  }

  /** The number of leading entries an acknowledgement of `ack` covers. */
  function CoveredBy(entries: seq<Entry>, ack: nat): (count: nat)
    ensures count <= |entries|
  {
    if entries == [] || entries[0].batch.messageSeq > ack then 0 else 1 + CoveredBy(entries[1..], ack)
  }

  function ReleaseThrough(q: Fifo, ack: nat): Fifo {
    var released := CoveredBy(q.entries, ack);
    Fifo(q.entries[released..], if q.cursor < released then 0 else q.cursor - released)
  }

  /** One more frame of entry `i` has been handed over. */
  function Bump(q: Fifo, i: nat): Fifo
    requires i < |q.entries|
  {
    q.(entries := q.entries[i := q.entries[i].(nextFrameIndex := q.entries[i].nextFrameIndex + 1)])
  }

  ghost predicate Increasing(entries: seq<Entry>) {
    forall i, j :: 0 <= i < j < |entries| ==> entries[i].batch.messageSeq < entries[j].batch.messageSeq
  }

  lemma {:induction false} SumBytesConcat(a: seq<Entry>, b: seq<Entry>)
    ensures SumBytes(a + b) == SumBytes(a) + SumBytes(b)
  {
    if a == [] {
      assert a + b == b;
    } else {
      assert (a + b)[1..] == a[1..] + b;
      SumBytesConcat(a[1..], b);
    }
  }

  lemma {:induction false} ReleaseStep(entries: seq<Entry>, k: nat, ack: nat)
    requires k < |entries|
    ensures CoveredBy(entries[k..], ack)
         == if entries[k].batch.messageSeq > ack then 0 else 1 + CoveredBy(entries[k + 1..], ack)
    ensures SumBytes(entries[..k + 1]) == SumBytes(entries[..k]) + entries[k].batch.outerBytes
  {
    assert entries[k..][0] == entries[k] && entries[k..][1..] == entries[k + 1..];
    assert entries[..k + 1] == entries[..k] + [entries[k]];
    SumBytesConcat(entries[..k], [entries[k]]);
  }

  lemma {:induction false} SumBytesOfBatches(a: seq<Entry>, b: seq<Entry>)
    requires |a| == |b| && forall i :: 0 <= i < |a| ==> a[i].batch == b[i].batch
    ensures SumBytes(a) == SumBytes(b)
  {
    if a != [] {
      SumBytesOfBatches(a[1..], b[1..]);
    }
  }

  /**
   With increasing message numbers, releasing through `ack` drops exactly the batches numbered at
   most `ack`, and the bytes dropped and the bytes kept add up to the bytes there were.
   */
  lemma {:induction false} ReleaseThroughIsExact(q: Fifo, ack: nat)
    requires Increasing(q.entries)
    ensures var released := CoveredBy(q.entries, ack);
            && (forall i :: 0 <= i < |q.entries| ==> (i < released <==> q.entries[i].batch.messageSeq <= ack))
            && ReleaseThrough(q, ack).entries == q.entries[released..]
            && SumBytes(q.entries) == SumBytes(q.entries[..released]) + SumBytes(q.entries[released..])
  {
    var released := CoveredBy(q.entries, ack);
    assert q.entries == q.entries[..released] + q.entries[released..];
    SumBytesConcat(q.entries[..released], q.entries[released..]);
    CoveredByIsExact(q.entries, ack);
  }

  lemma {:induction false} CoveredByIsExact(entries: seq<Entry>, ack: nat)
    requires Increasing(entries)
    ensures forall i :: 0 <= i < |entries| ==> (i < CoveredBy(entries, ack) <==> entries[i].batch.messageSeq <= ack)
  {
    if entries != [] && entries[0].batch.messageSeq <= ack {
      CoveredByIsExact(entries[1..], ack);
      forall i | 0 <= i < |entries|
        ensures i < CoveredBy(entries, ack) <==> entries[i].batch.messageSeq <= ack
      {
        if i > 0 {
          assert entries[i] == entries[1..][i - 1];
        }
      }
    }
  }

  /** Acknowledging twice is acknowledging the larger number once, wherever the cursor stands. */
  lemma {:induction false} ReleaseTwice(q: Fifo, first: nat, second: nat)
    ensures ReleaseThrough(ReleaseThrough(q, first), second)
         == ReleaseThrough(q, if first < second then second else first)
  {
    CoveredByTwice(q.entries, first, second);
    var a := CoveredBy(q.entries, first);
    var c := CoveredBy(q.entries[a..], second);
    assert q.entries[a..][c..] == q.entries[a + c..];
  }

  lemma {:induction false} CoveredByTwice(entries: seq<Entry>, first: nat, second: nat)
    ensures CoveredBy(entries, first) + CoveredBy(entries[CoveredBy(entries, first)..], second)
         == CoveredBy(entries, if first < second then second else first)
  {
    var a := CoveredBy(entries, first);
    if a == 0 {
      assert entries[0..] == entries;
    } else {
      CoveredByTwice(entries[1..], first, second);
      assert entries[1..][a - 1..] == entries[a..];
    }
  }
}
