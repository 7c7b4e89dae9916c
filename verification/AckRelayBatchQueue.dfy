/**
 The queue of retained batches, in its own form: one growing storage sequence whose released prefix is
 overwritten with empty slots, two indices into it, and a compaction that runs only when the
 released prefix is long and at least half of the storage.
 */
module AckRelayBatchQueue {
  import opened AckRelayFifo

  const COMPACT_RELEASED_PREFIX_THRESHOLD := 1024

  /** A retained batch. Only its progress changes, and it changes through every alias of the object. */
  class OutboundBatch {
    const batch: Batch
    var nextFrameIndex: nat

    constructor (batch: Batch)
      ensures this.batch == batch && nextFrameIndex == 0
    {
      this.batch := batch;
      nextFrameIndex := 0;
    }
  }

  ghost function EntryOf(b: OutboundBatch): Entry
    reads b
  {
    Entry(b.batch, b.nextFrameIndex)
  }

  class BatchQueue {
    var storage: seq<OutboundBatch?>
    var headIndex: nat
    var nextUnsentIndex: nat

    /** Every batch object ever appended: the objects whose progress this queue may change. */
    ghost var repr: set<OutboundBatch>
    /** The FIFO this storage stands for. */
    ghost var view: Fifo
    /** Slots moved by compaction so far, and batches released so far. */
    ghost var copied: nat
    ghost var released: nat

    ghost predicate Valid()
      reads this, repr
    {
      && Represents()
      // Space: a long released prefix is always shorter than the active part.
      && (headIndex < COMPACT_RELEASED_PREFIX_THRESHOLD || headIndex < |storage| - headIndex)
    }

    ghost predicate Represents()
      reads this, repr
    {
      && headIndex <= nextUnsentIndex <= |storage|
      && |view.entries| == |storage| - headIndex
      && view.cursor == nextUnsentIndex - headIndex
      && (forall i :: 0 <= i < headIndex ==> storage[i] == null)
      && (forall i :: headIndex <= i < |storage| ==>
            storage[i] != null && storage[i] in repr && EntryOf(storage[i]) == view.entries[i - headIndex])
      && (forall i, j :: headIndex <= i < j < |storage| ==> storage[i] != storage[j])
      // Amortised cost: every slot copied, and every empty slot still held, is paid for by a release.
      && copied + headIndex <= released
    }

    constructor ()
      ensures Valid() && view == EMPTY && repr == {}
      ensures copied == 0 && released == 0
    {
      storage := [];
      headIndex, nextUnsentIndex := 0, 0;
      repr := {};
      view := EMPTY;
      copied, released := 0, 0;
    }

    function Oldest(): OutboundBatch?
      reads this
    {
      if headIndex < |storage| then storage[headIndex] else null
    }

    function NextUnsent(): OutboundBatch?
      reads this
    {
      if nextUnsentIndex < |storage| then storage[nextUnsentIndex] else null
    }

    /** `oldest` and `nextUnsent` are the head and the cursor entry of the FIFO, absent exactly when it has none. */
    lemma {:induction false} Ends()
      requires Valid()
      ensures Oldest() == null <==> view.entries == []
      ensures Oldest() != null ==> EntryOf(Oldest()) == view.entries[0]
      ensures NextUnsent() == null <==> view.cursor == |view.entries|
      ensures NextUnsent() != null ==> NextUnsent() in repr && EntryOf(NextUnsent()) == view.entries[view.cursor]
    {
    }

    /** The batch objects still referenced from storage: none of the released ones, compacted or not. */
    method RetainedBatchReferenceCount() returns (count: nat)
      requires Valid()
      ensures count == |view.entries|
    {
      count := 0;
      for i := 0 to |storage|
        invariant count == if i < headIndex then 0 else i - headIndex
      {
        if storage[i] != null {
          count := count + 1;
        }
      }
    }

    method RetainedPayloadBytes() returns (bytes: nat)
      requires Valid()
      ensures bytes == SumBytes(view.entries)
    {
      bytes := 0;
      ghost var entries := view.entries;
      for i := 0 to |storage|
        invariant bytes == SumBytes(entries[..if i < headIndex then 0 else i - headIndex])
      {
        if storage[i] != null {
          bytes := bytes + storage[i].batch.outerBytes;
          ghost var k := i - headIndex;
          assert entries[..k + 1] == entries[..k] + [entries[k]];
          SumBytesConcat(entries[..k], [entries[k]]);
        }
      }
      assert entries[..|entries|] == entries;
    }

    method Append(b: OutboundBatch)
      requires Valid() && b !in repr && b.nextFrameIndex == 0
      modifies this
      ensures Valid() && view == AckRelayFifo.Append(old(view), b.batch)
      ensures storage == old(storage) + [b] && repr == old(repr) + {b}
      ensures headIndex == old(headIndex) && nextUnsentIndex == old(nextUnsentIndex)
      ensures copied == old(copied) && released == old(released)
    {
      storage := storage + [b];
      view := AckRelayFifo.Append(view, b.batch);
      repr := repr + {b};
    }

    method AdvanceUnsent()
      requires Valid()
      modifies this`nextUnsentIndex, this`view
      ensures Valid() && view == AckRelayFifo.AdvanceUnsent(old(view))
    {
      if nextUnsentIndex < |storage| {
        nextUnsentIndex := nextUnsentIndex + 1;
      }
      view := AckRelayFifo.AdvanceUnsent(view);
    }

    method ResetReplay()
      requires Valid()
      modifies this`nextUnsentIndex, this`view, repr
      ensures Valid() && view == AckRelayFifo.ResetReplay(old(view))
    {
      for i := headIndex to |storage|
        invariant view == old(view)
        invariant forall j :: headIndex <= j < i ==> storage[j].nextFrameIndex == 0
      {
        var b := storage[i];
        if b != null {
          b.nextFrameIndex := 0;
        }
      }
      nextUnsentIndex := headIndex;
      view := AckRelayFifo.ResetReplay(old(view));
    }

    /** The progress of the batch under the cursor, advanced through the object a caller captured. */
    method BumpCaptured(b: OutboundBatch)
      requires Valid() && b == NextUnsent()
      modifies this`view, b
      ensures Valid() && view == Bump(old(view), old(view).cursor)
      ensures b.nextFrameIndex == old(b.nextFrameIndex) + 1
    {
      b.nextFrameIndex := b.nextFrameIndex + 1;
      view := Bump(view, view.cursor);
    }

    method ReleaseThrough(ack: nat) returns (releasedBytes: nat, releasedCount: nat)
      requires Valid()
      modifies this
      ensures Valid() && view == AckRelayFifo.ReleaseThrough(old(view), ack)
      ensures releasedCount == CoveredBy(old(view).entries, ack)
      ensures releasedBytes == SumBytes(old(view).entries[..releasedCount])
      ensures repr == old(repr) && released == old(released) + releasedCount
    {
      releasedBytes, releasedCount := ReleaseHeads(ack);
      view := AckRelayFifo.ReleaseThrough(view, ack);
      nextUnsentIndex := Max(nextUnsentIndex, headIndex);
      CompactReleasedPrefix();
    }

    /** The release loop: empty the slot of every covered batch and move the head past it. */
    method ReleaseHeads(ack: nat) returns (releasedBytes: nat, releasedCount: nat)
      requires Valid()
      modifies this`storage, this`headIndex, this`released
      ensures releasedCount == CoveredBy(view.entries, ack) && releasedBytes == SumBytes(view.entries[..releasedCount])
      ensures |storage| == |old(storage)| && headIndex == old(headIndex) + releasedCount <= |storage|
      ensures released == old(released) + releasedCount
      ensures forall i :: 0 <= i < headIndex ==> storage[i] == null
      ensures forall i :: headIndex <= i < |storage| ==> storage[i] == old(storage)[i]
    {
      releasedBytes, releasedCount := 0, 0;
      ghost var entries := view.entries;
      assert entries[0..] == entries;
      while headIndex < |storage|
        invariant headIndex == old(headIndex) + releasedCount <= |storage| == |old(storage)|
        invariant released == old(released) + releasedCount
        invariant forall i :: 0 <= i < headIndex ==> storage[i] == null
        invariant forall i :: headIndex <= i < |storage| ==> storage[i] == old(storage)[i]
        invariant CoveredBy(entries, ack) == releasedCount + CoveredBy(entries[releasedCount..], ack)
        invariant releasedBytes == SumBytes(entries[..releasedCount])
      {
        var b := storage[headIndex];
        assert EntryOf(b) == entries[releasedCount];
        ReleaseStep(entries, releasedCount, ack);
        if b.batch.messageSeq > ack {
          break;
        }
        releasedBytes := releasedBytes + b.batch.outerBytes;
        releasedCount := releasedCount + 1;
        storage := storage[headIndex := null];
        headIndex := headIndex + 1;
        released := released + 1;
      }
    }

    method Clear()
      requires Valid()
      modifies this
      ensures Valid() && view == EMPTY
      ensures repr == old(repr) && copied == old(copied) && released == old(released)
    {
      storage := [];
      headIndex := 0;
      nextUnsentIndex := 0;
      view := EMPTY;
    }

    /** Between a release and this call the space bound may be broken; this call repairs it. */
    method CompactReleasedPrefix()
      requires Represents()
      modifies this
      ensures Valid() && view == old(view)
      ensures repr == old(repr) && released == old(released)
    {
      if headIndex < COMPACT_RELEASED_PREFIX_THRESHOLD || headIndex * 2 < |storage| {
        return;
      }
      var releasedPrefix := headIndex;
      storage := storage[releasedPrefix..];
      nextUnsentIndex := Max(0, nextUnsentIndex - releasedPrefix);
      headIndex := 0;
      copied := copied + |storage|;
    }

    /** Storage stays below the larger of 1024 slots more than the active ones and twice the active ones. */
    lemma {:induction false} SlotsAreBounded()
      requires Valid()
      ensures var active := |view.entries|;
              |storage| < active + COMPACT_RELEASED_PREFIX_THRESHOLD || |storage| < 2 * active
    {
    }
  }
}
