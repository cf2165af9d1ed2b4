// The oscilloscope history of Source/Oscilloscope.cpp: the channel average of
// every incoming sample is written into a 2048-slot ring at `samplePointer`,
// and `paint` walks the ring from `samplePointer` on, oldest sample first.
//
// The path drawing, the lock and the repaint request are left out; `pushed`
// is the ghost record of every value stored since construction or `clear`.
module Scope {
  import opened ModArith
  import opened Ring
  import opened Audio

  /** `maxHistorySize`. */
  const HistorySize: nat := 2048

  /** The value stored for sample i: the channel average, 0 when the block has no channels. */
  method AverageAt(buffer: Block, i: nat) returns (average: real)
    requires buffer.Valid() && i < buffer.numSamples
    ensures average == Mix(buffer, i)
  {
    var numChannels := |buffer.channels|;
    var sum := SumChannels(buffer, i, numChannels);
    average := if numChannels > 0 then sum / numChannels as real else 0.0;
  }

  class Oscilloscope {
    const audioHistory: array<real>
    /** The slot the next sample goes to, which holds the oldest one. */
    var samplePointer: nat
    ghost var pushed: seq<real>

    ghost predicate Valid()
      reads this`samplePointer, this`pushed, audioHistory
    {
      && audioHistory.Length == HistorySize
      && audioHistory[..] == RingOf(pushed, HistorySize, 0.0)
      && samplePointer == |pushed| % HistorySize
    }

    /** The constructor: 2048 zero samples, pointer at 0. */
    constructor ()
      ensures Valid() && pushed == []
      ensures audioHistory[..] == Zeros(HistorySize, 0.0) && samplePointer == 0
    {
      audioHistory := new real[HistorySize](_ => 0.0);
      samplePointer := 0;
      pushed := [];
      new;
      assert audioHistory[..] == Zeros(HistorySize, 0.0);
    }

    /** `pushSamples`: store the channel average of every sample of the block, in order. */
    method PushSamples(buffer: Block)
      requires Valid() && buffer.Valid()
      modifies this`samplePointer, this`pushed, audioHistory
      ensures Valid()
      ensures pushed == old(pushed) + MixDown(buffer)
      ensures samplePointer == (old(samplePointer) + buffer.numSamples) % HistorySize
    {
      var numSamples := buffer.numSamples;
      var sampleIdx := 0;
      while sampleIdx < numSamples
        invariant 0 <= sampleIdx <= numSamples
        invariant Valid()
        invariant pushed == old(pushed) + MixDown(buffer)[..sampleIdx]
      {
        var average := AverageAt(buffer, sampleIdx);
        Store(average);
        ExtendPrefix(old(pushed), MixDown(buffer), sampleIdx);
        sampleIdx := sampleIdx + 1;
      }
      assert MixDown(buffer)[..numSamples] == MixDown(buffer);
      ModAddLeft(|old(pushed)|, numSamples, HistorySize);
    }

    /** `audioHistory[samplePointer] = average; samplePointer = (samplePointer + 1) % maxHistorySize`. */
    method Store(x: real)
      requires Valid()
      modifies this`samplePointer, this`pushed, audioHistory
      ensures Valid()
      ensures pushed == old(pushed) + [x]
      ensures audioHistory[..] == old(audioHistory[..])[old(samplePointer) := x]
      ensures samplePointer == (old(samplePointer) + 1) % HistorySize
    {
      samplePointer := WriteAt(audioHistory, samplePointer, pushed, 0.0, x);
      pushed := pushed + [x];
    }

    /** `clear`: every slot back to 0 and the pointer to 0; the history starts over. */
    method Clear()
      requires Valid()
      modifies this`samplePointer, this`pushed, audioHistory
      ensures Valid() && pushed == []
      ensures audioHistory[..] == Zeros(HistorySize, 0.0) && samplePointer == 0
    {
      Fill(audioHistory, 0.0);
      samplePointer := 0;
      pushed := [];
    }

    /** The samples `paint` draws, left to right: slot `(i + samplePointer) % maxHistorySize` for i = 0, 1, ...; they are the last 2048 samples stored, oldest first, zeros standing in for those never stored. */
    method Trace() returns (ys: seq<real>)
      requires Valid()
      ensures ys == OldestFirst(audioHistory[..], samplePointer)
      ensures ys == Recent(pushed, HistorySize, 0.0)
    {
      ys := ReadOldestFirst(audioHistory, samplePointer);
      OldestFirstIsRecent(pushed, HistorySize, 0.0);
    }

    /** The pointer slot holds the oldest sample on screen: the one drawn at the left edge and overwritten next. */
    lemma PointerAtOldest()
      requires Valid()
      ensures audioHistory[samplePointer] == Recent(pushed, HistorySize, 0.0)[0]
    {
      CursorHoldsOldest(pushed, HistorySize, 0.0);
    }
    /** The slots a push does not reach keep their values: slot j changes only if it lies within the block length of the old pointer. */
    lemma PushLeavesOtherSlots(t: seq<real>, j: nat)
      requires Valid() && j < HistorySize
      requires (j - samplePointer) % HistorySize >= |t|
      ensures RingOf(pushed + t, HistorySize, 0.0)[j] == audioHistory[j]
    {
      UntouchedFromCursor(pushed, t, HistorySize, 0.0, samplePointer, j);
    }
  }
}
