// The stereo history of Source/StereoImage.cpp: each incoming sample's
// (left, right) pair is written into a 2048-slot ring at `writeIndex`, and
// `paint` walks the ring from `writeIndex` on, oldest pair first.
//
// The 45-degree rotation and the path drawing, the lock and the repaint
// request are left out; `pushed` is the ghost record of every pair stored
// since construction or `clear`.
module Stereo {
  import opened ModArith
  import opened Ring
  import opened Audio

  /** `maxHistorySize`. */
  const HistorySize: nat := 2048

  /** One stored sample: channel 0 and channel 1 at the same instant. */
  datatype StereoSample = StereoSample(left: real, right: real)

  /** The value-initialised entry a fresh or cleared history holds. */
  const Silence: StereoSample := StereoSample(0.0, 0.0)

  /** The pairs a block contributes: channel 0 as left and channel 1 as right for each sample; further channels are ignored, and a block with fewer than two channels contributes nothing. */
  function Pairs(b: Block): (ps: seq<StereoSample>)
    requires b.Valid()
    ensures |b.channels| < 2 ==> ps == []
    ensures |b.channels| >= 2 ==> |ps| == b.numSamples
    ensures |b.channels| >= 2 ==>
              forall i :: 0 <= i < |ps| ==> ps[i] == StereoSample(b.channels[0][i], b.channels[1][i])
  {
    if |b.channels| < 2 then []
    else seq(b.numSamples, i requires 0 <= i < b.numSamples => StereoSample(b.channels[0][i], b.channels[1][i]))
  }

  /** Channels beyond the first two never reach the history: blocks that agree on channels 0 and 1 contribute the same pairs. */
  lemma PairsIgnoreExtraChannels(a: Block, b: Block)
    requires a.Valid() && b.Valid() && a.numSamples == b.numSamples
    requires |a.channels| >= 2 && |b.channels| >= 2
    requires a.channels[0] == b.channels[0] && a.channels[1] == b.channels[1]
    ensures Pairs(a) == Pairs(b)
  {
  }

  class StereoImage {
    const sampleHistory: array<StereoSample>
    /** The slot the next pair goes to, which holds the oldest one. */
    var writeIndex: nat
    ghost var pushed: seq<StereoSample>

    ghost predicate Valid()
      reads this`writeIndex, this`pushed, sampleHistory
    {
      && sampleHistory.Length == HistorySize
      && sampleHistory[..] == RingOf(pushed, HistorySize, Silence)
      && writeIndex == |pushed| % HistorySize
    }

    /** The constructor: 2048 silent pairs, index at 0. */
    constructor ()
      ensures Valid() && pushed == []
      ensures sampleHistory[..] == Zeros(HistorySize, Silence) && writeIndex == 0
    {
      sampleHistory := new StereoSample[HistorySize](_ => Silence);
      writeIndex := 0;
      pushed := [];
      new;
      assert sampleHistory[..] == Zeros(HistorySize, Silence);
    }

    /** `pushSamples`: a block with fewer than two channels changes nothing; otherwise every (left, right) pair is stored in order and the index advances by the block length. */
    method PushSamples(buffer: Block)
      requires Valid() && buffer.Valid()
      modifies this`writeIndex, this`pushed, sampleHistory
      ensures Valid()
      ensures pushed == old(pushed) + Pairs(buffer)
      ensures |buffer.channels| < 2 ==> sampleHistory[..] == old(sampleHistory[..]) && writeIndex == old(writeIndex)
      ensures writeIndex == (old(writeIndex) + |Pairs(buffer)|) % HistorySize
    {
      var numSamples := buffer.numSamples;
      var numChannels := |buffer.channels|;
      if numChannels < 2 {
        AppendNothing(pushed);
        ModSmall(writeIndex, HistorySize);
        return;
      }
      ghost var ps := Pairs(buffer);
      var i := 0;
      while i < numSamples
        invariant 0 <= i <= numSamples
        invariant Valid()
        invariant pushed == old(pushed) + ps[..i]
      {
        var left := buffer.channels[0][i];
        var right := buffer.channels[1][i];
        Store(StereoSample(left, right));
        ExtendPrefix(old(pushed), ps, i);
        i := i + 1;
      }
      assert ps[..numSamples] == ps;
      ModAddLeft(|old(pushed)|, numSamples, HistorySize);
    }

    /** `sampleHistory[writeIndex] = { left, right }; writeIndex = (writeIndex + 1) % maxHistorySize`. */
    method Store(s: StereoSample)
      requires Valid()
      modifies this`writeIndex, this`pushed, sampleHistory
      ensures Valid()
      ensures pushed == old(pushed) + [s]
      ensures sampleHistory[..] == old(sampleHistory[..])[old(writeIndex) := s]
      ensures writeIndex == (old(writeIndex) + 1) % HistorySize
    {
      writeIndex := WriteAt(sampleHistory, writeIndex, pushed, Silence, s);
      pushed := pushed + [s];
    }

    /** `clear`: every slot back to (0, 0) and the index to 0; the history starts over. */
    method Clear()
      requires Valid()
      modifies this`writeIndex, this`pushed, sampleHistory
      ensures Valid() && pushed == []
      ensures sampleHistory[..] == Zeros(HistorySize, Silence) && writeIndex == 0
    {
      Fill(sampleHistory, Silence);
      writeIndex := 0;
      pushed := [];
    }

    /** The pairs `paint` visits: slot `(index + i) % maxHistorySize` for i = 0, 1, ...; they are the last 2048 pairs stored, oldest first, (0, 0) standing in for those never stored. */
    method Trace() returns (ys: seq<StereoSample>)
      requires Valid()
      ensures ys == OldestFirst(sampleHistory[..], writeIndex)
      ensures ys == Recent(pushed, HistorySize, Silence)
    {
      ys := ReadOldestFirst(sampleHistory, writeIndex);
      OldestFirstIsRecent(pushed, HistorySize, Silence);
    }

    /** The slots a push does not reach keep their pairs: slot j changes only if it lies within the block length of the old index. */
    lemma PushLeavesOtherSlots(t: seq<StereoSample>, j: nat)
      requires Valid() && j < HistorySize
      requires (j - writeIndex) % HistorySize >= |t|
      ensures RingOf(pushed + t, HistorySize, Silence)[j] == sampleHistory[j]
    {
      UntouchedFromCursor(pushed, t, HistorySize, Silence, writeIndex, j);
    }
  }
}
