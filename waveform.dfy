// The scrolling waveform history of Source/Waveform.cpp: ten seconds at
// 44.1 kHz (441000 slots) of channel-averaged samples in a ring written at
// `writeIndex`, and the walk-back index `paint` uses to fetch the samples of
// each pixel column, counted back from `writeIndex`.
//
// The per-pixel RMS, the bar drawing, the lock and the repaint request are
// left out; `pushed` is the ghost record of every value stored since
// construction or `clear`.
module Wave {
  import opened ModArith
  import opened Ring
  import opened Audio

  /** `historySeconds * sampleRate`: 10 seconds at 44100 Hz. */
  const HistorySize: nat := 441000

  /** `(readHead - samplesBack + maxHistorySize) % maxHistorySize`, with C++'s `%`. */
  function WalkBack(readHead: int, samplesBack: int): (index: int)
    ensures 0 <= readHead - samplesBack + HistorySize ==> 0 <= index < HistorySize
  {
    CRem(readHead - samplesBack + HistorySize, HistorySize)
  }

  /** Walking back `back` slots (0 <= back <= size) from the cursor lands on the slot `(size - back) % size` places into the oldest-first order. */
  lemma WalkBackSlot(h: seq<real>, back: int)
    requires 0 <= back <= HistorySize
    ensures 0 <= WalkBack(|h| % HistorySize, back) < HistorySize
    ensures RingOf(h, HistorySize, 0.0)[WalkBack(|h| % HistorySize, back)]
         == Recent(h, HistorySize, 0.0)[(HistorySize - back) % HistorySize]
  {
    WalkBackIn(h, HistorySize, back);
  }

  /** WalkBackSlot for any positive ring size n. */
  lemma WalkBackIn(h: seq<real>, n: nat, back: int)
    requires 0 < n && 0 <= back <= n
    ensures 0 <= CRem(|h| % n - back + n, n) < n
    ensures RingOf(h, n, 0.0)[CRem(|h| % n - back + n, n)] == Recent(h, n, 0.0)[(n - back) % n]
  {
    var a := |h| % n - back + n;
    assert a == |h| % n + (n - back) && a >= 0;
    assert CRem(a, n) == a % n;
    StepBack(h, n, 0.0, back);
  }

  /** The read index with the walk starting at the newest sample (one before the write position), as the comments describe it. */
  function WalkBackFromNewest(readHead: int, samplesBack: int): (index: int)
    ensures 0 <= readHead - 1 - samplesBack + HistorySize ==> 0 <= index < HistorySize
  {
    CRem(readHead - 1 - samplesBack + HistorySize, HistorySize)
  }

  /** Walking back `back` slots (0 <= back < size) from the newest sample reads the value stored back + 1 pushes ago: the newest at 0. */
  lemma WalkBackFromNewestSlot(h: seq<real>, back: int)
    requires 0 <= back < HistorySize
    ensures 0 <= WalkBackFromNewest(|h| % HistorySize, back) < HistorySize
    ensures RingOf(h, HistorySize, 0.0)[WalkBackFromNewest(|h| % HistorySize, back)]
         == Recent(h, HistorySize, 0.0)[HistorySize - 1 - back]
  {
    WalkBackFromNewestIn(h, HistorySize, back);
  }

  /** WalkBackFromNewestSlot for any positive ring size n. */
  lemma WalkBackFromNewestIn(h: seq<real>, n: nat, back: int)
    requires 0 <= back < n
    ensures 0 <= CRem(|h| % n - 1 - back + n, n) < n
    ensures RingOf(h, n, 0.0)[CRem(|h| % n - 1 - back + n, n)] == Recent(h, n, 0.0)[n - 1 - back]
  {
    WalkBackIn(h, n, back + 1);
    ModSmall(n - (back + 1), n);
  }

  /** As written, the first sample of the rightmost column (samplesBack = 0) is read at the write position: the oldest sample in the history, not the newest. */
  lemma RightEdgeReadsOldest(h: seq<real>)
    requires |h| >= HistorySize
    ensures RingOf(h, HistorySize, 0.0)[WalkBack(|h| % HistorySize, 0)] == h[|h| - HistorySize]
    ensures RingOf(h, HistorySize, 0.0)[WalkBackFromNewest(|h| % HistorySize, 0)] == h[|h| - 1]
  {
    RightEdgeIn(h, HistorySize);
  }

  /** RightEdgeReadsOldest for any positive ring size n. */
  lemma RightEdgeIn(h: seq<real>, n: nat)
    requires 0 < n <= |h|
    ensures RingOf(h, n, 0.0)[CRem(|h| % n - 0 + n, n)] == h[|h| - n]
    ensures RingOf(h, n, 0.0)[CRem(|h| % n - 1 - 0 + n, n)] == h[|h| - 1]
  {
    WalkBackIn(h, n, 0);
    ModAddMultiple(0, 1, n);
    ModSmall(0, n);
    assert (n - 0) % n == 0;
    RecentOfLong(h, n, 0.0, 0);
    WalkBackFromNewestIn(h, n, 0);
    RecentOfLong(h, n, 0.0, n - 1);
  }

  class Waveform {
    const audioHistory: array<real>
    /** The next free slot, which holds the oldest sample. */
    var writeIndex: nat
    ghost var pushed: seq<real>

    ghost predicate Valid()
      reads this`writeIndex, this`pushed, audioHistory
    {
      && audioHistory.Length == HistorySize
      && audioHistory[..] == RingOf(pushed, HistorySize, 0.0)
      && writeIndex == |pushed| % HistorySize
    }

    /** The constructor: ten seconds of zeros, write index at 0. */
    constructor ()
      ensures Valid() && pushed == []
      ensures audioHistory[..] == Zeros(HistorySize, 0.0) && writeIndex == 0
    {
      audioHistory := new real[HistorySize](_ => 0.0);
      writeIndex := 0;
      pushed := [];
      new;
      assert audioHistory[..] == Zeros(HistorySize, 0.0);
    }

    /** `pushSamples`: store the channel average of every sample of the block, in order. A block with samples but no channels would divide by zero, so it is excluded. */
    method PushSamples(buffer: Block)
      requires Valid() && buffer.Valid()
      requires buffer.numSamples > 0 ==> |buffer.channels| >= 1
      modifies this`writeIndex, this`pushed, audioHistory
      ensures Valid()
      ensures pushed == old(pushed) + MixDown(buffer)
      ensures writeIndex == (old(writeIndex) + buffer.numSamples) % HistorySize
    {
      var numChannels := |buffer.channels|;
      var numSamples := buffer.numSamples;
      var i := 0;
      while i < numSamples
        invariant 0 <= i <= numSamples
        invariant Valid()
        invariant pushed == old(pushed) + MixDown(buffer)[..i]
      {
        var sum := SumChannels(buffer, i, numChannels);
        var mono := sum / numChannels as real;
        Store(mono);
        ExtendPrefix(old(pushed), MixDown(buffer), i);
        i := i + 1;
      }
      assert MixDown(buffer)[..numSamples] == MixDown(buffer);
      ModAddLeft(|old(pushed)|, numSamples, HistorySize);
    }

    /** `audioHistory[writeIndex] = mono; writeIndex = (writeIndex + 1) % maxHistorySize`. */
    method Store(x: real)
      requires Valid()
      modifies this`writeIndex, this`pushed, audioHistory
      ensures Valid()
      ensures pushed == old(pushed) + [x]
      ensures audioHistory[..] == old(audioHistory[..])[old(writeIndex) := x]
      ensures writeIndex == (old(writeIndex) + 1) % HistorySize
    {
      writeIndex := WriteAt(audioHistory, writeIndex, pushed, 0.0, x);
      pushed := pushed + [x];
    }

    /** `clear`: every slot back to 0 and the write index to 0; the history starts over. */
    method Clear()
      requires Valid()
      modifies this`writeIndex, this`pushed, audioHistory
      ensures Valid() && pushed == []
      ensures audioHistory[..] == Zeros(HistorySize, 0.0) && writeIndex == 0
    {
      Fill(audioHistory, 0.0);
      writeIndex := 0;
      pushed := [];
    }

    /** The sample `paint` fetches `samplesBack` slots back from the write index (0 < samplesBack <= size) is the one stored samplesBack pushes ago, or 0 if fewer were stored. */
    lemma ReadBack(samplesBack: int)
      requires Valid() && 0 < samplesBack <= HistorySize
      ensures 0 <= WalkBack(writeIndex, samplesBack) < HistorySize
      ensures audioHistory[WalkBack(writeIndex, samplesBack)]
           == (Zeros(HistorySize, 0.0) + pushed)[|pushed| + HistorySize - samplesBack]
    {
      WalkBackSlot(pushed, samplesBack);
      ModSmall(HistorySize - samplesBack, HistorySize);
    }
    /** The slots a push does not reach keep their values: slot j changes only if it lies within the block length of the old index. */
    lemma PushLeavesOtherSlots(t: seq<real>, j: nat)
      requires Valid() && j < HistorySize
      requires (j - writeIndex) % HistorySize >= |t|
      ensures RingOf(pushed + t, HistorySize, 0.0)[j] == audioHistory[j]
    {
      UntouchedFromCursor(pushed, t, HistorySize, 0.0, writeIndex, j);
    }
  }
}
