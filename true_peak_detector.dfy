// The true-peak detector of Source/TruePeakDetector.h: the input block is
// copied into a work buffer of `numChannels` channels (mono duplicated to the
// first two, otherwise channel ch reads input channel min(ch, inputs - 1)),
// oversampled, and the largest magnitude of each oversampled channel is
// reported.
//
// The polyphase IIR oversampler is library code: `oversample` maps the work
// buffer to the upsampled block. `log10` is a parameter too.
module TruePeak {
  import opened Ring
  import opened Audio

  /** The level reported for a peak that is not positive. */
  const SilenceDb: real := -100.0

  function AbsReal(x: real): (r: real)
    ensures r >= 0.0
    ensures r == x || r == -x
  {
    if x < 0.0 then -x else x
  }

  /** The running scan `m = max(m, |d[i]|)` from m = 0 over the whole channel: the largest magnitude, or 0 for an empty channel. */
  function MaxAbs(d: seq<real>): (m: real)
    ensures m >= 0.0
    ensures forall i :: 0 <= i < |d| ==> AbsReal(d[i]) <= m
    ensures m == 0.0 || exists i :: 0 <= i < |d| && m == AbsReal(d[i])
    decreases |d|
  {
    if d == [] then 0.0
    else
      var m := MaxAbs(d[..|d| - 1]);
      assert forall i :: 0 <= i < |d| - 1 ==> d[..|d| - 1][i] == d[i];
      MaxOf(m, AbsReal(d[|d| - 1]))
  }

  /** The peak is the least non-negative bound on the magnitudes of the channel. */
  lemma MaxAbsIsLeastBound(d: seq<real>, b: real)
    requires b >= 0.0
    requires forall i :: 0 <= i < |d| ==> AbsReal(d[i]) <= b
    ensures MaxAbs(d) <= b
  {
  }

  /** Negating a signal does not change its peak. */
  lemma {:induction false} MaxAbsOfNegated(d: seq<real>, e: seq<real>)
    requires |d| == |e|
    requires forall i :: 0 <= i < |d| ==> e[i] == -d[i]
    ensures MaxAbs(d) == MaxAbs(e)
    decreases |d|
  {
    if d != [] {
      MaxAbsOfNegated(d[..|d| - 1], e[..|e| - 1]);
    }
  }

  /** The scan over one upsampled channel. */
  method ScanPeak(d: seq<real>) returns (m: real)
    ensures m == MaxAbs(d)
  {
    m := 0.0;
    var i := 0;
    while i < |d|
      invariant 0 <= i <= |d|
      invariant m == MaxAbs(d[..i])
    {
      assert d[..i + 1][..i] == d[..i];
      m := MaxOf(m, AbsReal(d[i]));
      i := i + 1;
    }
    assert d[..|d|] == d;
  }

  /** The input channel work channel ch copies: channels 0 and 1 both copy a mono input (when there are at least two), otherwise `jmin(ch, inputs - 1)`; -1 when the channel stays silent. */
  function SourceOf(inputs: nat, numChannels: nat, ch: nat): (src: int)
    requires inputs >= 1
    ensures -1 <= src < inputs
  {
    if inputs == 1 && numChannels >= 2 then (if ch <= 1 then 0 else -1)
    else if ch < inputs - 1 then ch else inputs - 1
  }

  /** The work buffer: `numChannels` channels of `n` samples, each a copy of its source channel or silence. */
  function WorkBuffer(b: Block, numChannels: nat): (w: seq<seq<real>>)
    requires b.Valid() && |b.channels| >= 1
    ensures |w| == numChannels
    ensures forall ch :: 0 <= ch < numChannels ==> |w[ch]| == b.numSamples
  {
    seq(numChannels, ch requires 0 <= ch < numChannels =>
      var src := SourceOf(|b.channels|, numChannels, ch);
      if src < 0 then Zeros(b.numSamples, 0.0) else b.channels[src])
  }

  /** A mono input with two or more work channels: channels 0 and 1 carry it, the rest are silent. */
  lemma MonoDuplicated(b: Block, numChannels: nat)
    requires b.Valid() && |b.channels| == 1 && numChannels >= 2
    ensures WorkBuffer(b, numChannels)[0] == b.channels[0]
    ensures WorkBuffer(b, numChannels)[1] == b.channels[0]
    ensures forall ch :: 2 <= ch < numChannels ==> WorkBuffer(b, numChannels)[ch] == Zeros(b.numSamples, 0.0)
  {
  }

  /** Otherwise every input channel up to numChannels is copied to its own work channel, and work channels past the last input repeat the last input. */
  lemma ChannelsMapped(b: Block, numChannels: nat)
    requires b.Valid() && |b.channels| >= 1
    requires !(|b.channels| == 1 && numChannels >= 2)
    ensures forall ch :: 0 <= ch < numChannels && ch < |b.channels| ==> WorkBuffer(b, numChannels)[ch] == b.channels[ch]
    ensures forall ch :: |b.channels| <= ch < numChannels ==> WorkBuffer(b, numChannels)[ch] == b.channels[|b.channels| - 1]
  {
  }

  /** The peak of every upsampled channel. */
  function Peaks(up: seq<seq<real>>): (p: seq<real>)
    ensures |p| == |up|
    ensures forall ch :: 0 <= ch < |up| ==> p[ch] == MaxAbs(up[ch])
  {
    seq(|up|, ch requires 0 <= ch < |up| => MaxAbs(up[ch]))
  }

  /** Every reported peak is non-negative, bounds every sample of its channel, and is one of their magnitudes or 0. */
  lemma PeaksBound(up: seq<seq<real>>, ch: nat)
    requires ch < |up|
    ensures Peaks(up)[ch] >= 0.0
    ensures forall i :: 0 <= i < |up[ch]| ==> AbsReal(up[ch][i]) <= Peaks(up)[ch]
    ensures Peaks(up)[ch] == 0.0 || exists i :: 0 <= i < |up[ch]| && Peaks(up)[ch] == AbsReal(up[ch][i])
  {
  }

  /** `linearToDb`: 20 log10(x) for positive x, -100 otherwise. */
  function LinearToDb(x: real, log10: real -> real): (r: real)
    ensures x <= 0.0 ==> r == SilenceDb
  {
    if x > 0.0 then 20.0 * log10(x) else SilenceDb
  }

  /** Where log10 increases, a louder positive peak never reads lower. */
  lemma LinearToDbMonotone(x: real, y: real, log10: real -> real)
    requires 0.0 < x <= y
    requires log10(x) <= log10(y)
    ensures LinearToDb(x, log10) <= LinearToDb(y, log10)
  {
  }

  class TruePeakDetector {
    const numChannels: nat
    /** The oversampling factor is 2^osPow2; it only configures the library oversampler. */
    const osPow2: nat
    /** The up-mix buffer handed to the oversampler. */
    var workBuffer: seq<seq<real>>

    /** The constructor: two channels and 4x oversampling by default. */
    constructor (channels: nat := 2, osPow2In: nat := 2)
      ensures numChannels == channels && osPow2 == osPow2In
      ensures workBuffer == []
    {
      numChannels := channels;
      osPow2 := osPow2In;
      workBuffer := [];
    }

    /** `prepare`: the work buffer becomes numChannels channels of maxBlockSize samples (zero here; the library leaves them unspecified). */
    method Prepare(maxBlockSize: nat)
      modifies this`workBuffer
      ensures |workBuffer| == numChannels
      ensures forall ch :: 0 <= ch < numChannels ==> workBuffer[ch] == Zeros(maxBlockSize, 0.0)
    {
      workBuffer := seq(numChannels, _ => Zeros(maxBlockSize, 0.0));
    }

    /** `processBlock`: no samples gives numChannels zero peaks; otherwise the work buffer is up-mixed from the input, oversampled, and each channel's peak reported. */
    method ProcessBlock(b: Block, oversample: seq<seq<real>> -> seq<seq<real>>) returns (peaks: seq<real>)
      requires b.Valid()
      requires b.numSamples > 0 && numChannels > 0 ==> |b.channels| >= 1
      requires b.numSamples > 0 && |b.channels| >= 1 ==> |oversample(WorkBuffer(b, numChannels))| == numChannels
      modifies this`workBuffer
      ensures |peaks| == numChannels
      ensures b.numSamples == 0 ==> peaks == Zeros(numChannels, 0.0) && workBuffer == old(workBuffer)
      ensures b.numSamples > 0 && numChannels == 0 ==> peaks == []
      ensures b.numSamples > 0 && numChannels > 0 ==>
                workBuffer == WorkBuffer(b, numChannels) && peaks == Peaks(oversample(workBuffer))
    {
      var n := b.numSamples;
      if n == 0 {
        peaks := Zeros(numChannels, 0.0);
        return;
      }
      peaks := Zeros(numChannels, 0.0);
      if numChannels == 0 {
        workBuffer := [];
        return;
      }
      UpMix(b);
      var up := oversample(workBuffer);
      var ch := 0;
      while ch < |up|
        invariant 0 <= ch <= |up| == numChannels == |peaks|
        invariant forall k :: 0 <= k < ch ==> peaks[k] == MaxAbs(up[k])
        invariant workBuffer == WorkBuffer(b, numChannels)
      {
        var m := ScanPeak(up[ch]);
        peaks := peaks[ch := m];
        ch := ch + 1;
      }
      assert peaks == Peaks(up);
    }

    /** The sizing, clearing and copying into the work buffer. */
    method UpMix(b: Block)
      requires b.Valid() && b.numSamples > 0 && |b.channels| >= 1
      modifies this`workBuffer
      ensures workBuffer == WorkBuffer(b, numChannels)
    {
      var n := b.numSamples;
      workBuffer := seq(numChannels, _ => Zeros(n, 0.0));
      if |b.channels| == 1 && numChannels >= 2 {
        workBuffer := workBuffer[0 := b.channels[0]];
        workBuffer := workBuffer[1 := b.channels[0]];
      } else {
        var srcChans := |b.channels|;
        var ch := 0;
        while ch < numChannels
          invariant 0 <= ch <= numChannels == |workBuffer|
          invariant forall k :: 0 <= k < ch ==> workBuffer[k] == WorkBuffer(b, numChannels)[k]
          invariant forall k :: ch <= k < numChannels ==> workBuffer[k] == Zeros(n, 0.0)
        {
          var srcCh := if ch < srcChans - 1 then ch else srcChans - 1;
          workBuffer := workBuffer[ch := b.channels[srcCh]];
          ch := ch + 1;
        }
      }
    }
  }
}
