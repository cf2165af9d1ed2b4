// The momentary (400 ms) and short-term (3 s) loudness windows of
// Source/LufsMeter.h. Each window is a zero-initialised ring of per-sample
// powers with a running sum kept by subtract-old / store / add-new.
//
// The K-weighting cascade (high-pass then high-shelf, per channel) and
// `log10` are library code: they are parameters here. A filter is given as a
// function from a block of channel samples to the filtered block of the
// same length.
module Loudness {
  import opened ModArith
  import opened Ring
  import opened Audio

  const MomentarySeconds: real := 0.4
  const ShortTermSeconds: real := 3.0
  /** The BS.1770 calibration offset subtracted after 10*log10 (Annex 1 of ITU-R BS.1770). */
  const Calibration: real := 0.691
  /** The reading reported for a window with no power. */
  const FloorLufs: real := -100.0

  /** `std::round` (halves away from zero) followed by the `(int)` cast. */
  function Round(x: real): (r: int)
    ensures r as real - 0.5 <= x <= r as real + 0.5
    ensures x >= 0.0 ==> x < r as real + 0.5
    ensures x < 0.0 ==> r as real - 0.5 < x
  {
    if x >= 0.0 then (x + 0.5).Floor else -((-x + 0.5).Floor)
  }

  /** Window length in samples: `jmax(1, round(seconds * sr))`. */
  function WindowSamples(seconds: real, sr: real): (r: int)
    ensures r >= 1
    ensures r == 1 || r as real - 0.5 <= seconds * sr <= r as real + 0.5
    ensures seconds * sr >= 1.5 ==> r == Round(seconds * sr)
  {
    var n := Round(seconds * sr);
    if n < 1 then 1 else n
  }

  /** The power of one stereo sample after weighting: the mean of the two channel powers. */
  function Power(l: real, r: real): (p: real)
    ensures p >= 0.0
    ensures p == 0.0 <==> l == 0.0 && r == 0.0
  {
    PowerFacts(l, r);
    0.5 * (l * l + r * r)
  }

  lemma PowerFacts(l: real, r: real)
    ensures 0.5 * (l * l + r * r) >= 0.0
    ensures 0.5 * (l * l + r * r) == 0.0 <==> l == 0.0 && r == 0.0
  {
    var a, b := l * l, r * r;
    SquareFacts(l, a);
    SquareFacts(r, b);
  }

  /** The square of a real is non-negative, and zero only for zero. */
  lemma SquareFacts(x: real, sq: real)
    requires sq == x * x
    ensures sq >= 0.0
    ensures sq == 0.0 <==> x == 0.0
  {
    if x > 0.0 {
      calc {
        sq;
        x * x;
      > { PositiveProduct(x, x); }
        0.0;
      }
    } else if x < 0.0 {
      calc {
        sq;
        (-x) * (-x);
      > { PositiveProduct(-x, -x); }
        0.0;
      }
    } else {
      calc {
        sq;
        0.0 * 0.0;
        0.0;
      }
    }
  }

  lemma PositiveProduct(a: real, b: real)
    requires a > 0.0 && b > 0.0
    ensures a * b > 0.0
  {
  }

  /** The per-sample powers of a weighted stereo block. */
  function Powers(ls: seq<real>, rs: seq<real>): (ps: seq<real>)
    requires |ls| == |rs|
    ensures |ps| == |ls|
    ensures forall i :: 0 <= i < |ps| ==> ps[i] == Power(ls[i], rs[i])
  {
    seq(|ls|, i requires 0 <= i < |ls| => Power(ls[i], rs[i]))
  }

  /** `avgPower`: the window's sum over its full length (0 for a non-positive length). */
  function AvgPower(sum: real, n: int): (r: real)
    ensures n <= 0 ==> r == 0.0
    ensures n > 0 ==> r * (n as real) == sum
    ensures n > 0 && sum >= 0.0 ==> r >= 0.0
  {
    if n > 0 then sum / (n as real) else 0.0
  }

  /** `powerToLufs`: -0.691 + 10*log10(mean power), or the floor when there is no power. */
  function PowerToLufs(meanPower: real, log10: real -> real): (r: real)
    ensures meanPower <= 0.0 ==> r == FloorLufs
    ensures meanPower > 0.0 ==> r == 10.0 * log10(meanPower) - Calibration
  {
    if meanPower <= 0.0 then FloorLufs else 10.0 * log10(meanPower) - Calibration
  }

  /** The two channels the meter weights: channels 0 and 1 of a stereo block, channel 0 twice for mono. */
  function WorkChannels(b: Block): (lr: (seq<real>, seq<real>))
    requires b.Valid() && |b.channels| >= 1
    ensures |lr.0| == b.numSamples && |lr.1| == b.numSamples
    ensures |b.channels| >= 2 ==> lr.0 == b.channels[0] && lr.1 == b.channels[1]
    ensures |b.channels| == 1 ==> lr.0 == lr.1 == b.channels[0]
  {
    if |b.channels| >= 2 then (b.channels[0], b.channels[1]) else (b.channels[0], b.channels[0])
  }

  ghost predicate LengthPreserving(f: seq<real> -> seq<real>)
  {
    forall x :: |f(x)| == |x|
  }

  /** The powers a non-empty block contributes, after each channel has been through its filter. */
  function BlockPowers(b: Block, kL: seq<real> -> seq<real>, kR: seq<real> -> seq<real>): (ps: seq<real>)
    requires b.Valid() && |b.channels| >= 1
    requires LengthPreserving(kL) && LengthPreserving(kR)
    ensures |ps| == b.numSamples
    ensures forall i :: 0 <= i < |ps| ==> ps[i] >= 0.0
  {
    var lr := WorkChannels(b);
    Powers(kL(lr.0), kR(lr.1))
  }

  /** A ring kept per the discipline holds, in its running sum, the total of the last w powers. */
  lemma WindowMean(ring: seq<real>, h: seq<real>, w: int, sum: real)
    ensures w > 0 && ring == RingOf(h, w, 0.0) && sum == Sum(ring) ==>
      AvgPower(sum, w) == Sum(Recent(h, w, 0.0)) / (w as real)
  {
    if w > 0 && ring == RingOf(h, w, 0.0) && sum == Sum(ring) {
      RingSum(h, w);
    }
  }

  /** Silence floor: once the last w pushed powers are all zero, the window reads the floor. */
  lemma SilentWindowReadsFloor(h: seq<real>, w: nat, log10: real -> real)
    requires w > 0
    requires forall i :: |h| - w <= i < |h| && 0 <= i ==> h[i] == 0.0
    ensures PowerToLufs(Sum(Recent(h, w, 0.0)) / (w as real), log10) == FloorLufs
  {
    var recent := Recent(h, w, 0.0);
    forall k | 0 <= k < w
      ensures recent[k] == 0.0
    {
      var padded := Zeros(w, 0.0) + h;
      assert recent[k] == padded[|h| + k];
      if |h| + k >= w {
        assert padded[|h| + k] == h[|h| + k - w];
      }
    }
    SumAllZero(recent);
  }

  /** A window of non-negative powers never has a negative mean. */
  lemma RecentMeanNonNegative(h: seq<real>, w: nat)
    requires w > 0
    requires forall i :: 0 <= i < |h| ==> h[i] >= 0.0
    ensures Sum(Recent(h, w, 0.0)) / (w as real) >= 0.0
  {
    var recent := Recent(h, w, 0.0);
    var padded := Zeros(w, 0.0) + h;
    forall k | 0 <= k < w
      ensures recent[k] >= 0.0
    {
      assert recent[k] == padded[|h| + k];
    }
    SumNonNegative(recent);
  }

  /** One window's per-sample step: subtract the slot's old power, store p there, add p, advance the index. */
  method PushPower(ring: array<real>, idx: int, sum: real, ghost h: seq<real>, p: real)
    returns (idx': int, sum': real)
    requires ring.Length > 0
    requires ring[..] == RingOf(h, ring.Length, 0.0)
    requires idx == |h| % ring.Length && sum == Sum(ring[..])
    modifies ring
    ensures ring[..] == old(ring[..])[idx := p]
    ensures ring[..] == RingOf(h + [p], ring.Length, 0.0)
    ensures idx' == (idx + 1) % ring.Length && idx' == |h + [p]| % ring.Length
    ensures sum' == old(sum - ring[idx]) + p && sum' == Sum(ring[..])
  {
    ghost var before := ring[..];
    sum' := sum - ring[idx];
    ring[idx] := p;
    sum' := sum' + p;
    SumUpdate(before, idx, p);
    RingWrite(h, p, ring.Length, 0.0);
    ModStep(|h|, ring.Length);
    idx' := (idx + 1) % ring.Length;
  }

  class LufsMeter {
    var sampleRate: real
    var mWinSamples: int
    var sWinSamples: int
    var mRing: array<real>
    var sRing: array<real>
    var mIdx: int
    var sIdx: int
    var mSum: real
    var sSum: real
    /** The powers pushed since the last prepare or clear, oldest first. */
    ghost var powers: seq<real>

    /** Sized by a prepare: both windows at least one sample long, rings of those lengths. */
    ghost predicate Prepared()
      reads this
    {
      && mWinSamples >= 1 && sWinSamples >= 1
      && mRing.Length == mWinSamples && sRing.Length == sWinSamples
      && mRing != sRing
    }

    ghost predicate Valid()
      reads this, mRing, sRing
    {
      && Prepared()
      && mRing[..] == RingOf(powers, mWinSamples, 0.0)
      && sRing[..] == RingOf(powers, sWinSamples, 0.0)
      && mIdx == |powers| % mWinSamples
      && sIdx == |powers| % sWinSamples
      && mSum == Sum(mRing[..])
      && sSum == Sum(sRing[..])
    }

    /** The member initialisers: 48 kHz, one-sample windows, empty rings (not yet prepared). */
    constructor ()
      ensures sampleRate == 48000.0 && mWinSamples == 1 && sWinSamples == 1
      ensures mRing.Length == 0 && sRing.Length == 0 && mRing != sRing
      ensures mIdx == 0 && sIdx == 0 && mSum == 0.0 && sSum == 0.0
      ensures !Prepared()
    {
      sampleRate := 48000.0;
      mWinSamples, sWinSamples := 1, 1;
      mRing := new real[0];
      sRing := new real[0];
      mIdx, sIdx := 0, 0;
      mSum, sSum := 0.0, 0.0;
      powers := [];
    }

    /** `prepare`: size both windows for the new rate and zero all state. */
    method Prepare(sr: real)
      modifies this
      ensures Valid() && fresh(mRing) && fresh(sRing)
      ensures sampleRate == sr
      ensures mWinSamples == WindowSamples(MomentarySeconds, sr)
      ensures sWinSamples == WindowSamples(ShortTermSeconds, sr)
      ensures mRing[..] == Zeros(mWinSamples, 0.0) && sRing[..] == Zeros(sWinSamples, 0.0)
      ensures mIdx == 0 && sIdx == 0 && mSum == 0.0 && sSum == 0.0
      ensures powers == []
    {
      sampleRate := sr;
      mWinSamples := WindowSamples(MomentarySeconds, sr);
      sWinSamples := WindowSamples(ShortTermSeconds, sr);
      mRing := new real[mWinSamples](_ => 0.0);
      sRing := new real[sWinSamples](_ => 0.0);
      mIdx, sIdx := 0, 0;
      mSum, sSum := 0.0, 0.0;
      powers := [];
      assert mRing[..] == Zeros(mWinSamples, 0.0);
      assert sRing[..] == Zeros(sWinSamples, 0.0);
      assert RingOf(powers, mWinSamples, 0.0) == Zeros(mWinSamples, 0.0);
      assert RingOf(powers, sWinSamples, 0.0) == Zeros(sWinSamples, 0.0);
      SumZeros(mWinSamples);
      SumZeros(sWinSamples);
      ModSmall(0, mWinSamples);
      ModSmall(0, sWinSamples);
      assert Prepared();
      assert mRing[..] == RingOf(powers, mWinSamples, 0.0);
      assert sRing[..] == RingOf(powers, sWinSamples, 0.0);
      assert mIdx == |powers| % mWinSamples;
      assert sIdx == |powers| % sWinSamples;
      assert mSum == Sum(mRing[..]);
      assert sSum == Sum(sRing[..]);
    }

    /** `clear`: zero both rings, indices and sums without resizing anything. */
    method Clear()
      modifies this, mRing, sRing
      ensures mRing == old(mRing) && sRing == old(sRing)
      ensures mWinSamples == old(mWinSamples) && sWinSamples == old(sWinSamples)
      ensures sampleRate == old(sampleRate)
      ensures mRing[..] == Zeros(mRing.Length, 0.0) && sRing[..] == Zeros(sRing.Length, 0.0)
      ensures mIdx == 0 && sIdx == 0 && mSum == 0.0 && sSum == 0.0
      ensures powers == []
      ensures old(Prepared()) ==> Valid()
    {
      Fill(mRing, 0.0);
      Fill(sRing, 0.0);
      mIdx, sIdx := 0, 0;
      mSum, sSum := 0.0, 0.0;
      powers := [];
      SumZeros(mRing.Length);
      SumZeros(sRing.Length);
    }

    /** `processBlock`: weight the block and push each sample's power into both windows. */
    method ProcessBlock(input: Block, kL: seq<real> -> seq<real>, kR: seq<real> -> seq<real>)
      requires Valid() && input.Valid()
      requires input.numSamples > 0 ==> |input.channels| >= 1
      requires LengthPreserving(kL) && LengthPreserving(kR)
      modifies this, mRing, sRing
      ensures Valid()
      ensures mRing == old(mRing) && sRing == old(sRing)
      ensures mWinSamples == old(mWinSamples) && sWinSamples == old(sWinSamples)
      ensures sampleRate == old(sampleRate)
      ensures input.numSamples == 0 ==>
                powers == old(powers) && mRing[..] == old(mRing[..]) && sRing[..] == old(sRing[..])
                && mIdx == old(mIdx) && sIdx == old(sIdx) && mSum == old(mSum) && sSum == old(sSum)
      ensures input.numSamples > 0 ==> powers == old(powers) + BlockPowers(input, kL, kR)
    {
      var n := input.numSamples;
      if n <= 0 {
        return;
      }
      var lr := WorkChannels(input);
      PushWeighted(kL(lr.0), kR(lr.1));
    }

    /** The per-sample loop of `processBlock`, over the K-weighted left and right channels. */
    method PushWeighted(ls: seq<real>, rs: seq<real>)
      requires Valid() && |ls| == |rs|
      modifies this`mIdx, this`sIdx, this`mSum, this`sSum, this`powers, mRing, sRing
      ensures Valid()
      ensures powers == old(powers) + Powers(ls, rs)
    {
      var i := 0;
      while i < |ls|
        invariant 0 <= i <= |ls|
        invariant Valid()
        invariant powers == old(powers) + Powers(ls, rs)[..i]
      {
        PushSample(Power(ls[i], rs[i]));
        ExtendPrefix(old(powers), Powers(ls, rs), i);
        i := i + 1;
      }
      assert Powers(ls, rs)[..|ls|] == Powers(ls, rs);
    }

    /** One sample's power into both windows: momentary (400 ms) and short-term (3 s). */
    method PushSample(p: real)
      requires Valid()
      modifies this`mIdx, this`sIdx, this`mSum, this`sSum, this`powers, mRing, sRing
      ensures Valid()
      ensures powers == old(powers) + [p]
    {
      mIdx, mSum := PushPower(mRing, mIdx, mSum, powers, p);
      sIdx, sSum := PushPower(sRing, sIdx, sSum, powers, p);
      powers := powers + [p];
    }

    /** `getMomentaryLUFS`: the loudness of the mean power over the full 400 ms window. */
    function MomentaryLufs(log10: real -> real): (r: real)
      reads this, mRing, sRing
      ensures Valid() ==>
        r == PowerToLufs(Sum(Recent(powers, mWinSamples, 0.0)) / (mWinSamples as real), log10)
    {
      WindowMean(mRing[..], powers, mWinSamples, mSum);
      PowerToLufs(AvgPower(mSum, mWinSamples), log10)
    }

    /** `getShortTermLUFS`: the loudness of the mean power over the full 3 s window. */
    function ShortTermLufs(log10: real -> real): (r: real)
      reads this, mRing, sRing
      ensures Valid() ==>
        r == PowerToLufs(Sum(Recent(powers, sWinSamples, 0.0)) / (sWinSamples as real), log10)
    {
      WindowMean(sRing[..], powers, sWinSamples, sSum);
      PowerToLufs(AvgPower(sSum, sWinSamples), log10)
    }
  }
}
