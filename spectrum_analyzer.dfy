// The single-trace spectrum analyser of Source/SpectrumAnalyzer.h: the
// down-mix accumulator that schedules overlapping frames, and the per-bin
// post-processing after the FFT (clamp, exponential smoothing in time,
// triangular smoothing across bins).
//
// The Hann window, the FFT and the magnitude-to-dB conversion are library
// code: `analyse` maps a frame of fftSize samples to fftSize/2 raw dB values.
module Spectrum {
  import opened Ring
  import opened Audio

  /** Headroom kept below maxDb so the trace never touches the top edge. */
  const Headroom: real := 0.8
  /** Both magnitude arrays start at this value, below any default range. */
  const InitialDb: real := -120.0
  /** The rate used when a non-positive one is supplied. */
  const FallbackSampleRate: real := 44100.0

  /** `1 << order`. */
  function Pow2(n: nat): (r: nat)
    ensures r >= 1
    ensures n >= 2 ==> r % 4 == 0
  {
    if n == 0 then 1 else if n == 1 then 2 else 4 * Pow2(n - 2)
  }

  // ---- Per-bin clamp ----

  function MinReal(x: real, y: real): real
  {
    if y < x then y else x
  }

  /** `jmin(dB, maxDb - headroom)` followed by `jlimit(minDb, maxDb, .)`. */
  function ClampDb(x: real, minDb: real, maxDb: real): (r: real)
    ensures minDb <= maxDb ==> minDb <= r <= maxDb
    ensures minDb <= maxDb - Headroom ==> minDb <= r <= maxDb - Headroom
    ensures minDb <= x <= maxDb - Headroom ==> r == x
  {
    Limit(minDb, maxDb, MinReal(x, maxDb - Headroom))
  }

  /** The clamp keeps the order of the values it is given. */
  lemma ClampMonotone(x: real, y: real, minDb: real, maxDb: real)
    requires x <= y && minDb <= maxDb
    ensures ClampDb(x, minDb, maxDb) <= ClampDb(y, minDb, maxDb)
  {
  }

  function ClampAll(raw: seq<real>, minDb: real, maxDb: real): (r: seq<real>)
    ensures |r| == |raw|
    ensures forall b :: 0 <= b < |r| ==> r[b] == ClampDb(raw[b], minDb, maxDb)
  {
    seq(|raw|, b requires 0 <= b < |raw| => ClampDb(raw[b], minDb, maxDb))
  }

  // ---- Exponential smoothing in time ----

  /** One EMA step per bin: weight `a` on the new value, `1 - a` on the previous one. */
  function EmaStep(a: real, x: seq<real>, y: seq<real>): (r: seq<real>)
    requires |x| == |y|
    ensures |r| == |x|
    ensures forall b :: 0 <= b < |r| ==> r[b] == Blend(a, x[b], y[b])
    ensures 0.0 <= a <= 1.0 ==> forall b :: 0 <= b < |r| ==> Between(r[b], x[b], y[b])
    ensures a == 1.0 ==> r == x
    ensures a == 0.0 ==> r == y
  {
    seq(|x|, b requires 0 <= b < |x| => Blend(a, x[b], y[b]))
  }

  /** n steps of the EMA of one bin fed the same value x every frame, starting from y. */
  function EmaIter(a: real, x: real, y: real, n: nat): real
  {
    if n == 0 then y else Blend(a, x, EmaIter(a, x, y, n - 1))
  }

  function PowReal(b: real, n: nat): real
  {
    if n == 0 then 1.0 else b * PowReal(b, n - 1)
  }

  /** A steady input is approached geometrically: the gap shrinks by (1 - a) per frame. */
  lemma {:induction false} EmaIterGap(a: real, x: real, y: real, n: nat)
    ensures EmaIter(a, x, y, n) - x == PowReal(1.0 - a, n) * (y - x)
  {
    if n > 0 {
      var prev := EmaIter(a, x, y, n - 1);
      var g := PowReal(1.0 - a, n - 1);
      assert EmaIter(a, x, y, n) == Blend(a, x, prev);
      assert PowReal(1.0 - a, n) == (1.0 - a) * g;
      EmaIterGap(a, x, y, n - 1);
      EmaGapStep(a, x, y, prev, g, PowReal(1.0 - a, n));
    }
  }

  /** One EMA step multiplies the gap to the input by (1 - a). */
  lemma EmaGapStep(a: real, x: real, y: real, prev: real, g: real, g': real)
    requires prev - x == g * (y - x)
    requires g' == (1.0 - a) * g
    ensures Blend(a, x, prev) - x == g' * (y - x)
  {
    calc {
      Blend(a, x, prev) - x;
      a * x + (1.0 - a) * prev - x;
      (1.0 - a) * (prev - x);
      (1.0 - a) * (g * (y - x));
      ((1.0 - a) * g) * (y - x);
    }
  }

  // ---- Triangular smoothing across bins ----

  function Abs(k: int): nat
  {
    if k < 0 then -k else k
  }

  /** The weight `r + 1 - |k|` of the neighbour at offset k. */
  function Weight(r: int, k: int): int
  {
    r + 1 - Abs(k)
  }

  /** The weights of offsets -r .. k-1. */
  function WeightTotal(r: int, k: int): int
    requires 0 <= r && -r <= k <= r + 1
    decreases k + r
  {
    if k == -r then 0 else WeightTotal(r, k - 1) + Weight(r, k - 1)
  }

  /** The neighbour read at offset k from bin i, its index clamped into [0, N-1]. */
  function Neighbour(ema: seq<real>, i: int, k: int): real
    requires |ema| >= 1
  {
    ema[LimitInt(0, |ema| - 1, i + k)]
  }

  /** The weighted values of offsets -r .. k-1 around bin i. */
  function WeightedTotal(ema: seq<real>, i: int, r: int, k: int): real
    requires |ema| >= 1 && 0 <= r && -r <= k <= r + 1
    decreases k + r
  {
    if k == -r then 0.0
    else WeightedTotal(ema, i, r, k - 1) + (Weight(r, k - 1) as real) * Neighbour(ema, i, k - 1)
  }

  /** Smoothed bin i: the weighted sum over the window divided by `jmax(1, wsum)`. */
  function SmoothBin(ema: seq<real>, i: int, r: int): real
    requires |ema| >= 1 && r >= 0
  {
    WeightedTotal(ema, i, r, r + 1) / MaxOf(1.0, WeightTotal(r, r + 1) as real)
  }

  function FreqSmooth(ema: seq<real>, r: int): (out: seq<real>)
    requires r >= 0
    ensures |out| == |ema|
    ensures forall i :: 0 <= i < |out| ==> out[i] == SmoothBin(ema, i, r)
  {
    seq(|ema|, i requires 0 <= i < |ema| => SmoothBin(ema, i, r))
  }

  lemma {:induction false} WeightRising(r: int, k: int)
    requires 0 <= r && -r <= k <= 1
    decreases k + r
    ensures 2 * WeightTotal(r, k) == (k + r) * (k + r + 1)
  {
    if k > -r {
      WeightRising(r, k - 1);
      var m := k - 1 + r;
      assert Weight(r, k - 1) == m + 1;
      assert (m + 1) * (m + 2) == m * (m + 1) + 2 * (m + 1);
    }
  }

  lemma {:induction false} WeightFalling(r: int, k: int)
    requires 0 <= r && 1 <= k <= r + 1
    ensures 2 * WeightTotal(r, k) == (r + 1) * (r + 2) + (k - 1) * (2 * r + 2 - k)
  {
    if k == 1 {
      WeightRising(r, 1);
    } else {
      WeightFalling(r, k - 1);
      var a := 2 * r + 2 - k;
      assert Weight(r, k - 1) == r + 2 - k;
      assert (k - 2) * (a + 1) == (k - 2) * a + (k - 2);
      assert (k - 1) * a == (k - 2) * a + a;
    }
  }

  /** The triangular weights of radius r add up to (r + 1)^2. */
  lemma WeightTotalIsSquare(r: int)
    requires r >= 0
    ensures WeightTotal(r, r + 1) == (r + 1) * (r + 1)
    ensures WeightTotal(r, r + 1) >= 1
  {
    WeightFalling(r, r + 1);
    SquareOfSuccessor(r);
  }

  lemma SquareOfSuccessor(r: int)
    requires r >= 0
    ensures (r + 1) * (r + 2) + (r + 1 - 1) * (2 * r + 2 - (r + 1)) == 2 * ((r + 1) * (r + 1))
    ensures (r + 1) * (r + 1) >= 1
  {
    assert (r + 1) * (r + 2) == (r + 1) * (r + 1) + (r + 1);
    assert r * (r + 1) == (r + 1) * (r + 1) - (r + 1);
    assert (r + 1) * (r + 1) == r * (r + 1) + (r + 1);
  }

  lemma MulMono(w: real, a: real, b: real)
    requires w >= 0.0 && a <= b
    ensures w * a <= w * b
  {
    assert w * b - w * a == w * (b - a);
  }

  lemma {:induction false} WeightedBounds(ema: seq<real>, i: int, r: int, k: int, lo: real, hi: real)
    requires |ema| >= 1 && 0 <= r && -r <= k <= r + 1
    requires forall j :: 0 <= j < |ema| ==> lo <= ema[j] <= hi
    decreases k + r
    ensures lo * (WeightTotal(r, k) as real) <= WeightedTotal(ema, i, r, k) <= hi * (WeightTotal(r, k) as real)
  {
    if k > -r {
      WeightedBounds(ema, i, r, k - 1, lo, hi);
      var w := Weight(r, k - 1) as real;
      var t := WeightTotal(r, k - 1) as real;
      var total := WeightTotal(r, k) as real;
      assert total == t + w;
      StepBounds(lo, hi, t, w, WeightedTotal(ema, i, r, k - 1), Neighbour(ema, i, k - 1));
      assert lo * total == lo * (t + w);
      assert hi * total == hi * (t + w);
    } else {
      assert WeightTotal(r, k) as real == 0.0;
      assert lo * 0.0 == 0.0 && hi * 0.0 == 0.0;
    }
  }

  /** Adding w * v, with v in [lo, hi] and w >= 0, keeps a weighted total between lo and hi times the weight. */
  lemma StepBounds(lo: real, hi: real, t: real, w: real, acc: real, v: real)
    requires lo * t <= acc <= hi * t && w >= 0.0 && lo <= v <= hi
    ensures lo * (t + w) <= acc + w * v <= hi * (t + w)
  {
    MulMono(w, lo, v);
    MulMono(w, v, hi);
    assert lo * (t + w) == lo * t + w * lo;
    assert hi * (t + w) == hi * t + w * hi;
  }

  /** Each smoothed bin lies within the range of the values it averages. */
  lemma SmoothBinWithin(ema: seq<real>, i: int, r: int, lo: real, hi: real)
    requires |ema| >= 1 && r >= 0
    requires forall j :: 0 <= j < |ema| ==> lo <= ema[j] <= hi
    ensures lo <= SmoothBin(ema, i, r) <= hi
  {
    var v := WeightedTotal(ema, i, r, r + 1);
    var w := WeightTotal(r, r + 1) as real;
    assert SmoothBin(ema, i, r) == v / MaxOf(1.0, w);
    WeightTotalAtLeastOne(r);
    WeightedBounds(ema, i, r, r + 1, lo, hi);
    RatioWithin(v, w, lo, hi);
  }

  lemma WeightTotalAtLeastOne(r: int)
    requires r >= 0
    ensures WeightTotal(r, r + 1) >= 1
  {
    WeightTotalIsSquare(r);
  }

  /** `v / jmax(1, w)` with w >= 1 inherits the bounds of v / w. */
  lemma RatioWithin(v: real, w: real, lo: real, hi: real)
    requires w >= 1.0 && lo * w <= v <= hi * w
    ensures lo <= v / MaxOf(1.0, w) <= hi
  {
    assert MaxOf(1.0, w) == w;
    DivBetween(v, w, lo, hi);
  }

  /** The smoothed trace stays within the range of the time-smoothed one. */
  lemma FreqSmoothWithin(ema: seq<real>, r: int, lo: real, hi: real)
    requires r >= 0
    requires forall j :: 0 <= j < |ema| ==> lo <= ema[j] <= hi
    ensures forall i :: 0 <= i < |ema| ==> lo <= FreqSmooth(ema, r)[i] <= hi
  {
    forall i | 0 <= i < |ema|
      ensures lo <= FreqSmooth(ema, r)[i] <= hi
    {
      SmoothBinWithin(ema, i, r, lo, hi);
    }
  }

  /** The inner loop over offsets -r..r for bin i: accumulate weights and weighted values. */
  method SmoothBinAt(ema: array<real>, i: int, r: int) returns (v: real)
    requires 0 <= i < ema.Length && r >= 0
    ensures v == SmoothBin(ema[..], i, r)
  {
    var n := ema.Length;
    var wsum, vsum := 0.0, 0.0;
    var k := -r;
    while k <= r
      invariant -r <= k <= r + 1
      invariant wsum == WeightTotal(r, k) as real
      invariant vsum == WeightedTotal(ema[..], i, r, k)
    {
      var j := LimitInt(0, n - 1, i + k);
      var w := (r + 1 - Abs(k)) as real;
      wsum := wsum + w;
      vsum := vsum + w * ema[j];
      k := k + 1;
    }
    v := vsum / MaxOf(1.0, wsum);
  }


  // ---- Frame schedule ----

  /** Samples between the ends of two consecutive frames: 2 * hop (one sample when hop is 0). */
  function Period(hop: nat): (p: nat)
    ensures p >= 1
    ensures hop > 0 ==> p == 2 * hop
  {
    if hop == 0 then 1 else 2 * hop
  }

  /** The number of down-mixed samples at which frame k fires: fftSize + hop, then every Period(hop) samples. */
  function FrameEnd(size: nat, hop: nat, k: nat): (e: nat)
    ensures e >= size + hop
  {
    if k == 0 then size + hop else FrameEnd(size, hop, k - 1) + Period(hop)
  }

  /** Frame k ends at fftSize + hop + k * Period(hop). */
  lemma {:induction false} FrameEndClosedForm(size: nat, hop: nat, k: nat)
    ensures FrameEnd(size, hop, k) == size + hop + k * Period(hop)
  {
    if k > 0 {
      FrameEndClosedForm(size, hop, k - 1);
      assert k * Period(hop) == (k - 1) * Period(hop) + Period(hop);
    }
  }

  lemma {:induction false} FrameEndMonotone(size: nat, hop: nat, j: nat, k: nat)
    requires j <= k
    ensures FrameEnd(size, hop, j) <= FrameEnd(size, hop, k)
    decreases k
  {
    if j < k {
      FrameEndMonotone(size, hop, j, k - 1);
    }
  }

  /** Every frame so far is the fftSize samples of the history that end at its firing point. */
  ghost predicate FramesMatch(size: nat, hop: nat, mono: seq<real>, frames: seq<seq<real>>)
  {
    forall k :: 0 <= k < |frames| ==>
      FrameEnd(size, hop, k) <= |mono|
      && frames[k] == mono[FrameEnd(size, hop, k) - size..FrameEnd(size, hop, k)]
  }

  /** The accumulator is the tail of the history not yet consumed, and its length says where the next frame fires. */
  ghost predicate ScheduleHolds(size: nat, hop: nat, ring: seq<real>, mono: seq<real>, frames: seq<seq<real>>)
    requires 4 * hop <= size
  {
    && |ring| <= |mono| && ring == mono[|mono| - |ring|..]
    && (frames == [] ==> ring == mono && |ring| < size + hop)
    && (frames != [] ==>
          && size - hop <= |ring| < size - hop + Period(hop)
          && |mono| == FrameEnd(size, hop, |frames| - 1) + |ring| - (size - hop))
    && FramesMatch(size, hop, mono, frames)
  }

  /** Nothing pushed, nothing analysed: the schedule starts from an empty accumulator. */
  lemma EmptySchedule(size: nat, hop: nat)
    requires 4 * hop <= size && size >= 1
    ensures ScheduleHolds(size, hop, [], [], [])
  {
  }

  /** Appending a sample below the trigger length keeps the schedule; reaching it means the next frame ends exactly here. */
  lemma AppendKeepsSchedule(size: nat, hop: nat, ring: seq<real>, mono: seq<real>, frames: seq<seq<real>>, s: real)
    requires 4 * hop <= size
    requires ScheduleHolds(size, hop, ring, mono, frames)
    ensures |ring + [s]| < size + hop ==> ScheduleHolds(size, hop, ring + [s], mono + [s], frames)
    ensures |ring + [s]| >= size + hop ==>
              && |mono + [s]| == FrameEnd(size, hop, |frames|)
              && size <= |ring + [s]| <= |mono + [s]|
              && ring + [s] == (mono + [s])[|mono + [s]| - |ring + [s]|..]
              && FramesMatch(size, hop, mono + [s], frames)
  {
    var ring', mono' := ring + [s], mono + [s];
    assert ring' == mono'[|mono'| - |ring'|..];
    forall k | 0 <= k < |frames|
      ensures FrameEnd(size, hop, k) <= |mono'|
      ensures frames[k] == mono'[FrameEnd(size, hop, k) - size..FrameEnd(size, hop, k)]
    {
      assert mono[FrameEnd(size, hop, k) - size..FrameEnd(size, hop, k)]
          == mono'[FrameEnd(size, hop, k) - size..FrameEnd(size, hop, k)];
    }
    if frames != [] {
    }
  }

  /** Firing records the last fftSize samples as a frame and keeps the last fftSize - hop; the schedule holds again. */
  lemma FireKeepsSchedule(size: nat, hop: nat, ring: seq<real>, mono: seq<real>, frames: seq<seq<real>>)
    requires 4 * hop <= size
    requires |mono| == FrameEnd(size, hop, |frames|)
    requires size <= |ring| <= |mono| && ring == mono[|mono| - |ring|..]
    requires FramesMatch(size, hop, mono, frames)
    ensures ScheduleHolds(size, hop, ring[|ring| - (size - hop)..], mono, frames + [ring[|ring| - size..]])
  {
    TailOfTail(ring, mono, size);
    TailOfTail(ring, mono, size - hop);
    FireFramesMatch(size, hop, mono, frames, ring[|ring| - size..]);
  }

  /** The last n samples of a tail of the history are the last n samples of the history. */
  lemma TailOfTail(ring: seq<real>, mono: seq<real>, n: nat)
    requires n <= |ring| <= |mono| && ring == mono[|mono| - |ring|..]
    ensures ring[|ring| - n..] == mono[|mono| - n..]
  {
  }

  lemma FireFramesMatch(size: nat, hop: nat, mono: seq<real>, frames: seq<seq<real>>, frame: seq<real>)
    requires |mono| == FrameEnd(size, hop, |frames|) && size <= |mono|
    requires FramesMatch(size, hop, mono, frames)
    requires frame == mono[|mono| - size..]
    ensures FramesMatch(size, hop, mono, frames + [frame])
  {
    var frames' := frames + [frame];
    forall k | 0 <= k < |frames'|
      ensures FrameEnd(size, hop, k) <= |mono|
      ensures frames'[k] == mono[FrameEnd(size, hop, k) - size..FrameEnd(size, hop, k)]
    {
      if k < |frames| {
        assert frames'[k] == frames[k];
      }
    }
  }

  /** Frame k has fired exactly when the history has reached its firing point. */
  lemma FramesAreDue(size: nat, hop: nat, ring: seq<real>, mono: seq<real>, frames: seq<seq<real>>, k: nat)
    requires 4 * hop <= size
    requires ScheduleHolds(size, hop, ring, mono, frames)
    ensures k < |frames| <==> FrameEnd(size, hop, k) <= |mono|
  {
    if k >= |frames| {
      if frames == [] {
        FrameEndMonotone(size, hop, 0, k);
      } else {
          FrameEndMonotone(size, hop, |frames|, k);
      }
    }
  }

  /** Consecutive frames share all but Period(hop) samples: with hop = fftSize/4 they overlap by half, not by three quarters. */
  lemma FramesOverlap(size: nat, hop: nat, mono: seq<real>, frames: seq<seq<real>>, k: nat)
    requires 4 * hop <= size && size >= 1
    requires FramesMatch(size, hop, mono, frames)
    requires k + 1 < |frames|
    ensures Period(hop) <= size
    ensures |frames[k]| == |frames[k + 1]| == size
    ensures frames[k + 1][..size - Period(hop)] == frames[k][Period(hop)..]
  {
    var e := FrameEnd(size, hop, k);
    var p := Period(hop);
    assert FrameEnd(size, hop, k + 1) == e + p;
    assert frames[k + 1] == mono[e + p - size..e + p];
    assert frames[k] == mono[e - size..e];
  }

  // ---- The accumulator, as a function of the samples pushed ----

  /** What the sample loop leaves: the accumulator, and the frames fired on the way, in firing order. */
  datatype Fed = Fed(ring: seq<real>, fired: seq<seq<real>>)

  /** One pass of the sample loop: append x; once the accumulator holds size + hop samples, fire on its last `size` and keep only its last size - hop. */
  function FeedOne(size: nat, hop: nat, ring: seq<real>, x: real): (f: Fed)
    requires hop <= size
    ensures |f.fired| <= 1
    ensures forall k :: 0 <= k < |f.fired| ==> |f.fired[k]| == size
    ensures f.fired != [] ==> |f.ring| == size - hop
    ensures 0 < hop && |ring| < size + hop ==> |f.ring| < size + hop
  {
    var r := ring + [x];
    if |r| >= size + hop then Fed(r[|r| - (size - hop)..], [r[|r| - size..]])
    else Fed(r, [])
  }

  /** The sample loop over xs, starting from the accumulator `ring`. */
  function Feed(size: nat, hop: nat, ring: seq<real>, xs: seq<real>): (f: Fed)
    requires hop <= size
    ensures forall k :: 0 <= k < |f.fired| ==> |f.fired[k]| == size
    decreases |xs|
  {
    if xs == [] then Fed(ring, [])
    else
      var f := Feed(size, hop, ring, xs[..|xs| - 1]);
      var g := FeedOne(size, hop, f.ring, xs[|xs| - 1]);
      Fed(g.ring, f.fired + g.fired)
  }

  /** Feeding the first i + 1 samples is feeding the first i, then one pass more. */
  lemma FeedSnoc(size: nat, hop: nat, ring: seq<real>, xs: seq<real>, i: nat)
    requires hop <= size && i < |xs|
    ensures Feed(size, hop, ring, xs[..i + 1]).ring
         == FeedOne(size, hop, Feed(size, hop, ring, xs[..i]).ring, xs[i]).ring
    ensures Feed(size, hop, ring, xs[..i + 1]).fired
         == Feed(size, hop, ring, xs[..i]).fired + FeedOne(size, hop, Feed(size, hop, ring, xs[..i]).ring, xs[i]).fired
  {
    assert xs[..i + 1][..i] == xs[..i];
  }

  /** The accumulator never reaches fftSize + hop samples once a push returns (for hop > 0). */
  lemma {:induction false} AccumulatorBounded(size: nat, hop: nat, ring: seq<real>, xs: seq<real>)
    requires 0 < hop <= size && |ring| < size + hop
    ensures |Feed(size, hop, ring, xs).ring| < size + hop
    decreases |xs|
  {
    if xs != [] {
      AccumulatorBounded(size, hop, ring, xs[..|xs| - 1]);
    }
  }

  /** Block boundaries do not matter: pushing xs and then ys is pushing xs + ys. */
  lemma {:induction false} FeedAppend(size: nat, hop: nat, ring: seq<real>, xs: seq<real>, ys: seq<real>)
    requires hop <= size
    ensures Feed(size, hop, ring, xs + ys).ring == Feed(size, hop, Feed(size, hop, ring, xs).ring, ys).ring
    ensures Feed(size, hop, ring, xs + ys).fired
         == Feed(size, hop, ring, xs).fired + Feed(size, hop, Feed(size, hop, ring, xs).ring, ys).fired
    decreases |ys|
  {
    var a := Feed(size, hop, ring, xs);
    if ys == [] {
      assert xs + ys == xs;
    } else {
      var ys' := ys[..|ys| - 1];
      var y := ys[|ys| - 1];
      var b := Feed(size, hop, a.ring, ys');
      var c := FeedOne(size, hop, b.ring, y);
      DropLastOfAppend(xs, ys);
      AppendAssoc(a.fired, b.fired, c.fired);
      FeedAppend(size, hop, ring, xs, ys');
    }
  }

  /** One pass of the loop keeps the schedule, over the history grown by x. */
  lemma FeedOneKeepsSchedule(size: nat, hop: nat, ring: seq<real>, mono: seq<real>, frames: seq<seq<real>>, x: real)
    requires 4 * hop <= size
    requires ScheduleHolds(size, hop, ring, mono, frames)
    ensures ScheduleHolds(size, hop, FeedOne(size, hop, ring, x).ring, mono + [x], frames + FeedOne(size, hop, ring, x).fired)
  {
    if |ring + [x]| >= size + hop {
      FeedOneFires(size, hop, ring, mono, frames, x);
    } else {
      FeedOneWaits(size, hop, ring, mono, frames, x);
    }
  }

  lemma FeedOneFires(size: nat, hop: nat, ring: seq<real>, mono: seq<real>, frames: seq<seq<real>>, x: real)
    requires 4 * hop <= size && |ring + [x]| >= size + hop
    requires ScheduleHolds(size, hop, ring, mono, frames)
    ensures ScheduleHolds(size, hop, FeedOne(size, hop, ring, x).ring, mono + [x], frames + FeedOne(size, hop, ring, x).fired)
  {
    var r := ring + [x];
    assert FeedOne(size, hop, ring, x) == Fed(r[|r| - (size - hop)..], [r[|r| - size..]]);
    AppendKeepsSchedule(size, hop, ring, mono, frames, x);
    FireKeepsSchedule(size, hop, r, mono + [x], frames);
  }

  lemma FeedOneWaits(size: nat, hop: nat, ring: seq<real>, mono: seq<real>, frames: seq<seq<real>>, x: real)
    requires 4 * hop <= size && |ring + [x]| < size + hop
    requires ScheduleHolds(size, hop, ring, mono, frames)
    ensures ScheduleHolds(size, hop, FeedOne(size, hop, ring, x).ring, mono + [x], frames + FeedOne(size, hop, ring, x).fired)
  {
    assert FeedOne(size, hop, ring, x) == Fed(ring + [x], []);
    AppendNothing(frames);
    AppendKeepsSchedule(size, hop, ring, mono, frames, x);
  }

  /** Feeding keeps the schedule: the accumulator stays the unconsumed tail of the history, and every fired frame is the window of the history that ends at its firing point. */
  lemma {:induction false} FeedKeepsSchedule(size: nat, hop: nat, ring: seq<real>, mono: seq<real>, frames: seq<seq<real>>, xs: seq<real>)
    requires 4 * hop <= size
    requires ScheduleHolds(size, hop, ring, mono, frames)
    ensures ScheduleHolds(size, hop, Feed(size, hop, ring, xs).ring, mono + xs, frames + Feed(size, hop, ring, xs).fired)
    decreases |xs|
  {
    if xs == [] {
      assert mono + xs == mono;
      assert frames + [] == frames;
    } else {
      var xs' := xs[..|xs| - 1];
      var x := xs[|xs| - 1];
      var f := Feed(size, hop, ring, xs');
      var g := FeedOne(size, hop, f.ring, x);
      AppendLast(mono, xs);
      AppendAssoc(frames, f.fired, g.fired);
      FeedKeepsSchedule(size, hop, ring, mono, frames, xs');
      FeedOneKeepsSchedule(size, hop, f.ring, mono + xs', frames + f.fired, x);
    }
  }

  /** From an empty accumulator, the frames fired by a history h are its windows of `size` samples ending at FrameEnd(0), FrameEnd(1), ...: frame k has fired exactly when h reaches FrameEnd(k). */
  lemma FramesFromEmpty(size: nat, hop: nat, h: seq<real>, k: nat)
    requires 4 * hop <= size && size >= 1
    ensures FramesMatch(size, hop, h, Feed(size, hop, [], h).fired)
    ensures k < |Feed(size, hop, [], h).fired| <==> FrameEnd(size, hop, k) <= |h|
  {
    var f := Feed(size, hop, [], h);
    var none: seq<real>, noFrames: seq<seq<real>> := [], [];
    AfterNothing(h);
    AfterNothing(f.fired);
    EmptySchedule(size, hop);
    FeedKeepsSchedule(size, hop, none, none, noFrames, h);
    FramesAreDue(size, hop, f.ring, h, f.fired, k);
  }

  // ---- The display, as a function of the frames analysed ----

  /** What the editor draws from: the clamped dB of the latest frame, its EMA over frames, and the bin-smoothed EMA (empty when that is off). */
  datatype Display = Display(db: seq<real>, ema: seq<real>, smoothed: seq<real>)

  /** The settings `computeSpectrum` reads. */
  datatype Settings = Settings(minDb: real, maxDb: real, alpha: real, radius: int)

  /** `computeSpectrum` after the FFT, on values: clamp, one EMA step, then smoothing across bins when the radius is positive. */
  function AnalyseFrame(st: Settings, raw: seq<real>, d: Display): (r: Display)
    requires |raw| == |d.ema|
    ensures |r.db| == |r.ema| == |d.ema|
    ensures st.radius > 0 ==> |r.smoothed| == |d.ema|
    ensures st.radius <= 0 ==> r.smoothed == []
  {
    var db := ClampAll(raw, st.minDb, st.maxDb);
    var ema := EmaStep(st.alpha, db, d.ema);
    Display(db, ema, if st.radius > 0 then FreqSmooth(ema, st.radius) else [])
  }

  /** Every frame yields one value per bin of the display. */
  ghost predicate Fits(analyse: seq<real> -> seq<real>, n: nat, frames: seq<seq<real>>)
  {
    forall k :: 0 <= k < |frames| ==> |analyse(frames[k])| == n
  }

  /** The display after analysing each frame in turn: the dB bins show the latest frame only, the EMA carries all of them. */
  function AnalyseAll(st: Settings, analyse: seq<real> -> seq<real>, d: Display, frames: seq<seq<real>>): (r: Display)
    requires Fits(analyse, |d.ema|, frames)
    ensures |r.ema| == |d.ema|
    ensures frames == [] ==> r == d
    ensures frames != [] ==> r.db == ClampAll(analyse(frames[|frames| - 1]), st.minDb, st.maxDb)
    decreases |frames|
  {
    if frames == [] then d
    else AnalyseFrame(st, analyse(frames[|frames| - 1]), AnalyseAll(st, analyse, d, frames[..|frames| - 1]))
  }

  /** Analysing fs and then gs is analysing fs + gs. */
  lemma {:induction false} AnalyseAllAppend(st: Settings, analyse: seq<real> -> seq<real>, d: Display,
                                            fs: seq<seq<real>>, gs: seq<seq<real>>)
    requires Fits(analyse, |d.ema|, fs + gs)
    ensures Fits(analyse, |d.ema|, fs) && Fits(analyse, |d.ema|, gs)
    ensures AnalyseAll(st, analyse, d, fs + gs) == AnalyseAll(st, analyse, AnalyseAll(st, analyse, d, fs), gs)
    decreases |gs|
  {
    assert forall k :: 0 <= k < |fs| ==> (fs + gs)[k] == fs[k];
    assert forall k :: 0 <= k < |gs| ==> (fs + gs)[|fs| + k] == gs[k];
    if gs == [] {
      assert fs + gs == fs;
    } else {
      var gs' := gs[..|gs| - 1];
      assert (fs + gs)[..|fs + gs| - 1] == fs + gs';
      assert (fs + gs)[|fs + gs| - 1] == gs[|gs| - 1];
      AnalyseAllAppend(st, analyse, d, fs, gs');
    }
  }

  /** Analysing a single frame is one AnalyseFrame step. */
  lemma AnalyseOne(st: Settings, analyse: seq<real> -> seq<real>, d: Display, frame: seq<real>)
    requires |analyse(frame)| == |d.ema|
    ensures Fits(analyse, |d.ema|, [frame])
    ensures AnalyseAll(st, analyse, d, [frame]) == AnalyseFrame(st, analyse(frame), d)
  {
    assert [frame][..0] == [];
  }

  /** The sample loop's step on values: feeding sample i continues from where feeding the first i left the accumulator, the display and the FFT buffer. */
  lemma FeedStep(size: nat, hop: nat, st: Settings, analyse: seq<real> -> seq<real>,
                 ring0: seq<real>, view0: Display, fifo0: seq<real>, xs: seq<real>, i: nat)
    requires hop <= size && i < |xs|
    requires Fits(analyse, |view0.ema|, Feed(size, hop, ring0, xs[..i]).fired)
    requires Fits(analyse, |view0.ema|, FeedOne(size, hop, Feed(size, hop, ring0, xs[..i]).ring, xs[i]).fired)
    ensures Feed(size, hop, ring0, xs[..i + 1]).ring == FeedOne(size, hop, Feed(size, hop, ring0, xs[..i]).ring, xs[i]).ring
    ensures Fits(analyse, |view0.ema|, Feed(size, hop, ring0, xs[..i + 1]).fired)
    ensures AnalyseAll(st, analyse, view0, Feed(size, hop, ring0, xs[..i + 1]).fired)
         == AnalyseAll(st, analyse, AnalyseAll(st, analyse, view0, Feed(size, hop, ring0, xs[..i]).fired),
                       FeedOne(size, hop, Feed(size, hop, ring0, xs[..i]).ring, xs[i]).fired)
    ensures Latest(fifo0, Feed(size, hop, ring0, xs[..i + 1]).fired)
         == Latest(Latest(fifo0, Feed(size, hop, ring0, xs[..i]).fired), FeedOne(size, hop, Feed(size, hop, ring0, xs[..i]).ring, xs[i]).fired)
  {
    var f := Feed(size, hop, ring0, xs[..i]);
    var g := FeedOne(size, hop, f.ring, xs[i]);
    FeedSnoc(size, hop, ring0, xs, i);
    FitsAppend(analyse, |view0.ema|, f.fired, g.fired);
    AnalyseAllAppend(st, analyse, view0, f.fired, g.fired);
    LatestAppend(fifo0, f.fired, g.fired);
  }

  lemma FitsAppend(analyse: seq<real> -> seq<real>, n: nat, a: seq<seq<real>>, b: seq<seq<real>>)
    requires Fits(analyse, n, a) && Fits(analyse, n, b)
    ensures Fits(analyse, n, a + b)
  {
    forall k | 0 <= k < |a + b|
      ensures |analyse((a + b)[k])| == n
    {
      if k < |a| {
        assert (a + b)[k] == a[k];
      } else {
        assert (a + b)[k] == b[k - |a|];
      }
    }
  }

  /** The buffer after two runs of the loop is the last frame of the second run, else of the first, else what it held. */
  lemma LatestAppend(held: seq<real>, a: seq<seq<real>>, b: seq<seq<real>>)
    ensures Latest(held, a + b) == Latest(Latest(held, a), b)
  {
    if b != [] {
      assert (a + b)[|a + b| - 1] == b[|b| - 1];
    } else {
      assert a + b == a;
    }
  }

  /** Every value of s lies in [lo, hi]. */
  ghost predicate InRange(s: seq<real>, lo: real, hi: real)
  {
    forall b :: 0 <= b < |s| ==> lo <= s[b] <= hi
  }

  /** With a usable range (minDb <= maxDb - headroom) and alpha in [0, 1], a display that starts within the range stays within it, whatever the frames. */
  lemma {:induction false} DisplayInRange(st: Settings, analyse: seq<real> -> seq<real>, d: Display, frames: seq<seq<real>>)
    requires st.minDb <= st.maxDb - Headroom && 0.0 <= st.alpha <= 1.0
    requires Fits(analyse, |d.ema|, frames)
    requires InRange(d.ema, st.minDb, st.maxDb - Headroom)
    ensures InRange(AnalyseAll(st, analyse, d, frames).ema, st.minDb, st.maxDb - Headroom)
    ensures frames != [] ==> InRange(AnalyseAll(st, analyse, d, frames).db, st.minDb, st.maxDb - Headroom)
    ensures frames != [] && st.radius > 0 ==> InRange(AnalyseAll(st, analyse, d, frames).smoothed, st.minDb, st.maxDb - Headroom)
    decreases |frames|
  {
    if frames != [] {
      var frames' := frames[..|frames| - 1];
      DisplayInRange(st, analyse, d, frames');
      var prev := AnalyseAll(st, analyse, d, frames');
      var r := AnalyseAll(st, analyse, d, frames);
      assert r.ema == EmaStep(st.alpha, r.db, prev.ema);
      if st.radius > 0 {
        FreqSmoothWithin(r.ema, st.radius, st.minDb, st.maxDb - Headroom);
      }
    }
  }

  /** The frame that the FFT buffer holds after the loop: the last one fired, else what it held before. */
  function Latest(held: seq<real>, fired: seq<seq<real>>): (r: seq<real>)
    ensures fired != [] ==> r in fired
    ensures fired == [] ==> r == held
  {
    if fired == [] then held else fired[|fired| - 1]
  }

  /** The down-mix of one sample: the sum over `numCh = jmax(1, channels)` channels times `1 / numCh`. */
  method MixSample(buffer: Block, i: nat, numCh: nat) returns (s: real)
    requires buffer.Valid() && i < buffer.numSamples && |buffer.channels| >= 1
    requires numCh == |buffer.channels|
    ensures s == Mix(buffer, i)
  {
    s := SumChannels(buffer, i, numCh);
    ScaleByReciprocal(s, numCh as real);
    s := s * (1.0 / numCh as real);
  }

  lemma ScaleByReciprocal(x: real, n: real)
    requires n > 0.0
    ensures x * (1.0 / n) == x / n
  {
  }

  /** The raw spectra `analyse` produces have one value per bin: half the frame length. */
  ghost predicate HalfSpectrum(analyse: seq<real> -> seq<real>)
  {
    forall x :: |analyse(x)| == |x| / 2
  }

  class SpectrumAnalyzer {
    const order: nat
    const fftSize: nat
    const hopSize: nat
    /** The time-domain frame handed to the FFT. */
    const fifo: array<real>
    /** Per-bin dB of the latest frame, and its exponential average over frames. */
    const magDb: array<real>
    const magDbEma: array<real>
    /** The accumulator of down-mixed samples awaiting the next frame. */
    var ring: seq<real>
    /** The frequency-smoothed trace: empty when smoothing across bins is off. */
    var magDbSmoothed: seq<real>
    var minDb: real
    var maxDb: real
    var minFreq: real
    var maxFreq: real
    var sampleRate: real
    var timeAlpha: real
    var freqSmoothRadius: int

    ghost predicate Valid()
      reads this`timeAlpha, this`freqSmoothRadius, this`magDbSmoothed
    {
      && fftSize == Pow2(order) && hopSize == fftSize / 4
      && fifo.Length == fftSize
      && magDb.Length == fftSize / 2 && magDbEma.Length == fftSize / 2
      && magDb != magDbEma && fifo != magDb && fifo != magDbEma
      && 0.0 <= timeAlpha <= 1.0 && freqSmoothRadius >= 0
      && (|magDbSmoothed| == 0 || |magDbSmoothed| == fftSize / 2)
    }

    /** The settings the analysis reads. */
    function Current(): Settings
      reads this`minDb, this`maxDb, this`timeAlpha, this`freqSmoothRadius
    {
      Settings(minDb, maxDb, timeAlpha, freqSmoothRadius)
    }

    /** The displayed state. */
    ghost function View(): Display
      reads this`magDbSmoothed, magDb, magDbEma
    {
      Display(magDb[..], magDbEma[..], magDbSmoothed)
    }

    /** The constructor: sizes from the FFT order, magnitudes at -120 dB, default display and smoothing settings. */
    constructor (fftOrder: nat := 12)
      requires fftOrder <= 30
      ensures Valid()
      ensures order == fftOrder && fftSize == Pow2(fftOrder) && hopSize == fftSize / 4
      ensures fifo[..] == Zeros(fftSize, 0.0)
      ensures View() == Display(Zeros(fftSize / 2, InitialDb), Zeros(fftSize / 2, InitialDb), [])
      ensures ring == []
      ensures minDb == -90.0 && maxDb == 6.0 && minFreq == 20.0 && maxFreq == 20000.0
      ensures sampleRate == 44100.0 && timeAlpha == 0.25 && freqSmoothRadius == 1
    {
      order := fftOrder;
      fftSize := Pow2(fftOrder);
      hopSize := Pow2(fftOrder) / 4;
      fifo := new real[Pow2(fftOrder)](_ => 0.0);
      magDb := new real[Pow2(fftOrder) / 2](_ => InitialDb);
      magDbEma := new real[Pow2(fftOrder) / 2](_ => InitialDb);
      ring := [];
      magDbSmoothed := [];
      minDb, maxDb := -90.0, 6.0;
      minFreq, maxFreq := 20.0, 20000.0;
      sampleRate := 44100.0;
      timeAlpha := 0.25;
      freqSmoothRadius := 1;
      new;
      assert fifo[..] == Zeros(fftSize, 0.0);
      assert magDb[..] == Zeros(fftSize / 2, InitialDb);
      assert magDbEma[..] == Zeros(fftSize / 2, InitialDb);
    }

    /** `setDbRange`: stores the bounds as given; nothing is re-clamped. */
    method SetDbRange(minDbIn: real, maxDbIn: real)
      requires Valid()
      modifies this`minDb, this`maxDb
      ensures Valid() && minDb == minDbIn && maxDb == maxDbIn
    {
      minDb := minDbIn;
      maxDb := maxDbIn;
    }

    /** `setFreqRange`: stores the display frequency range as given. */
    method SetFreqRange(minHz: real, maxHz: real)
      requires Valid()
      modifies this`minFreq, this`maxFreq
      ensures Valid() && minFreq == minHz && maxFreq == maxHz
    {
      minFreq := minHz;
      maxFreq := maxHz;
    }

    /** `setSampleRate`: a non-positive rate is replaced by 44100. */
    method SetSampleRate(sr: real)
      requires Valid()
      modifies this`sampleRate
      ensures Valid()
      ensures sampleRate > 0.0
      ensures sr > 0.0 ==> sampleRate == sr
      ensures sr <= 0.0 ==> sampleRate == FallbackSampleRate
    {
      sampleRate := if sr > 0.0 then sr else FallbackSampleRate;
    }

    /** `setSmoothing`: alpha clamped into [0, 1], radius floored at 0. */
    method SetSmoothing(timeAlphaIn: real, freqSmoothRadiusIn: int)
      requires Valid()
      modifies this`timeAlpha, this`freqSmoothRadius
      ensures Valid()
      ensures timeAlpha == Limit(0.0, 1.0, timeAlphaIn)
      ensures freqSmoothRadius == if freqSmoothRadiusIn < 0 then 0 else freqSmoothRadiusIn
    {
      timeAlpha := Limit(0.0, 1.0, timeAlphaIn);
      freqSmoothRadius := if 0 < freqSmoothRadiusIn then freqSmoothRadiusIn else 0;
    }

    /** `clear`: both magnitude arrays to minDb, no smoothed trace, no queued audio; the frame buffer is kept. */
    method Clear()
      requires Valid()
      modifies this`magDbSmoothed, this`ring, magDb, magDbEma
      ensures Valid()
      ensures View() == Display(Zeros(fftSize / 2, minDb), Zeros(fftSize / 2, minDb), [])
      ensures ring == []
    {
      Fill(magDb, minDb);
      Fill(magDbEma, minDb);
      magDbSmoothed := [];
      ring := [];
    }

    /** After the first i samples of xs, pushed from the accumulator ring0, the display view0 and the FFT buffer fifo0: the state is what Feed and AnalyseAll give. */
    ghost predicate FedUpTo(analyse: seq<real> -> seq<real>, ring0: seq<real>, view0: Display, fifo0: seq<real>,
                            xs: seq<real>, i: nat)
      reads this`ring, this`magDbSmoothed, this`minDb, this`maxDb, this`timeAlpha, this`freqSmoothRadius,
            fifo, magDb, magDbEma
    {
      && hopSize <= fftSize && i <= |xs| && |view0.ema| == fftSize / 2
      && ring == Feed(fftSize, hopSize, ring0, xs[..i]).ring
      && Fits(analyse, fftSize / 2, Feed(fftSize, hopSize, ring0, xs[..i]).fired)
      && View() == AnalyseAll(Current(), analyse, view0, Feed(fftSize, hopSize, ring0, xs[..i]).fired)
      && fifo[..] == Latest(fifo0, Feed(fftSize, hopSize, ring0, xs[..i]).fired)
    }

    /** `pushSamples`: append the channel average of each sample and analyse every frame that falls due, exactly as Feed and AnalyseAll say. */
    method PushSamples(buffer: Block, analyse: seq<real> -> seq<real>)
      requires Valid() && buffer.Valid() && HalfSpectrum(analyse)
      requires buffer.numSamples > 0 ==> |buffer.channels| >= 1
      modifies this`ring, this`magDbSmoothed, fifo, magDb, magDbEma
      ensures Valid()
      ensures ring == Feed(fftSize, hopSize, old(ring), MixDown(buffer)).ring
      ensures Fits(analyse, fftSize / 2, Feed(fftSize, hopSize, old(ring), MixDown(buffer)).fired)
      ensures View() == AnalyseAll(Current(), analyse, old(View()), Feed(fftSize, hopSize, old(ring), MixDown(buffer)).fired)
      ensures fifo[..] == Latest(old(fifo[..]), Feed(fftSize, hopSize, old(ring), MixDown(buffer)).fired)
    {
      var numCh := if 1 < |buffer.channels| then |buffer.channels| else 1;
      var numSmps := buffer.numSamples;
      ghost var xs := MixDown(buffer);
      assert xs[..numSmps] == xs;
      assert xs[..0] == [];
      var i := 0;
      while i < numSmps
        invariant 0 <= i <= numSmps
        invariant Valid()
        invariant FedUpTo(analyse, old(ring), old(View()), old(fifo[..]), xs, i)
      {
        var s := MixSample(buffer, i, numCh);
        PushStep(s, analyse, old(ring), old(View()), old(fifo[..]), xs, i);
        i := i + 1;
      }
    }

    /** The loop step of PushSamples: pushing sample i extends what was fed and analysed by one pass. */
    method PushStep(s: real, analyse: seq<real> -> seq<real>,
                    ghost ring0: seq<real>, ghost view0: Display, ghost fifo0: seq<real>, ghost xs: seq<real>, ghost i: nat)
      requires Valid() && HalfSpectrum(analyse)
      requires i < |xs| && s == xs[i]
      requires FedUpTo(analyse, ring0, view0, fifo0, xs, i)
      modifies this`ring, this`magDbSmoothed, fifo, magDb, magDbEma
      ensures Valid()
      ensures FedUpTo(analyse, ring0, view0, fifo0, xs, i + 1)
    {
      PushOne(s, analyse);
      FeedStep(fftSize, hopSize, Current(), analyse, ring0, view0, fifo0, xs, i);
    }

    /** One pass of the sample loop: append, and when the accumulator reaches fftSize + hop, analyse its last fftSize samples and keep only the last fftSize - hop. */
    method PushOne(s: real, analyse: seq<real> -> seq<real>)
      requires Valid() && HalfSpectrum(analyse)
      modifies this`ring, this`magDbSmoothed, fifo, magDb, magDbEma
      ensures Valid()
      ensures ring == FeedOne(fftSize, hopSize, old(ring), s).ring
      ensures Fits(analyse, fftSize / 2, FeedOne(fftSize, hopSize, old(ring), s).fired)
      ensures View() == AnalyseAll(Current(), analyse, old(View()), FeedOne(fftSize, hopSize, old(ring), s).fired)
      ensures fifo[..] == Latest(old(fifo[..]), FeedOne(fftSize, hopSize, old(ring), s).fired)
    {
      ring := ring + [s];
      if |ring| >= fftSize + hopSize {
        var frame := ring[|ring| - fftSize..];
        Copy(fifo, frame);
        ghost var v0 := View();
        ComputeSpectrum(analyse);
        AnalyseOne(Current(), analyse, v0, frame);
        ring := ring[|ring| - (fftSize - hopSize)..];
        assert FeedOne(fftSize, hopSize, old(ring), s) == Fed(ring, [frame]);
      } else {
        assert FeedOne(fftSize, hopSize, old(ring), s) == Fed(ring, []);
      }
    }

    /** `computeSpectrum` after the FFT: clamp each bin, smooth in time, then (radius > 0) across bins. */
    method ComputeSpectrum(analyse: seq<real> -> seq<real>)
      requires Valid() && HalfSpectrum(analyse)
      modifies this`magDbSmoothed, magDb, magDbEma
      ensures Valid()
      ensures View() == AnalyseFrame(Current(), analyse(fifo[..]), old(View()))
    {
      var raw := analyse(fifo[..]);
      ClampBins(raw);
      SmoothInTime();
      SmoothAcrossBins();
    }

    /** The magnitude loop: clamp every raw bin value into the display range. */
    method ClampBins(raw: seq<real>)
      requires |raw| == magDb.Length
      modifies magDb
      ensures magDb[..] == ClampAll(raw, minDb, maxDb)
    {
      var bin := 0;
      while bin < magDb.Length
        invariant 0 <= bin <= magDb.Length
        invariant forall b :: 0 <= b < bin ==> magDb[b] == ClampDb(raw[b], minDb, maxDb)
      {
        magDb[bin] := ClampDb(raw[bin], minDb, maxDb);
        bin := bin + 1;
      }
    }

    /** The temporal smoothing loop: one EMA step per bin. */
    method SmoothInTime()
      requires magDb != magDbEma && magDb.Length == magDbEma.Length
      modifies magDbEma
      ensures magDbEma[..] == EmaStep(timeAlpha, magDb[..], old(magDbEma[..]))
    {
      var bin := 0;
      while bin < magDbEma.Length
        invariant 0 <= bin <= magDbEma.Length
        invariant forall b :: 0 <= b < bin ==> magDbEma[b] == Blend(timeAlpha, magDb[b], old(magDbEma[b]))
        invariant forall b :: bin <= b < magDbEma.Length ==> magDbEma[b] == old(magDbEma[b])
      {
        magDbEma[bin] := Blend(timeAlpha, magDb[bin], magDbEma[bin]);
        bin := bin + 1;
      }
    }

    /** The frequency smoothing: sized to fftSize/2 (minDb-filled) when needed, then every bin rewritten; cleared when the radius is 0. */
    method SmoothAcrossBins()
      requires Valid()
      modifies this`magDbSmoothed
      ensures Valid()
      ensures freqSmoothRadius > 0 ==> magDbSmoothed == FreqSmooth(magDbEma[..], freqSmoothRadius)
      ensures freqSmoothRadius <= 0 ==> magDbSmoothed == []
    {
      if freqSmoothRadius > 0 {
        var out := magDbSmoothed;
        if |out| != fftSize / 2 {
          out := Zeros(fftSize / 2, minDb);
        }
        var n := magDbEma.Length;
        var i := 0;
        while i < n
          invariant 0 <= i <= n && |out| == n
          invariant forall b :: 0 <= b < i ==> out[b] == SmoothBin(magDbEma[..], b, freqSmoothRadius)
        {
          var v := SmoothBinAt(magDbEma, i, freqSmoothRadius);
          out := out[i := v];
          i := i + 1;
        }
        magDbSmoothed := out;
      } else {
        magDbSmoothed := [];
      }
    }

    /** The trace `paint` draws: the frequency-smoothed one when present, else the time-smoothed one. */
    function DisplayedTrace(): (r: seq<real>)
      reads this, magDbEma
      ensures Valid() ==> |r| == fftSize / 2
      ensures magDbSmoothed == [] ==> r == magDbEma[..]
      ensures magDbSmoothed != [] ==> r == magDbSmoothed
    {
      if magDbSmoothed == [] then magDbEma[..] else magDbSmoothed
    }
  }
}
