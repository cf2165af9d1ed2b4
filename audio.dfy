// What the analysers share: the audio block a callback delivers, the
// channel-average down-mix, JUCE's `jlimit` clamp, the convex blend used by
// every exponential smoother, and `std::fill`.
module Audio {
  import opened Ring

  /** A block as delivered to a callback: one buffer of `numSamples` samples per channel. */
  datatype Block = Block(channels: seq<seq<real>>, numSamples: nat)
  {
    predicate Valid()
    {
      forall c :: 0 <= c < |channels| ==> |channels[c]| == numSamples
    }

    function NumChannels(): nat
    {
      |channels|
    }
  }

  /** The sum of channels [0, count) at sample i, accumulated in channel order. */
  function ColumnSum(chs: seq<seq<real>>, i: nat, count: nat): real
    requires count <= |chs|
    requires forall c :: 0 <= c < count ==> i < |chs[c]|
  {
    if count == 0 then 0.0 else ColumnSum(chs, i, count - 1) + chs[count - 1][i]
  }

  /** The channel average at sample i; a block without channels mixes to silence. */
  function Mix(b: Block, i: nat): real
    requires b.Valid() && i < b.numSamples
  {
    if |b.channels| == 0 then 0.0
    else ColumnSum(b.channels, i, |b.channels|) / (|b.channels| as real)
  }

  /** The mono down-mix of a whole block. */
  function MixDown(b: Block): (r: seq<real>)
    requires b.Valid()
    ensures |r| == b.numSamples
    ensures forall i :: 0 <= i < |r| ==> r[i] == Mix(b, i)
  {
    seq(b.numSamples, i requires 0 <= i < b.numSamples => Mix(b, i))
  }

  lemma {:induction false} ColumnSumOfEqual(chs: seq<seq<real>>, i: nat, count: nat, x: real)
    requires count <= |chs|
    requires forall c :: 0 <= c < count ==> i < |chs[c]| && chs[c][i] == x
    ensures ColumnSum(chs, i, count) == (count as real) * x
  {
    if count > 0 {
      ColumnSumOfEqual(chs, i, count - 1, x);
    }
  }

  /** A sample carried identically on every channel mixes down to itself. */
  lemma MixOfEqualChannels(b: Block, i: nat, x: real)
    requires b.Valid() && i < b.numSamples && |b.channels| > 0
    requires forall c :: 0 <= c < |b.channels| ==> b.channels[c][i] == x
    ensures Mix(b, i) == x
  {
    ColumnSumOfEqual(b.channels, i, |b.channels|, x);
  }

  /** The inner loop of every down-mix: add up the first `count` channels at sample i. */
  method SumChannels(b: Block, i: nat, count: nat) returns (s: real)
    requires b.Valid() && i < b.numSamples && count <= |b.channels|
    ensures s == ColumnSum(b.channels, i, count)
  {
    s := 0.0;
    var ch := 0;
    while ch < count
      invariant 0 <= ch <= count
      invariant s == ColumnSum(b.channels, i, ch)
    {
      s := s + b.channels[ch][i];
      ch := ch + 1;
    }
  }

  /** JUCE's `jlimit(lower, upper, v)`: lower if v is below it, else upper if v is above it, else v. */
  function Limit(lower: real, upper: real, v: real): (r: real)
    ensures lower <= upper ==> lower <= r <= upper
    ensures lower <= v <= upper ==> r == v
    ensures r == lower || r == upper || r == v
  {
    if v < lower then lower else if upper < v then upper else v
  }

  /** `std::max` / `jmax` on reals: v when m < v, else m. */
  function MaxOf(m: real, v: real): (r: real)
    ensures r >= m && r >= v
    ensures r == m || r == v
  {
    if m < v then v else m
  }

  /** `jlimit` on ints. */
  function LimitInt(lower: int, upper: int, v: int): (r: int)
    ensures lower <= upper ==> lower <= r <= upper
    ensures lower <= v <= upper ==> r == v
    ensures r == lower || r == upper || r == v
  {
    if v < lower then lower else if upper < v then upper else v
  }

  predicate Between(r: real, x: real, y: real)
  {
    (x <= r <= y) || (y <= r <= x)
  }

  /** `a * x + (1 - a) * y`: the one-pole smoothing step used throughout (a = weight of the new value x). */
  function Blend(a: real, x: real, y: real): (r: real)
    ensures 0.0 <= a <= 1.0 ==> Between(r, x, y)
    ensures a == 1.0 ==> r == x
    ensures a == 0.0 ==> r == y
    ensures x == y ==> r == x
  {
    ConvexBetween(a, x, y);
    a * x + (1.0 - a) * y
  }

  lemma ConvexBetween(a: real, x: real, y: real)
    ensures 0.0 <= a <= 1.0 ==> Between(a * x + (1.0 - a) * y, x, y)
  {
    if 0.0 <= a <= 1.0 {
      var r := a * x + (1.0 - a) * y;
      if x >= y {
        assert r - y == a * (x - y);
        assert x - r == (1.0 - a) * (x - y);
        NonNegProduct(a, x - y);
        NonNegProduct(1.0 - a, x - y);
      } else {
        assert r - x == (1.0 - a) * (y - x);
        assert y - r == a * (y - x);
        NonNegProduct(a, y - x);
        NonNegProduct(1.0 - a, y - x);
      }
    }
  }

  lemma NonNegProduct(p: real, q: real)
    requires p >= 0.0 && q >= 0.0
    ensures p * q >= 0.0
  {
  }

  /** A quotient by a positive divisor inherits the bounds of the dividend, scaled. */
  lemma DivBetween(v: real, w: real, lo: real, hi: real)
    requires w > 0.0 && lo * w <= v <= hi * w
    ensures lo <= v / w <= hi
  {
    var q := v / w;
    assert v == q * w;
    assert (q - lo) * w == v - lo * w;
    NonNegativeFactor(q - lo, w);
    assert (hi - q) * w == hi * w - v;
    NonNegativeFactor(hi - q, w);
  }

  lemma NonNegativeFactor(a: real, w: real)
    requires w > 0.0 && a * w >= 0.0
    ensures a >= 0.0
  {
    assert a == (a * w) / w;
  }

  /** `std::fill` over a whole buffer. */
  method Fill<T>(a: array<T>, v: T)
    modifies a
    ensures a[..] == Zeros(a.Length, v)
  {
    var i := 0;
    while i < a.Length
      invariant 0 <= i <= a.Length
      invariant forall k :: 0 <= k < i ==> a[k] == v
    {
      a[i] := v;
      i := i + 1;
    }
  }

  /** `std::copy` of a whole sequence into a buffer of the same length. */
  method Copy<T>(dst: array<T>, src: seq<T>)
    requires |src| == dst.Length
    modifies dst
    ensures dst[..] == src
  {
    var i := 0;
    while i < dst.Length
      invariant 0 <= i <= dst.Length
      invariant forall k :: 0 <= k < i ==> dst[k] == src[k]
    {
      dst[i] := src[i];
      i := i + 1;
    }
  }
}
