// The circular-history discipline shared by the loudness windows and the
// three visualisation buffers: a fixed number of slots, zero-filled, one
// write cursor that starts at 0 and advances by one (mod the capacity) per
// stored value. `RingOf` gives the slot contents after a history of writes;
// the lemmas say what a reader sees.
module Ring {
  import opened ModArith

  /** n copies of `zero`: a freshly allocated or cleared buffer. */
  function Zeros<T>(n: nat, zero: T): (r: seq<T>)
    ensures |r| == n
    ensures forall i :: 0 <= i < n ==> r[i] == zero
  {
    seq(n, _ => zero)
  }

  /** The slots of a `w`-slot ring after writing the values of `h`, in order, at cursors 0, 1, 2, ... mod w. */
  function RingOf<T>(h: seq<T>, w: nat, zero: T): (r: seq<T>)
    requires w > 0
    ensures |r| == w
  {
    if h == [] then Zeros(w, zero)
    else RingOf(h[..|h| - 1], w, zero)[(|h| - 1) % w := h[|h| - 1]]
  }

  /** The last `w` values written, with zeros standing for slots never written yet. */
  function Recent<T>(h: seq<T>, w: nat, zero: T): (r: seq<T>)
    ensures |r| == w
  {
    (Zeros(w, zero) + h)[|h|..]
  }

  /** The order a reader walks the slots in: `(cursor + i) % |ring|` for i in [0, |ring|). */
  function OldestFirst<T>(ring: seq<T>, cursor: nat): (r: seq<T>)
    requires |ring| > 0
    ensures |r| == |ring|
  {
    seq(|ring|, i requires 0 <= i < |ring| => ring[(cursor + i) % |ring|])
  }

  /** Slot j holds the most recent value written to it, or zero if none was. */
  lemma {:induction false} RingAt<T>(h: seq<T>, w: nat, zero: T, j: nat)
    requires w > 0 && j < w
    ensures 0 <= |h| + (j - |h|) % w < w + |h|
    ensures RingOf(h, w, zero)[j] == (Zeros(w, zero) + h)[|h| + (j - |h|) % w]
  {
    var n := |h|;
    if n == 0 {
      ModSmall(j, w);
    } else {
      var m := n - 1;
      var h' := h[..m];
      var padded := Zeros(w, zero) + h;
      var padded' := Zeros(w, zero) + h';
      assert padded == padded' + [h[m]];
      assert RingOf(h, w, zero) == RingOf(h', w, zero)[m % w := h[m]];
      if j == m % w {
        LastWrittenSlot(m, w);
      } else {
        RingAt(h', w, zero, j);
        OtherSlot(j, m, w);
        assert padded[m + (j - m) % w] == padded'[m + (j - m) % w];
      }
    }
  }

  lemma LastWrittenSlot(m: nat, w: nat)
    requires w > 0
    ensures (m % w - (m + 1)) % w == w - 1
  {
    assert m % w - (m + 1) == -1 + w * (-(m / w));
    ModAddMultiple(-1, -(m / w), w);
    ModUnique(-1, w, -1, w - 1);
  }

  lemma OtherSlot(j: nat, m: nat, w: nat)
    requires j < w && j != m % w
    ensures (j - m) % w != 0
    ensures (j - (m + 1)) % w == (j - m) % w - 1
  {
    if (j - m) % w == 0 {
      assert j == m + w * ((j - m) / w);
      ModAddMultiple(m, (j - m) / w, w);
      ModSmall(j, w);
    }
    ModPred(j - m, w);
  }

  /** The i-th slot from the cursor holds the i-th of the last w values, oldest first. */
  lemma OldestFirstAt<T>(h: seq<T>, w: nat, zero: T, i: nat)
    requires w > 0 && i < w
    ensures 0 <= (|h| % w + i) % w < w
    ensures RingOf(h, w, zero)[(|h| % w + i) % w] == Recent(h, w, zero)[i]
  {
    var n := |h|;
    RingAt(h, w, zero, (n % w + i) % w);
    ModAddLeft(n, i, w);
    ModDistance(n, i, w);
    ModSmall(i, w);
  }

  /** Reading oldest-first from the cursor yields exactly the last w values written, oldest first. */
  lemma OldestFirstIsRecent<T>(h: seq<T>, w: nat, zero: T)
    requires w > 0
    ensures OldestFirst(RingOf(h, w, zero), |h| % w) == Recent(h, w, zero)
  {
    forall i | 0 <= i < w
      ensures OldestFirst(RingOf(h, w, zero), |h| % w)[i] == Recent(h, w, zero)[i]
    {
      OldestFirstAt(h, w, zero, i);
    }
  }

  /** The read walk visits every slot exactly once. */
  lemma OldestFirstVisitsEachSlotOnce(w: nat, cursor: nat, i: nat, k: nat)
    requires w > 0 && i < w && k < w && i != k
    ensures 0 <= (cursor + i) % w < w
    ensures (cursor + i) % w != (cursor + k) % w
  {
    ModDistance(cursor, i, w);
    ModDistance(cursor, k, w);
    ModSmall(i, w);
    ModSmall(k, w);
  }

  /** Writing t after h leaves every slot outside the |t| slots starting at the cursor as it was. */
  lemma {:induction false} RingUntouched<T>(h: seq<T>, t: seq<T>, w: nat, zero: T, j: nat)
    requires w > 0 && j < w
    requires (j - |h|) % w >= |t|
    ensures RingOf(h + t, w, zero)[j] == RingOf(h, w, zero)[j]
  {
    if t != [] {
      var t' := t[..|t| - 1];
      assert (h + t)[..|h + t| - 1] == h + t';
      assert j != (|h| + |t'|) % w by {
        if j == (|h| + |t'|) % w {
          ModDistance(|h|, |t'|, w);
          ModSmall(|t'|, w);
        }
      }
      RingUntouched(h, t', w, zero, j);
    } else {
      assert h + t == h;
    }
  }

  /** RingUntouched, with the distance measured from the reduced cursor an implementation keeps. */
  lemma UntouchedFromCursor<T>(h: seq<T>, t: seq<T>, w: nat, zero: T, cursor: nat, j: nat)
    requires w > 0 && j < w && cursor == |h| % w
    requires (j - cursor) % w >= |t|
    ensures RingOf(h + t, w, zero)[j] == RingOf(h, w, zero)[j]
  {
    ModSubRight(j, |h|, w);
    RingUntouched(h, t, w, zero, j);
  }

  /** Writing t after h puts t's elements at consecutive cursors, the last |t| values wrapped mod w. */
  lemma RingWrite<T>(h: seq<T>, x: T, w: nat, zero: T)
    requires w > 0
    ensures RingOf(h + [x], w, zero) == RingOf(h, w, zero)[|h| % w := x]
  {
    assert (h + [x])[..|h|] == h;
  }

  /** Extending a prefix of `s` by its next element. */
  lemma ExtendPrefix<T>(m0: seq<T>, s: seq<T>, i: nat)
    requires i < |s|
    ensures (m0 + s[..i]) + [s[i]] == m0 + s[..i + 1]
  {
    assert s[..i + 1] == s[..i] + [s[i]];
  }

  /** Appending all of s is appending all but its last element, then that element. */
  lemma AppendLast<T>(m0: seq<T>, s: seq<T>)
    requires s != []
    ensures (m0 + s[..|s| - 1]) + [s[|s| - 1]] == m0 + s
  {
    ExtendPrefix(m0, s, |s| - 1);
    assert s[..|s|] == s;
  }

  lemma AppendNothing<T>(a: seq<T>)
    ensures a + [] == a
  {
  }

  lemma AfterNothing<T>(a: seq<T>)
    ensures [] + a == a
  {
  }

  /** Dropping the last element of xs + ys, for ys non-empty, drops the last element of ys. */
  lemma DropLastOfAppend<T>(xs: seq<T>, ys: seq<T>)
    requires ys != []
    ensures (xs + ys)[..|xs + ys| - 1] == xs + ys[..|ys| - 1]
    ensures (xs + ys)[|xs + ys| - 1] == ys[|ys| - 1]
  {
    assert (xs + ys)[..|xs + ys| - 1] == xs + ys[..|ys| - 1];
  }

  lemma AppendAssoc<T>(a: seq<T>, b: seq<T>, c: seq<T>)
    ensures (a + b) + c == a + (b + c)
  {
  }

  /** The slot at the cursor holds the oldest of the last w values: the next one to be overwritten. */
  lemma CursorHoldsOldest<T>(h: seq<T>, w: nat, zero: T)
    requires w > 0
    ensures RingOf(h, w, zero)[|h| % w] == Recent(h, w, zero)[0]
  {
    ModSmall(|h| % w, w);
    OldestFirstAt(h, w, zero, 0);
  }

  /** Once at least w values were written, the i-th of the last w, oldest first, is h[|h| - w + i]. */
  lemma RecentOfLong<T>(h: seq<T>, w: nat, zero: T, i: nat)
    requires |h| >= w && i < w
    ensures Recent(h, w, zero)[i] == h[|h| - w + i]
  {
    assert (Zeros(w, zero) + h)[|h| + i] == h[|h| - w + i];
  }

  /** Stepping `back` slots (0 <= back <= w) back from the cursor, i.e. w - back forward, lands on the value `(w - back) % w` places into the last w, oldest first. */
  lemma StepBack<T>(h: seq<T>, w: nat, zero: T, back: int)
    requires w > 0 && 0 <= back <= w
    ensures 0 <= (|h| % w + (w - back)) % w < w
    ensures RingOf(h, w, zero)[(|h| % w + (w - back)) % w] == Recent(h, w, zero)[(w - back) % w]
  {
    var c := |h| % w;
    var k := w - back;
    ModAddLeft(k, c, w);
    assert (c + k % w) % w == (c + k) % w;
    OldestFirstAt(h, w, zero, k % w);
  }

  /** One more value evicts the oldest of the last w: the window shifts left by one and ends with the new value. */
  lemma RecentShift<T>(h: seq<T>, w: nat, zero: T, x: T)
    requires w > 0
    ensures Recent(h + [x], w, zero) == Recent(h, w, zero)[1..] + [x]
  {
    assert Zeros(w, zero) + (h + [x]) == (Zeros(w, zero) + h) + [x];
  }

  // ---- Rings kept in arrays ----

  /** `buf[cursor] = x; cursor = (cursor + 1) % size`: one write to a ring kept in an array. */
  method WriteAt<T>(buf: array<T>, cursor: nat, ghost h: seq<T>, zero: T, x: T) returns (cursor': nat)
    requires buf.Length > 0
    requires buf[..] == RingOf(h, buf.Length, zero) && cursor == |h| % buf.Length
    modifies buf
    ensures buf[..] == old(buf[..])[cursor := x]
    ensures buf[..] == RingOf(h + [x], buf.Length, zero)
    ensures cursor' == (cursor + 1) % buf.Length == |h + [x]| % buf.Length
  {
    buf[cursor] := x;
    RingWrite(h, x, buf.Length, zero);
    ModStep(|h|, buf.Length);
    cursor' := (cursor + 1) % buf.Length;
  }

  /** The read loop `buf[(cursor + i) % size]` for i in [0, size). */
  method ReadOldestFirst<T>(buf: array<T>, cursor: nat) returns (ys: seq<T>)
    requires buf.Length > 0
    ensures ys == OldestFirst(buf[..], cursor)
  {
    ys := [];
    var i := 0;
    while i < buf.Length
      invariant 0 <= i <= buf.Length && |ys| == i
      invariant forall k :: 0 <= k < i ==> ys[k] == buf[(cursor + k) % buf.Length]
    {
      ys := ys + [buf[(cursor + i) % buf.Length]];
      i := i + 1;
    }
  }

  // ---- Sums over real-valued rings ----

  function Sum(s: seq<real>): real
  {
    if s == [] then 0.0 else Sum(s[..|s| - 1]) + s[|s| - 1]
  }

  lemma {:induction false} SumAppend(a: seq<real>, b: seq<real>)
    ensures Sum(a + b) == Sum(a) + Sum(b)
  {
    if b != [] {
      assert (a + b)[..|a + b| - 1] == a + b[..|b| - 1];
      SumAppend(a, b[..|b| - 1]);
    } else {
      assert a + b == a;
    }
  }

  /** Overwriting one element changes the sum by (new - old): subtract-old / store / add-new. */
  lemma {:induction false} SumUpdate(s: seq<real>, k: nat, v: real)
    requires k < |s|
    ensures Sum(s[k := v]) == Sum(s) - s[k] + v
  {
    var last := |s| - 1;
    if k == last {
      assert s[k := v][..last] == s[..last];
    } else {
      assert s[k := v][..last] == s[..last][k := v];
      SumUpdate(s[..last], k, v);
    }
  }

  lemma {:induction false} SumZeros(n: nat)
    ensures Sum(Zeros(n, 0.0)) == 0.0
  {
    if n > 0 {
      assert Zeros(n, 0.0)[..n - 1] == Zeros(n - 1, 0.0);
      SumZeros(n - 1);
    }
  }

  lemma {:induction false} SumNonNegative(s: seq<real>)
    requires forall i :: 0 <= i < |s| ==> s[i] >= 0.0
    ensures Sum(s) >= 0.0
  {
    if s != [] {
      SumNonNegative(s[..|s| - 1]);
    }
  }

  lemma {:induction false} SumAllZero(s: seq<real>)
    requires forall i :: 0 <= i < |s| ==> s[i] == 0.0
    ensures Sum(s) == 0.0
  {
    if s != [] {
      SumAllZero(s[..|s| - 1]);
    }
  }

  /** The ring's total is the total of the last w values written (fewer, if fewer were written). */
  lemma {:induction false} RingSum(h: seq<real>, w: nat)
    requires w > 0
    ensures Sum(RingOf(h, w, 0.0)) == Sum(Recent(h, w, 0.0))
  {
    var n := |h|;
    if n == 0 {
      assert Recent(h, w, 0.0) == Zeros(w, 0.0);
      SumZeros(w);
    } else {
      var h' := h[..n - 1];
      var m := n - 1;
      RingSum(h', w);
      OverwrittenIsOldest(h', w);
      SumUpdate(RingOf(h', w, 0.0), m % w, h[m]);
      RecentSumStep(h, w);
    }
  }

  /** The slot the next write lands on holds the oldest of the last w values. */
  lemma OverwrittenIsOldest(h: seq<real>, w: nat)
    requires w > 0
    ensures |h| < |Zeros(w, 0.0) + h|
    ensures RingOf(h, w, 0.0)[|h| % w] == (Zeros(w, 0.0) + h)[|h|]
  {
    var m := |h|;
    RingAt(h, w, 0.0, m % w);
    ModSelfDistance(m, w);
  }

  /** Writing one more value drops the oldest of the last w from the window total and adds the new one. */
  lemma RecentSumStep(h: seq<real>, w: nat)
    requires w > 0 && |h| > 0
    ensures |h| - 1 < |Zeros(w, 0.0) + h[..|h| - 1]|
    ensures Sum(Recent(h, w, 0.0))
         == Sum(Recent(h[..|h| - 1], w, 0.0)) - (Zeros(w, 0.0) + h[..|h| - 1])[|h| - 1] + h[|h| - 1]
  {
    var m := |h| - 1;
    var h' := h[..m];
    var padded' := Zeros(w, 0.0) + h';
    assert Zeros(w, 0.0) + h == padded' + [h[m]];
    assert Recent(h, w, 0.0) == padded'[m + 1..] + [h[m]];
    assert Recent(h', w, 0.0) == [padded'[m]] + padded'[m + 1..];
    SumAppend(padded'[m + 1..], [h[m]]);
    SumAppend([padded'[m]], padded'[m + 1..]);
    SumSingle(padded'[m]);
    SumSingle(h[m]);
  }

  lemma SumSingle(x: real)
    ensures Sum([x]) == x
  {
    assert [x][..0] == [];
  }
}
