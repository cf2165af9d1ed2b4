// The helpers and the meter state of Source/MainComponent.cpp: the "MM:SS"
// time label, the RMS level of one channel and its conversion to dB, the
// asymmetric attack/release smoother of the true-peak readings, the readout
// target with its exponential smoothing and snap to zero, and the transport
// state machine with the button states it drives.
//
// The audio device, the transport source and the widgets are reduced to the
// fields the state machine sets; `sqrt` and `log10` are parameters.
module App {
  import opened ModArith
  import opened Ring
  import opened Audio
  import opened TruePeak
  import opened Wave

  // ---- formatTime ----

  /** C++'s `(int)x` on a double: truncation toward zero. */
  function TruncToInt(x: real): (n: int)
    ensures 0.0 <= x ==> 0 <= n && n as real <= x < n as real + 1.0
    ensures x < 0.0 ==> n <= 0 && n as real - 1.0 < x <= n as real
  {
    if x >= 0.0 then x.Floor else -((-x).Floor)
  }

  predicate IsDigit(c: char)
  {
    '0' <= c <= '9'
  }

  predicate AllDigits(s: string)
  {
    forall i :: 0 <= i < |s| ==> IsDigit(s[i])
  }

  function DigitChar(d: nat): (c: char)
    requires d < 10
    ensures IsDigit(c) && c as int - '0' as int == d
  {
    (d + '0' as int) as char
  }

  /** The decimal digits of n, most significant first, without leading zeros. */
  function Digits(n: nat): (s: string)
    ensures 1 <= |s| && AllDigits(s)
    ensures n < 10 <==> |s| == 1
    ensures 10 <= n < 100 ==> |s| == 2
    decreases n
  {
    if n < 10 then [DigitChar(n)] else Digits(n / 10) + [DigitChar(n % 10)]
  }

  /** The value of a string of decimal digits (reading one back). */
  function ParseDigits(s: string): int
    requires AllDigits(s)
  {
    if s == [] then 0 else 10 * ParseDigits(s[..|s| - 1]) + (s[|s| - 1] as int - '0' as int)
  }

  /** Reading the digits of n gives n. */
  lemma {:induction false} ParseDigitsOfDigits(n: nat)
    ensures ParseDigits(Digits(n)) == n
    decreases n
  {
    if n >= 10 {
      var s := Digits(n);
      assert s[..|s| - 1] == Digits(n / 10);
      ParseDigitsOfDigits(n / 10);
    }
  }

  /** printf's `%02d`: at least two characters, zero-padded on the left; a negative value already has two. */
  function Pad2(n: int): (s: string)
    ensures 2 <= |s|
    ensures 0 <= n ==> AllDigits(s) && ParseDigits(s) == n
    ensures 0 <= n < 100 ==> |s| == 2
    ensures n < 0 ==> s[0] == '-'
  {
    if n < 0 then "-" + Digits(-n)
    else if n < 10 then
      assert ParseDigits(['0']) == 0;
      ['0', DigitChar(n)]
    else
      ParseDigitsOfDigits(n);
      Digits(n)
  }

  /** A label of the shape `<digits>:<two digits>`. */
  predicate IsClock(s: string)
  {
    && 5 <= |s|
    && s[|s| - 3] == ':'
    && AllDigits(s[..|s| - 3])
    && AllDigits(s[|s| - 2..])
  }

  /** Minutes times 60 plus seconds, read back from a label. */
  function ParseClock(s: string): int
    requires IsClock(s)
  {
    60 * ParseDigits(s[..|s| - 3]) + ParseDigits(s[|s| - 2..])
  }

  /** `formatTime`: whole seconds (truncated) as `minutes:seconds`, each field `%02d`. */
  function FormatTime(seconds: real): (s: string)
    ensures 0.0 <= seconds ==> IsClock(s)
    ensures 0.0 <= seconds < 6000.0 ==> |s| == 5
  {
    var total := TruncToInt(seconds);
    var minutes := CDiv(total, 60);
    var secs := CRem(total, 60);
    var s := Pad2(minutes) + ":" + Pad2(secs);
    if 0 <= total then
      assert s[..|s| - 3] == Pad2(minutes) && s[|s| - 2..] == Pad2(secs);
      s
    else
      s
  }

  /** For a non-negative time the label reads back as the truncated number of seconds, and its seconds field is in [0, 59]. */
  lemma FormatTimeRoundTrip(seconds: real)
    requires 0.0 <= seconds
    ensures ParseClock(FormatTime(seconds)) == TruncToInt(seconds)
    ensures 0 <= ParseDigits(FormatTime(seconds)[|FormatTime(seconds)| - 2..]) <= 59
  {
    var total := TruncToInt(seconds);
    var s := FormatTime(seconds);
    assert s[..|s| - 3] == Pad2(CDiv(total, 60)) && s[|s| - 2..] == Pad2(CRem(total, 60));
  }

  /** A negative time is printed with a sign in each field: -65.5 s becomes "-1:-5". */
  lemma NegativeTimeLabel()
    ensures FormatTime(-65.5) == "-1:-5"
  {
    assert TruncToInt(-65.5) == -65;
    assert CDiv(-65, 60) == -1 && CRem(-65, 60) == -5;
    assert Digits(1) == "1" && Digits(5) == "5";
  }

  // ---- calculateRMS and rmsToDb ----

  function SumSquares(s: seq<real>): real
  {
    if s == [] then 0.0 else SumSquares(s[..|s| - 1]) + s[|s| - 1] * s[|s| - 1]
  }

  lemma {:induction false} SumSquaresNonNegative(s: seq<real>)
    ensures SumSquares(s) >= 0.0
  {
    if s != [] {
      SumSquaresNonNegative(s[..|s| - 1]);
    }
  }

  /** The samples `calculateRMS` reads: `numSamples` from `startSample` of the channel, none for a channel the block does not have or a non-positive count. */
  function RmsWindow(b: Block, startSample: nat, numSamples: int, channel: nat): seq<real>
    requires b.Valid()
    requires channel < |b.channels| && numSamples > 0 ==> startSample + numSamples <= b.numSamples
  {
    if channel < |b.channels| && numSamples > 0 then b.channels[channel][startSample..startSample + numSamples] else []
  }

  /** `sum / jmax(1, numSamples)`: the mean square, with the divisor floored at 1. */
  function MeanSquare(window: seq<real>, numSamples: int): (m: real)
    ensures m >= 0.0
    ensures window == [] ==> m == 0.0
  {
    SumSquaresNonNegative(window);
    var d := if numSamples < 1 then 1 else numSamples;
    DivBetween(SumSquares(window), d as real, 0.0, SumSquares(window));
    SumSquares(window) / d as real
  }

  /** A signal of constant level c over its whole length has mean square c². */
  lemma MeanSquareOfConstant(n: nat, c: real)
    requires n >= 1
    ensures MeanSquare(Zeros(n, c), n) == c * c
  {
    SumSquaresOfConstant(n, c);
  }

  lemma {:induction false} SumSquaresOfConstant(n: nat, c: real)
    ensures SumSquares(Zeros(n, c)) == n as real * (c * c)
  {
    if n > 0 {
      assert Zeros(n, c)[..n - 1] == Zeros(n - 1, c);
      SumSquaresOfConstant(n - 1, c);
    }
  }

  /** `calculateRMS`: the square root of the mean square of the window; a missing channel or an empty window gives 0. */
  method CalculateRms(buffer: Block, startSample: nat, numSamples: int, channel: nat, sqrt: real -> real)
    returns (rms: real)
    requires sqrt(0.0) == 0.0
    requires buffer.Valid()
    requires channel < |buffer.channels| && numSamples > 0 ==> startSample + numSamples <= buffer.numSamples
    ensures rms == sqrt(MeanSquare(RmsWindow(buffer, startSample, numSamples, channel), numSamples))
    ensures channel >= |buffer.channels| || numSamples <= 0 ==> rms == 0.0
  {
    var sum := 0.0;
    ghost var window := RmsWindow(buffer, startSample, numSamples, channel);
    if channel < |buffer.channels| {
      var p := buffer.channels[channel];
      var i := 0;
      while i < numSamples
        invariant 0 <= i && (numSamples > 0 ==> i <= numSamples)
        invariant numSamples <= 0 ==> i == 0
        invariant i == 0 ==> sum == 0.0
        invariant i > 0 ==> sum == SumSquares(p[startSample..startSample + i])
      {
        assert p[startSample..startSample + i + 1][..i] == p[startSample..startSample + i];
        sum := sum + p[startSample + i] * p[startSample + i];
        i := i + 1;
      }
      assert numSamples > 0 ==> p[startSample..startSample + i] == window;
    }
    var d := if numSamples < 1 then 1 else numSamples;
    rms := sqrt(sum / d as real);
  }

  /** `rmsToDb`: the same conversion as the true-peak detector's: 20 log10(rms) for a positive level, -100 otherwise. */
  function RmsToDb(rms: real, log10: real -> real): (db: real)
    ensures rms <= 0.0 ==> db == SilenceDb
    ensures db == LinearToDb(rms, log10)
  {
    if rms > 0.0 then 20.0 * log10(rms) else -100.0
  }

  // ---- True-peak readings and their smoother ----

  const Attack: real := 0.6
  const Release: real := 0.2

  /** One smoother step: toward a higher reading with weight 0.6, toward a lower or equal one with weight 0.2. */
  function TpStep(smooth: real, reading: real): (r: real)
    ensures Between(r, smooth, reading)
    ensures reading > smooth ==> r > smooth
    ensures reading < smooth ==> r < smooth
  {
    if reading > smooth then Blend(Attack, reading, smooth) else Blend(Release, reading, smooth)
  }

  /** A rise of d moves the smoothed value three times as far as a fall of d. */
  lemma AttackFasterThanRelease(smooth: real, d: real)
    requires d > 0.0
    ensures TpStep(smooth, smooth + d) - smooth == 3.0 * (smooth - TpStep(smooth, smooth - d))
  {
  }

  /** Each step closes at least a fifth of the gap to the reading: 60% of it when rising, 20% when falling. */
  lemma TpStepCloses(smooth: real, reading: real)
    ensures reading > smooth ==> reading - TpStep(smooth, reading) == 0.4 * (reading - smooth)
    ensures reading <= smooth ==> TpStep(smooth, reading) - reading == 0.8 * (smooth - reading)
  {
  }

  datatype TpPair = TpPair(left: real, right: real)

  /** The readings as written: the right one falls back to the left *dB* value and converts it to dB a second time. */
  function TpReadingsAsWritten(peaks: seq<real>, log10: real -> real): (p: TpPair)
    ensures p.left == LinearToDb(if |peaks| > 0 then peaks[0] else 0.0, log10)
    ensures |peaks| > 1 ==> p.right == LinearToDb(peaks[1], log10)
  {
    var tpL := LinearToDb(if |peaks| > 0 then peaks[0] else 0.0, log10);
    var tpR := LinearToDb(if |peaks| > 1 then peaks[1] else tpL, log10);
    TpPair(tpL, tpR)
  }

  /** A single peak p in (0, 1]: the left reading is 20 log10(p), but the right one reads as silence, -100 dB, whatever p is. */
  lemma MonoFallbackReadsSilence(p: real, log10: real -> real)
    requires 0.0 < p && log10(p) <= 0.0
    ensures TpReadingsAsWritten([p], log10).left == 20.0 * log10(p)
    ensures TpReadingsAsWritten([p], log10).right == SilenceDb
  {
  }

  /** The readings as intended: the right one falls back to the left reading unchanged. */
  function TpReadings(peaks: seq<real>, log10: real -> real): (p: TpPair)
    ensures |peaks| > 1 ==> p == TpReadingsAsWritten(peaks, log10)
    ensures |peaks| <= 1 ==> p.right == p.left == TpReadingsAsWritten(peaks, log10).left
  {
    var tpL := LinearToDb(if |peaks| > 0 then peaks[0] else 0.0, log10);
    var tpR := if |peaks| > 1 then LinearToDb(peaks[1], log10) else tpL;
    TpPair(tpL, tpR)
  }

  /** With a single peak both intended readings equal the true-peak level of that channel. */
  lemma MonoFallbackMirrorsLeft(p: real, log10: real -> real)
    requires 0.0 < p
    ensures TpReadings([p], log10) == TpPair(20.0 * log10(p), 20.0 * log10(p))
  {
  }

  // ---- The readout ----

  datatype MeterMode = DB | LUFS | TP

  /** What one audio callback measured: each reading with the flag saying whether it was taken. */
  datatype Measured = Measured(
    haveDB: bool, leftDb: real, rightDb: real,
    haveLUFS: bool, lufsShort: real,
    haveTP: bool, tpLdb: real, tpRdb: real)
  {
    predicate Any()
    {
      haveDB || haveTP || haveLUFS
    }
  }

  /** The value the readout moves toward: the louder channel (dB, TP) or the short-term loudness, or the previous smoothed value when the selected mode was not measured. */
  function ReadoutTarget(mode: MeterMode, m: Measured, previous: real): (t: real)
    ensures (mode == DB && !m.haveDB) || (mode == LUFS && !m.haveLUFS) || (mode == TP && !m.haveTP) ==> t == previous
    ensures mode == DB && m.haveDB ==> t >= m.leftDb && t >= m.rightDb && (t == m.leftDb || t == m.rightDb)
    ensures mode == LUFS && m.haveLUFS ==> t == m.lufsShort
    ensures mode == TP && m.haveTP ==> t >= m.tpLdb && t >= m.tpRdb && (t == m.tpLdb || t == m.tpRdb)
  {
    match mode
    case DB => if m.haveDB then MaxOf(m.leftDb, m.rightDb) else previous
    case LUFS => if m.haveLUFS then m.lufsShort else previous
    case TP => if m.haveTP then MaxOf(m.tpLdb, m.tpRdb) else previous
  }

  /** The safety clamp on the readout smoothing factor. */
  function ReadoutAlpha(alpha: real): (a: real)
    ensures 0.01 <= a <= 0.99
    ensures 0.01 <= alpha <= 0.99 ==> a == alpha
  {
    Limit(0.01, 0.99, alpha)
  }

  /** Each readout step closes between 1% and 99% of the gap to the target, so it neither sticks nor overshoots. */
  lemma ReadoutApproachesTarget(alpha: real, target: real, previous: real)
    ensures Blend(ReadoutAlpha(alpha), target, previous) - target == (1.0 - ReadoutAlpha(alpha)) * (previous - target)
    ensures 0.01 <= 1.0 - ReadoutAlpha(alpha) <= 0.99
  {
  }

  /** The displayed value: 0 when the smoothed value is within 0.05 of 0, else the value itself. */
  function SnapToZero(v: real): (d: real)
    ensures -0.05 < v < 0.05 <==> d == 0.0
    ensures d == 0.0 || d == v
    ensures d == 0.0 || d <= -0.05 || d >= 0.05
  {
    if AbsReal(v) < 0.05 then 0.0 else v
  }

  /** Snapping twice is snapping once. */
  lemma SnapIdempotent(v: real)
    ensures SnapToZero(SnapToZero(v)) == SnapToZero(v)
  {
  }

  datatype TransportState = Stopped | Starting | Stopping

  /** What the readout posts to the label: nothing when no meter was measured. */
  datatype Posted = Nothing | Label(value: real)

  class MainComponent {
    var state: TransportState
    var playEnabled: bool
    var stopEnabled: bool
    /** The transport source's position and whether it is running. */
    var transportPosition: real
    var transportRunning: bool
    const waveform: Waveform

    var tpLeftSmooth: real
    var tpRightSmooth: real
    var smoothedMeterValue: real
    var meterSmoothingAlpha: real
    var currentMeterMode: MeterMode

    /** The waveform history is well formed, and exactly one transport button is enabled: stop while starting, play otherwise. */
    ghost predicate Valid()
      reads this, waveform, waveform.audioHistory
    {
      && waveform.Valid()
      && stopEnabled == (state == Starting)
      && playEnabled == !stopEnabled
    }

    /** The state after construction: stopped, play enabled, both true-peak smoothers and the readout at -60 dB, smoothing factor 0.2, dB mode. */
    constructor ()
      ensures Valid()
      ensures state == Stopped && playEnabled && !stopEnabled
      ensures waveform.pushed == []
      ensures tpLeftSmooth == -60.0 && tpRightSmooth == -60.0
      ensures smoothedMeterValue == -60.0 && meterSmoothingAlpha == 0.2 && currentMeterMode == DB
    {
      state := Stopped;
      playEnabled := true;
      stopEnabled := false;
      transportPosition := 0.0;
      transportRunning := false;
      waveform := new Waveform();
      tpLeftSmooth := -60.0;
      tpRightSmooth := -60.0;
      smoothedMeterValue := -60.0;
      meterSmoothingAlpha := 0.2;
      currentMeterMode := DB;
    }

    /** `transportStateChange`: no change when the state is the same; otherwise the new state is entered with its button states, and Stopped also rewinds and clears the waveform, Stopping stops and Starting starts the transport. */
    method TransportStateChange(newState: TransportState)
      requires Valid()
      modifies this`state, this`playEnabled, this`stopEnabled, this`transportPosition, this`transportRunning
      modifies waveform`writeIndex, waveform`pushed, waveform.audioHistory
      ensures Valid()
      ensures state == newState
      ensures newState == old(state) ==>
                && playEnabled == old(playEnabled) && stopEnabled == old(stopEnabled)
                && transportPosition == old(transportPosition) && transportRunning == old(transportRunning)
                && waveform.pushed == old(waveform.pushed) && waveform.audioHistory[..] == old(waveform.audioHistory[..])
      ensures newState != old(state) && newState == Stopped ==>
                && transportPosition == 0.0 && transportRunning == old(transportRunning)
                && waveform.pushed == [] && waveform.writeIndex == 0
      ensures newState != old(state) && newState == Stopping ==>
                && !transportRunning && transportPosition == old(transportPosition)
                && waveform.pushed == old(waveform.pushed) && waveform.audioHistory[..] == old(waveform.audioHistory[..])
      ensures newState != old(state) && newState == Starting ==>
                && transportRunning && transportPosition == old(transportPosition)
                && waveform.pushed == old(waveform.pushed) && waveform.audioHistory[..] == old(waveform.audioHistory[..])
    {
      if newState == state {
        return;
      }
      state := newState;
      if state == Stopped {
        playEnabled := true;
        stopEnabled := false;
        transportPosition := 0.0;
        waveform.Clear();
      } else if state == Stopping {
        stopEnabled := false;
        playEnabled := true;
        transportRunning := false;
      } else {
        stopEnabled := true;
        playEnabled := false;
        transportRunning := true;
      }
    }

    /** The true-peak block of the audio callback: each smoother takes one step toward its (intended) reading. */
    method SmoothTruePeak(peaks: seq<real>, log10: real -> real) returns (tp: TpPair)
      modifies this`tpLeftSmooth, this`tpRightSmooth
      ensures tpLeftSmooth == TpStep(old(tpLeftSmooth), TpReadings(peaks, log10).left)
      ensures tpRightSmooth == TpStep(old(tpRightSmooth), TpReadings(peaks, log10).right)
      ensures tp == TpPair(tpLeftSmooth, tpRightSmooth)
    {
      var readings := TpReadings(peaks, log10);
      tpLeftSmooth := TpStep(tpLeftSmooth, readings.left);
      tpRightSmooth := TpStep(tpRightSmooth, readings.right);
      tp := TpPair(tpLeftSmooth, tpRightSmooth);
    }

    /** The readout block of the audio callback: when anything was measured, the smoothed value steps toward the target by the clamped factor and the snapped value is posted; otherwise nothing happens. */
    method UpdateReadout(m: Measured) returns (posted: Posted)
      modifies this`smoothedMeterValue
      ensures !m.Any() ==> smoothedMeterValue == old(smoothedMeterValue) && posted == Nothing
      ensures m.Any() ==>
                smoothedMeterValue == Blend(ReadoutAlpha(meterSmoothingAlpha),
                                            ReadoutTarget(currentMeterMode, m, old(smoothedMeterValue)),
                                            old(smoothedMeterValue))
      ensures m.Any() ==> Between(smoothedMeterValue, ReadoutTarget(currentMeterMode, m, old(smoothedMeterValue)), old(smoothedMeterValue))
      ensures m.Any() ==> posted == Label(SnapToZero(smoothedMeterValue))
    {
      if !m.Any() {
        return Nothing;
      }
      var target := ReadoutTarget(currentMeterMode, m, smoothedMeterValue);
      var a := ReadoutAlpha(meterSmoothingAlpha);
      smoothedMeterValue := Blend(a, target, smoothedMeterValue);
      posted := Label(SnapToZero(smoothedMeterValue));
    }
  }
}
