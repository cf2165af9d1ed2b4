// The level bar of Source/dbMeter.h and Source/dbMeter.cpp: a stored level
// clamped into [minDb, maxDb] when it changes, and the linear map from that
// range onto [0, 1] that sizes the bar.
//
// The gradient and the drawing are left out.
module Meter {
  import opened Audio

  /** JUCE's `jmap(v, sourceMin, sourceMax, 0, 1)`: the linear map sending sourceMin to 0 and sourceMax to 1. JUCE asserts the source range is not empty. */
  function MapToUnit(v: real, sourceMin: real, sourceMax: real): (t: real)
    requires sourceMin != sourceMax
    ensures v == sourceMin ==> t == 0.0
    ensures v == sourceMax ==> t == 1.0
    ensures sourceMin < sourceMax && sourceMin <= v <= sourceMax ==> 0.0 <= t <= 1.0
  {
    if sourceMin < sourceMax && sourceMin <= v <= sourceMax then
      DivBetween(v - sourceMin, sourceMax - sourceMin, 0.0, 1.0);
      (v - sourceMin) / (sourceMax - sourceMin)
    else
      (v - sourceMin) / (sourceMax - sourceMin)
  }

  /** The inverse of MapToUnit: the level at fraction t of the range. */
  function UnitToRange(t: real, sourceMin: real, sourceMax: real): (v: real)
  {
    sourceMin + t * (sourceMax - sourceMin)
  }

  /** Mapping a level to [0, 1] and back gives the level. */
  lemma MapRoundTrip(v: real, sourceMin: real, sourceMax: real)
    requires sourceMin != sourceMax
    ensures UnitToRange(MapToUnit(v, sourceMin, sourceMax), sourceMin, sourceMax) == v
  {
    var d := sourceMax - sourceMin;
    var t := MapToUnit(v, sourceMin, sourceMax);
    assert t * d == v - sourceMin;
  }

  /** Mapping a fraction to a level and back gives the fraction. */
  lemma UnmapRoundTrip(t: real, sourceMin: real, sourceMax: real)
    requires sourceMin != sourceMax
    ensures MapToUnit(UnitToRange(t, sourceMin, sourceMax), sourceMin, sourceMax) == t
  {
    var d := sourceMax - sourceMin;
    assert UnitToRange(t, sourceMin, sourceMax) - sourceMin == t * d;
  }

  /** Over an increasing range a louder level never draws a shorter bar. */
  lemma MapMonotone(v: real, w: real, sourceMin: real, sourceMax: real)
    requires sourceMin < sourceMax && v <= w
    ensures MapToUnit(v, sourceMin, sourceMax) <= MapToUnit(w, sourceMin, sourceMax)
  {
    var d := sourceMax - sourceMin;
    assert (w - sourceMin) / d - (v - sourceMin) / d == (w - v) / d;
  }

  class DbMeter {
    var levelDb: real
    var minDb: real
    var maxDb: real

    /** The defaults: level -60 dB on a [-60, 0] dB scale. */
    constructor ()
      ensures levelDb == -60.0 && minDb == -60.0 && maxDb == 0.0
    {
      levelDb := -60.0;
      minDb := -60.0;
      maxDb := 0.0;
    }

    /** `setLevel`: a level equal to the stored one changes nothing; any other is clamped into [minDb, maxDb] and stored. */
    method SetLevel(newLevel: real)
      modifies this`levelDb
      ensures newLevel == old(levelDb) ==> levelDb == old(levelDb)
      ensures newLevel != old(levelDb) ==> levelDb == Limit(minDb, maxDb, newLevel)
      ensures newLevel != old(levelDb) && minDb <= maxDb ==> minDb <= levelDb <= maxDb
    {
      if levelDb != newLevel {
        levelDb := newLevel;
        levelDb := Limit(minDb, maxDb, levelDb);
      }
    }

    /** `setMinDb`: only the lower bound changes; the stored level is not re-clamped. */
    method SetMinDb(newMinDb: real)
      modifies this`minDb
      ensures minDb == newMinDb
    {
      minDb := newMinDb;
    }

    /** `setMaxDb`: only the upper bound changes; the stored level is not re-clamped. */
    method SetMaxDb(newMaxDb: real)
      modifies this`maxDb
      ensures maxDb == newMaxDb
    {
      maxDb := newMaxDb;
    }

    /** `mapDb`: where a level sits on this meter's scale, 0 at minDb and 1 at maxDb. */
    function MapDb(db: real): (t: real)
      requires minDb != maxDb
      reads this`minDb, this`maxDb
      ensures minDb < maxDb && minDb <= db <= maxDb ==> 0.0 <= t <= 1.0
      ensures UnitToRange(t, minDb, maxDb) == db
    {
      MapRoundTrip(db, minDb, maxDb);
      MapToUnit(db, minDb, maxDb)
    }

    /** The bar `paint` draws for the stored level: a fraction in [0, 1] once a level has been set on a scale with minDb < maxDb. */
    lemma StoredLevelOnScale()
      requires minDb < maxDb && minDb <= levelDb <= maxDb
      ensures 0.0 <= MapDb(levelDb) <= 1.0
    {
    }
  }
}
