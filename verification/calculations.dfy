/** Strength and unit arithmetic (utils/calculations.py): the Epley 1RM
    estimate, kg/lb/notch conversion through a kilogram pivot, and
    per-set and per-session training volume in kilograms. */
module Calculations {
  import opened Wrappers
  import opened Seqs

  /** Kilograms in one pound. */
  const LbToKg: real := 0.453592
  /** Kilograms assumed for one cable-machine notch (or plate). */
  const NotchToKg: real := 2.5

  /** The unit strings the application accepts; "notch/plate" is the
      form's spelling of "notch". */
  const KnownUnits: seq<string> := ["kg", "lb", "notch", "notch/plate"]

  predicate IsKnownUnit(u: string)
  {
    u in KnownUnits
  }

  /** Kilograms per one `u`, for a recognised unit. */
  function KgPerUnit(u: string): (f: Option<real>)
    ensures f.Some? <==> IsKnownUnit(u)
    ensures f.Some? ==> f.value > 0.0
  {
    if u == "kg" then Some(1.0)
    else if u == "lb" then Some(LbToKg)
    else if u == "notch" || u == "notch/plate" then Some(NotchToKg)
    else None
  }

  /** Epley estimate of the one-repetition maximum. One rep or fewer
      (including zero and negative counts) estimates the weight itself. */
  function Epley1RM(weight: real, reps: int): (r: real)
    ensures reps <= 1 ==> r == weight
    ensures weight > 0.0 && reps >= 2 ==> r > weight
    ensures weight == 0.0 ==> r == 0.0
  {
    if reps <= 0 then weight
    else if reps == 1 then weight
    else weight * (1.0 + reps as real / 30.0)
  }

  /** For a positive weight the estimate grows strictly with the rep count
      once more than one rep is done. */
  lemma EpleyIncreasing(weight: real, r1: int, r2: int)
    requires weight > 0.0 && r1 < r2 && r2 >= 2
    ensures Epley1RM(weight, r1) < Epley1RM(weight, r2)
  {
    if r1 >= 2 {
      assert r1 as real / 30.0 < r2 as real / 30.0;
      assert weight * (1.0 + r1 as real / 30.0) < weight * (1.0 + r2 as real / 30.0);
    }
  }

  /** `convert_unit`: identical unit strings pass the value through; an
      unrecognised source unit returns the value as-is; otherwise the value
      goes through kilograms, and an unrecognised target unit receives the
      kilogram value. */
  function ConvertUnit(value: real, fromUnit: string, toUnit: string): (r: real)
    ensures fromUnit == toUnit ==> r == value
    ensures !IsKnownUnit(fromUnit) ==> r == value
    ensures fromUnit != toUnit && IsKnownUnit(fromUnit) && !IsKnownUnit(toUnit) ==>
              r == value * KgPerUnit(fromUnit).value
  {
    if fromUnit == toUnit then value
    else match KgPerUnit(fromUnit)
      case None => value
      case Some(f) =>
        var kg := value * f;
        match KgPerUnit(toUnit)
        case None => kg
        case Some(g) => kg / g
  }

  /** The multiplier `ConvertUnit` applies for a pair of unit strings. */
  function ConversionFactor(fromUnit: string, toUnit: string): (c: real)
    ensures c > 0.0
  {
    if fromUnit == toUnit then 1.0
    else match KgPerUnit(fromUnit)
      case None => 1.0
      case Some(f) =>
        match KgPerUnit(toUnit)
        case None => f
        case Some(g) => f / g
  }

  /** Conversion is multiplication by a positive constant that depends only
      on the two unit strings. */
  lemma ConvertIsScaling(value: real, fromUnit: string, toUnit: string)
    ensures ConvertUnit(value, fromUnit, toUnit) == ConversionFactor(fromUnit, toUnit) * value
  {
    if fromUnit != toUnit && IsKnownUnit(fromUnit) && IsKnownUnit(toUnit) {
      var f := KgPerUnit(fromUnit).value;
      var g := KgPerUnit(toUnit).value;
      assert value * f / g == (f / g) * value;
    }
  }

  /** Hence conversion preserves zero, sign and strict order. */
  lemma ConvertPreservesOrder(v1: real, v2: real, fromUnit: string, toUnit: string)
    ensures v1 < v2 <==> ConvertUnit(v1, fromUnit, toUnit) < ConvertUnit(v2, fromUnit, toUnit)
    ensures v1 == 0.0 <==> ConvertUnit(v1, fromUnit, toUnit) == 0.0
    ensures v1 > 0.0 <==> ConvertUnit(v1, fromUnit, toUnit) > 0.0
  {
    var c := ConversionFactor(fromUnit, toUnit);
    ConvertIsScaling(v1, fromUnit, toUnit);
    ConvertIsScaling(v2, fromUnit, toUnit);
    if v1 < v2 {
      assert c * v1 < c * v2;
    }
    if c * v1 < c * v2 {
      assert c * (v2 - v1) > 0.0;
    }
    if c * v1 > 0.0 {
      assert v1 > 0.0;
    }
  }

  /** Converting to another recognised unit and back gives the value back
      exactly (in exact real arithmetic). */
  lemma ConvertRoundTrip(value: real, a: string, b: string)
    requires IsKnownUnit(a) && IsKnownUnit(b)
    ensures ConvertUnit(ConvertUnit(value, a, b), b, a) == value
  {
    if a != b {
      var f := KgPerUnit(a).value;
      var g := KgPerUnit(b).value;
      assert ConvertUnit(value, a, b) == value * f / g;
      assert ConvertUnit(value * f / g, b, a) == value * f / g * g / f;
      assert value * f / g * g / f == value;
    }
  }

  /** "notch" and "notch/plate" are the same unit, and the constants are
      the ones the source fixes: 1 lb = 0.453592 kg, 1 notch = 2.5 kg. */
  lemma UnitConstants(v: real)
    ensures ConvertUnit(v, "notch", "notch/plate") == v
    ensures ConvertUnit(v, "notch/plate", "notch") == v
    ensures ConvertUnit(v, "notch", "kg") == 2.5 * v
    ensures ConvertUnit(v, "notch/plate", "kg") == 2.5 * v
    ensures ConvertUnit(v, "lb", "kg") == 0.453592 * v
    ensures ConvertUnit(v, "kg", "lb") == v / 0.453592
  {
  }

  /** `standardize_weight`: the weight in kilograms. */
  function StandardizeWeight(weight: real, unit: string): (kg: real)
    ensures IsKnownUnit(unit) ==> kg == weight * KgPerUnit(unit).value
    ensures !IsKnownUnit(unit) ==> kg == weight
  {
    ConvertUnit(weight, unit, "kg")
  }

  /** `calculate_volume`: weight times reps, in the weight's own unit. */
  function Volume(weight: real, reps: int): real
  {
    weight * reps as real
  }

  /** `calculate_total_volume`: the set's volume with the weight first
      converted to kilograms. */
  function TotalVolume(weight: real, reps: int, unit: string): (v: real)
    ensures v == Volume(StandardizeWeight(weight, unit), reps)
    ensures weight >= 0.0 && reps >= 0 ==> v >= 0.0
  {
    var kg := StandardizeWeight(weight, unit);
    ConvertPreservesOrder(0.0, weight, unit, "kg");
    Volume(kg, reps)
  }

  /** One entry of the list given to `calculate_session_volume`: each key
      of the dictionary may be absent. */
  datatype VolumeEntry = VolumeEntry(weight: Option<real>, reps: Option<int>, unit: Option<string>)

  /** A set's contribution: missing weight and reps count as 0, a missing
      unit as "kg". */
  function EntryVolume(e: VolumeEntry): real
  {
    TotalVolume(e.weight.GetOr(0.0), e.reps.GetOr(0), e.unit.GetOr("kg"))
  }

  /** `calculate_session_volume`: the running total over the list,
      starting at 0.0. */
  function SessionVolume(sets: seq<VolumeEntry>): (total: real)
    ensures |sets| == 0 ==> total == 0.0
    ensures (forall i :: 0 <= i < |sets| ==> sets[i].weight.GetOr(0.0) >= 0.0 && sets[i].reps.GetOr(0) >= 0)
              ==> total >= 0.0
  {
    if |sets| == 0 then 0.0
    else SessionVolume(sets[..|sets| - 1]) + EntryVolume(sets[|sets| - 1])
  }

  /** The session volume is the sum of the per-set total volumes, so it
      splits over any division of the list. */
  lemma {:induction false} SessionVolumeIsSum(sets: seq<VolumeEntry>)
    ensures SessionVolume(sets) == SumOf(sets, EntryVolume)
    decreases |sets|
  {
    if |sets| > 0 {
      SessionVolumeIsSum(sets[..|sets| - 1]);
    }
  }

  lemma SessionVolumeAppend(a: seq<VolumeEntry>, b: seq<VolumeEntry>)
    ensures SessionVolume(a + b) == SessionVolume(a) + SessionVolume(b)
  {
    SessionVolumeIsSum(a + b);
    SessionVolumeIsSum(a);
    SessionVolumeIsSum(b);
    SumOfAppend(a, b, EntryVolume);
  }

  /** A set with a missing weight or missing reps adds nothing. */
  lemma MissingFieldAddsNothing(sets: seq<VolumeEntry>, e: VolumeEntry)
    requires e.weight.None? || e.reps.None?
    ensures SessionVolume(sets + [e]) == SessionVolume(sets)
  {
    assert (sets + [e])[..|sets + [e]| - 1] == sets;
  }
}
