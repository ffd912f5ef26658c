/** Classifiers, validators and option ladders (utils/helpers.py): the
    fixed muscle-group and exercise-type lists, keyword classifiers,
    input validation in a fixed order, and the weight/reps choices the
    entry form offers. */
module Helpers {
  import opened Wrappers
  import opened Text
  import opened Seqs
  import Calculations

  const Chest := "胸 (Chest)"
  const Back := "背 (Back)"
  const Shoulders := "肩 (Shoulders)"
  const Legs := "腿 (Legs)"
  const Arms := "手臂 (Arms)"
  const CoreGroup := "核心 (Core)"
  const OtherGroup := "其他 (Other)"

  /** `get_muscle_groups`. */
  function MuscleGroups(): seq<string>
  {
    [Chest, Back, Shoulders, Legs, Arms, CoreGroup, OtherGroup]
  }

  /** The CSV-name mapping of `map_muscle_group`, in dictionary order. */
  const MuscleMapping: seq<(string, string)> := [
    ("chest", Chest), ("back", Back), ("shoulders", Shoulders), ("shoulder", Shoulders),
    ("legs", Legs), ("leg", Legs), ("arms", Arms), ("arm", Arms),
    ("core", CoreGroup), ("other", OtherGroup)]

  /** Index of the entry whose key is exactly `normalized`. */
  function ExactKey(normalized: string): (r: Option<nat>)
    ensures r.Some? ==> r.value < |MuscleMapping| && MuscleMapping[r.value].0 == normalized
    ensures r.None? ==> forall j :: 0 <= j < |MuscleMapping| ==> MuscleMapping[j].0 != normalized
  {
    FirstIndexWhere(MuscleMapping, (kv: (string, string)) => kv.0 == normalized)
  }

  /** Key and input overlap: either one is a substring of the other. */
  predicate PartialKeyMatch(key: string, normalized: string)
  {
    Contains(normalized, key) || Contains(key, normalized)
  }

  /** Index of the first entry, in dictionary order, whose key partially
      matches. */
  function FirstPartialKey(normalized: string): (r: Option<nat>)
    ensures r.Some? ==> r.value < |MuscleMapping| && PartialKeyMatch(MuscleMapping[r.value].0, normalized)
    ensures r.Some? ==> forall j :: 0 <= j < r.value ==> !PartialKeyMatch(MuscleMapping[j].0, normalized)
    ensures r.None? <==> forall j :: 0 <= j < |MuscleMapping| ==> !PartialKeyMatch(MuscleMapping[j].0, normalized)
  {
    FirstIndexWhere(MuscleMapping, (kv: (string, string)) => PartialKeyMatch(kv.0, normalized))
  }

  /** The normalisation `map_muscle_group` applies first. */
  function NormalizeName(s: string): string
  {
    Strip(Lower(s))
  }

  /** `map_muscle_group`: an exact key wins; otherwise the first key (in
      dictionary order) that overlaps the normalised input; otherwise
      Other. The result is always one of the app's muscle groups. */
  function MapMuscleGroup(csvMuscleGroup: string): (r: string)
    ensures r in MuscleGroups()
    ensures var n := NormalizeName(csvMuscleGroup);
            (ExactKey(n).Some? ==> r == MuscleMapping[ExactKey(n).value].1)
            && (ExactKey(n).None? && FirstPartialKey(n).Some? ==> r == MuscleMapping[FirstPartialKey(n).value].1)
            && (ExactKey(n).None? && FirstPartialKey(n).None? ==> r == OtherGroup)
  {
    var n := NormalizeName(csvMuscleGroup);
    MappingTargetsAreGroups();
    match ExactKey(n)
    case Some(i) => MuscleMapping[i].1
    case None =>
      match FirstPartialKey(n)
      case Some(i) => MuscleMapping[i].1
      case None => OtherGroup
  }

  lemma MappingTargetsAreGroups()
    ensures forall i :: 0 <= i < |MuscleMapping| ==> MuscleMapping[i].1 in MuscleGroups()
  {
  }

  /** An empty or all-blank input matches the first key, because the empty
      string is a substring of "chest". */
  lemma BlankMapsToChest(s: string)
    requires forall i :: 0 <= i < |s| ==> IsWhitespace(s[i])
    ensures MapMuscleGroup(s) == Chest
  {
    LowerKeepsBlank(s);
    StripBlank(Lower(s));
    ContainsEmptyAndSelf("chest");
    assert PartialKeyMatch(MuscleMapping[0].0, "");
    assert ExactKey("").None? by {
      forall j | 0 <= j < |MuscleMapping|
        ensures MuscleMapping[j].0 != ""
      {
        assert |MuscleMapping[j].0| > 0;
      }
    }
  }

  /** `get_exercise_types`. */
  function ExerciseTypes(): seq<string>
  {
    ["Barbell", "Dumbbell", "Machine", "Cable", "Bodyweight", "Other"]
  }

  /** True if some keyword occurs in `s` (`any(k in s for k in keywords)`). */
  predicate AnyContains(s: string, keywords: seq<string>)
  {
    exists k :: k in keywords && Contains(s, k)
  }

  /** The keyword rules of `infer_exercise_type`, tested in this order. */
  const TypeRules: seq<(string, seq<string>)> := [
    ("Barbell", ["barbell", "bb "]),
    ("Dumbbell", ["dumbbell", "db ", "single-arm"]),
    ("Cable", ["cable", "pulley"]),
    ("Machine", ["machine", "seated", "press machine"]),
    ("Bodyweight", ["pull-up", "push-up", "dip", "plank", "bodyweight"])]

  /** `infer_exercise_type`: the type of the first rule with a keyword in
      the lower-cased name, else Other. The result is always one of the
      listed exercise types. */
  function InferExerciseType(exerciseName: string): (r: string)
    ensures r in ExerciseTypes()
    ensures var l := Lower(exerciseName);
            (r == "Other" <==> forall j :: 0 <= j < |TypeRules| ==> !AnyContains(l, TypeRules[j].1))
    ensures var l := Lower(exerciseName);
            forall j :: 0 <= j < |TypeRules| && AnyContains(l, TypeRules[j].1) ==>
              exists k :: 0 <= k <= j && r == TypeRules[k].0 && AnyContains(l, TypeRules[k].1)
  {
    var l := Lower(exerciseName);
    RuleTypesListed();
    match FirstIndexWhere(TypeRules, RuleHits(l))
    case Some(i) => TypeRules[i].0
    case None => "Other"
  }

  /** Every rule yields a listed type other than Other. */
  lemma RuleTypesListed()
    ensures forall j :: 0 <= j < |TypeRules| ==> TypeRules[j].0 in ExerciseTypes() && TypeRules[j].0 != "Other"
  {
    assert ExerciseTypes()[0] == TypeRules[0].0 && ExerciseTypes()[1] == TypeRules[1].0;
    assert ExerciseTypes()[3] == TypeRules[2].0 && ExerciseTypes()[2] == TypeRules[3].0;
    assert ExerciseTypes()[4] == TypeRules[4].0;
    forall j | 0 <= j < |TypeRules|
      ensures TypeRules[j].0 != "Other"
    {
      assert TypeRules[j].0[0] != 'O';
    }
  }

  /** The rule test applied to a lower-cased name. */
  function RuleHits(l: string): ((string, seq<string>)) -> bool
  {
    (rule: (string, seq<string>)) => AnyContains(l, rule.1)
  }

  /** A barbell keyword wins over every later rule. */
  lemma BarbellFirst(exerciseName: string)
    requires AnyContains(Lower(exerciseName), TypeRules[0].1)
    ensures InferExerciseType(exerciseName) == "Barbell"
  {
  }

  /** Example: "Single-Arm Cable Row" is typed Dumbbell, because the
      Dumbbell rule comes before the Cable rule. */
  lemma SingleArmCableRowIsDumbbell()
    ensures InferExerciseType("Single-Arm Cable Row") == "Dumbbell"
  {
    LowerExample();
    LowerSingleArmIsDumbbell("Single-Arm Cable Row");
  }

  lemma LowerSingleArmIsDumbbell(name: string)
    requires Lower(name) == "single-arm cable row"
    ensures InferExerciseType(name) == "Dumbbell"
  {
    var l := Lower(name);
    assert Contains(l, "single-arm") by {
      assert StartsWith(l, "single-arm");
    }
    assert RuleHits(l)(TypeRules[1]) by {
      assert "single-arm" in TypeRules[1].1;
    }
    assert !RuleHits(l)(TypeRules[0]) by {
      NotContainsBarbell(l);
    }
    FirstIndexIs(TypeRules, RuleHits(l), 1);
  }

  lemma LowerExample()
    ensures Lower("Single-Arm Cable Row") == "single-arm cable row"
  {
  }

  lemma NotContainsBarbell(l: string)
    requires l == "single-arm cable row"
    ensures !Contains(l, "barbell") && !Contains(l, "bb ")
  {
    OnlyBIsFollowedByL(l);
    NoLeadingPairNoMatch(l, "barbell");
    NoLeadingPairNoMatch(l, "bb ");
  }

  /** The one 'b' of "single-arm cable row" is followed by 'l'. */
  lemma OnlyBIsFollowedByL(l: string)
    requires l == "single-arm cable row"
    ensures forall p :: 0 <= p < |l| - 1 && l[p] == 'b' ==> l[p + 1] == 'l'
  {
  }

  const AssistedKeywords: seq<string> := ["assisted", "assist", "減重", "輔助"]

  /** `is_assisted_exercise`: the lower-cased name contains "assist" (which
      covers "assisted"), "減重" or "輔助". */
  function IsAssistedExercise(exerciseName: string): (b: bool)
    ensures var l := Lower(exerciseName);
            b <==> Contains(l, "assist") || Contains(l, "減重") || Contains(l, "輔助")
  {
    var l := Lower(exerciseName);
    AssistedCoversAssisted(l);
    AnyContains(l, AssistedKeywords)
  }

  /** The keyword "assisted" is redundant next to "assist". */
  lemma AssistedCoversAssisted(l: string)
    ensures Contains(l, "assisted") ==> Contains(l, "assist")
  {
    if Contains(l, "assisted") {
      assert "assisted" == "assist" + "ed";
      ContainsPrefixOf(l, "assist", "ed");
    }
  }

  /** Outcome of `validate_input`: valid, or the message of the first
      failed check. */
  datatype Validation = Valid | Invalid(message: string)

  const NegativeWeightMessage := "重量不能為負數"
  const NegativeRepsMessage := "次數不能為負數"
  const ZeroRepsMessage := "次數不能為 0"
  const UnsupportedUnitMessage := "不支援的單位"

  /** `validate_input`: checks, in order, negative weight, negative reps,
      zero reps with a positive weight, and an unsupported unit; the first
      failure decides the message. */
  function ValidateInput(weight: real, reps: int, unit: string): (v: Validation)
    ensures v.Valid? <==> weight >= 0.0 && reps >= 0 && !(reps == 0 && weight > 0.0) && Calculations.IsKnownUnit(unit)
    ensures weight < 0.0 ==> v == Invalid(NegativeWeightMessage)
    ensures weight >= 0.0 && reps < 0 ==> v == Invalid(NegativeRepsMessage)
    ensures weight > 0.0 && reps == 0 ==> v == Invalid(ZeroRepsMessage)
    ensures (weight >= 0.0 && reps >= 0 && !(reps == 0 && weight > 0.0) && !Calculations.IsKnownUnit(unit))
              ==> v == Invalid(UnsupportedUnitMessage)
  {
    if weight < 0.0 then Invalid(NegativeWeightMessage)
    else if reps < 0 then Invalid(NegativeRepsMessage)
    else if reps == 0 && weight > 0.0 then Invalid(ZeroRepsMessage)
    else if unit !in ["kg", "lb", "notch", "notch/plate"] then Invalid(UnsupportedUnitMessage)
    else Valid
  }

  /** Each ladder value is strictly larger than the one before it. */
  predicate StrictlyIncreasing(s: seq<real>)
  {
    forall i, j :: 0 <= i < j < |s| ==> s[i] < s[j]
  }

  /** The kg ladder rung at position i: 0, 2.5, ..., 20 by 2.5, then 25 ...
      200 by 5. */
  function KgRung(i: int): real
  {
    if i <= 8 then 2.5 * i as real else 5.0 * (i - 4) as real
  }

  /** `get_weight_options`: 45 kg choices, 91 lb choices in 5 lb steps up to
      450, and 0..30 for any other unit string. Every ladder starts at 0 and
      strictly increases. */
  function WeightOptions(unit: string): (r: seq<real>)
    ensures |r| > 0 && r[0] == 0.0
    ensures StrictlyIncreasing(r)
    ensures unit == "kg" ==> |r| == 45 && forall i :: 0 <= i < |r| ==> r[i] == KgRung(i)
    ensures unit == "lb" ==> |r| == 91 && forall i :: 0 <= i < |r| ==> r[i] == 5.0 * i as real
    ensures unit != "kg" && unit != "lb" ==> |r| == 31 && forall i :: 0 <= i < |r| ==> r[i] == i as real
  {
    if unit == "kg" then
      var r := [0.0] + [2.5, 5.0, 7.5, 10.0, 12.5, 15.0, 17.5, 20.0]
               + seq(36, k requires 0 <= k < 36 => (k + 5) as real * 5.0);
      assert forall i :: 0 <= i < |r| ==> r[i] == KgRung(i);
      r
    else if unit == "lb" then
      var r := [0.0] + [5.0, 10.0] + seq(88, k requires 0 <= k < 88 => (k + 3) as real * 5.0);
      assert forall i :: 0 <= i < |r| ==> r[i] == 5.0 * i as real;
      r
    else
      seq(31, k requires 0 <= k < 31 => k as real)
  }

  /** `get_reps_options`: 0, then 1 to 30. */
  function RepsOptions(): (r: seq<int>)
    ensures |r| == 31
    ensures forall i :: 0 <= i < |r| ==> r[i] == i
    ensures forall x :: x in r <==> 0 <= x <= 30
  {
    var r := [0] + seq(30, k requires 0 <= k < 30 => k + 1);
    assert forall i :: 0 <= i < |r| ==> r[i] == i;
    forall x | 0 <= x <= 30
      ensures x in r
    {
      assert r[x] == x;
    }
    assert forall x :: x in r ==> 0 <= x <= 30 by {
      forall x | x in r
        ensures 0 <= x <= 30
      {
        var i :| 0 <= i < |r| && r[i] == x;
      }
    }
    r
  }
}
