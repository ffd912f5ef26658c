/** database/check_and_add_exercises.py: the fuzzy, first-match lookup of
    an exercise by name, and the outcome tally of the script that updates
    an exercise's execution steps or creates the exercise when the lookup
    finds nothing. */
module ExerciseLookup {
  import opened Wrappers
  import opened Text
  import opened Seqs
  import opened Records
  import Helpers

  /** The match test applied to one stored name against the lower-cased
      target: equal, or either one a substring of the other. */
  predicate NameMatches(stored: string, targetLower: string)
  {
    var s := Lower(stored);
    s == targetLower || Contains(s, targetLower) || Contains(targetLower, s)
  }

  /** `i` is the position of the first exercise whose name matches. */
  predicate IsFirstMatch(exercises: seq<LibraryExercise>, targetLower: string, i: int)
  {
    0 <= i < |exercises|
    && NameMatches(exercises[i].name, targetLower)
    && forall j :: 0 <= j < i ==> !NameMatches(exercises[j].name, targetLower)
  }

  /** The library scan of `find_exercise_by_name` on an already lower-cased
      target: the exact test first, then the substring tests, stopping at the
      first exercise that passes either. */
  function FindLowered(exercises: seq<LibraryExercise>, targetLower: string): (r: Option<string>)
    ensures r.None? <==> forall j :: 0 <= j < |exercises| ==> !NameMatches(exercises[j].name, targetLower)
    ensures r.Some? ==> exists i :: IsFirstMatch(exercises, targetLower, i) && r.value == exercises[i].name
  {
    if |exercises| == 0 then None
    else
      var stored := Lower(exercises[0].name);
      if stored == targetLower then Some(exercises[0].name)
      else if Contains(stored, targetLower) || Contains(targetLower, stored) then Some(exercises[0].name)
      else
        var rest := FindLowered(exercises[1..], targetLower);
        FirstMatchShift(exercises, targetLower, rest);
        rest
  }

  /** When the first exercise does not match, a first match of the tail is a
      first match of the whole library, one position later. */
  lemma FirstMatchShift(exercises: seq<LibraryExercise>, targetLower: string, rest: Option<string>)
    requires |exercises| > 0 && !NameMatches(exercises[0].name, targetLower)
    requires rest.Some? ==> exists i :: IsFirstMatch(exercises[1..], targetLower, i) && rest.value == exercises[1..][i].name
    ensures rest.Some? ==> exists i :: IsFirstMatch(exercises, targetLower, i) && rest.value == exercises[i].name
  {
    if rest.Some? {
      var i :| IsFirstMatch(exercises[1..], targetLower, i) && rest.value == exercises[1..][i].name;
      assert IsFirstMatch(exercises, targetLower, i + 1);
    }
  }

  /** `find_exercise_by_name`: the stored name (in its stored casing) of the
      first exercise whose lower-cased name equals, contains or is contained
      in the lower-cased target; None exactly when no exercise matches. */
  function FindExerciseByName(exercises: seq<LibraryExercise>, targetName: string): (r: Option<string>)
    ensures r.None? <==> forall j :: 0 <= j < |exercises| ==> !NameMatches(exercises[j].name, Lower(targetName))
    ensures r.Some? ==> exists i :: IsFirstMatch(exercises, Lower(targetName), i) && r.value == exercises[i].name
  {
    FindLowered(exercises, Lower(targetName))
  }

  /** The first match decides: whichever exercise matches first is the one
      returned, whatever comes after it. */
  lemma FindReturnsFirstMatch(exercises: seq<LibraryExercise>, targetName: string, i: int)
    requires IsFirstMatch(exercises, Lower(targetName), i)
    ensures FindExerciseByName(exercises, targetName) == Some(exercises[i].name)
  {
    var r := FindExerciseByName(exercises, targetName);
    assert r.Some?;
    var k :| IsFirstMatch(exercises, Lower(targetName), k) && r.value == exercises[k].name;
    assert !(k < i);
    assert !(i < k);
  }

  /** The lookup ignores the case of the target. */
  lemma FindIgnoresCase(exercises: seq<LibraryExercise>, targetName: string)
    ensures FindExerciseByName(exercises, Lower(targetName)) == FindExerciseByName(exercises, targetName)
  {
    LowerIdempotent(targetName);
  }

  /** An empty target is contained in every name, so it finds the first
      exercise of a non-empty library. */
  lemma EmptyTargetFindsFirst(exercises: seq<LibraryExercise>)
    requires |exercises| > 0
    ensures FindExerciseByName(exercises, "") == Some(exercises[0].name)
  {
    ContainsEmptyAndSelf(Lower(exercises[0].name));
    FindReturnsFirstMatch(exercises, "", 0);
  }

  /** An earlier partial match beats a later exact match: with "Pull-Up"
      stored before "Assisted Pull-Up", looking up "Assisted Pull-Up" yields
      "Pull-Up". */
  lemma PartialBeforeExact(a: LibraryExercise, b: LibraryExercise)
    requires a.name == "Pull-Up" && b.name == "Assisted Pull-Up"
    ensures FindExerciseByName([a, b], "Assisted Pull-Up") == Some("Pull-Up")
  {
    var t := Lower("Assisted Pull-Up");
    assert t == "assisted pull-up";
    assert Lower("Pull-Up") == "pull-up";
    assert t[9..16] == "pull-up";
    ContainsAt(t, "pull-up", 9);
    FindReturnsFirstMatch([a, b], "Assisted Pull-Up", 0);
  }

  /** One entry of the script's list of exercises to update: its name, the
      execution-steps text, and the muscle group and type it declares. */
  datatype PlannedExercise = PlannedExercise(name: string, steps: string, muscleGroup: string, exerciseType: string)

  /** The database call made for one planned exercise. */
  datatype StepAction =
    | UpdateSteps(existingName: string, steps: string)
    | CreateExercise(name: string, muscleGroup: string, exerciseType: string, steps: string)

  /** `a` is the call to make for `ex`: an update of the steps of the first
      matching exercise exactly when that exercise has a non-empty name,
      otherwise a creation with the declared muscle group and the type
      inferred from the name. */
  ghost predicate ActionFor(library: seq<LibraryExercise>, ex: PlannedExercise, a: StepAction)
  {
    (a.UpdateSteps? <==> exists i :: IsFirstMatch(library, Lower(ex.name), i) && library[i].name != "")
    && (a.UpdateSteps? ==>
          a.existingName != "" && a.steps == ex.steps
          && exists i :: IsFirstMatch(library, Lower(ex.name), i) && a.existingName == library[i].name)
    && (a.CreateExercise? ==>
          a == CreateExercise(ex.name, ex.muscleGroup, Helpers.InferExerciseType(ex.name), ex.steps))
  }

  /** The call made for `ex`: update the steps of the exercise the lookup
      found; when it found nothing, or found an empty name (which Python
      treats as false), create the exercise with the muscle group it declares
      and the type inferred from its name. The declared type is not used. */
  function PlanAction(library: seq<LibraryExercise>, ex: PlannedExercise): (a: StepAction)
    ensures ActionFor(library, ex, a)
  {
    match FindExerciseByName(library, ex.name)
    case Some(existing) =>
      if existing != "" then UpdateSteps(existing, ex.steps)
      else
        FirstMatchUnique(library, Lower(ex.name));
        CreateExercise(ex.name, ex.muscleGroup, Helpers.InferExerciseType(ex.name), ex.steps)
    case None => CreateExercise(ex.name, ex.muscleGroup, Helpers.InferExerciseType(ex.name), ex.steps)
  }

  /** There is at most one first match. */
  lemma FirstMatchUnique(exercises: seq<LibraryExercise>, targetLower: string)
    ensures forall i, k :: IsFirstMatch(exercises, targetLower, i) && IsFirstMatch(exercises, targetLower, k) ==> i == k
  {
  }

  /** "Single-Arm Cable Row" is declared a Cable exercise, but when it has to
      be created it is created as Dumbbell: the type is inferred from the
      name. */
  lemma SingleArmCableRowCreatedAsDumbbell(library: seq<LibraryExercise>, steps: string)
    requires forall j :: 0 <= j < |library| ==> !NameMatches(library[j].name, Lower("Single-Arm Cable Row"))
    ensures PlanAction(library, PlannedExercise("Single-Arm Cable Row", steps, "Back", "Cable"))
            == CreateExercise("Single-Arm Cable Row", "Back", "Dumbbell", steps)
  {
    Helpers.SingleArmCableRowIsDumbbell();
  }

  /** One processed exercise: the call made and whether the database
      reported success for it. */
  datatype Attempt = Attempt(action: StepAction, ok: bool)

  predicate Succeeded(a: Attempt) { a.ok }
  predicate Failed(a: Attempt) { !a.ok }
  predicate CreatedOk(a: Attempt) { a.action.CreateExercise? && a.ok }

  /** The running totals `success_count`, `created_count`, `error_count`. */
  datatype Tally = Tally(success: nat, created: nat, errors: nat)

  /** The attempts of the run, `dbOk[i]` being the database's answer to the
      call made for `planned[i]`. */
  function Attempts(library: seq<LibraryExercise>, planned: seq<PlannedExercise>, dbOk: seq<bool>): (r: seq<Attempt>)
    requires |dbOk| == |planned|
    ensures |r| == |planned|
    ensures forall i :: 0 <= i < |r| ==> r[i] == Attempt(PlanAction(library, planned[i]), dbOk[i])
  {
    seq(|planned|, i requires 0 <= i < |planned| => Attempt(PlanAction(library, planned[i]), dbOk[i]))
  }

  /** The tally agrees with the attempts made so far. */
  predicate TallyOf(t: Tally, attempts: seq<Attempt>)
  {
    t.success == CountWhere(attempts, Succeeded)
    && t.created == CountWhere(attempts, CreatedOk)
    && t.errors == CountWhere(attempts, Failed)
    && t.success + t.errors == |attempts|
    && t.created <= t.success
  }

  /** The counters after one attempt: a successful update or creation is a
      success, a successful creation is also counted as created, and any
      failure is an error. */
  function Record(t: Tally, a: Attempt): Tally
  {
    if a.action.UpdateSteps? then
      if a.ok then t.(success := t.success + 1) else t.(errors := t.errors + 1)
    else
      if a.ok then t.(created := t.created + 1, success := t.success + 1) else t.(errors := t.errors + 1)
  }

  /** Recording the next attempt keeps the tally in step with the attempts. */
  lemma RecordStep(t: Tally, attempts: seq<Attempt>, i: nat)
    requires i < |attempts|
    requires TallyOf(t, attempts[..i])
    ensures TallyOf(Record(t, attempts[i]), attempts[..i + 1])
  {
    assert attempts[..i + 1][..i] == attempts[..i];
  }

  /** `actions` holds the call made for each of `planned`, in order. */
  predicate ActionsFor(library: seq<LibraryExercise>, planned: seq<PlannedExercise>, actions: seq<StepAction>)
  {
    |actions| == |planned|
    && forall k :: 0 <= k < |planned| ==> actions[k] == PlanAction(library, planned[k])
  }

  lemma ActionsForStep(library: seq<LibraryExercise>, planned: seq<PlannedExercise>, actions: seq<StepAction>, i: nat)
    requires i < |planned|
    requires ActionsFor(library, planned[..i], actions)
    ensures ActionsFor(library, planned[..i + 1], actions + [PlanAction(library, planned[i])])
  {
  }

  /** `add_exercise_steps_with_creation` without the database: the call
      made for each planned exercise and the final tally, given the
      database's answer to each call. Every exercise is counted once, as a
      success or an error, and every creation counted is also a success. */
  method AddStepsWithCreation(library: seq<LibraryExercise>, planned: seq<PlannedExercise>, dbOk: seq<bool>)
    returns (actions: seq<StepAction>, t: Tally)
    requires |dbOk| == |planned|
    ensures ActionsFor(library, planned, actions)
    ensures TallyOf(t, Attempts(library, planned, dbOk))
    ensures t.success + t.errors == |planned| && t.created <= t.success
  {
    ghost var all := Attempts(library, planned, dbOk);
    actions := [];
    t := Tally(0, 0, 0);
    var i := 0;
    assert all[..0] == [];
    while i < |planned|
      invariant 0 <= i <= |planned|
      invariant ActionsFor(library, planned[..i], actions)
      invariant TallyOf(t, all[..i])
    {
      var action := PlanAction(library, planned[i]);
      ActionsForStep(library, planned, actions, i);
      RecordStep(t, all, i);
      t := Record(t, Attempt(action, dbOk[i]));
      actions := actions + [action];
      i := i + 1;
    }
    assert all[..i] == all;
    assert planned[..i] == planned;
  }
}
