/** migrate_arms_to_biceps_triceps.py: every library exercise filed under
    the Arms group is re-filed as Biceps or Triceps by keywords in its
    name, and the script's argument is taken as a user id when it has the
    shape of a UUID. */
module ArmsMigration {
  import opened Wrappers
  import opened Text
  import opened Seqs
  import opened Records
  import Helpers

  const Biceps := "二頭肌 (Biceps)"
  const Triceps := "三頭肌 (Triceps)"

  const TricepsKeywords: seq<string> := ["tricep", "triceps", "pushdown", "extension", "dip", "overhead"]
  const BicepsKeywords: seq<string> := ["bicep", "biceps", "curl", "preacher", "hammer"]

  /** `categorize_arms_exercise`: Triceps when the lower-cased name holds a
      triceps keyword (tested first), otherwise Biceps, whether or not a
      biceps keyword matches. */
  function CategorizeArmsExercise(exerciseName: string): (g: string)
    ensures g == Biceps || g == Triceps
    ensures g == Triceps <==> Helpers.AnyContains(Lower(exerciseName), TricepsKeywords)
  {
    var l := Lower(exerciseName);
    if Helpers.AnyContains(l, TricepsKeywords) then Triceps
    else if Helpers.AnyContains(l, BicepsKeywords) then Biceps
    else Biceps
  }

  /** The category depends only on the lower-cased name. */
  lemma CategoryIgnoresCase(exerciseName: string)
    ensures CategorizeArmsExercise(Lower(exerciseName)) == CategorizeArmsExercise(exerciseName)
  {
    LowerIdempotent(exerciseName);
  }

  /** A name with a triceps keyword is Triceps even when it also has a
      biceps keyword: "Overhead Cable Curl" holds both "overhead" and
      "curl". */
  lemma OverheadCurlIsTriceps()
    ensures Helpers.AnyContains(Lower("Overhead Cable Curl"), BicepsKeywords)
    ensures CategorizeArmsExercise("Overhead Cable Curl") == Triceps
  {
    var l := Lower("Overhead Cable Curl");
    assert l == "overhead cable curl";
    assert StartsWith(l, "overhead");
    assert "overhead" in TricepsKeywords;
    assert l[15..19] == "curl";
    ContainsAt(l, "curl", 15);
    assert "curl" in BicepsKeywords;
  }

  /** Exercises whose muscle group is exactly Arms; a missing group never
      matches. */
  predicate IsArms(e: LibraryExercise)
  {
    e.muscleGroup == Some(Helpers.Arms)
  }

  predicate IsTricepsExercise(e: LibraryExercise)
  {
    CategorizeArmsExercise(e.name) == Triceps
  }

  lemma TricepsTallyStep(arms: seq<LibraryExercise>, i: nat)
    requires i < |arms|
    ensures CountWhere(arms[..i + 1], IsTricepsExercise)
            == CountWhere(arms[..i], IsTricepsExercise) + if IsTricepsExercise(arms[i]) then 1 else 0
  {
    assert arms[..i + 1][..i] == arms[..i];
  }

  /** `updates` issues, in order, one re-filing per exercise of `arms`. */
  predicate UpdatesFor(updates: seq<(string, string)>, arms: seq<LibraryExercise>)
  {
    |updates| == |arms|
    && forall k :: 0 <= k < |arms| ==> updates[k] == (arms[k].name, CategorizeArmsExercise(arms[k].name))
  }

  lemma UpdatesForStep(updates: seq<(string, string)>, arms: seq<LibraryExercise>, i: nat)
    requires i < |arms|
    requires UpdatesFor(updates, arms[..i])
    ensures UpdatesFor(updates + [(arms[i].name, CategorizeArmsExercise(arms[i].name))], arms[..i + 1])
  {
  }

  /** What the migration reports. */
  datatype ArmsOutcome =
    | NoArmsExercises
    | Migrated(updates: seq<(string, string)>, bicepsCount: nat, tricepsCount: nat)

  /** `migrate_arms_exercises` without the database: the update issued for
      each Arms exercise, in library order (none in a dry run), and the two
      tallies, which a dry run still reports. */
  method MigrateArmsExercises(all: seq<LibraryExercise>, dryRun: bool) returns (r: ArmsOutcome)
    ensures r.NoArmsExercises? <==> forall j :: 0 <= j < |all| ==> !IsArms(all[j])
    ensures r.Migrated? ==>
              var arms := Filter(all, IsArms);
              (dryRun ==> r.updates == [])
              && (!dryRun ==> UpdatesFor(r.updates, arms))
              && r.bicepsCount + r.tricepsCount == |arms| == CountWhere(all, IsArms)
              && r.tricepsCount == CountWhere(arms, IsTricepsExercise)
  {
    var arms := Filter(all, IsArms);
    CountWherePositive(all, IsArms);
    if |arms| == 0 {
      return NoArmsExercises;
    }
    var updates: seq<(string, string)> := [];
    var biceps: nat := 0;
    var triceps: nat := 0;
    var i := 0;
    assert arms[..0] == [];
    while i < |arms|
      invariant 0 <= i <= |arms|
      invariant dryRun ==> updates == []
      invariant !dryRun ==> UpdatesFor(updates, arms[..i])
      invariant biceps + triceps == i
      invariant triceps == CountWhere(arms[..i], IsTricepsExercise)
    {
      var group := CategorizeArmsExercise(arms[i].name);
      TricepsTallyStep(arms, i);
      if !dryRun {
        UpdatesForStep(updates, arms, i);
        updates := updates + [(arms[i].name, group)];
      }
      if group == Biceps {
        biceps := biceps + 1;
      } else {
        triceps := triceps + 1;
      }
      i := i + 1;
    }
    assert arms[..i] == arms;
    return Migrated(updates, biceps, triceps);
  }

  /** How the script's argument is read. */
  datatype UserRef = UserId(id: string) | EmailAddress(address: string)

  /** `len(user_input) == 36 and user_input.count('-') == 4`: a UUID shape;
      anything else is looked up as an email address. */
  function ResolveUserInput(userInput: string): (r: UserRef)
    ensures r.UserId? <==> |userInput| == 36 && CountChar(userInput, '-') == 4
    ensures r.UserId? ==> r.id == userInput
    ensures r.EmailAddress? ==> r.address == userInput
  {
    if |userInput| == 36 && CountChar(userInput, '-') == 4 then UserId(userInput)
    else EmailAddress(userInput)
  }

  /** Joining two strings with a hyphen adds one hyphen to their count. */
  lemma HyphenJoin(a: string, b: string)
    ensures CountChar(a + "-" + b, '-') == CountChar(a, '-') + 1 + CountChar(b, '-')
  {
    CountCharAppend(a, "-", '-');
    CountCharAppend(a + "-", b, '-');
    assert CountChar("-", '-') == 1 by {
      assert "-"[..0] == [];
    }
  }

  /** A canonical 8-4-4-4-12 UUID (hyphens at offsets 8, 13, 18 and 23 and
      nowhere else) is taken as a user id. */
  lemma CanonicalUuidIsUserId(s: string)
    requires |s| == 36
    requires s[8] == '-' && s[13] == '-' && s[18] == '-' && s[23] == '-'
    requires forall i :: 0 <= i < 36 && i != 8 && i != 13 && i != 18 && i != 23 ==> s[i] != '-'
    ensures ResolveUserInput(s).UserId?
  {
    var hexa, hexb, hexc, hexd, hexe := s[0..8], s[9..13], s[14..18], s[19..23], s[24..36];
    CountCharAbsent(hexa, '-');
    CountCharAbsent(hexb, '-');
    CountCharAbsent(hexc, '-');
    CountCharAbsent(hexd, '-');
    CountCharAbsent(hexe, '-');
    HyphenJoin(hexa, hexb);
    HyphenJoin(hexa + "-" + hexb, hexc);
    HyphenJoin(hexa + "-" + hexb + "-" + hexc, hexd);
    HyphenJoin(hexa + "-" + hexb + "-" + hexc + "-" + hexd, hexe);
    assert s == hexa + "-" + hexb + "-" + hexc + "-" + hexd + "-" + hexe;
  }
}
