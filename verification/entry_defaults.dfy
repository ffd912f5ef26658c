/** The workout-entry form of app.py (`render_log_workout_page`): how a
    copied earlier session, or the single previous workout, pre-fills the
    form; how the weight ladder is extended so that every pre-filled
    weight is an exact choice; and which rows are finally submitted.
    Widget state (the unit radio choice, the +/- adjustments, the values
    the user finally picks) enters as parameters. */
module EntryDefaults {
  import opened Wrappers
  import opened Seqs
  import opened Calculations
  import opened Helpers

  /** One set of a copied session. */
  datatype CopiedSet = CopiedSet(weight: real, reps: int)

  /** The session copied into the form; each key may be absent. */
  datatype CopiedSession = CopiedSession(
    unit: Option<string>,
    sets: Option<seq<CopiedSet>>,
    rpe: Option<int>,
    notes: Option<string>)

  /** The most recent logged set of the exercise. */
  datatype PreviousWorkout = PreviousWorkout(weight: real, unit: string, reps: int)

  /** The copied sets, when a copy with a `sets` key exists. */
  function CopiedSets(copied: Option<CopiedSession>): (r: seq<CopiedSet>)
    ensures copied.None? || copied.value.sets.None? ==> r == []
  {
    if copied.Some? && copied.value.sets.Some? then copied.value.sets.value else []
  }

  /** Default number of sets: a remembered count, else the copied session's
      set count, else 3. */
  function DefaultNumSets(remembered: Option<int>, copied: Option<CopiedSession>): (n: int)
    ensures remembered.Some? ==> n == remembered.value
    ensures remembered.None? && copied.Some? && copied.value.sets.Some? ==> n == |copied.value.sets.value|
    ensures remembered.None? && (copied.None? || copied.value.sets.None?) ==> n == 3
  {
    if remembered.Some? then remembered.value
    else if copied.Some? && copied.value.sets.Some? then |copied.value.sets.value|
    else 3
  }

  /** The three choices of the unit radio button. */
  const RadioUnits: seq<string> := ["kg", "lb", "notch/plate"]

  /** Position of a stored unit in the radio button: "notch" is shown as
      "notch/plate", and anything unrecognised falls back to kg. */
  function UnitIndex(u: string): (i: nat)
    ensures i < |RadioUnits|
    ensures IsKnownUnit(u) && u != "notch" ==> RadioUnits[i] == u
    ensures u == "notch" ==> RadioUnits[i] == "notch/plate"
    ensures !IsKnownUnit(u) ==> i == 0
  {
    var shown := if u == "notch" then "notch/plate" else u;
    if shown == "kg" then 0
    else if shown == "lb" then 1
    else if shown == "notch/plate" || shown == "notch" then 2
    else 0
  }

  /** Initial radio position: a remembered copied unit first, else the copied
      session's unit, else kg. */
  function DefaultUnitIndex(remembered: Option<string>, copied: Option<CopiedSession>): (i: nat)
    ensures i < |RadioUnits|
    ensures remembered.Some? ==> i == UnitIndex(remembered.value)
    ensures remembered.None? && copied.Some? && copied.value.unit.Some? ==> i == UnitIndex(copied.value.unit.value)
    ensures remembered.None? && (copied.None? || copied.value.unit.None?) ==> i == 0
  {
    if remembered.Some? then UnitIndex(remembered.value)
    else if copied.Some? && copied.value.unit.Some? then UnitIndex(copied.value.unit.value)
    else 0
  }

  /** The unit the weights are read in: the copied session's unit when a copy
      was just made (a positive copy timestamp), else the radio choice. */
  function EffectiveUnit(radio: string, copied: Option<CopiedSession>, copyTimestamp: real): (u: string)
    ensures copied.Some? && copied.value.unit.Some? && copyTimestamp > 0.0 ==> u == copied.value.unit.value
    ensures !(copied.Some? && copied.value.unit.Some? && copyTimestamp > 0.0) ==> u == radio
  {
    if copied.Some? && copied.value.unit.Some? && copyTimestamp > 0.0 then copied.value.unit.value
    else radio
  }

  /** The unit the copied weights are in: the copy's own unit, or the
      effective unit when the copy names none. */
  function CopiedUnit(copied: Option<CopiedSession>, effective: string): string
  {
    if copied.Some? && copied.value.unit.Some? then copied.value.unit.value else effective
  }

  /** A copied weight read in the effective unit. */
  function InUnit(w: real, from: string, effective: string): (r: real)
    ensures r == ConvertUnit(w, from, effective)
  {
    if from != effective then ConvertUnit(w, from, effective) else w
  }

  /** The positive copied weights, converted into the effective unit. */
  function CopiedWeights(sets: seq<CopiedSet>, from: string, effective: string): (ws: seq<real>)
    ensures forall x :: x in ws ==> x > 0.0
    ensures forall k :: 0 <= k < |sets| && InUnit(sets[k].weight, from, effective) > 0.0 ==>
              InUnit(sets[k].weight, from, effective) in ws
    ensures forall x :: x in ws ==> exists k :: 0 <= k < |sets| && InUnit(sets[k].weight, from, effective) == x
  {
    if |sets| == 0 then []
    else
      var front := CopiedWeights(sets[..|sets| - 1], from, effective);
      var w := InUnit(sets[|sets| - 1].weight, from, effective);
      assert forall k :: 0 <= k < |sets| - 1 ==> sets[..|sets| - 1][k] == sets[k];
      if w > 0.0 then front + [w] else front
  }

  /** Appends each value of `ws` not yet present, in order. */
  function AppendMissing(ladder: seq<real>, ws: seq<real>): (r: seq<real>)
    ensures |r| >= |ladder| && r[..|ladder|] == ladder
    ensures forall x :: x in r <==> x in ladder || x in ws
    ensures Distinct(ladder) ==> Distinct(r)
  {
    if |ws| == 0 then ladder
    else
      var a := AppendMissing(ladder, ws[..|ws| - 1]);
      var w := ws[|ws| - 1];
      assert ws == ws[..|ws| - 1] + [w];
      if w in a then a else
        assert (a + [w])[..|ladder|] == a[..|ladder|];
        a + [w]
  }

  /** The identity sort key: ladders are sorted by value. */
  function Self(x: real): real
  {
    x
  }

  /** A value-sorted ladder without repetitions strictly increases. */
  lemma SortedDistinctIncreasing(s: seq<real>)
    requires SortedBy(s, Self) && Distinct(s)
    ensures StrictlyIncreasing(s)
  {
    forall i, j | 0 <= i < j < |s|
      ensures s[i] < s[j]
    {
      assert Self(s[i]) <= Self(s[j]);
    }
  }

  /** A strictly increasing ladder has no repetitions. */
  lemma IncreasingDistinct(s: seq<real>)
    requires StrictlyIncreasing(s)
    ensures Distinct(s)
  {
  }

  /** Sorting a repetition-free list of values makes it strictly increase. */
  function SortLadder(s: seq<real>): (r: seq<real>)
    requires Distinct(s)
    ensures StrictlyIncreasing(r)
    ensures |r| == |s|
    ensures forall x :: x in r <==> x in s
  {
    var r := SortBy(s, Self);
    DistinctPermutation(s, r);
    SortedDistinctIncreasing(r);
    SortKeepsMembers(s, r);
    r
  }

  /** The ladder after the copied weights are merged in: still strictly
      increasing, and holding exactly the base ladder plus every positive
      converted copied weight. */
  function ExtendedLadder(effective: string, copied: Option<CopiedSession>): (r: seq<real>)
    ensures |r| > 0
    ensures StrictlyIncreasing(r)
    ensures forall x :: x in r <==>
              x in WeightOptions(effective)
              || x in CopiedWeights(CopiedSets(copied), CopiedUnit(copied, effective), effective)
  {
    var base := WeightOptions(effective);
    if copied.Some? && copied.value.sets.Some? then
      IncreasingDistinct(base);
      var ws := CopiedWeights(CopiedSets(copied), CopiedUnit(copied, effective), effective);
      var r := SortLadder(AppendMissing(base, ws));
      assert base[0] in r;
      r
    else
      base
  }

  /** The weight pre-filled for set `i`: the copied set's weight in the
      effective unit, else the previous workout's weight for the first set,
      else 0. */
  function DefaultWeight(i: nat, copied: Option<CopiedSession>, previous: Option<PreviousWorkout>, effective: string)
    : (w: real)
    ensures i < |CopiedSets(copied)| ==>
              w == ConvertUnit(CopiedSets(copied)[i].weight, CopiedUnit(copied, effective), effective)
    ensures i >= |CopiedSets(copied)| && previous.Some? && i == 0 ==>
              w == ConvertUnit(previous.value.weight, previous.value.unit, effective)
    ensures i >= |CopiedSets(copied)| && (previous.None? || i > 0) ==> w == 0.0
  {
    var sets := CopiedSets(copied);
    if i < |sets| then
      var from := CopiedUnit(copied, effective);
      if effective == from then sets[i].weight else ConvertUnit(sets[i].weight, from, effective)
    else if previous.Some? && i == 0 then
      var w := previous.value.weight;
      if effective != previous.value.unit then ConvertUnit(w, previous.value.unit, effective) else w
    else 0.0
  }

  /** The reps pre-filled for set `i`, kept only when it is one of the reps
      choices (0 to 30), else 0. */
  function DefaultReps(i: nat, copied: Option<CopiedSession>, previous: Option<PreviousWorkout>): (n: int)
    ensures n in RepsOptions()
    ensures var raw := if i < |CopiedSets(copied)| then CopiedSets(copied)[i].reps
                       else if previous.Some? && i == 0 then previous.value.reps
                       else 0;
            n == if 0 <= raw <= 30 then raw else 0
  {
    var sets := CopiedSets(copied);
    var raw := if i < |sets| then sets[i].reps
               else if previous.Some? && i == 0 then previous.value.reps
               else 0;
    if raw in RepsOptions() then raw else 0
  }

  /** `max(0, min(size - 1, index))`. */
  function Clamp(index: int, size: nat): (r: nat)
    requires size > 0
    ensures r < size
    ensures 0 <= index < size ==> r == index
    ensures index < 0 ==> r == 0
    ensures index >= size ==> r == size - 1
  {
    if index < 0 then 0 else if index > size - 1 then size - 1 else index
  }

  /** The stored +/- adjustment for set `i`; an unset one counts as 0. */
  function AdjustmentAt(adjustments: seq<int>, i: nat): int
  {
    if i < |adjustments| then adjustments[i] else 0
  }

  /** Python's `list.index(v)`: the position of the first occurrence of a
      value known to be present. */
  function IndexOf(s: seq<real>, v: real): (k: nat)
    requires v in s
    ensures k < |s| && s[k] == v
    ensures forall j :: 0 <= j < k ==> s[j] != v
  {
    if s[0] == v then 0 else 1 + IndexOf(s[1..], v)
  }

  /** What the form shows for one set: the ladder offered, the pre-filled
      weight and its position before and after adjustment, and the same
      for reps. */
  datatype FormRow = FormRow(
    weightOptions: seq<real>,
    defaultWeight: real,
    defaultWeightIndex: nat,
    weightIndex: nat,
    defaultReps: int,
    repsIndex: nat)

  /** A ladder with the default added when it is positive and missing. */
  function WithDefault(ladder: seq<real>, d: real): (r: seq<real>)
    requires StrictlyIncreasing(ladder) && |ladder| > 0
    ensures StrictlyIncreasing(r) && |r| > 0
    ensures forall x :: x in r <==> x in ladder || (d > 0.0 && x == d)
  {
    if d > 0.0 && d !in ladder then
      IncreasingDistinct(ladder);
      assert Distinct(ladder + [d]);
      SortLadder(ladder + [d])
    else ladder
  }

  /** The form row of set `i` laid out on `ladder`: the default weight is
      added to the ladder if need be and located with `list.index`, and
      both positions are moved by the stored adjustments and clamped. */
  function Row(ladder: seq<real>, i: nat, copied: Option<CopiedSession>, previous: Option<PreviousWorkout>,
               effective: string, weightAdjustments: seq<int>, repsAdjustments: seq<int>): (row: FormRow)
    requires StrictlyIncreasing(ladder) && |ladder| > 0
    ensures RowFor(row, i, copied, previous, effective, weightAdjustments, repsAdjustments)
    ensures forall x :: x in ladder ==> x in row.weightOptions
  {
    var d := DefaultWeight(i, copied, previous, effective);
    var options := WithDefault(ladder, d);
    var di := if d > 0.0 then IndexOf(options, d) else 0;
    var rd := DefaultReps(i, copied, previous);
    FormRow(options, d, di, Clamp(di + AdjustmentAt(weightAdjustments, i), |options|),
            rd, Clamp(rd + AdjustmentAt(repsAdjustments, i), 31))
  }

  /** `row` is what the form shows for set `i`: it is well formed, it
      pre-fills set `i`'s defaults, and its positions are the defaults'
      positions moved by set `i`'s adjustments and clamped. */
  predicate RowFor(row: FormRow, i: nat, copied: Option<CopiedSession>, previous: Option<PreviousWorkout>,
                   effective: string, weightAdjustments: seq<int>, repsAdjustments: seq<int>)
  {
    WellFormed(row)
    && row.defaultWeight == DefaultWeight(i, copied, previous, effective)
    && row.defaultReps == DefaultReps(i, copied, previous)
    && row.weightIndex == Clamp(row.defaultWeightIndex + AdjustmentAt(weightAdjustments, i), |row.weightOptions|)
    && row.repsIndex == Clamp(row.defaultReps + AdjustmentAt(repsAdjustments, i), 31)
  }

  /** The form rows for sets `i` to `n - 1`, threading the ladder, which
      may grow by one default per set. */
  function Rows(ladder: seq<real>, i: nat, n: nat, copied: Option<CopiedSession>, previous: Option<PreviousWorkout>,
                effective: string, weightAdjustments: seq<int>, repsAdjustments: seq<int>): (r: seq<FormRow>)
    requires StrictlyIncreasing(ladder) && |ladder| > 0
    ensures |r| == if i < n then n - i else 0
    ensures forall k :: 0 <= k < |r| ==> RowFor(r[k], i + k, copied, previous, effective, weightAdjustments, repsAdjustments)
    ensures forall k, x :: 0 <= k < |r| && x in ladder ==> x in r[k].weightOptions
    decreases n - i
  {
    if i >= n then []
    else
      var row := Row(ladder, i, copied, previous, effective, weightAdjustments, repsAdjustments);
      var rest := Rows(row.weightOptions, i + 1, n, copied, previous, effective, weightAdjustments, repsAdjustments);
      RowsCons(ladder, row, rest, i, copied, previous, effective, weightAdjustments, repsAdjustments);
      [row] + rest
  }

  /** Set `i`'s row followed by the rows from set `i + 1` on are the rows
      from set `i` on. */
  lemma RowsCons(ladder: seq<real>, row: FormRow, rest: seq<FormRow>, i: nat, copied: Option<CopiedSession>,
                 previous: Option<PreviousWorkout>, effective: string, weightAdjustments: seq<int>, repsAdjustments: seq<int>)
    requires RowFor(row, i, copied, previous, effective, weightAdjustments, repsAdjustments)
    requires forall x :: x in ladder ==> x in row.weightOptions
    requires forall k :: 0 <= k < |rest| ==> RowFor(rest[k], i + 1 + k, copied, previous, effective, weightAdjustments, repsAdjustments)
    requires forall k, x :: 0 <= k < |rest| && x in row.weightOptions ==> x in rest[k].weightOptions
    ensures forall k :: 0 <= k < |[row] + rest| ==>
              RowFor(([row] + rest)[k], i + k, copied, previous, effective, weightAdjustments, repsAdjustments)
    ensures forall k, x :: 0 <= k < |[row] + rest| && x in ladder ==> x in ([row] + rest)[k].weightOptions
  {
    var r := [row] + rest;
    forall k | 0 < k < |r|
      ensures r[k] == rest[k - 1] && i + k == (i + 1) + (k - 1)
    {
    }
  }

  /** The invariants of a form row: the ladder strictly increases, a positive
      default sits at its index, a zero default selects position 0, and
      both adjusted positions are valid choices. */
  predicate WellFormed(row: FormRow)
  {
    |row.weightOptions| > 0
    && StrictlyIncreasing(row.weightOptions)
    && row.weightIndex < |row.weightOptions|
    && (row.defaultWeight > 0.0 ==>
          row.defaultWeightIndex < |row.weightOptions|
          && row.weightOptions[row.defaultWeightIndex] == row.defaultWeight)
    && (row.defaultWeight <= 0.0 ==> row.defaultWeightIndex == 0)
    && 0 <= row.defaultReps <= 30
    && row.repsIndex < |RepsOptions()|
  }

  /** All form rows of the entry form. */
  function FormDefaults(radio: string, copied: Option<CopiedSession>, copyTimestamp: real,
                        previous: Option<PreviousWorkout>, numSets: nat,
                        weightAdjustments: seq<int>, repsAdjustments: seq<int>): (r: seq<FormRow>)
    ensures |r| == numSets
    ensures forall k :: 0 <= k < |r| ==>
              RowFor(r[k], k, copied, previous, EffectiveUnit(radio, copied, copyTimestamp), weightAdjustments, repsAdjustments)
    ensures forall k, x :: 0 <= k < |r| && x in ExtendedLadder(EffectiveUnit(radio, copied, copyTimestamp), copied) ==>
              x in r[k].weightOptions
  {
    var effective := EffectiveUnit(radio, copied, copyTimestamp);
    var rows := Rows(ExtendedLadder(effective, copied), 0, numSets, copied, previous, effective,
                     weightAdjustments, repsAdjustments);
    rows
  }

  /** Every positive copied weight, converted, is already a ladder choice
      before any set is laid out, so the copy is shown exactly, never
      snapped to a neighbouring rung. */
  lemma CopiedWeightsOnLadder(effective: string, copied: Option<CopiedSession>, i: nat)
    requires i < |CopiedSets(copied)|
    requires DefaultWeight(i, copied, None, effective) > 0.0
    ensures DefaultWeight(i, copied, None, effective) in ExtendedLadder(effective, copied)
  {
    var sets := CopiedSets(copied);
    var from := CopiedUnit(copied, effective);
    assert InUnit(sets[i].weight, from, effective) == DefaultWeight(i, copied, None, effective);
  }

  /** One submitted set. */
  datatype SetEntry = SetEntry(setOrder: int, weight: real, unit: string, reps: int)

  /** Rows the user left with a positive weight and positive reps are
      submitted, numbered by their form position (1-based), in the
      effective unit. */
  function SubmittedSets(chosen: seq<(real, int)>, effective: string): (r: seq<SetEntry>)
    ensures |r| == CountWhere(chosen, Entered)
    ensures forall k :: 0 <= k < |r| ==> EntryOf(r[k], chosen, effective)
    ensures forall k, l :: 0 <= k < l < |r| ==> r[k].setOrder < r[l].setOrder
    ensures forall i :: 0 <= i < |chosen| && Entered(chosen[i]) ==> HasSetOrder(r, i + 1)
  {
    if |chosen| == 0 then []
    else
      var front := chosen[..|chosen| - 1];
      var r := SubmittedSets(front, effective);
      var c := chosen[|chosen| - 1];
      assert forall i :: 0 <= i < |front| ==> front[i] == chosen[i];
      if Entered(c) then
        var e := SetEntry(|chosen|, c.0, effective, c.1);
        SubmittedSnoc(r, e, front, chosen, effective);
        r + [e]
      else
        assert forall k :: 0 <= k < |r| ==> EntryOf(r[k], front, effective) ==> EntryOf(r[k], chosen, effective);
        r
  }

  /** Appending the last row's submission keeps the submissions ordered and
      drawn from the form. */
  lemma SubmittedSnoc(r: seq<SetEntry>, e: SetEntry, front: seq<(real, int)>, chosen: seq<(real, int)>, effective: string)
    requires |chosen| > 0 && front == chosen[..|chosen| - 1]
    requires forall k :: 0 <= k < |r| ==> EntryOf(r[k], front, effective)
    requires forall k, l :: 0 <= k < l < |r| ==> r[k].setOrder < r[l].setOrder
    requires e == SetEntry(|chosen|, chosen[|chosen| - 1].0, effective, chosen[|chosen| - 1].1)
    requires Entered(chosen[|chosen| - 1])
    ensures forall k :: 0 <= k < |r + [e]| ==> EntryOf((r + [e])[k], chosen, effective)
    ensures forall k, l :: 0 <= k < l < |r + [e]| ==> (r + [e])[k].setOrder < (r + [e])[l].setOrder
    ensures forall o :: HasSetOrder(r, o) ==> HasSetOrder(r + [e], o)
    ensures HasSetOrder(r + [e], |chosen|)
  {
    var r' := r + [e];
    assert forall k :: 0 <= k < |r| ==> r'[k] == r[k];
    assert r'[|r|] == e;
    forall k | 0 <= k < |r|
      ensures EntryOf(r'[k], chosen, effective) && r'[k].setOrder < |chosen|
    {
      assert EntryOf(r[k], front, effective);
      assert chosen[r[k].setOrder - 1] == front[r[k].setOrder - 1];
    }
  }

  /** `e` is the submission of an entered form row of `chosen`: its set order
      is that row's 1-based position, and it carries the row's weight and
      reps in the effective unit. */
  predicate EntryOf(e: SetEntry, chosen: seq<(real, int)>, effective: string)
  {
    1 <= e.setOrder <= |chosen| && e.unit == effective
    && (e.weight, e.reps) == chosen[e.setOrder - 1]
    && e.weight > 0.0 && e.reps > 0
  }

  /** Some submitted set has set order `o`. */
  predicate HasSetOrder(r: seq<SetEntry>, o: int)
  {
    exists k :: 0 <= k < |r| && r[k].setOrder == o
  }

  /** A form row counts as entered when both weight and reps are positive. */
  predicate Entered(c: (real, int))
  {
    c.0 > 0.0 && c.1 > 0
  }

  /** The default RPE slider value: the copied RPE when it is set and
      non-zero, else 7. */
  function DefaultRpe(copied: Option<CopiedSession>): (rpe: int)
    ensures copied.Some? && copied.value.rpe.Some? && copied.value.rpe.value != 0 ==> rpe == copied.value.rpe.value
    ensures !(copied.Some? && copied.value.rpe.Some? && copied.value.rpe.value != 0) ==> rpe == 7
  {
    if copied.Some? && copied.value.rpe.Some? && copied.value.rpe.value != 0 then copied.value.rpe.value else 7
  }

  /** The default notes: the copied notes when non-empty, else "". */
  function DefaultNotes(copied: Option<CopiedSession>): (notes: string)
    ensures copied.Some? && copied.value.notes.Some? && copied.value.notes.value != "" ==> notes == copied.value.notes.value
    ensures !(copied.Some? && copied.value.notes.Some? && copied.value.notes.value != "") ==> notes == ""
  {
    if copied.Some? && copied.value.notes.Some? && copied.value.notes.value != "" then copied.value.notes.value else ""
  }

  /** What pressing the save button does. */
  datatype SubmitOutcome =
    | NoValidSets
    | SetRejected(setOrder: int, message: string)
    | Saved(sets: seq<SetEntry>)

  function Rejects(s: SetEntry): bool
  {
    ValidateInput(s.weight, s.reps, s.unit).Invalid?
  }

  /** Nothing entered is an error; otherwise the first set failing
      `validate_input` is reported and nothing is saved; otherwise all the
      sets are saved. */
  function Submit(sets: seq<SetEntry>): (o: SubmitOutcome)
    ensures |sets| == 0 <==> o.NoValidSets?
    ensures o.Saved? <==> |sets| > 0 && forall k :: 0 <= k < |sets| ==> !Rejects(sets[k])
    ensures o.Saved? ==> o.sets == sets
    ensures o.SetRejected? ==>
              exists k :: (0 <= k < |sets| && Rejects(sets[k])
                           && o.setOrder == sets[k].setOrder
                           && o.message == ValidateInput(sets[k].weight, sets[k].reps, sets[k].unit).message
                           && forall j :: 0 <= j < k ==> !Rejects(sets[j]))
  {
    if |sets| == 0 then NoValidSets
    else match FirstIndexWhere(sets, Rejects)
      case Some(k) => SetRejected(sets[k].setOrder, ValidateInput(sets[k].weight, sets[k].reps, sets[k].unit).message)
      case None => Saved(sets)
  }

  /** Because only positive weights and reps reach the submission, the
      validation at save time can fail only on the unit: in a recognised
      effective unit the entered sets are always saved. */
  lemma KnownUnitAlwaysSaves(chosen: seq<(real, int)>, effective: string)
    requires IsKnownUnit(effective)
    ensures var sets := SubmittedSets(chosen, effective);
            Submit(sets) == if |sets| == 0 then NoValidSets else Saved(sets)
  {
    var sets := SubmittedSets(chosen, effective);
    assert forall k :: 0 <= k < |sets| ==> !Rejects(sets[k]);
  }

  /** In an unrecognised effective unit nothing entered can be saved. */
  lemma UnknownUnitNeverSaves(chosen: seq<(real, int)>, effective: string)
    requires !IsKnownUnit(effective)
    ensures var sets := SubmittedSets(chosen, effective);
            |sets| > 0 ==> Submit(sets) == SetRejected(sets[0].setOrder, UnsupportedUnitMessage)
  {
    var sets := SubmittedSets(chosen, effective);
    if |sets| > 0 {
      assert Rejects(sets[0]);
      FirstIndexIs(sets, Rejects, 0);
    }
  }
}
