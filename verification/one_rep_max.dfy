/** The analysis in `calculate_exercise_1rm` (calculate_1rm.py): every set
    with a positive weight and a positive rep count gets an Epley estimate;
    the report names the first set reaching the highest estimate, lists the
    five highest estimates, and averages all of them. */
module OneRepMax {
  import opened Wrappers
  import opened Seqs
  import opened Records
  import opened Calculations

  /** One analysed set with its estimate (an entry of `all_1rms`). */
  datatype Estimate = Estimate(date: Date, setOrder: int, weight: real, unit: string, reps: int, oneRm: real)

  /** Sets with weight <= 0 or reps <= 0 are skipped. */
  predicate Analysed(r: WorkoutLog)
  {
    r.weight > 0.0 && r.reps > 0
  }

  function OneRmOf(r: WorkoutLog): real
  {
    Epley1RM(r.weight, r.reps)
  }

  function EstimateOf(r: WorkoutLog): Estimate
  {
    Estimate(r.date, r.setOrder, r.weight, r.unit, r.reps, OneRmOf(r))
  }

  /** An analysed set's estimate is at least its weight, hence positive. */
  lemma EstimatePositive(r: WorkoutLog)
    requires Analysed(r)
    ensures OneRmOf(r) >= r.weight > 0.0
  {
  }

  /** `e` is the estimate of some analysed set of `history`. */
  predicate FromAnalysed(history: seq<WorkoutLog>, e: Estimate)
  {
    exists j :: 0 <= j < |history| && Analysed(history[j]) && e == EstimateOf(history[j])
  }

  /** `all_1rms`: the estimates of the analysed sets, in history order. */
  function Estimates(history: seq<WorkoutLog>): (all: seq<Estimate>)
    ensures |all| == CountWhere(history, Analysed)
    ensures forall i :: 0 <= i < |all| ==> all[i].oneRm >= all[i].weight > 0.0
    ensures forall i :: 0 <= i < |all| ==> FromAnalysed(history, all[i])
    ensures forall j :: 0 <= j < |history| && Analysed(history[j]) ==> EstimateOf(history[j]) in all
  {
    if |history| == 0 then []
    else
      var front := history[..|history| - 1];
      var last := history[|history| - 1];
      assert forall j :: 0 <= j < |front| ==> front[j] == history[j];
      var all := Estimates(front) + if Analysed(last) then [EstimateOf(last)] else [];
      assert forall e :: FromAnalysed(front, e) ==> FromAnalysed(history, e) by {
        forall e | FromAnalysed(front, e)
          ensures FromAnalysed(history, e)
        {
          var j :| 0 <= j < |front| && Analysed(front[j]) && e == EstimateOf(front[j]);
          assert history[j] == front[j];
        }
      }
      all
  }

  /** Set `j` is the one the loop reports: analysed, with the highest
      estimate, and strictly above every earlier analysed set (`>` keeps
      the first of equal estimates). */
  predicate IsFirstBest(history: seq<WorkoutLog>, j: nat)
  {
    j < |history| && Analysed(history[j])
    && (forall m :: 0 <= m < |history| && Analysed(history[m]) ==> OneRmOf(history[m]) <= OneRmOf(history[j]))
    && (forall m :: 0 <= m < j && Analysed(history[m]) ==> OneRmOf(history[m]) < OneRmOf(history[j]))
  }

  /** `e` is the estimate of the set the loop reports. */
  predicate EstimateOfFirstBest(history: seq<WorkoutLog>, e: Estimate)
  {
    exists j: nat :: j < |history| && IsFirstBest(history, j) && e == EstimateOf(history[j])
  }

  /** At most one set is the first best. */
  lemma FirstBestUnique(history: seq<WorkoutLog>, i: nat, j: nat)
    requires IsFirstBest(history, i) && IsFirstBest(history, j)
    ensures i == j
  {
  }

  /** The loop's state: `max_1rm` (starting at 0) and the position of
      `max_1rm_set` (starting at None). */
  datatype Tracker = Tracker(max: real, best: Option<nat>)

  /** The tracking loop over the whole history. */
  function Track(history: seq<WorkoutLog>): (t: Tracker)
    ensures t.max >= 0.0
    ensures forall j :: 0 <= j < |history| && Analysed(history[j]) ==> OneRmOf(history[j]) <= t.max
    ensures t.best.None? ==> t.max == 0.0
    ensures t.best.Some? ==> IsFirstBest(history, t.best.value) && t.max == OneRmOf(history[t.best.value])
  {
    if |history| == 0 then Tracker(0.0, None)
    else
      var front := history[..|history| - 1];
      var last := history[|history| - 1];
      var t := Track(front);
      assert forall j :: 0 <= j < |front| ==> front[j] == history[j];
      if Analysed(last) && OneRmOf(last) > t.max then Tracker(OneRmOf(last), Some(|history| - 1))
      else t
  }

  /** A set is reported exactly when some set was analysed: estimates are
      positive, so the first analysed set always beats the initial 0. */
  lemma ReportedIffAnalysed(history: seq<WorkoutLog>)
    ensures Track(history).best.Some? <==> CountWhere(history, Analysed) > 0
  {
    var t := Track(history);
    CountWherePositive(history, Analysed);
    if CountWhere(history, Analysed) > 0 {
      var j :| 0 <= j < |history| && Analysed(history[j]);
      EstimatePositive(history[j]);
    }
  }

  function OneRmKey(e: Estimate): real
  {
    e.oneRm
  }

  /** `top` is drawn from `all`, and nothing left out of it has a higher
      estimate than anything kept. */
  predicate KeepsHighest(all: seq<Estimate>, top: seq<Estimate>)
  {
    multiset(top) <= multiset(all)
    && forall x :: x in multiset(all) - multiset(top) ==> forall i :: 0 <= i < |top| ==> x.oneRm <= top[i].oneRm
  }

  /** Highest estimate first. */
  predicate Descending(top: seq<Estimate>)
  {
    forall i, j :: 0 <= i < j < |top| ==> top[i].oneRm >= top[j].oneRm
  }

  /** No estimate of `all` is above `e`'s. */
  predicate AtLeastAll(all: seq<Estimate>, e: Estimate)
  {
    forall x :: x in all ==> x.oneRm <= e.oneRm
  }

  /** The first five of the estimates sorted by estimate, highest first. */
  function TopFive(all: seq<Estimate>): (top: seq<Estimate>)
    ensures |top| == if |all| < 5 then |all| else 5
    ensures Descending(top)
    ensures KeepsHighest(all, top)
    ensures |top| > 0 ==> AtLeastAll(all, top[0])
  {
    var sorted := SortByDescending(all, OneRmKey);
    var k := if |all| < 5 then |all| else 5;
    TopOfSorted(all, sorted, k);
    sorted[..k]
  }

  /** Cutting a descending rearrangement of `all` leaves nothing above the
      kept part. */
  lemma TopOfSorted(all: seq<Estimate>, sorted: seq<Estimate>, k: nat)
    requires multiset(sorted) == multiset(all) && k <= |sorted|
    requires forall i, j :: 0 <= i < j < |sorted| ==> OneRmKey(sorted[i]) >= OneRmKey(sorted[j])
    ensures Descending(sorted[..k])
    ensures KeepsHighest(all, sorted[..k])
    ensures k > 0 ==> AtLeastAll(all, sorted[0])
  {
    RestBelowKept(sorted, k);
    if k > 0 {
      HeadIsHighest(all, sorted);
    }
  }

  lemma RestBelowKept(sorted: seq<Estimate>, k: nat)
    requires k <= |sorted|
    requires forall i, j :: 0 <= i < j < |sorted| ==> OneRmKey(sorted[i]) >= OneRmKey(sorted[j])
    ensures KeepsHighest(sorted, sorted[..k])
  {
    var top := sorted[..k];
    var rest := sorted[k..];
    assert sorted == top + rest;
    assert multiset(sorted) == multiset(top) + multiset(rest);
    forall x | x in multiset(sorted) - multiset(top)
      ensures forall i :: 0 <= i < k ==> x.oneRm <= top[i].oneRm
    {
      assert x in multiset(rest);
      var j :| 0 <= j < |rest| && rest[j] == x;
      assert x == sorted[k + j];
    }
  }

  lemma HeadIsHighest(all: seq<Estimate>, sorted: seq<Estimate>)
    requires multiset(sorted) == multiset(all) && 0 < |sorted|
    requires forall i, j :: 0 <= i < j < |sorted| ==> OneRmKey(sorted[i]) >= OneRmKey(sorted[j])
    ensures AtLeastAll(all, sorted[0])
  {
    forall x | x in all
      ensures x.oneRm <= sorted[0].oneRm
    {
      assert x in multiset(sorted);
      var j :| 0 <= j < |sorted| && sorted[j] == x;
      if j > 0 {
        assert OneRmKey(sorted[0]) >= OneRmKey(sorted[j]);
      }
    }
  }

  /** A sum of terms each at most `m` is at most `m` times their number,
      and a sum of positive terms is positive. */
  lemma {:induction false} SumBounds(all: seq<Estimate>, m: real)
    requires forall i :: 0 <= i < |all| ==> 0.0 < all[i].oneRm <= m
    ensures SumOf(all, OneRmKey) <= |all| as real * m
    ensures |all| > 0 ==> SumOf(all, OneRmKey) > 0.0
    decreases |all|
  {
    if |all| > 0 {
      var front := all[..|all| - 1];
      assert forall i :: 0 <= i < |front| ==> front[i] == all[i];
      SumBounds(front, m);
    }
  }

  /** The mean estimate over all analysed sets. */
  function Average(all: seq<Estimate>): (avg: real)
    requires |all| > 0
    ensures avg * |all| as real == SumOf(all, OneRmKey)
  {
    SumOf(all, OneRmKey) / |all| as real
  }

  /** The average lies between 0 and the highest estimate. */
  lemma AverageBounded(all: seq<Estimate>, m: real)
    requires |all| > 0
    requires forall i :: 0 <= i < |all| ==> 0.0 < all[i].oneRm <= m
    ensures 0.0 < Average(all) <= m
  {
    SumBounds(all, m);
    var n := |all| as real;
    var avg := Average(all);
    assert avg * n <= m * n;
    assert (m - avg) * n >= 0.0;
  }

  /** What the analysis reports. */
  datatype Analysis =
    | NoHistory
    | NoValidSets
    | Report(best: Estimate, top: seq<Estimate>, average: real, analysed: nat)

  /** The set the loop keeps is, among the estimates, the first one with
      the highest estimate. */
  lemma {:induction false} BestFirstAmongEstimates(history: seq<WorkoutLog>)
    requires Track(history).best.Some?
    ensures exists k :: FirstMaxAt(Estimates(history), OneRmKey, k)
                        && Estimates(history)[k] == EstimateOf(history[Track(history).best.value])
    decreases |history|
  {
    if |history| > 0 {
      var front := history[..|history| - 1];
      var last := history[|history| - 1];
      var t := Track(front);
      var fa := Estimates(front);
      var all := Estimates(history);
      assert forall j :: 0 <= j < |front| ==> front[j] == history[j];
      assert all == fa + if Analysed(last) then [EstimateOf(last)] else [];
      forall x | x in fa
        ensures x.oneRm <= t.max
      {
        assert FromAnalysed(front, x);
      }
      if Analysed(last) && OneRmOf(last) > t.max {
        assert Track(history).best.value == |history| - 1;
        LastIsFirstMax(fa, EstimateOf(last), t.max);
        assert all[|fa|] == EstimateOf(history[Track(history).best.value]);
      } else {
        assert Track(history) == t;
        BestFirstAmongEstimates(front);
        var k :| FirstMaxAt(fa, OneRmKey, k) && fa[k] == EstimateOf(front[t.best.value]);
        KeptFirstMax(fa, k, if Analysed(last) then [EstimateOf(last)] else []);
        assert all[k] == EstimateOf(history[Track(history).best.value]);
      }
    }
  }

  /** An estimate above every earlier one is the first maximum once
      appended. */
  lemma LastIsFirstMax(fa: seq<Estimate>, e: Estimate, max: real)
    requires forall x :: x in fa ==> x.oneRm <= max
    requires e.oneRm > max
    ensures FirstMaxAt(fa + [e], OneRmKey, |fa|)
  {
    var all := fa + [e];
    forall j | 0 <= j < |fa|
      ensures OneRmKey(all[j]) < OneRmKey(all[|fa|])
    {
      assert all[j] == fa[j] && fa[j] in fa;
    }
  }

  /** Appending estimates no higher than the first maximum keeps it first. */
  lemma KeptFirstMax(fa: seq<Estimate>, k: int, more: seq<Estimate>)
    requires FirstMaxAt(fa, OneRmKey, k)
    requires forall x :: x in more ==> x.oneRm <= fa[k].oneRm
    ensures FirstMaxAt(fa + more, OneRmKey, k)
  {
    var all := fa + more;
    forall j | 0 <= j < |all|
      ensures OneRmKey(all[j]) <= OneRmKey(all[k])
    {
      if j < |fa| {
        assert all[j] == fa[j];
      } else {
        assert all[j] == more[j - |fa|];
      }
    }
  }

  /** When some set is analysed the loop reports a set, the top list
      starts with its estimate, and the average does not exceed it. */
  lemma ReportSound(history: seq<WorkoutLog>)
    requires CountWhere(history, Analysed) > 0
    ensures Track(history).best.Some?
    ensures EstimateOfFirstBest(history, EstimateOf(history[Track(history).best.value]))
    ensures var best := EstimateOf(history[Track(history).best.value]);
            var all := Estimates(history);
            |TopFive(all)| > 0 && TopFive(all)[0] == best
            && 0.0 < Average(all) <= best.oneRm
  {
    ReportedIffAnalysed(history);
    var t := Track(history);
    var best := EstimateOf(history[t.best.value]);
    var all := Estimates(history);
    var top := TopFive(all);
    forall i | 0 <= i < |all|
      ensures 0.0 < all[i].oneRm <= best.oneRm
    {
      assert FromAnalysed(history, all[i]);
      var j :| 0 <= j < |history| && Analysed(history[j]) && all[i] == EstimateOf(history[j]);
    }
    AverageBounded(all, best.oneRm);
    BestFirstAmongEstimates(history);
    var k :| FirstMaxAt(all, OneRmKey, k) && all[k] == best;
    SortByDescendingHead(all, OneRmKey, k);
  }

  /** `calculate_exercise_1rm` on the rows of one exercise: the first set
      with the highest estimate, the five highest estimates highest first
      (all of them when fewer), and the mean of all estimates. */
  function CalculateExercise1Rm(history: seq<WorkoutLog>): (r: Analysis)
    ensures r.NoHistory? <==> |history| == 0
    ensures r.NoValidSets? <==> |history| > 0 && forall j :: 0 <= j < |history| ==> !Analysed(history[j])
    ensures r.Report? ==> r.analysed == CountWhere(history, Analysed) > 0
    ensures r.Report? ==> EstimateOfFirstBest(history, r.best)
    ensures r.Report? ==> 0 < |r.top| <= 5 && r.top[0] == r.best
    ensures r.Report? ==> Descending(r.top)
    ensures r.Report? ==> KeepsHighest(Estimates(history), r.top)
                          && |r.top| == if r.analysed < 5 then r.analysed else 5
    ensures r.Report? ==> r.average == SumOf(Estimates(history), OneRmKey) / r.analysed as real
    ensures r.Report? ==> 0.0 < r.average <= r.best.oneRm
  {
    CountWherePositive(history, Analysed);
    if |history| == 0 then NoHistory
    else if CountWhere(history, Analysed) == 0 then NoValidSets
    else
      ReportSound(history);
      var all := Estimates(history);
      var t := Track(history);
      var top := TopFive(all);
      var avg := Average(all);
      assert KeepsHighest(all, top);
      Report(EstimateOf(history[t.best.value]), top, avg, |all|)
  }
}
