/** Session aggregation of the progress dashboard (`calculate_session_metrics`
    in app.py): the exercise history is sorted by date, cut into one
    session per calendar date, and each session is summarised by its
    heaviest set, its kilogram volume and its most used unit. For an
    assisted exercise with a bodyweight, "heaviest" means least assisted. */
module SessionMetrics {
  import opened Wrappers
  import opened Seqs
  import opened Records
  import opened Calculations
  import Helpers

  /** One summarised session. */
  datatype Metrics = Metrics(
    date: Date,
    maxWeight: real,
    maxReps: int,
    totalVolume: real,
    max1rm: real,
    sets: nat,
    unit: string)

  /** Number of leading rows dated `d`. */
  function RunLength(rows: seq<WorkoutLog>, d: Date): (n: nat)
    ensures n <= |rows|
    ensures forall k :: 0 <= k < n ==> rows[k].date == d
    ensures n < |rows| ==> rows[n].date != d
  {
    if |rows| == 0 || rows[0].date != d then 0 else 1 + RunLength(rows[1..], d)
  }

  /** Consecutive rows with the same date, split where the date changes
      (pandas `groupby('date')` over rows already sorted by date). */
  function GroupByDate(rows: seq<WorkoutLog>): (gs: seq<seq<WorkoutLog>>)
    ensures Flatten(gs) == rows
    ensures forall i :: 0 <= i < |gs| ==> |gs[i]| > 0
    ensures forall i :: 0 <= i < |gs| ==> Uniform(gs[i])
    ensures |rows| > 0 <==> |gs| > 0
    ensures |rows| > 0 ==> gs[0][0] == rows[0]
    decreases |rows|
  {
    if |rows| == 0 then []
    else
      var n := RunLength(rows, rows[0].date);
      var rest := GroupByDate(rows[n..]);
      GroupCons(rows, n, rest);
      [rows[..n]] + rest
  }

  /** The leading run of one date followed by the groups of the remaining
      rows groups all the rows. */
  lemma GroupCons(rows: seq<WorkoutLog>, n: nat, rest: seq<seq<WorkoutLog>>)
    requires 0 < n <= |rows|
    requires forall k :: 0 <= k < n ==> rows[k].date == rows[0].date
    requires Flatten(rest) == rows[n..]
    requires forall i :: 0 <= i < |rest| ==> |rest[i]| > 0 && Uniform(rest[i])
    ensures Flatten([rows[..n]] + rest) == rows
    ensures forall i :: 0 <= i < |[rows[..n]] + rest| ==> |([rows[..n]] + rest)[i]| > 0 && Uniform(([rows[..n]] + rest)[i])
  {
    var gs := [rows[..n]] + rest;
    assert gs[1..] == rest;
    assert rows == rows[..n] + rows[n..];
    forall i | 0 <= i < |gs|
      ensures |gs[i]| > 0 && Uniform(gs[i])
    {
      if i > 0 {
        assert gs[i] == rest[i - 1];
      }
    }
  }

  /** Non-empty groups whose first dates strictly increase. */
  predicate AscendingDates(gs: seq<seq<WorkoutLog>>)
  {
    (forall i :: 0 <= i < |gs| ==> |gs[i]| > 0)
    && forall k, l :: 0 <= k < l < |gs| ==> gs[k][0].date < gs[l][0].date
  }

  /** A non-empty group whose rows all share the first row's date. */
  predicate Uniform(g: seq<WorkoutLog>)
  {
    |g| > 0 && forall k :: 0 <= k < |g| ==> g[k].date == g[0].date
  }

  /** Concatenation of the groups, in order. */
  function Flatten(gs: seq<seq<WorkoutLog>>): seq<WorkoutLog>
  {
    if |gs| == 0 then [] else gs[0] + Flatten(gs[1..])
  }

  /** Rows on a date no group carries are not in the flattened groups. */
  lemma {:induction false} CountAbsentDate(gs: seq<seq<WorkoutLog>>, d: Date)
    requires forall i :: 0 <= i < |gs| ==> Uniform(gs[i]) && gs[i][0].date != d
    ensures CountWhere(Flatten(gs), OnDate(d)) == 0
    decreases |gs|
  {
    if |gs| > 0 {
      CountAbsentDate(gs[1..], d);
      CountWhereAppend(gs[0], Flatten(gs[1..]), OnDate(d));
      CountWherePositive(gs[0], OnDate(d));
    }
  }

  /** With distinct group dates, the rows of group i's date are exactly
      the rows of group i. */
  lemma {:induction false} CountGroupDate(gs: seq<seq<WorkoutLog>>, i: nat)
    requires i < |gs|
    requires forall k :: 0 <= k < |gs| ==> |gs[k]| > 0
    requires forall k :: 0 <= k < |gs| ==> Uniform(gs[k])
    requires forall k, l :: 0 <= k < l < |gs| ==> gs[k][0].date != gs[l][0].date
    ensures CountWhere(Flatten(gs), OnDate(gs[i][0].date)) == |gs[i]|
    decreases |gs|
  {
    var d := gs[i][0].date;
    var rest := gs[1..];
    CountWhereAppend(gs[0], Flatten(rest), OnDate(d));
    if i == 0 {
      CountAbsentDate(rest, d);
      CountWhereAll(gs[0], OnDate(d));
    } else {
      assert rest[i - 1] == gs[i];
      CountGroupDate(rest, i - 1);
      CountWherePositive(gs[0], OnDate(d));
    }
  }

  /** With distinct group dates, filtering the rows by group i's date
      gives back group i. */
  lemma {:induction false} FilterGroupDate(gs: seq<seq<WorkoutLog>>, i: nat)
    requires i < |gs|
    requires forall k :: 0 <= k < |gs| ==> |gs[k]| > 0
    requires forall k :: 0 <= k < |gs| ==> Uniform(gs[k])
    requires forall k, l :: 0 <= k < l < |gs| ==> gs[k][0].date != gs[l][0].date
    ensures Filter(Flatten(gs), OnDate(gs[i][0].date)) == gs[i]
    decreases |gs|
  {
    if i == 0 {
      FilterFirstGroupDate(gs);
    } else {
      var d := gs[i][0].date;
      var rest := gs[1..];
      assert Flatten(gs) == gs[0] + Flatten(rest);
      FilterAppend(gs[0], Flatten(rest), OnDate(d));
      DistinctGroupsTail(gs);
      FilterGroupDate(rest, i - 1);
      CountWherePositive(gs[0], OnDate(d));
      assert Filter(gs[0], OnDate(d)) == [];
    }
  }

  /** Filtering by the first group's date gives back the first group. */
  lemma FilterFirstGroupDate(gs: seq<seq<WorkoutLog>>)
    requires |gs| > 0
    requires forall k :: 0 <= k < |gs| ==> |gs[k]| > 0
    requires forall k :: 0 <= k < |gs| ==> Uniform(gs[k])
    requires forall k, l :: 0 <= k < l < |gs| ==> gs[k][0].date != gs[l][0].date
    ensures Filter(Flatten(gs), OnDate(gs[0][0].date)) == gs[0]
  {
    var d := gs[0][0].date;
    var rest := gs[1..];
    assert Flatten(gs) == gs[0] + Flatten(rest);
    FilterAppend(gs[0], Flatten(rest), OnDate(d));
    CountAbsentDate(rest, d);
    assert Filter(Flatten(rest), OnDate(d)) == [];
    FilterAll(gs[0], OnDate(d));
  }

  /** Dropping the first group keeps the groups uniform and their dates
      distinct. */
  lemma DistinctGroupsTail(gs: seq<seq<WorkoutLog>>)
    requires |gs| > 0
    requires forall k :: 0 <= k < |gs| ==> |gs[k]| > 0
    requires forall k :: 0 <= k < |gs| ==> Uniform(gs[k])
    requires forall k, l :: 0 <= k < l < |gs| ==> gs[k][0].date != gs[l][0].date
    ensures forall k :: 0 <= k < |gs[1..]| ==> |gs[1..][k]| > 0
    ensures forall k :: 0 <= k < |gs[1..]| ==> Uniform(gs[1..][k])
    ensures forall k, l :: 0 <= k < l < |gs[1..]| ==> gs[1..][k][0].date != gs[1..][l][0].date
  {
  }

  /** Every row lies in some group. */
  lemma {:induction false} FlattenMember(gs: seq<seq<WorkoutLog>>, k: nat)
    requires k < |Flatten(gs)|
    ensures exists i, j :: 0 <= i < |gs| && 0 <= j < |gs[i]| && gs[i][j] == Flatten(gs)[k]
    decreases |gs|
  {
    if k < |gs[0]| {
      assert gs[0][k] == Flatten(gs)[k];
    } else {
      var rest := gs[1..];
      FlattenMember(rest, k - |gs[0]|);
      var i, j :| 0 <= i < |rest| && 0 <= j < |rest[i]| && rest[i][j] == Flatten(rest)[k - |gs[0]|];
      assert gs[i + 1][j] == Flatten(gs)[k];
    }
  }

  /** Over date-sorted rows, group dates strictly increase and none is
      earlier than the first row's. */
  lemma {:induction false} SortedGroupsIncrease(rows: seq<WorkoutLog>)
    requires SortedBy(rows, DateKey)
    ensures AscendingDates(GroupByDate(rows))
    ensures forall k :: 0 <= k < |GroupByDate(rows)| ==> rows[0].date <= GroupByDate(rows)[k][0].date
    decreases |rows|
  {
    if |rows| > 0 {
      var n := RunLength(rows, rows[0].date);
      var tail := rows[n..];
      var rest: seq<seq<WorkoutLog>> := GroupByDate(tail);
      assert GroupByDate(rows) == [rows[..n]] + rest;
      SortedSuffix(rows, n);
      SortedGroupsIncrease(tail);
      forall k | 0 <= k < |rest|
        ensures rows[0].date < rest[k][0].date
      {
        assert tail[0].date <= rest[k][0].date;
      }
      AscendingCons(rows[..n], rest);
    }
  }

  /** A group dated before every later group keeps the dates ascending. */
  lemma AscendingCons(g: seq<WorkoutLog>, rest: seq<seq<WorkoutLog>>)
    requires |g| > 0 && AscendingDates(rest)
    requires forall k :: 0 <= k < |rest| ==> g[0].date < rest[k][0].date
    ensures AscendingDates([g] + rest)
    ensures forall k :: 0 <= k < |[g] + rest| ==> g[0].date <= ([g] + rest)[k][0].date
  {
    var gs := [g] + rest;
    assert forall k :: 0 < k < |gs| ==> gs[k] == rest[k - 1];
  }

  /** The rows after the first date's run are still sorted, and start on a
      strictly later date. */
  lemma SortedSuffix(rows: seq<WorkoutLog>, n: nat)
    requires SortedBy(rows, DateKey)
    requires 0 < n <= |rows|
    requires n < |rows| ==> rows[n].date != rows[0].date
    ensures SortedBy(rows[n..], DateKey)
    ensures n < |rows| ==> rows[0].date < rows[n].date
  {
    var tail := rows[n..];
    assert forall i :: 0 <= i < |tail| ==> tail[i] == rows[n + i];
    if n < |rows| {
      assert DateKey(rows[0]) <= DateKey(rows[n]);
    }
  }

  /** Sets logged in unit `u`. */
  function WithUnit(u: string): WorkoutLog -> bool
  {
    (s: WorkoutLog) => s.unit == u
  }

  /** The session's primary unit (`max(set(units), key=units.count)`): a
      unit with the largest count. Python leaves the tie-break to set
      iteration order; here the earliest such set wins. */
  function PrimaryUnit(g: seq<WorkoutLog>): (u: string)
    requires |g| > 0
    ensures exists k :: 0 <= k < |g| && g[k].unit == u
    ensures forall j :: 0 <= j < |g| ==> CountWhere(g, WithUnit(g[j].unit)) <= CountWhere(g, WithUnit(u))
  {
    var k := ArgMaxFirst(g, (s: WorkoutLog) => CountWhere(g, WithUnit(s.unit)) as real);
    g[k].unit
  }

  /** The sets as `calculate_session_volume` would receive them. */
  function AsVolumeEntries(g: seq<WorkoutLog>): (es: seq<VolumeEntry>)
    ensures |es| == |g|
    ensures forall k :: 0 <= k < |g| ==> es[k] == VolumeEntry(Some(g[k].weight), Some(g[k].reps), Some(g[k].unit))
  {
    seq(|g|, k requires 0 <= k < |g| => VolumeEntry(Some(g[k].weight), Some(g[k].reps), Some(g[k].unit)))
  }

  function OwnUnitVolume(s: WorkoutLog): real
  {
    TotalVolume(s.weight, s.reps, s.unit)
  }

  lemma {:induction false} OwnUnitVolumeIsSessionVolume(g: seq<WorkoutLog>)
    ensures SumOf(g, OwnUnitVolume) == SessionVolume(AsVolumeEntries(g))
    decreases |g|
  {
    if |g| > 0 {
      OwnUnitVolumeIsSessionVolume(g[..|g| - 1]);
      assert AsVolumeEntries(g)[..|g| - 1] == AsVolumeEntries(g[..|g| - 1]);
    }
  }

  /** Summary of a session of an ordinary exercise: the max set is the
      first one with the largest raw weight; reps and 1RM come from that
      same set; the volume converts each set from its own unit. */
  function PlainSummary(g: seq<WorkoutLog>): (m: Metrics)
    requires |g| > 0
    ensures m.date == g[0].date && m.sets == |g| && m.unit == PrimaryUnit(g)
    ensures forall j :: 0 <= j < |g| ==> g[j].weight <= m.maxWeight
    ensures exists k :: 0 <= k < |g| && g[k].weight == m.maxWeight && g[k].reps == m.maxReps
              && forall j :: 0 <= j < k ==> g[j].weight < m.maxWeight
    ensures m.max1rm == Epley1RM(m.maxWeight, m.maxReps)
    ensures m.totalVolume == SessionVolume(AsVolumeEntries(g))
  {
    var k := ArgMaxFirst(g, (s: WorkoutLog) => s.weight);
    OwnUnitVolumeIsSessionVolume(g);
    Metrics(g[0].date, g[k].weight, g[k].reps, SumOf(g, OwnUnitVolume),
            Epley1RM(g[k].weight, g[k].reps), |g|, PrimaryUnit(g))
  }

  /** Volume of an assisted set: bodyweight minus assistance, read in the
      session's primary unit whatever the set's own unit. */
  function AssistedVolume(bodyweightInUnit: real, primary: string): WorkoutLog -> real
  {
    (s: WorkoutLog) => TotalVolume(bodyweightInUnit - s.weight, s.reps, primary)
  }

  /** Summary of a session of an assisted exercise: the bodyweight (in lb)
      is converted into the primary unit, the max set is the first one
      with the least assistance, and its effective weight is reported. */
  function AssistedSummary(g: seq<WorkoutLog>, bodyweightLb: real): (m: Metrics)
    requires |g| > 0
    ensures m.date == g[0].date && m.sets == |g| && m.unit == PrimaryUnit(g)
    ensures var bw := ConvertUnit(bodyweightLb, "lb", m.unit);
            exists k :: 0 <= k < |g| && m.maxWeight == bw - g[k].weight && g[k].reps == m.maxReps
              && (forall j :: 0 <= j < |g| ==> g[k].weight <= g[j].weight)
              && (forall j :: 0 <= j < k ==> g[k].weight < g[j].weight)
    ensures m.max1rm == Epley1RM(m.maxWeight, m.maxReps)
    ensures m.totalVolume == SumOf(g, AssistedVolume(ConvertUnit(bodyweightLb, "lb", m.unit), m.unit))
  {
    var primary := PrimaryUnit(g);
    var bw := ConvertUnit(bodyweightLb, "lb", primary);
    var k := ArgMaxFirst(g, (s: WorkoutLog) => bw - s.weight);
    var effective := bw - g[k].weight;
    Metrics(g[0].date, effective, g[k].reps, SumOf(g, AssistedVolume(bw, primary)),
            Epley1RM(effective, g[k].reps), |g|, primary)
  }

  /** The assisted path runs only for a non-empty exercise name that the
      classifier calls assisted, and a non-zero bodyweight. */
  predicate UsesAssistedPath(exerciseName: Option<string>, bodyweightLb: Option<real>)
  {
    exerciseName.Some? && exerciseName.value != "" && Helpers.IsAssistedExercise(exerciseName.value)
    && bodyweightLb.Some? && bodyweightLb.value != 0.0
  }

  function Summarize(g: seq<WorkoutLog>, exerciseName: Option<string>, bodyweightLb: Option<real>): (m: Metrics)
    requires |g| > 0
    ensures m.date == g[0].date && m.sets == |g| && m.unit == PrimaryUnit(g)
  {
    if UsesAssistedPath(exerciseName, bodyweightLb) then AssistedSummary(g, bodyweightLb.value)
    else PlainSummary(g)
  }

  /** The sessions of a history: its rows sorted by date and cut into
      same-date groups. */
  function Sessions(history: seq<WorkoutLog>): seq<seq<WorkoutLog>>
  {
    GroupByDate(SortBy(history, DateKey))
  }

  /** Each group holds exactly the history rows of its date. */
  predicate GroupsCountDates(gs: seq<seq<WorkoutLog>>, history: seq<WorkoutLog>)
  {
    forall i :: 0 <= i < |gs| ==> |gs[i]| > 0 && |gs[i]| == CountWhere(history, OnDate(gs[i][0].date))
  }

  /** Every history date is the date of some group. */
  predicate GroupsCoverDates(gs: seq<seq<WorkoutLog>>, history: seq<WorkoutLog>)
  {
    forall k :: 0 <= k < |history| ==> exists i :: 0 <= i < |gs| && |gs[i]| > 0 && gs[i][0].date == history[k].date
  }

  /** One session per distinct date, in ascending date order, each holding
      exactly the rows of its date. */
  lemma SessionsPartitionHistory(history: seq<WorkoutLog>)
    ensures AscendingDates(Sessions(history))
    ensures GroupsCountDates(Sessions(history), history)
    ensures GroupsCoverDates(Sessions(history), history)
  {
    SortedGroupsIncrease(SortBy(history, DateKey));
    SessionsCountDates(history);
    SessionsCoverDates(history);
  }

  /** Each session holds as many rows as the history has on its date. */
  lemma SessionsCountDates(history: seq<WorkoutLog>)
    requires AscendingDates(Sessions(history))
    ensures GroupsCountDates(Sessions(history), history)
  {
    var sorted := SortBy(history, DateKey);
    var gs: seq<seq<WorkoutLog>> := GroupByDate(sorted);
    forall i | 0 <= i < |gs|
      ensures |gs[i]| == CountWhere(history, OnDate(gs[i][0].date))
    {
      CountGroupDate(gs, i);
      CountWherePermutation(sorted, history, OnDate(gs[i][0].date));
    }
  }

  /** Every history date has a session. */
  lemma SessionsCoverDates(history: seq<WorkoutLog>)
    ensures GroupsCoverDates(Sessions(history), history)
  {
    var sorted := SortBy(history, DateKey);
    var gs: seq<seq<WorkoutLog>> := GroupByDate(sorted);
    SortKeepsMembers(history, sorted);
    forall k | 0 <= k < |history|
      ensures exists i :: 0 <= i < |gs| && |gs[i]| > 0 && gs[i][0].date == history[k].date
    {
      assert history[k] in sorted;
      var p :| 0 <= p < |sorted| && sorted[p] == history[k];
      FlattenMember(gs, p);
      var i, j :| 0 <= i < |gs| && 0 <= j < |gs[i]| && gs[i][j] == Flatten(gs)[p];
      assert Uniform(gs[i]);
      assert gs[i][0].date == history[k].date;
    }
  }

  /** A summary per group carries the group facts over to the summaries. */
  lemma SummariesInherit(gs: seq<seq<WorkoutLog>>, history: seq<WorkoutLog>, r: seq<Metrics>)
    requires AscendingDates(gs) && GroupsCountDates(gs, history) && GroupsCoverDates(gs, history)
    requires |r| == |gs|
    requires forall i :: 0 <= i < |gs| ==> r[i].date == gs[i][0].date && r[i].sets == |gs[i]|
    ensures forall i, j :: 0 <= i < j < |r| ==> r[i].date < r[j].date
    ensures forall i :: 0 <= i < |r| ==> r[i].sets == CountWhere(history, OnDate(r[i].date))
    ensures forall i :: 0 <= i < |r| ==> LoggedOn(history, r[i].date)
    ensures forall k :: 0 <= k < |history| ==> HasSession(r, history[k].date)
  {
    SummaryDatesIncrease(gs, r);
    SummarySetsCount(gs, history, r);
    SummariesCover(gs, history, r);
  }

  lemma SummaryDatesIncrease(gs: seq<seq<WorkoutLog>>, r: seq<Metrics>)
    requires AscendingDates(gs) && |r| == |gs|
    requires forall i :: 0 <= i < |gs| ==> r[i].date == gs[i][0].date
    ensures forall i, j :: 0 <= i < j < |r| ==> r[i].date < r[j].date
  {
    forall i, j | 0 <= i < j < |r|
      ensures r[i].date < r[j].date
    {
      assert gs[i][0].date < gs[j][0].date;
    }
  }

  lemma SummarySetsCount(gs: seq<seq<WorkoutLog>>, history: seq<WorkoutLog>, r: seq<Metrics>)
    requires GroupsCountDates(gs, history) && |r| == |gs|
    requires forall i :: 0 <= i < |gs| ==> r[i].date == gs[i][0].date && r[i].sets == |gs[i]|
    ensures forall i :: 0 <= i < |r| ==> r[i].sets == CountWhere(history, OnDate(r[i].date))
    ensures forall i :: 0 <= i < |r| ==> LoggedOn(history, r[i].date)
  {
    forall i | 0 <= i < |r|
      ensures r[i].sets == CountWhere(history, OnDate(r[i].date))
      ensures LoggedOn(history, r[i].date)
    {
      assert |gs[i]| == CountWhere(history, OnDate(gs[i][0].date));
      CountWherePositive(history, OnDate(r[i].date));
      var k :| 0 <= k < |history| && OnDate(r[i].date)(history[k]);
    }
  }

  lemma SummariesCover(gs: seq<seq<WorkoutLog>>, history: seq<WorkoutLog>, r: seq<Metrics>)
    requires GroupsCoverDates(gs, history) && |r| == |gs|
    requires forall i :: 0 <= i < |gs| ==> |gs[i]| > 0 && r[i].date == gs[i][0].date
    ensures forall k :: 0 <= k < |history| ==> HasSession(r, history[k].date)
  {
    forall k | 0 <= k < |history|
      ensures HasSession(r, history[k].date)
    {
      var i :| 0 <= i < |gs| && |gs[i]| > 0 && gs[i][0].date == history[k].date;
      assert r[i].date == history[k].date;
    }
  }

  /** Every row of group `i` appears in the flattened groups. */
  lemma {:induction false} FlattenHas(gs: seq<seq<WorkoutLog>>, i: nat, j: nat)
    requires i < |gs| && j < |gs[i]|
    ensures gs[i][j] in Flatten(gs)
    decreases i
  {
    if i == 0 {
      assert Flatten(gs)[j] == gs[0][j];
    } else {
      FlattenHas(gs[1..], i - 1, j);
      assert gs[1..][i - 1] == gs[i];
      assert Flatten(gs) == gs[0] + Flatten(gs[1..]);
    }
  }

  /** Every row of `g` is a row of the history. */
  predicate RowsFromHistory(history: seq<WorkoutLog>, g: seq<WorkoutLog>)
  {
    forall j :: 0 <= j < |g| ==> g[j] in history
  }

  /** Every history row on `g`'s date is a row of `g`. */
  predicate RowsOfDateIn(history: seq<WorkoutLog>, g: seq<WorkoutLog>)
  {
    |g| > 0 && forall k :: 0 <= k < |history| && history[k].date == g[0].date ==> history[k] in g
  }

  /** A session holds exactly the history rows of its date (as a set of
      rows). */
  lemma SessionRows(history: seq<WorkoutLog>, i: nat)
    requires AscendingDates(Sessions(history)) && i < |Sessions(history)|
    ensures RowsFromHistory(history, Sessions(history)[i])
    ensures RowsOfDateIn(history, Sessions(history)[i])
  {
    var sorted := SortBy(history, DateKey);
    var gs: seq<seq<WorkoutLog>> := GroupByDate(sorted);
    SortKeepsMembers(history, sorted);
    forall j | 0 <= j < |gs[i]|
      ensures gs[i][j] in history
    {
      FlattenHas(gs, i, j);
    }
    forall k | 0 <= k < |history| && history[k].date == gs[i][0].date
      ensures history[k] in gs[i]
    {
      assert history[k] in sorted;
      var p :| 0 <= p < |sorted| && sorted[p] == history[k];
      FlattenMember(gs, p);
      var i', j :| 0 <= i' < |gs| && 0 <= j < |gs[i']| && gs[i'][j] == Flatten(gs)[p];
      assert Uniform(gs[i']);
      assert gs[i'][0].date == gs[i][0].date;
      assert i' == i;
    }
  }

  /** `m` reports the heaviest set logged on its date: no row of that date
      is heavier, and some row of that date has exactly its weight and
      reps. */
  predicate HeaviestOn(history: seq<WorkoutLog>, m: Metrics)
  {
    (forall k :: 0 <= k < |history| && history[k].date == m.date ==> history[k].weight <= m.maxWeight)
    && exists k :: 0 <= k < |history| && history[k].date == m.date
                   && history[k].weight == m.maxWeight && history[k].reps == m.maxReps
  }

  /** `m` reports the least assisted set logged on its date: its effective
      weight (bodyweight in the session unit minus the assistance) is the
      largest of that date, and it is the effective weight and reps of
      some row of that date. */
  predicate LeastAssistedOn(history: seq<WorkoutLog>, m: Metrics, bodyweightLb: real)
  {
    var bw := ConvertUnit(bodyweightLb, "lb", m.unit);
    (forall k :: 0 <= k < |history| && history[k].date == m.date ==> bw - history[k].weight <= m.maxWeight)
    && exists k :: 0 <= k < |history| && history[k].date == m.date
                   && m.maxWeight == bw - history[k].weight && history[k].reps == m.maxReps
  }

  /** `m`'s unit was used by some row of its date, and its 1RM is the Epley
      estimate of its reported set. */
  predicate ConsistentOn(history: seq<WorkoutLog>, m: Metrics)
  {
    (exists k :: 0 <= k < |history| && history[k].date == m.date && history[k].unit == m.unit)
    && m.max1rm == Epley1RM(m.maxWeight, m.maxReps)
  }

  /** The set a session summary reports: the heaviest one of its date, or
      the least assisted one on the assisted path. */
  predicate BestSetOn(history: seq<WorkoutLog>, m: Metrics, exerciseName: Option<string>, bodyweightLb: Option<real>)
  {
    ConsistentOn(history, m)
    && (UsesAssistedPath(exerciseName, bodyweightLb) ==> LeastAssistedOn(history, m, bodyweightLb.value))
    && (!UsesAssistedPath(exerciseName, bodyweightLb) ==> HeaviestOn(history, m))
  }

  /** The history rows logged on day `d`, in history order. */
  function DayRows(history: seq<WorkoutLog>, d: Date): seq<WorkoutLog>
  {
    Filter(history, OnDate(d))
  }

  /** No unit is used on `m`'s date more often than `m`'s unit. */
  predicate MostUsedOn(history: seq<WorkoutLog>, m: Metrics)
  {
    var day := DayRows(history, m.date);
    forall k :: 0 <= k < |history| && history[k].date == m.date ==>
      CountWhere(day, WithUnit(history[k].unit)) <= CountWhere(day, WithUnit(m.unit))
  }

  /** `m`'s volume is the volume of the rows of its date: each set's weight
      converted from its own unit to kg times its reps, or on the assisted
      path the effective weight (bodyweight in `m`'s unit minus the
      assistance) times reps, converted from `m`'s unit. */
  predicate VolumeOn(history: seq<WorkoutLog>, m: Metrics, exerciseName: Option<string>, bodyweightLb: Option<real>)
  {
    var day := DayRows(history, m.date);
    if UsesAssistedPath(exerciseName, bodyweightLb) then
      m.totalVolume == SumOf(day, AssistedVolume(ConvertUnit(bodyweightLb.value, "lb", m.unit), m.unit))
    else
      m.totalVolume == SumOf(day, OwnUnitVolume)
  }

  /** What a session summary reports about the rows of its date. */
  predicate ReportsOn(history: seq<WorkoutLog>, m: Metrics, exerciseName: Option<string>, bodyweightLb: Option<real>)
  {
    BestSetOn(history, m, exerciseName, bodyweightLb) && MostUsedOn(history, m)
    && VolumeOn(history, m, exerciseName, bodyweightLb)
  }

  /** A session's sum of any per-set term is that sum over the history rows
      of its date. */
  lemma SessionSum(history: seq<WorkoutLog>, i: nat, f: WorkoutLog -> real)
    requires AscendingDates(Sessions(history)) && i < |Sessions(history)|
    ensures SumOf(Sessions(history)[i], f) == SumOf(DayRows(history, Sessions(history)[i][0].date), f)
  {
    var sorted := SortBy(history, DateKey);
    var gs: seq<seq<WorkoutLog>> := GroupByDate(sorted);
    var p := OnDate(gs[i][0].date);
    FilterGroupDate(gs, i);
    SumOfFilter(sorted, p, f);
    SumOfPermutation(sorted, history, Masked(p, f));
    SumOfFilter(history, p, f);
  }

  /** A session's count of any per-set condition is that count over the
      history rows of its date. */
  lemma SessionCount(history: seq<WorkoutLog>, i: nat, q: WorkoutLog -> bool)
    requires AscendingDates(Sessions(history)) && i < |Sessions(history)|
    ensures CountWhere(Sessions(history)[i], q) == CountWhere(DayRows(history, Sessions(history)[i][0].date), q)
  {
    var sorted := SortBy(history, DateKey);
    var gs: seq<seq<WorkoutLog>> := GroupByDate(sorted);
    var p := OnDate(gs[i][0].date);
    FilterGroupDate(gs, i);
    CountWhereFilter(sorted, p, q);
    CountWherePermutation(sorted, history, Both(p, q));
    CountWhereFilter(history, p, q);
  }

  /** A session's primary unit is used on its date at least as often as any
      other unit. */
  lemma SessionUnitMostUsed(history: seq<WorkoutLog>, i: nat, m: Metrics)
    requires AscendingDates(Sessions(history)) && i < |Sessions(history)|
    requires m.date == Sessions(history)[i][0].date && m.unit == PrimaryUnit(Sessions(history)[i])
    ensures MostUsedOn(history, m)
  {
    var g := Sessions(history)[i];
    SessionRows(history, i);
    forall k | 0 <= k < |history| && history[k].date == m.date
      ensures CountWhere(DayRows(history, m.date), WithUnit(history[k].unit))
              <= CountWhere(DayRows(history, m.date), WithUnit(m.unit))
    {
      assert history[k] in g;
      var j :| 0 <= j < |g| && g[j] == history[k];
      SessionCount(history, i, WithUnit(history[k].unit));
      SessionCount(history, i, WithUnit(m.unit));
    }
  }

  /** A session summary's volume is the volume of the history rows of its
      date. */
  lemma SessionVolumeOn(history: seq<WorkoutLog>, i: nat, exerciseName: Option<string>, bodyweightLb: Option<real>)
    requires AscendingDates(Sessions(history)) && i < |Sessions(history)|
    ensures VolumeOn(history, Summarize(Sessions(history)[i], exerciseName, bodyweightLb), exerciseName, bodyweightLb)
  {
    var g := Sessions(history)[i];
    var m := Summarize(g, exerciseName, bodyweightLb);
    if UsesAssistedPath(exerciseName, bodyweightLb) {
      SessionSum(history, i, AssistedVolume(ConvertUnit(bodyweightLb.value, "lb", m.unit), m.unit));
    } else {
      OwnUnitVolumeIsSessionVolume(g);
      SessionSum(history, i, OwnUnitVolume);
    }
  }

  /** The summary of session `i` reports on the history rows of its date. */
  lemma SessionReports(history: seq<WorkoutLog>, i: nat, exerciseName: Option<string>, bodyweightLb: Option<real>)
    requires AscendingDates(Sessions(history)) && i < |Sessions(history)|
    ensures ReportsOn(history, Summarize(Sessions(history)[i], exerciseName, bodyweightLb), exerciseName, bodyweightLb)
  {
    var g := Sessions(history)[i];
    var m := Summarize(g, exerciseName, bodyweightLb);
    SessionRows(history, i);
    SummaryReports(history, g, exerciseName, bodyweightLb);
    SessionUnitMostUsed(history, i, m);
    SessionVolumeOn(history, i, exerciseName, bodyweightLb);
  }

  /** The summary of a session holding exactly the rows of its date reports
      the best set of those rows. */
  lemma SummaryReports(history: seq<WorkoutLog>, g: seq<WorkoutLog>, exerciseName: Option<string>, bodyweightLb: Option<real>)
    requires Uniform(g) && RowsFromHistory(history, g) && RowsOfDateIn(history, g)
    ensures BestSetOn(history, Summarize(g, exerciseName, bodyweightLb), exerciseName, bodyweightLb)
  {
    if UsesAssistedPath(exerciseName, bodyweightLb) {
      AssistedReports(history, g, bodyweightLb.value);
    } else {
      PlainReports(history, g);
    }
  }

  lemma PlainReports(history: seq<WorkoutLog>, g: seq<WorkoutLog>)
    requires Uniform(g) && RowsFromHistory(history, g) && RowsOfDateIn(history, g)
    ensures ConsistentOn(history, PlainSummary(g)) && HeaviestOn(history, PlainSummary(g))
  {
    var m := PlainSummary(g);
    UnitUsed(history, g, m);
    var s :| 0 <= s < |g| && g[s].weight == m.maxWeight && g[s].reps == m.maxReps
              && forall j :: 0 <= j < s ==> g[j].weight < m.maxWeight;
    assert g[s] in history;
    forall k | 0 <= k < |history| && history[k].date == m.date
      ensures history[k].weight <= m.maxWeight
    {
      assert history[k] in g;
    }
  }

  lemma AssistedReports(history: seq<WorkoutLog>, g: seq<WorkoutLog>, bodyweightLb: real)
    requires Uniform(g) && RowsFromHistory(history, g) && RowsOfDateIn(history, g)
    ensures ConsistentOn(history, AssistedSummary(g, bodyweightLb))
    ensures LeastAssistedOn(history, AssistedSummary(g, bodyweightLb), bodyweightLb)
  {
    var m := AssistedSummary(g, bodyweightLb);
    UnitUsed(history, g, m);
    var bw := ConvertUnit(bodyweightLb, "lb", m.unit);
    var s :| 0 <= s < |g| && m.maxWeight == bw - g[s].weight && g[s].reps == m.maxReps
              && forall j :: 0 <= j < |g| ==> g[s].weight <= g[j].weight;
    assert g[s] in history;
    forall k | 0 <= k < |history| && history[k].date == m.date
      ensures bw - history[k].weight <= m.maxWeight
    {
      assert history[k] in g;
    }
  }

  /** Each session's summary reports on the history rows of its date. */
  lemma SessionsReport(history: seq<WorkoutLog>, exerciseName: Option<string>, bodyweightLb: Option<real>)
    ensures AscendingDates(Sessions(history))
    ensures var r := SummarizeAll(Sessions(history), exerciseName, bodyweightLb);
            forall i :: 0 <= i < |r| ==> ReportsOn(history, r[i], exerciseName, bodyweightLb)
  {
    SessionsPartitionHistory(history);
    var gs := Sessions(history);
    var r := SummarizeAll(gs, exerciseName, bodyweightLb);
    forall i | 0 <= i < |r|
      ensures ReportsOn(history, r[i], exerciseName, bodyweightLb)
    {
      SessionReports(history, i, exerciseName, bodyweightLb);
    }
  }

  /** The primary unit of a session is used by a history row of its date. */
  lemma UnitUsed(history: seq<WorkoutLog>, g: seq<WorkoutLog>, m: Metrics)
    requires Uniform(g) && RowsFromHistory(history, g)
    requires m.date == g[0].date && m.unit == PrimaryUnit(g)
    ensures exists k :: 0 <= k < |history| && history[k].date == m.date && history[k].unit == m.unit
  {
    var u :| 0 <= u < |g| && g[u].unit == m.unit;
    assert g[u] in history;
    var k :| 0 <= k < |history| && history[k] == g[u];
  }

  /** Some row of the history is dated `d`. */
  predicate LoggedOn(history: seq<WorkoutLog>, d: Date)
  {
    exists k :: 0 <= k < |history| && history[k].date == d
  }

  /** Some summary is for date `d`. */
  predicate HasSession(r: seq<Metrics>, d: Date)
  {
    exists i :: 0 <= i < |r| && r[i].date == d
  }

  function SummarizeAll(gs: seq<seq<WorkoutLog>>, exerciseName: Option<string>, bodyweightLb: Option<real>)
    : (r: seq<Metrics>)
    requires forall i :: 0 <= i < |gs| ==> |gs[i]| > 0
    ensures |r| == |gs|
    ensures forall i :: 0 <= i < |gs| ==> r[i].date == gs[i][0].date && r[i].sets == |gs[i]|
    ensures forall i :: 0 <= i < |gs| ==> r[i] == Summarize(gs[i], exerciseName, bodyweightLb)
  {
    seq(|gs|, i requires 0 <= i < |gs| => Summarize(gs[i], exerciseName, bodyweightLb))
  }

  /** `calculate_session_metrics`: empty history gives no sessions;
      otherwise one summary per distinct date, in ascending date order,
      each counting exactly the rows of its date. */
  function CalculateSessionMetrics(history: seq<WorkoutLog>, exerciseName: Option<string>, bodyweightLb: Option<real>)
    : (r: seq<Metrics>)
    ensures |history| == 0 ==> r == []
    ensures forall i, j :: 0 <= i < j < |r| ==> r[i].date < r[j].date
    ensures forall i :: 0 <= i < |r| ==> r[i].sets == CountWhere(history, OnDate(r[i].date))
    ensures forall i :: 0 <= i < |r| ==> LoggedOn(history, r[i].date)
    ensures forall k :: 0 <= k < |history| ==> HasSession(r, history[k].date)
    ensures forall i :: 0 <= i < |r| ==> ReportsOn(history, r[i], exerciseName, bodyweightLb)
  {
    if |history| == 0 then []
    else
      var gs := Sessions(history);
      SessionsPartitionHistory(history);
      var r := SummarizeAll(gs, exerciseName, bodyweightLb);
      SummariesInherit(gs, history, r);
      SessionsReport(history, exerciseName, bodyweightLb);
      r
  }
}
