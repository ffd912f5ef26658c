/** Personal records (`get_pr_records` in database/db_manager.py) as
    functions over the logged rows: for every exercise with at least one
    row, the best weight with its unit, the best reps and the best
    weight-times-reps volume, each with every distinct date on which the
    best value was logged, newest first. */
module PersonalRecords {
  import opened Wrappers
  import opened Seqs
  import opened Records

  /** The record card of one exercise. */
  datatype PRRecord = PRRecord(
    bestWeight: real,
    bestWeightUnit: string,
    bestWeightDates: seq<Date>,
    bestReps: int,
    bestRepsDates: seq<Date>,
    bestVolume: real,
    bestVolumeDates: seq<Date>)

  function WeightKey(r: WorkoutLog): real
  {
    r.weight
  }

  function RepsKey(r: WorkoutLog): real
  {
    r.reps as real
  }

  /** The volume the query ranks by: raw weight times reps, with no unit
      conversion. */
  function VolumeKey(r: WorkoutLog): real
  {
    r.weight * r.reps as real
  }

  /** `a` comes before `b` under `ORDER BY key DESC, date DESC`. */
  predicate Outranks(a: WorkoutLog, b: WorkoutLog, key: WorkoutLog -> real)
  {
    key(a) > key(b) || (key(a) == key(b) && a.date > b.date)
  }

  /** The row `ORDER BY key DESC, date DESC LIMIT 1` returns: nothing
      outranks it. Rows tied on both key and date are left in unspecified
      order by the database; here the earliest such row is taken. */
  function TopRow(rows: seq<WorkoutLog>, key: WorkoutLog -> real): (i: nat)
    requires |rows| > 0
    ensures i < |rows|
    ensures forall j :: 0 <= j < |rows| ==> !Outranks(rows[j], rows[i], key)
  {
    if |rows| == 1 then 0
    else
      var k := TopRow(rows[..|rows| - 1], key);
      assert forall j :: 0 <= j < |rows| - 1 ==> rows[..|rows| - 1][j] == rows[j];
      if Outranks(rows[|rows| - 1], rows[k], key) then |rows| - 1 else k
  }

  /** Rows whose key equals `v`. */
  function HasValue(key: WorkoutLog -> real, v: real): WorkoutLog -> bool
  {
    (r: WorkoutLog) => key(r) == v
  }

  function DatesOf(rows: seq<WorkoutLog>): (ds: seq<Date>)
    ensures |ds| == |rows|
    ensures forall i :: 0 <= i < |rows| ==> ds[i] == rows[i].date
  {
    seq(|rows|, i requires 0 <= i < |rows| => rows[i].date)
  }

  function DayKey(d: Date): real
  {
    d as real
  }

  /** Strictly decreasing dates: newest first, no date twice. */
  predicate NewestFirst(ds: seq<Date>)
  {
    forall i, j :: 0 <= i < j < |ds| ==> ds[i] > ds[j]
  }

  /** Some row has key `v` and date `d`. */
  predicate LoggedWith(rows: seq<WorkoutLog>, key: WorkoutLog -> real, v: real, d: Date)
  {
    exists j :: 0 <= j < |rows| && key(rows[j]) == v && rows[j].date == d
  }

  /** The distinct dates of the rows with key `v`, in first-seen order. */
  function DistinctDatesWith(rows: seq<WorkoutLog>, key: WorkoutLog -> real, v: real): (ds: seq<Date>)
    ensures Distinct(ds)
    ensures forall d :: d in ds <==> LoggedWith(rows, key, v, d)
  {
    var matching := Filter(rows, HasValue(key, v));
    var ds := Dedup(DatesOf(matching));
    forall d
      ensures d in ds <==> LoggedWith(rows, key, v, d)
    {
      if d in ds {
        var i :| 0 <= i < |ds| && ds[i] == d;
        var m :| 0 <= m < |matching| && DatesOf(matching)[m] == d;
        assert matching[m] in rows;
        var j :| 0 <= j < |rows| && rows[j] == matching[m];
        assert key(rows[j]) == v && rows[j].date == d;
      }
      if LoggedWith(rows, key, v, d) {
        var j :| 0 <= j < |rows| && key(rows[j]) == v && rows[j].date == d;
        FilterKeeps(rows, HasValue(key, v), rows[j]);
        var m :| 0 <= m < |matching| && matching[m] == rows[j];
        assert DatesOf(matching)[m] == d;
      }
    }
    ds
  }

  /** `SELECT DISTINCT date ... WHERE key = v ORDER BY date DESC`. */
  function DatesWith(rows: seq<WorkoutLog>, key: WorkoutLog -> real, v: real): (ds: seq<Date>)
    ensures NewestFirst(ds)
    ensures forall d :: d in ds <==> LoggedWith(rows, key, v, d)
  {
    var distinct := DistinctDatesWith(rows, key, v);
    var ds := SortByDescending(distinct, DayKey);
    DescendingDistinct(distinct, ds);
    SortKeepsMembers(distinct, ds);
    ds
  }

  /** A descending rearrangement of distinct dates strictly decreases. */
  lemma DescendingDistinct(distinct: seq<Date>, ds: seq<Date>)
    requires Distinct(distinct) && multiset(ds) == multiset(distinct)
    requires forall i, j :: 0 <= i < j < |ds| ==> DayKey(ds[i]) >= DayKey(ds[j])
    ensures NewestFirst(ds)
  {
    DistinctPermutation(distinct, ds);
    forall i, j | 0 <= i < j < |ds|
      ensures ds[i] > ds[j]
    {
      assert DayKey(ds[i]) >= DayKey(ds[j]);
    }
  }

  /** No row beats the card: its best weight, reps and volume are at least
      every row's. */
  predicate CardBoundsRows(rows: seq<WorkoutLog>, pr: PRRecord)
  {
    forall j :: 0 <= j < |rows| ==>
      rows[j].weight <= pr.bestWeight && rows[j].reps <= pr.bestReps && VolumeKey(rows[j]) <= pr.bestVolume
  }

  /** Row `j` carries the best weight and the card's unit, and no row with
      the best weight is newer. */
  predicate LatestBestWeightAt(rows: seq<WorkoutLog>, pr: PRRecord, j: int)
  {
    0 <= j < |rows| && rows[j].weight == pr.bestWeight && rows[j].unit == pr.bestWeightUnit
    && forall l :: 0 <= l < |rows| && rows[l].weight == pr.bestWeight ==> rows[l].date <= rows[j].date
  }

  /** The card's best reps and best volume were each logged in some row. */
  predicate BestsAttained(rows: seq<WorkoutLog>, pr: PRRecord)
  {
    (exists j :: 0 <= j < |rows| && rows[j].reps == pr.bestReps)
    && (exists j :: 0 <= j < |rows| && VolumeKey(rows[j]) == pr.bestVolume)
  }

  /** The three date lists are the newest-first dates of the best values. */
  predicate CardDates(rows: seq<WorkoutLog>, pr: PRRecord)
  {
    pr.bestWeightDates == DatesWith(rows, WeightKey, pr.bestWeight)
    && pr.bestRepsDates == DatesWith(rows, RepsKey, pr.bestReps as real)
    && pr.bestVolumeDates == DatesWith(rows, VolumeKey, pr.bestVolume)
  }

  /** The record card computed from one exercise's rows. With no rows the
      queries return nothing and the defaults 0, "kg" and no dates apply. */
  function RecordOf(rows: seq<WorkoutLog>): (pr: PRRecord)
    ensures |rows| == 0 ==> pr == PRRecord(0.0, "kg", [], 0, [], 0.0, [])
    ensures CardBoundsRows(rows, pr)
    ensures |rows| > 0 ==> (exists j :: LatestBestWeightAt(rows, pr, j)) && BestsAttained(rows, pr)
    ensures CardDates(rows, pr)
  {
    if |rows| == 0 then
      PRRecord(0.0, "kg", DatesWith(rows, WeightKey, 0.0), 0, DatesWith(rows, RepsKey, 0.0),
               0.0, DatesWith(rows, VolumeKey, 0.0))
    else
      var w := TopRow(rows, WeightKey);
      var r := TopRow(rows, RepsKey);
      var v := TopRow(rows, VolumeKey);
      var pr := PRRecord(rows[w].weight, rows[w].unit, DatesWith(rows, WeightKey, rows[w].weight),
                         rows[r].reps, DatesWith(rows, RepsKey, rows[r].reps as real),
                         VolumeKey(rows[v]), DatesWith(rows, VolumeKey, VolumeKey(rows[v])));
      TopRowsMakeCard(rows, w, r, v, pr);
      pr
  }

  /** The card built from the three top rows bounds every row, and the
      best-weight row is the newest with that weight. */
  lemma TopRowsMakeCard(rows: seq<WorkoutLog>, w: nat, r: nat, v: nat, pr: PRRecord)
    requires w < |rows| && r < |rows| && v < |rows|
    requires forall j :: 0 <= j < |rows| ==> !Outranks(rows[j], rows[w], WeightKey)
    requires forall j :: 0 <= j < |rows| ==> !Outranks(rows[j], rows[r], RepsKey)
    requires forall j :: 0 <= j < |rows| ==> !Outranks(rows[j], rows[v], VolumeKey)
    requires pr.bestWeight == rows[w].weight && pr.bestWeightUnit == rows[w].unit
    requires pr.bestReps == rows[r].reps && pr.bestVolume == VolumeKey(rows[v])
    ensures CardBoundsRows(rows, pr) && LatestBestWeightAt(rows, pr, w) && BestsAttained(rows, pr)
  {
    forall j | 0 <= j < |rows|
      ensures rows[j].weight <= pr.bestWeight && rows[j].reps <= pr.bestReps && VolumeKey(rows[j]) <= pr.bestVolume
    {
      assert !Outranks(rows[j], rows[w], WeightKey);
      assert !Outranks(rows[j], rows[r], RepsKey);
      assert !Outranks(rows[j], rows[v], VolumeKey);
    }
    forall l | 0 <= l < |rows| && rows[l].weight == pr.bestWeight
      ensures rows[l].date <= rows[w].date
    {
      assert !Outranks(rows[l], rows[w], WeightKey);
    }
  }

  /** Rows of exercise `name`. */
  function Named(name: string): WorkoutLog -> bool
  {
    (r: WorkoutLog) => r.exerciseName == name
  }

  /** `get_pr_records`: one card per exercise name that has a row, computed
      from that exercise's rows only. */
  function GetPrRecords(rows: seq<WorkoutLog>): (prs: map<string, PRRecord>)
    ensures forall n :: n in prs <==> exists j :: 0 <= j < |rows| && rows[j].exerciseName == n
    ensures forall n :: n in prs ==> prs[n] == RecordOf(Filter(rows, Named(n)))
  {
    var names := set j | 0 <= j < |rows| :: rows[j].exerciseName;
    map n | n in names :: RecordOf(Filter(rows, Named(n)))
  }

  /** Every logged exercise gets a card whose best weight was really lifted
      in that exercise, on the latest date on which it was lifted. */
  lemma CardsComeFromOwnRows(rows: seq<WorkoutLog>, n: string)
    requires exists j :: 0 <= j < |rows| && rows[j].exerciseName == n
    ensures n in GetPrRecords(rows)
    ensures var pr := GetPrRecords(rows)[n];
            exists j :: 0 <= j < |rows| && rows[j].exerciseName == n && rows[j].weight == pr.bestWeight
              && rows[j].unit == pr.bestWeightUnit
  {
    var own := Filter(rows, Named(n));
    var pr := RecordOf(own);
    assert GetPrRecords(rows)[n] == pr;
    var j0 :| 0 <= j0 < |rows| && rows[j0].exerciseName == n;
    FilterKeeps(rows, Named(n), rows[j0]);
    var j :| LatestBestWeightAt(own, pr, j);
    assert own[j] in own;
    var k :| 0 <= k < |rows| && rows[k] == own[j];
  }

  /** The best weight's dates are never empty for a logged exercise, and
      the newest of them is the date the unit was read from. */
  lemma BestWeightDatesNonEmpty(rows: seq<WorkoutLog>)
    requires |rows| > 0
    ensures var pr := RecordOf(rows);
            |pr.bestWeightDates| > 0
            && exists j :: 0 <= j < |rows| && rows[j].weight == pr.bestWeight && rows[j].unit == pr.bestWeightUnit
                 && rows[j].date == pr.bestWeightDates[0]
  {
    var pr := RecordOf(rows);
    var j :| LatestBestWeightAt(rows, pr, j);
    var ds := pr.bestWeightDates;
    assert ds == DatesWith(rows, WeightKey, pr.bestWeight);
    assert LoggedWith(rows, WeightKey, pr.bestWeight, rows[j].date);
    assert rows[j].date in ds;
    var i :| 0 <= i < |ds| && ds[i] == rows[j].date;
    assert LoggedWith(rows, WeightKey, pr.bestWeight, ds[0]);
    var l :| 0 <= l < |rows| && WeightKey(rows[l]) == pr.bestWeight && rows[l].date == ds[0];
    assert ds[0] <= rows[j].date;
    NewestFirstHead(ds, i);
  }

  /** The first of newest-first dates is the newest. */
  lemma NewestFirstHead(ds: seq<Date>, i: nat)
    requires NewestFirst(ds) && i < |ds|
    ensures ds[0] >= ds[i]
  {
    if i > 0 {
      assert ds[0] > ds[i];
    }
  }
}
