/** The pure part of database/migrate_workouts_to_supabase.py: per-set
    rows are folded into one workout session per (date, exercise) pair,
    kept in the insertion order of the dictionary that collects them, and
    the sessions are summarised (date range, sessions per exercise, total
    sets) before they are uploaded. */
module SessionMigration {
  import opened Wrappers
  import opened Seqs
  import opened Records

  /** One set as the migrated session stores it. */
  datatype SetRow = SetRow(setOrder: int, weight: real, unit: string, reps: int)

  /** A migrated session: its key, its sets, and the rpe and notes of the
      first row seen for the key. */
  datatype Session = Session(
    date: Date,
    exerciseName: string,
    sets: seq<SetRow>,
    rpe: Option<int>,
    notes: Option<string>)

  /** The dictionary key a row is grouped under. */
  datatype Key = Key(date: Date, exerciseName: string)

  function KeyOf(l: WorkoutLog): Key
  {
    Key(l.date, l.exerciseName)
  }

  function SessionKey(s: Session): Key
  {
    Key(s.date, s.exerciseName)
  }

  function SetOf(l: WorkoutLog): SetRow
  {
    SetRow(l.setOrder, l.weight, l.unit, l.reps)
  }

  function SetsOf(logs: seq<WorkoutLog>): (r: seq<SetRow>)
    ensures |r| == |logs|
    ensures forall i :: 0 <= i < |logs| ==> r[i] == SetOf(logs[i])
  {
    seq(|logs|, i requires 0 <= i < |logs| => SetOf(logs[i]))
  }

  function HasKey(k: Key): WorkoutLog -> bool
  {
    (l: WorkoutLog) => KeyOf(l) == k
  }

  function IsSessionOf(k: Key): Session -> bool
  {
    (s: Session) => SessionKey(s) == k
  }

  /** Position of the first row with key `k`, or `|logs|` when there is none. */
  function FirstAt(logs: seq<WorkoutLog>, k: Key): (j: nat)
    ensures j <= |logs|
    ensures j < |logs| ==> KeyOf(logs[j]) == k
    ensures j == |logs| <==> forall m :: 0 <= m < |logs| ==> KeyOf(logs[m]) != k
  {
    match FirstIndexWhere(logs, HasKey(k))
    case Some(j) => j
    case None => |logs|
  }

  /** Some row carries key `k`. */
  predicate Logged(logs: seq<WorkoutLog>, k: Key)
  {
    exists j :: 0 <= j < |logs| && KeyOf(logs[j]) == k
  }

  /** Some session carries key `k`. */
  predicate HasSessionFor(ss: seq<Session>, k: Key)
  {
    exists i :: 0 <= i < |ss| && SessionKey(ss[i]) == k
  }

  /** Session `s` holds exactly the rows with its key, in input order, and
      the rpe and notes of the first of them. */
  predicate Collects(logs: seq<WorkoutLog>, s: Session)
  {
    var f := FirstAt(logs, SessionKey(s));
    f < |logs|
    && s.sets == SetsOf(Filter(logs, HasKey(SessionKey(s))))
    && s.rpe == logs[f].rpe && s.notes == logs[f].notes
  }

  /** No key has two sessions. */
  ghost predicate KeysDistinct(ss: seq<Session>)
  {
    forall i, j :: 0 <= i < j < |ss| ==> SessionKey(ss[i]) != SessionKey(ss[j])
  }

  /** The sessions' keys are exactly the rows' keys. */
  ghost predicate SameKeys(logs: seq<WorkoutLog>, ss: seq<Session>)
  {
    forall k :: HasSessionFor(ss, k) <==> Logged(logs, k)
  }

  ghost predicate AllCollect(logs: seq<WorkoutLog>, ss: seq<Session>)
  {
    forall i :: 0 <= i < |ss| ==> Collects(logs, ss[i])
  }

  /** Sessions appear in the order their keys were first seen. */
  ghost predicate FirstSeenOrder(logs: seq<WorkoutLog>, ss: seq<Session>)
  {
    forall i, j :: 0 <= i < j < |ss| ==> FirstAt(logs, SessionKey(ss[i])) < FirstAt(logs, SessionKey(ss[j]))
  }

  /** What grouping promises: one session per distinct key, each collecting
      its rows, ordered by where each key was first seen. */
  ghost predicate Grouped(logs: seq<WorkoutLog>, ss: seq<Session>)
  {
    KeysDistinct(ss) && SameKeys(logs, ss) && AllCollect(logs, ss) && FirstSeenOrder(logs, ss)
  }

  /** The session a key's first row opens. */
  function Opened(l: WorkoutLog): Session
  {
    Session(l.date, l.exerciseName, [SetOf(l)], l.rpe, l.notes)
  }

  /** One iteration of the grouping loop: append the row's set to its
      key's session, opening the session when the key is new. */
  function AddLog(ss: seq<Session>, l: WorkoutLog): seq<Session>
  {
    match FirstIndexWhere(ss, IsSessionOf(KeyOf(l)))
    case Some(i) => ss[i := ss[i].(sets := ss[i].sets + [SetOf(l)])]
    case None => ss + [Opened(l)]
  }

  /** `group_workouts_by_session`. */
  function GroupWorkoutsBySession(logs: seq<WorkoutLog>): (ss: seq<Session>)
    ensures Grouped(logs, ss)
  {
    if |logs| == 0 then []
    else
      var front := logs[..|logs| - 1];
      var l := logs[|logs| - 1];
      assert logs == front + [l];
      AddStep(front, l, GroupWorkoutsBySession(front));
      AddLog(GroupWorkoutsBySession(front), l)
  }

  lemma FilterSingle(x: WorkoutLog, p: WorkoutLog -> bool)
    ensures Filter([x], p) == if p(x) then [x] else []
  {
    assert [x][..0] == [];
  }

  lemma SetsOfSnoc(logs: seq<WorkoutLog>, l: WorkoutLog)
    ensures SetsOf(logs + [l]) == SetsOf(logs) + [SetOf(l)]
  {
  }

  /** A row with another key leaves a session's contents alone. */
  lemma SessionStays(logs: seq<WorkoutLog>, l: WorkoutLog, s: Session)
    requires Collects(logs, s) && KeyOf(l) != SessionKey(s)
    ensures Collects(logs + [l], s)
    ensures FirstAt(logs + [l], SessionKey(s)) == FirstAt(logs, SessionKey(s))
  {
    var k := SessionKey(s);
    var f := FirstAt(logs, k);
    FirstIndexExtend(logs, [l], HasKey(k));
    assert FirstAt(logs + [l], k) == f;
    assert (logs + [l])[f] == logs[f];
    FilterAppend(logs, [l], HasKey(k));
    FilterSingle(l, HasKey(k));
    assert Filter(logs + [l], HasKey(k)) == Filter(logs, HasKey(k));
  }

  /** A row with the session's key becomes its last set. */
  lemma SessionGrows(logs: seq<WorkoutLog>, l: WorkoutLog, s: Session)
    requires Collects(logs, s) && KeyOf(l) == SessionKey(s)
    ensures Collects(logs + [l], s.(sets := s.sets + [SetOf(l)]))
    ensures FirstAt(logs + [l], SessionKey(s)) == FirstAt(logs, SessionKey(s))
  {
    var k := SessionKey(s);
    FirstIndexExtend(logs, [l], HasKey(k));
    FilterAppend(logs, [l], HasKey(k));
    FilterSingle(l, HasKey(k));
    SetsOfSnoc(Filter(logs, HasKey(k)), l);
  }

  /** A new key is first seen at the appended row. */
  lemma FirstAtNew(logs: seq<WorkoutLog>, l: WorkoutLog)
    requires !Logged(logs, KeyOf(l))
    ensures FirstAt(logs + [l], KeyOf(l)) == |logs|
  {
    var logs' := logs + [l];
    assert forall m :: 0 <= m < |logs| ==> logs'[m] == logs[m];
    FirstIndexIs(logs', HasKey(KeyOf(l)), |logs|);
  }

  /** A new key's rows are just the appended row. */
  lemma FilterNew(logs: seq<WorkoutLog>, l: WorkoutLog)
    requires !Logged(logs, KeyOf(l))
    ensures Filter(logs + [l], HasKey(KeyOf(l))) == [l]
  {
    var p := HasKey(KeyOf(l));
    CountWherePositive(logs, p);
    assert |Filter(logs, p)| == 0;
    FilterAppend(logs, [l], p);
    FilterSingle(l, p);
  }

  /** The first row of a new key opens a session holding just that row. */
  lemma SessionStarts(logs: seq<WorkoutLog>, l: WorkoutLog)
    requires !Logged(logs, KeyOf(l))
    ensures Collects(logs + [l], Opened(l))
    ensures FirstAt(logs + [l], KeyOf(l)) == |logs|
  {
    FirstAtNew(logs, l);
    FilterNew(logs, l);
    assert SessionKey(Opened(l)) == KeyOf(l);
    assert (logs + [l])[|logs|] == l;
  }

  /** Appending a row adds exactly its key to the logged keys. */
  lemma LoggedSnoc(logs: seq<WorkoutLog>, l: WorkoutLog)
    ensures forall k :: Logged(logs + [l], k) <==> Logged(logs, k) || k == KeyOf(l)
  {
    var logs' := logs + [l];
    forall k | Logged(logs', k)
      ensures Logged(logs, k) || k == KeyOf(l)
    {
      var j :| 0 <= j < |logs'| && KeyOf(logs'[j]) == k;
      if j < |logs| {
        assert KeyOf(logs[j]) == k;
      }
    }
    assert KeyOf(logs'[|logs|]) == KeyOf(l);
    forall k | Logged(logs, k)
      ensures Logged(logs', k)
    {
      var j :| 0 <= j < |logs| && KeyOf(logs[j]) == k;
      assert logs'[j] == logs[j];
    }
  }

  /** Replacing a session by one with the same key keeps the key set. */
  lemma SameKeyUpdate(ss: seq<Session>, i: nat, s: Session)
    requires i < |ss| && SessionKey(s) == SessionKey(ss[i])
    ensures forall m :: 0 <= m < |ss| ==> SessionKey(ss[i := s][m]) == SessionKey(ss[m])
    ensures forall k :: HasSessionFor(ss[i := s], k) <==> HasSessionFor(ss, k)
  {
    var ss' := ss[i := s];
    forall k
      ensures HasSessionFor(ss', k) <==> HasSessionFor(ss, k)
    {
      if HasSessionFor(ss', k) {
        var m :| 0 <= m < |ss'| && SessionKey(ss'[m]) == k;
        assert SessionKey(ss[m]) == k;
      }
      if HasSessionFor(ss, k) {
        var m :| 0 <= m < |ss| && SessionKey(ss[m]) == k;
        assert SessionKey(ss'[m]) == k;
      }
    }
  }

  /** Appending a session adds exactly its key. */
  lemma SessionSnoc(ss: seq<Session>, s: Session)
    ensures forall k :: HasSessionFor(ss + [s], k) <==> HasSessionFor(ss, k) || k == SessionKey(s)
  {
    var ss' := ss + [s];
    forall k
      ensures HasSessionFor(ss', k) <==> HasSessionFor(ss, k) || k == SessionKey(s)
    {
      if HasSessionFor(ss', k) {
        var m :| 0 <= m < |ss'| && SessionKey(ss'[m]) == k;
        if m < |ss| {
          assert SessionKey(ss[m]) == k;
        }
      }
      if HasSessionFor(ss, k) {
        var m :| 0 <= m < |ss| && SessionKey(ss[m]) == k;
        assert SessionKey(ss'[m]) == k;
      }
      assert SessionKey(ss'[|ss|]) == SessionKey(s);
    }
  }

  /** Every session still collects its rows after one of them grows, and
      no key's first row moves. */
  lemma CollectAfterGrow(logs: seq<WorkoutLog>, l: WorkoutLog, ss: seq<Session>, i: nat)
    requires KeysDistinct(ss) && AllCollect(logs, ss)
    requires i < |ss| && SessionKey(ss[i]) == KeyOf(l)
    ensures var ss' := ss[i := ss[i].(sets := ss[i].sets + [SetOf(l)])];
            AllCollect(logs + [l], ss')
            && forall m :: 0 <= m < |ss| ==> FirstAt(logs + [l], SessionKey(ss'[m])) == FirstAt(logs, SessionKey(ss[m]))
  {
    var ss' := ss[i := ss[i].(sets := ss[i].sets + [SetOf(l)])];
    forall m | 0 <= m < |ss|
      ensures Collects(logs + [l], ss'[m])
      ensures FirstAt(logs + [l], SessionKey(ss'[m])) == FirstAt(logs, SessionKey(ss[m]))
    {
      if m == i {
        SessionGrows(logs, l, ss[i]);
      } else {
        assert Collects(logs, ss[m]);
        SessionStays(logs, l, ss[m]);
      }
    }
  }

  /** A row whose key already has session `i` grows that session. */
  lemma AddToExisting(logs: seq<WorkoutLog>, l: WorkoutLog, ss: seq<Session>, i: nat)
    requires Grouped(logs, ss)
    requires i < |ss| && SessionKey(ss[i]) == KeyOf(l)
    ensures Grouped(logs + [l], ss[i := ss[i].(sets := ss[i].sets + [SetOf(l)])])
  {
    var ss' := ss[i := ss[i].(sets := ss[i].sets + [SetOf(l)])];
    SameKeyUpdate(ss, i, ss'[i]);
    CollectAfterGrow(logs, l, ss, i);
    LoggedSnoc(logs, l);
    assert HasSessionFor(ss, KeyOf(l));
    assert KeysDistinct(ss');
    assert SameKeys(logs + [l], ss');
    assert FirstSeenOrder(logs + [l], ss');
  }

  /** A session that collects its rows has a key that occurs in the rows. */
  lemma CollectedKeyLogged(logs: seq<WorkoutLog>, s: Session)
    requires Collects(logs, s)
    ensures Logged(logs, SessionKey(s))
  {
    var f := FirstAt(logs, SessionKey(s));
    assert KeyOf(logs[f]) == SessionKey(s);
  }

  /** Every session still collects its rows after a new key's row. */
  lemma CollectAfterOpen(logs: seq<WorkoutLog>, l: WorkoutLog, ss: seq<Session>)
    requires AllCollect(logs, ss) && !Logged(logs, KeyOf(l))
    ensures AllCollect(logs + [l], ss + [Opened(l)])
    ensures forall m :: 0 <= m < |ss| ==> FirstAt(logs + [l], SessionKey(ss[m])) == FirstAt(logs, SessionKey(ss[m])) < |logs|
    ensures FirstAt(logs + [l], KeyOf(l)) == |logs|
  {
    var ss' := ss + [Opened(l)];
    forall m | 0 <= m < |ss|
      ensures Collects(logs + [l], ss'[m])
      ensures FirstAt(logs + [l], SessionKey(ss[m])) == FirstAt(logs, SessionKey(ss[m])) < |logs|
    {
      assert ss'[m] == ss[m];
      assert Collects(logs, ss[m]);
      CollectedKeyLogged(logs, ss[m]);
      SessionStays(logs, l, ss[m]);
    }
    SessionStarts(logs, l);
  }

  /** Appending a session with a fresh key keeps keys distinct. */
  lemma KeysDistinctSnoc(ss: seq<Session>, s: Session)
    requires KeysDistinct(ss) && !HasSessionFor(ss, SessionKey(s))
    ensures KeysDistinct(ss + [s])
  {
    var ss' := ss + [s];
    forall i, j | 0 <= i < j < |ss'|
      ensures SessionKey(ss'[i]) != SessionKey(ss'[j])
    {
      assert ss'[i] == ss[i];
      if j == |ss| {
        assert HasSessionFor(ss, SessionKey(ss[i]));
      } else {
        assert ss'[j] == ss[j];
      }
    }
  }

  /** A new key's session, opened last, keeps the sessions in first-seen
      order. */
  lemma OpenedLastInOrder(logs: seq<WorkoutLog>, l: WorkoutLog, ss: seq<Session>)
    requires FirstSeenOrder(logs, ss)
    requires forall m :: 0 <= m < |ss| ==> FirstAt(logs + [l], SessionKey(ss[m])) == FirstAt(logs, SessionKey(ss[m])) < |logs|
    requires FirstAt(logs + [l], KeyOf(l)) == |logs|
    ensures FirstSeenOrder(logs + [l], ss + [Opened(l)])
  {
    var ss' := ss + [Opened(l)];
    forall i, j | 0 <= i < j < |ss'|
      ensures FirstAt(logs + [l], SessionKey(ss'[i])) < FirstAt(logs + [l], SessionKey(ss'[j]))
    {
      assert ss'[i] == ss[i];
      if j < |ss| {
        assert ss'[j] == ss[j];
      }
    }
  }

  /** A new key's session keeps the sessions' keys equal to the rows' keys. */
  lemma OpenedKeys(logs: seq<WorkoutLog>, l: WorkoutLog, ss: seq<Session>)
    requires SameKeys(logs, ss)
    ensures SameKeys(logs + [l], ss + [Opened(l)])
  {
    SessionSnoc(ss, Opened(l));
    LoggedSnoc(logs, l);
  }

  /** A row with a new key opens a session after all the others. */
  lemma AddNew(logs: seq<WorkoutLog>, l: WorkoutLog, ss: seq<Session>)
    requires Grouped(logs, ss)
    requires !HasSessionFor(ss, KeyOf(l))
    ensures Grouped(logs + [l], ss + [Opened(l)])
  {
    CollectAfterOpen(logs, l, ss);
    OpenedKeys(logs, l, ss);
    KeysDistinctSnoc(ss, Opened(l));
    OpenedLastInOrder(logs, l, ss);
  }

  lemma AddStep(logs: seq<WorkoutLog>, l: WorkoutLog, ss: seq<Session>)
    requires Grouped(logs, ss)
    ensures Grouped(logs + [l], AddLog(ss, l))
  {
    match FirstIndexWhere(ss, IsSessionOf(KeyOf(l)))
    case Some(i) =>
      AddToExisting(logs, l, ss, i);
    case None =>
      AddNew(logs, l, ss);
  }

  function SetCount(s: Session): nat
  {
    |s.sets|
  }

  /** Total sets over all sessions: every row is migrated exactly once. */
  lemma {:induction false} NothingDroppedOrDuplicated(logs: seq<WorkoutLog>)
    ensures NatSum(GroupWorkoutsBySession(logs), SetCount) == |logs|
    decreases |logs|
  {
    if |logs| > 0 {
      var front := logs[..|logs| - 1];
      var l := logs[|logs| - 1];
      var ss := GroupWorkoutsBySession(front);
      NothingDroppedOrDuplicated(front);
      match FirstIndexWhere(ss, IsSessionOf(KeyOf(l)))
      case Some(i) =>
        NatSumUpdate(ss, i, ss[i].(sets := ss[i].sets + [SetOf(l)]), SetCount);
      case None =>
        NatSumSnoc(ss, Opened(l), SetCount);
    }
  }

  /** Sessions of exercise `name`. */
  function OfExercise(name: string): Session -> bool
  {
    (s: Session) => s.exerciseName == name
  }

  /** The summary printed before the upload. */
  datatype Summary = Summary(
    earliest: Option<Date>,
    latest: Option<Date>,
    exerciseCounts: seq<(string, nat)>,
    totalSessions: nat)

  /** Some session is dated `d`. */
  predicate SessionOn(ss: seq<Session>, d: Date)
  {
    exists i :: 0 <= i < |ss| && ss[i].date == d
  }

  /** The running minimum of the session dates (`date_range['min']`). */
  function Earliest(ss: seq<Session>): (r: Option<Date>)
    ensures r.None? <==> |ss| == 0
    ensures r.Some? ==> SessionOn(ss, r.value) && forall i :: 0 <= i < |ss| ==> r.value <= ss[i].date
  {
    if |ss| == 0 then None
    else
      var front := ss[..|ss| - 1];
      var e := Earliest(front);
      var d := ss[|ss| - 1].date;
      assert forall i :: 0 <= i < |front| ==> front[i] == ss[i];
      if e.None? || d < e.value then Some(d) else e
  }

  /** The running maximum of the session dates (`date_range['max']`). */
  function Latest(ss: seq<Session>): (r: Option<Date>)
    ensures r.None? <==> |ss| == 0
    ensures r.Some? ==> SessionOn(ss, r.value) && forall i :: 0 <= i < |ss| ==> ss[i].date <= r.value
  {
    if |ss| == 0 then None
    else
      var front := ss[..|ss| - 1];
      var e := Latest(front);
      var d := ss[|ss| - 1].date;
      assert forall i :: 0 <= i < |front| ==> front[i] == ss[i];
      if e.None? || d > e.value then Some(d) else e
  }

  function Tallied(name: string): ((string, nat)) -> bool
  {
    (c: (string, nat)) => c.0 == name
  }

  /** `exercise_counts[name] = exercise_counts.get(name, 0) + 1`. */
  function Bump(counts: seq<(string, nat)>, name: string): seq<(string, nat)>
  {
    match FirstIndexWhere(counts, Tallied(name))
    case Some(i) => counts[i := (name, counts[i].1 + 1)]
    case None => counts + [(name, 1)]
  }

  /** Some tally entry is for `name`. */
  predicate Counted(counts: seq<(string, nat)>, name: string)
  {
    exists i :: 0 <= i < |counts| && counts[i].0 == name
  }

  /** Some session is of exercise `name`. */
  predicate Trained(ss: seq<Session>, name: string)
  {
    exists i :: 0 <= i < |ss| && ss[i].exerciseName == name
  }

  /** The per-exercise session counts, in first-seen order. */
  function ExerciseCounts(ss: seq<Session>): (counts: seq<(string, nat)>)
    ensures forall i, j :: 0 <= i < j < |counts| ==> counts[i].0 != counts[j].0
    ensures forall n :: Counted(counts, n) <==> Trained(ss, n)
    ensures forall i :: 0 <= i < |counts| ==> counts[i].1 == CountWhere(ss, OfExercise(counts[i].0))
  {
    if |ss| == 0 then []
    else
      var front := ss[..|ss| - 1];
      var s := ss[|ss| - 1];
      assert ss == front + [s];
      BumpStep(front, s, ExerciseCounts(front));
      Bump(ExerciseCounts(front), s.exerciseName)
  }

  /** Appending a session adds exactly its exercise to the trained ones. */
  lemma TrainedSnoc(ss: seq<Session>, s: Session)
    ensures forall n :: Trained(ss + [s], n) <==> Trained(ss, n) || n == s.exerciseName
  {
    var ss' := ss + [s];
    forall n | Trained(ss', n)
      ensures Trained(ss, n) || n == s.exerciseName
    {
      var i :| 0 <= i < |ss'| && ss'[i].exerciseName == n;
      if i < |ss| {
        assert ss[i].exerciseName == n;
      }
    }
    assert ss'[|ss|] == s;
    forall n | Trained(ss, n)
      ensures Trained(ss', n)
    {
      var i :| 0 <= i < |ss| && ss[i].exerciseName == n;
      assert ss'[i] == ss[i];
    }
  }

  /** `counts` tallies the sessions `ss`: one entry per trained exercise,
      holding the number of its sessions. */
  ghost predicate CountsOf(counts: seq<(string, nat)>, ss: seq<Session>)
  {
    (forall i, j :: 0 <= i < j < |counts| ==> counts[i].0 != counts[j].0)
    && (forall n :: Counted(counts, n) <==> Trained(ss, n))
    && (forall i :: 0 <= i < |counts| ==> counts[i].1 == CountWhere(ss, OfExercise(counts[i].0)))
  }

  lemma BumpStep(ss: seq<Session>, s: Session, counts: seq<(string, nat)>)
    requires CountsOf(counts, ss)
    ensures CountsOf(Bump(counts, s.exerciseName), ss + [s])
  {
    assert (ss + [s])[..|ss|] == ss;
    TrainedSnoc(ss, s);
    match FirstIndexWhere(counts, Tallied(s.exerciseName))
    case Some(i) =>
      BumpExisting(ss, s, counts, i);
    case None =>
      BumpNew(ss, s, counts);
  }

  /** A session of an already tallied exercise adds one to its entry. */
  lemma BumpExisting(ss: seq<Session>, s: Session, counts: seq<(string, nat)>, i: nat)
    requires CountsOf(counts, ss) && (ss + [s])[..|ss|] == ss
    requires forall n :: Trained(ss + [s], n) <==> Trained(ss, n) || n == s.exerciseName
    requires i < |counts| && counts[i].0 == s.exerciseName
    ensures CountsOf(counts[i := (s.exerciseName, counts[i].1 + 1)], ss + [s])
  {
    var r := counts[i := (s.exerciseName, counts[i].1 + 1)];
    assert forall m :: 0 <= m < |r| ==> r[m].0 == counts[m].0;
    forall n | Counted(r, n)
      ensures Counted(counts, n)
    {
      var m :| 0 <= m < |r| && r[m].0 == n;
      assert counts[m].0 == n;
    }
    forall n | Counted(counts, n)
      ensures Counted(r, n)
    {
      var m :| 0 <= m < |counts| && counts[m].0 == n;
      assert r[m].0 == n;
    }
  }

  /** A session of an untallied exercise appends an entry counting one. */
  lemma BumpNew(ss: seq<Session>, s: Session, counts: seq<(string, nat)>)
    requires CountsOf(counts, ss) && (ss + [s])[..|ss|] == ss
    requires forall n :: Trained(ss + [s], n) <==> Trained(ss, n) || n == s.exerciseName
    requires forall j :: 0 <= j < |counts| ==> counts[j].0 != s.exerciseName
    ensures CountsOf(counts + [(s.exerciseName, 1)], ss + [s])
  {
    var r := counts + [(s.exerciseName, 1)];
    assert !Counted(counts, s.exerciseName);
    assert CountWhere(ss, OfExercise(s.exerciseName)) == 0 by {
      CountWherePositive(ss, OfExercise(s.exerciseName));
    }
    forall n | Counted(r, n)
      ensures Counted(counts, n) || n == s.exerciseName
    {
      var m :| 0 <= m < |r| && r[m].0 == n;
      if m < |counts| {
        assert counts[m].0 == n;
      }
    }
    assert r[|counts|].0 == s.exerciseName;
    forall n | Counted(counts, n)
      ensures Counted(r, n)
    {
      var m :| 0 <= m < |counts| && counts[m].0 == n;
      assert r[m] == counts[m];
    }
    assert forall m :: 0 <= m < |counts| ==> r[m] == counts[m];
  }

  function CountOf(c: (string, nat)): nat
  {
    c.1
  }

  /** The per-exercise counts add up to the number of sessions. */
  lemma {:induction false} CountsSumToSessions(ss: seq<Session>)
    ensures NatSum(ExerciseCounts(ss), CountOf) == |ss|
    decreases |ss|
  {
    if |ss| > 0 {
      var front := ss[..|ss| - 1];
      var name := ss[|ss| - 1].exerciseName;
      var counts := ExerciseCounts(front);
      CountsSumToSessions(front);
      BumpAddsOne(counts, name);
      assert ExerciseCounts(ss) == Bump(counts, name);
    }
  }

  /** Each bump adds one to the total. */
  lemma BumpAddsOne(counts: seq<(string, nat)>, name: string)
    ensures NatSum(Bump(counts, name), CountOf) == NatSum(counts, CountOf) + 1
  {
    match FirstIndexWhere(counts, Tallied(name))
    case Some(i) =>
      NatSumUpdate(counts, i, (name, counts[i].1 + 1), CountOf);
    case None =>
      NatSumSnoc(counts, (name, 1), CountOf);
  }

  /** The summary of the grouped sessions. */
  function SummarizeSessions(ss: seq<Session>): (sm: Summary)
    ensures sm.totalSessions == |ss|
    ensures sm.earliest.None? <==> |ss| == 0
    ensures sm.latest.None? <==> |ss| == 0
    ensures sm.earliest.Some? ==> SessionOn(ss, sm.earliest.value) && forall i :: 0 <= i < |ss| ==> sm.earliest.value <= ss[i].date
    ensures sm.latest.Some? ==> SessionOn(ss, sm.latest.value) && forall i :: 0 <= i < |ss| ==> ss[i].date <= sm.latest.value
    ensures forall n :: Counted(sm.exerciseCounts, n) <==> Trained(ss, n)
    ensures NatSum(sm.exerciseCounts, CountOf) == |ss|
  {
    CountsSumToSessions(ss);
    Summary(Earliest(ss), Latest(ss), ExerciseCounts(ss), |ss|)
  }

  /** The summary's date range spans exactly the dates of the migrated
      rows: every row's date lies within it and both ends are row dates. */
  lemma DateRangeCoversLogs(logs: seq<WorkoutLog>)
    requires |logs| > 0
    ensures var sm := SummarizeSessions(GroupWorkoutsBySession(logs));
            sm.earliest.Some? && sm.latest.Some?
            && (forall j :: 0 <= j < |logs| ==> sm.earliest.value <= logs[j].date <= sm.latest.value)
            && (exists j :: 0 <= j < |logs| && logs[j].date == sm.earliest.value)
            && (exists j :: 0 <= j < |logs| && logs[j].date == sm.latest.value)
  {
    var ss := GroupWorkoutsBySession(logs);
    var sm := SummarizeSessions(ss);
    assert Logged(logs, KeyOf(logs[0]));
    assert HasSessionFor(ss, KeyOf(logs[0]));
    forall j | 0 <= j < |logs|
      ensures sm.earliest.value <= logs[j].date <= sm.latest.value
    {
      assert Logged(logs, KeyOf(logs[j]));
      var i :| 0 <= i < |ss| && SessionKey(ss[i]) == KeyOf(logs[j]);
    }
    var a :| 0 <= a < |ss| && ss[a].date == sm.earliest.value;
    assert HasSessionFor(ss, SessionKey(ss[a]));
    var b :| 0 <= b < |ss| && ss[b].date == sm.latest.value;
    assert HasSessionFor(ss, SessionKey(ss[b]));
  }
}
