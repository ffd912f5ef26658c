/** The exports of export_exercise_names_by_popularity.py: the per-exercise
    session counts are merged with the exercise library into one list
    sorted by session count, most used first; library exercises without
    sessions are listed with 0. The simple export lists only the counted
    names in the same order. */
module Popularity {
  import opened Wrappers
  import opened Seqs
  import opened Records

  /** One entry of the exported list. */
  datatype PopularityEntry = PopularityEntry(name: string, workoutSessions: nat, muscleGroup: string, exerciseType: string)

  /** The placeholder for missing metadata. */
  const Unknown: string := "Unknown"

  /** A dictionary of session counts: no name twice. */
  predicate DistinctNames(counts: seq<(string, nat)>)
  {
    forall i, j :: 0 <= i < j < |counts| ==> counts[i].0 != counts[j].0
  }

  /** `name` is a key of the counts dictionary. */
  predicate IsCounted(counts: seq<(string, nat)>, name: string)
  {
    exists k :: 0 <= k < |counts| && counts[k].0 == name
  }

  /** `e` is in the library and no later exercise has its name. */
  predicate LastNamed(lib: seq<LibraryExercise>, e: LibraryExercise)
  {
    exists j :: 0 <= j < |lib| && lib[j] == e && forall l :: j < l < |lib| ==> lib[l].name != e.name
  }

  /** A later exercise with another name keeps `e` the last of its name. */
  lemma LastNamedExtends(lib: seq<LibraryExercise>, e: LibraryExercise)
    requires |lib| > 0 && LastNamed(lib[..|lib| - 1], e) && lib[|lib| - 1].name != e.name
    ensures LastNamed(lib, e)
  {
    var front := lib[..|lib| - 1];
    var j :| 0 <= j < |front| && front[j] == e && forall l :: j < l < |front| ==> front[l].name != e.name;
    assert lib[j] == e;
    assert forall l :: j < l < |lib| ==> lib[l].name != e.name;
  }

  /** `{ex["name"]: ex for ex in all_exercises}[name]`: the last library
      exercise with that name, since later entries overwrite earlier ones. */
  function Metadata(lib: seq<LibraryExercise>, name: string): (m: Option<LibraryExercise>)
    ensures m.None? <==> forall j :: 0 <= j < |lib| ==> lib[j].name != name
    ensures m.Some? ==> m.value.name == name && LastNamed(lib, m.value)
  {
    if |lib| == 0 then None
    else if lib[|lib| - 1].name == name then
      Some(lib[|lib| - 1])
    else
      var front := lib[..|lib| - 1];
      assert forall j :: 0 <= j < |front| ==> front[j] == lib[j];
      var m := Metadata(front, name);
      if m.Some? then
        LastNamedExtends(lib, m.value);
        m
      else m
  }

  /** `.get(name, {}).get(field, "Unknown")` for both metadata fields. */
  function MuscleGroupOf(m: Option<LibraryExercise>): string
  {
    match m
    case None => Unknown
    case Some(e) => e.muscleGroup.GetOr(Unknown)
  }

  function ExerciseTypeOf(m: Option<LibraryExercise>): string
  {
    match m
    case None => Unknown
    case Some(e) => e.exerciseType.GetOr(Unknown)
  }

  /** The entry of a counted exercise, with the library's metadata. */
  function CountedEntry(lib: seq<LibraryExercise>, c: (string, nat)): PopularityEntry
  {
    var m := Metadata(lib, c.0);
    PopularityEntry(c.0, c.1, MuscleGroupOf(m), ExerciseTypeOf(m))
  }

  /** The entry of a library exercise without sessions. */
  function ZeroEntry(e: LibraryExercise): PopularityEntry
  {
    PopularityEntry(e.name, 0, e.muscleGroup.GetOr(Unknown), e.exerciseType.GetOr(Unknown))
  }

  function CountKey(c: (string, nat)): real
  {
    c.1 as real
  }

  function SessionsKey(e: PopularityEntry): real
  {
    e.workoutSessions as real
  }

  function CountedEntries(lib: seq<LibraryExercise>, cs: seq<(string, nat)>): (r: seq<PopularityEntry>)
    ensures |r| == |cs|
    ensures forall i :: 0 <= i < |cs| ==> r[i] == CountedEntry(lib, cs[i])
  {
    seq(|cs|, i requires 0 <= i < |cs| => CountedEntry(lib, cs[i]))
  }

  function Uncounted(counts: seq<(string, nat)>): LibraryExercise -> bool
  {
    (e: LibraryExercise) => !IsCounted(counts, e.name)
  }

  /** The library exercises whose names have no count, as 0-session
      entries, in library order (duplicates included). */
  function ZeroEntries(lib: seq<LibraryExercise>, counts: seq<(string, nat)>): (r: seq<PopularityEntry>)
    ensures |r| == CountWhere(lib, Uncounted(counts))
    ensures forall x :: x in r <==> exists j :: 0 <= j < |lib| && !IsCounted(counts, lib[j].name) && x == ZeroEntry(lib[j])
  {
    if |lib| == 0 then []
    else
      var front := lib[..|lib| - 1];
      var e := lib[|lib| - 1];
      assert forall j :: 0 <= j < |front| ==> front[j] == lib[j];
      ZeroEntries(front, counts) + if !IsCounted(counts, e.name) then [ZeroEntry(e)] else []
  }

  function NamedEntry(name: string): PopularityEntry -> bool
  {
    (x: PopularityEntry) => x.name == name
  }

  function NamedCount(name: string): ((string, nat)) -> bool
  {
    (c: (string, nat)) => c.0 == name
  }

  /** Entries of counted exercises carry the counted names. */
  lemma {:induction false} CountedEntriesNamed(lib: seq<LibraryExercise>, cs: seq<(string, nat)>, name: string)
    ensures CountWhere(CountedEntries(lib, cs), NamedEntry(name)) == CountWhere(cs, NamedCount(name))
    decreases |cs|
  {
    if |cs| > 0 {
      var front := cs[..|cs| - 1];
      assert CountedEntries(lib, cs)[..|cs| - 1] == CountedEntries(lib, front);
      CountedEntriesNamed(lib, front, name);
    }
  }

  /** A dictionary holds each of its keys once. */
  lemma {:induction false} KeyCountedOnce(counts: seq<(string, nat)>, k: nat)
    requires DistinctNames(counts) && k < |counts|
    ensures CountWhere(counts, NamedCount(counts[k].0)) == 1
    decreases |counts|
  {
    var name := counts[k].0;
    var front := counts[..|counts| - 1];
    assert DistinctNames(front);
    if k == |counts| - 1 {
      forall i | 0 <= i < |front|
        ensures !NamedCount(name)(front[i])
      {
        assert front[i] == counts[i];
      }
      CountWherePositive(front, NamedCount(name));
    } else {
      assert front[k] == counts[k];
      KeyCountedOnce(front, k);
    }
  }

  /** The list before the final sort: counted entries by count, then the
      library's unused exercises. */
  function Merged(counts: seq<(string, nat)>, lib: seq<LibraryExercise>): seq<PopularityEntry>
  {
    CountedEntries(lib, SortByDescending(counts, CountKey)) + ZeroEntries(lib, counts)
  }

  /** `x` is the entry of a counted exercise or a 0-session entry of an
      uncounted library exercise. */
  predicate Sourced(counts: seq<(string, nat)>, lib: seq<LibraryExercise>, x: PopularityEntry)
  {
    (exists k :: 0 <= k < |counts| && x == CountedEntry(lib, counts[k]))
    || (exists j :: 0 <= j < |lib| && !IsCounted(counts, lib[j].name) && x == ZeroEntry(lib[j]))
  }

  /** The entries of the merged list are the counted entries and the
      unused library entries, and nothing else. */
  lemma MergedMembers(counts: seq<(string, nat)>, lib: seq<LibraryExercise>)
    ensures forall x :: x in Merged(counts, lib) ==> Sourced(counts, lib, x)
    ensures forall k :: 0 <= k < |counts| ==> CountedEntry(lib, counts[k]) in Merged(counts, lib)
  {
    var sorted := SortByDescending(counts, CountKey);
    var counted := CountedEntries(lib, sorted);
    var zeros := ZeroEntries(lib, counts);
    SortKeepsMembers(counts, sorted);
    forall x | x in Merged(counts, lib)
      ensures Sourced(counts, lib, x)
    {
      if x in counted {
        var i :| 0 <= i < |counted| && counted[i] == x;
        assert sorted[i] in counts;
        var k :| 0 <= k < |counts| && counts[k] == sorted[i];
      }
    }
    forall k | 0 <= k < |counts|
      ensures CountedEntry(lib, counts[k]) in Merged(counts, lib)
    {
      assert counts[k] in sorted;
      var i :| 0 <= i < |sorted| && sorted[i] == counts[k];
      assert counted[i] == CountedEntry(lib, counts[k]);
    }
  }

  /** Each counted name is in the merged list exactly once. */
  lemma MergedNamesOnce(counts: seq<(string, nat)>, lib: seq<LibraryExercise>, k: nat)
    requires DistinctNames(counts) && k < |counts|
    ensures CountWhere(Merged(counts, lib), NamedEntry(counts[k].0)) == 1
  {
    var name := counts[k].0;
    var sorted := SortByDescending(counts, CountKey);
    var zeros := ZeroEntries(lib, counts);
    CountWhereAppend(CountedEntries(lib, sorted), zeros, NamedEntry(name));
    CountedEntriesNamed(lib, sorted, name);
    CountWherePermutation(sorted, counts, NamedCount(name));
    KeyCountedOnce(counts, k);
    assert IsCounted(counts, name);
    forall i | 0 <= i < |zeros|
      ensures !NamedEntry(name)(zeros[i])
    {
      assert zeros[i] in zeros;
    }
    CountWherePositive(zeros, NamedEntry(name));
  }

  /** `export_exercise_names_by_popularity`: the exported list (sorted
      again by session count, most first) and the number exported. */
  function ExportExerciseNamesByPopularity(counts: seq<(string, nat)>, lib: seq<LibraryExercise>): (r: (seq<PopularityEntry>, nat))
    requires DistinctNames(counts)
    ensures r.1 == |r.0| == |counts| + CountWhere(lib, Uncounted(counts))
    ensures forall i, j :: 0 <= i < j < |r.0| ==> r.0[i].workoutSessions >= r.0[j].workoutSessions
    ensures forall k :: 0 <= k < |counts| ==>
              CountedEntry(lib, counts[k]) in r.0 && CountWhere(r.0, NamedEntry(counts[k].0)) == 1
    ensures forall j :: 0 <= j < |lib| && !IsCounted(counts, lib[j].name) ==> ZeroEntry(lib[j]) in r.0
    ensures forall x :: x in r.0 ==> Sourced(counts, lib, x)
  {
    var merged := Merged(counts, lib);
    var data := SortByDescending(merged, SessionsKey);
    ExportFacts(counts, lib, merged, data);
    (data, |data|)
  }

  lemma ExportFacts(counts: seq<(string, nat)>, lib: seq<LibraryExercise>, merged: seq<PopularityEntry>, data: seq<PopularityEntry>)
    requires DistinctNames(counts) && merged == Merged(counts, lib)
    requires multiset(data) == multiset(merged)
    requires forall i, j :: 0 <= i < j < |data| ==> SessionsKey(data[i]) >= SessionsKey(data[j])
    ensures forall i, j :: 0 <= i < j < |data| ==> data[i].workoutSessions >= data[j].workoutSessions
    ensures forall k :: 0 <= k < |counts| ==>
              CountedEntry(lib, counts[k]) in data && CountWhere(data, NamedEntry(counts[k].0)) == 1
    ensures forall j :: 0 <= j < |lib| && !IsCounted(counts, lib[j].name) ==> ZeroEntry(lib[j]) in data
    ensures forall x :: x in data ==> Sourced(counts, lib, x)
  {
    ExportMembers(counts, lib, merged, data);
    forall k | 0 <= k < |counts|
      ensures CountWhere(data, NamedEntry(counts[k].0)) == 1
    {
      MergedNamesOnce(counts, lib, k);
      CountWherePermutation(merged, data, NamedEntry(counts[k].0));
    }
    forall i, j | 0 <= i < j < |data|
      ensures data[i].workoutSessions >= data[j].workoutSessions
    {
      assert SessionsKey(data[i]) >= SessionsKey(data[j]);
    }
  }

  lemma ExportMembers(counts: seq<(string, nat)>, lib: seq<LibraryExercise>, merged: seq<PopularityEntry>, data: seq<PopularityEntry>)
    requires merged == Merged(counts, lib) && multiset(data) == multiset(merged)
    ensures forall k :: 0 <= k < |counts| ==> CountedEntry(lib, counts[k]) in data
    ensures forall j :: 0 <= j < |lib| && !IsCounted(counts, lib[j].name) ==> ZeroEntry(lib[j]) in data
    ensures forall x :: x in data ==> Sourced(counts, lib, x)
  {
    SortKeepsMembers(merged, data);
    MergedMembers(counts, lib);
    forall j | 0 <= j < |lib| && !IsCounted(counts, lib[j].name)
      ensures ZeroEntry(lib[j]) in data
    {
      assert ZeroEntry(lib[j]) in ZeroEntries(lib, counts);
    }
  }

  /** The count a dictionary holds for `name` (0 when absent). */
  function CountFor(counts: seq<(string, nat)>, name: string): nat
  {
    match FirstIndexWhere(counts, NamedCount(name))
    case Some(k) => counts[k].1
    case None => 0
  }

  /** With distinct names, a pair's lookup returns its own count. */
  lemma CountForPair(counts: seq<(string, nat)>, c: (string, nat))
    requires DistinctNames(counts) && c in counts
    ensures CountFor(counts, c.0) == c.1
  {
    var k :| 0 <= k < |counts| && counts[k] == c;
    var f := FirstIndexWhere(counts, NamedCount(c.0));
    assert f.Some?;
    assert counts[f.value].0 == counts[k].0;
  }

  function NameOf(c: (string, nat)): string
  {
    c.0
  }

  /** `export_simple_list`: each counted name once, most sessions first,
      and the number exported. */
  function ExportSimpleList(counts: seq<(string, nat)>): (r: (seq<string>, nat))
    requires DistinctNames(counts)
    ensures r.1 == |r.0| == |counts|
    ensures Distinct(r.0)
    ensures forall n :: n in r.0 <==> IsCounted(counts, n)
    ensures forall i, j :: 0 <= i < j < |r.0| ==> CountFor(counts, r.0[i]) >= CountFor(counts, r.0[j])
  {
    var sorted := SortByDescending(counts, CountKey);
    var names := seq(|sorted|, i requires 0 <= i < |sorted| => sorted[i].0);
    SortKeepsMembers(counts, sorted);
    SimpleListFacts(counts, sorted, names);
    (names, |names|)
  }

  /** Two different pairs of a dictionary have different names. */
  lemma DistinctNamesMembers(counts: seq<(string, nat)>, a: (string, nat), b: (string, nat))
    requires DistinctNames(counts) && a in counts && b in counts && a != b
    ensures a.0 != b.0
  {
    var i :| 0 <= i < |counts| && counts[i] == a;
    var j :| 0 <= j < |counts| && counts[j] == b;
    assert i != j;
  }

  lemma SimpleListFacts(counts: seq<(string, nat)>, sorted: seq<(string, nat)>, names: seq<string>)
    requires DistinctNames(counts) && multiset(sorted) == multiset(counts)
    requires forall i, j :: 0 <= i < j < |sorted| ==> CountKey(sorted[i]) >= CountKey(sorted[j])
    requires |names| == |sorted| && forall i :: 0 <= i < |sorted| ==> names[i] == sorted[i].0
    ensures Distinct(names)
    ensures forall n :: n in names <==> IsCounted(counts, n)
    ensures forall i, j :: 0 <= i < j < |names| ==> CountFor(counts, names[i]) >= CountFor(counts, names[j])
  {
    SortKeepsMembers(counts, sorted);
    forall i | 0 <= i < |sorted|
      ensures CountFor(counts, names[i]) == sorted[i].1
    {
      assert sorted[i] in counts;
      CountForPair(counts, sorted[i]);
    }
    assert Distinct(counts) by {
      forall i, j | 0 <= i < j < |counts|
        ensures counts[i] != counts[j]
      {
        assert counts[i].0 != counts[j].0;
      }
    }
    DistinctPermutation(counts, sorted);
    forall i, j | 0 <= i < j < |names|
      ensures names[i] != names[j]
    {
      DistinctNamesMembers(counts, sorted[i], sorted[j]);
    }
    forall n
      ensures n in names <==> IsCounted(counts, n)
    {
      if n in names {
        var i :| 0 <= i < |names| && names[i] == n;
        assert sorted[i] in counts;
        var k :| 0 <= k < |counts| && counts[k] == sorted[i];
      }
      if IsCounted(counts, n) {
        var k :| 0 <= k < |counts| && counts[k].0 == n;
        assert counts[k] in sorted;
        var i :| 0 <= i < |sorted| && sorted[i] == counts[k];
        assert names[i] == n;
      }
    }
  }
}
