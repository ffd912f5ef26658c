/** Sequence helpers shared by the analytics code: counting, filtering,
    first-match search, Python's `max(..., key=...)`, and the stable sort
    behind Python's `sorted` / `list.sort` with a key. */
module Seqs {
  import opened Wrappers

  /** Number of elements satisfying `p`. */
  function CountWhere<T>(s: seq<T>, p: T -> bool): (n: nat)
    ensures n <= |s|
  {
    if |s| == 0 then 0 else CountWhere(s[..|s| - 1], p) + (if p(s[|s| - 1]) then 1 else 0)
  }

  lemma {:induction false} CountWhereAppend<T>(a: seq<T>, b: seq<T>, p: T -> bool)
    ensures CountWhere(a + b, p) == CountWhere(a, p) + CountWhere(b, p)
    decreases |b|
  {
    if |b| == 0 {
      assert a + b == a;
    } else {
      assert (a + b)[..|a + b| - 1] == a + b[..|b| - 1];
      CountWhereAppend(a, b[..|b| - 1], p);
    }
  }

  /** A positive count has a witness, and a witness makes the count positive. */
  lemma {:induction false} CountWherePositive<T>(s: seq<T>, p: T -> bool)
    ensures CountWhere(s, p) > 0 <==> exists i :: 0 <= i < |s| && p(s[i])
    decreases |s|
  {
    if |s| > 0 {
      CountWherePositive(s[..|s| - 1], p);
      if CountWhere(s, p) > 0 && !p(s[|s| - 1]) {
        var i :| 0 <= i < |s| - 1 && p(s[..|s| - 1][i]);
        assert p(s[i]);
      }
      if exists i :: 0 <= i < |s| && p(s[i]) {
        var i :| 0 <= i < |s| && p(s[i]);
        if i < |s| - 1 {
          assert p(s[..|s| - 1][i]);
        }
      }
    }
  }

  /** Every element satisfies `p` exactly when the count is the length. */
  lemma {:induction false} CountWhereAll<T>(s: seq<T>, p: T -> bool)
    ensures CountWhere(s, p) == |s| <==> forall i :: 0 <= i < |s| ==> p(s[i])
    decreases |s|
  {
    if |s| > 0 {
      var s' := s[..|s| - 1];
      CountWhereAll(s', p);
      assert forall i :: 0 <= i < |s'| ==> s'[i] == s[i];
    }
  }

  /** The elements satisfying `p`, in their original order
      (a Python list comprehension with an `if`). */
  function Filter<T>(s: seq<T>, p: T -> bool): (r: seq<T>)
    ensures |r| == CountWhere(s, p)
    ensures forall x :: x in r ==> x in s && p(x)
  {
    if |s| == 0 then [] else Filter(s[..|s| - 1], p) + (if p(s[|s| - 1]) then [s[|s| - 1]] else [])
  }

  lemma {:induction false} FilterAppend<T>(a: seq<T>, b: seq<T>, p: T -> bool)
    ensures Filter(a + b, p) == Filter(a, p) + Filter(b, p)
    decreases |b|
  {
    if |b| == 0 {
      assert a + b == a;
    } else {
      assert (a + b)[..|a + b| - 1] == a + b[..|b| - 1];
      FilterAppend(a, b[..|b| - 1], p);
    }
  }

  /** Everything in `s` that satisfies `p` is kept. */
  lemma {:induction false} FilterKeeps<T>(s: seq<T>, p: T -> bool, x: T)
    requires x in s && p(x)
    ensures x in Filter(s, p)
    decreases |s|
  {
    if s[|s| - 1] != x {
      assert x in s[..|s| - 1];
      FilterKeeps(s[..|s| - 1], p, x);
    }
  }

  /** Filtering keeps a sequence whole when every element qualifies. */
  lemma {:induction false} FilterAll<T>(s: seq<T>, p: T -> bool)
    requires forall x :: x in s ==> p(x)
    ensures Filter(s, p) == s
    decreases |s|
  {
    if |s| > 0 {
      var front, last := s[..|s| - 1], s[|s| - 1];
      assert s == front + [last];
      FilterAll(front, p);
    }
  }

  /** Sum of the reals `f(x)` over `s`. */
  function SumOf<T>(s: seq<T>, f: T -> real): real
  {
    if |s| == 0 then 0.0 else SumOf(s[..|s| - 1], f) + f(s[|s| - 1])
  }

  lemma {:induction false} SumOfAppend<T>(a: seq<T>, b: seq<T>, f: T -> real)
    ensures SumOf(a + b, f) == SumOf(a, f) + SumOf(b, f)
    decreases |b|
  {
    if |b| == 0 {
      assert a + b == a;
    } else {
      assert (a + b)[..|a + b| - 1] == a + b[..|b| - 1];
      SumOfAppend(a, b[..|b| - 1], f);
    }
  }

  /** Summing is invariant under permutation. */
  lemma {:induction false} SumOfPermutation<T>(a: seq<T>, b: seq<T>, f: T -> real)
    requires multiset(a) == multiset(b)
    ensures SumOf(a, f) == SumOf(b, f)
    decreases |a|
  {
    if |a| == 0 {
      assert |b| == |multiset(b)| == 0;
    } else {
      var x := a[|a| - 1];
      var front := a[..|a| - 1];
      assert a == front + [x];
      assert x in multiset(b);
      var k :| 0 <= k < |b| && b[k] == x;
      var b' := b[..k] + b[k + 1..];
      assert b == b[..k] + [x] + b[k + 1..];
      assert multiset(b') == multiset(b) - multiset{x};
      assert multiset(front) == multiset(a) - multiset{x};
      SumOfPermutation(front, b', f);
      SumOfAppend(b[..k] + [x], b[k + 1..], f);
      SumOfAppend(b[..k], [x], f);
      SumOfAppend(b[..k], b[k + 1..], f);
      assert SumOf([x], f) == f(x) by {
        assert [x][..0] == [];
      }
    }
  }

  /** `f` where `p` holds, zero elsewhere. */
  function Masked<T>(p: T -> bool, f: T -> real): T -> real
  {
    (x: T) => if p(x) then f(x) else 0.0
  }

  /** Summing over the elements that satisfy `p` is summing the masked
      terms over all elements. */
  lemma {:induction false} SumOfFilter<T>(s: seq<T>, p: T -> bool, f: T -> real)
    ensures SumOf(Filter(s, p), f) == SumOf(s, Masked(p, f))
    decreases |s|
  {
    if |s| > 0 {
      var front, last := s[..|s| - 1], s[|s| - 1];
      SumOfFilter(front, p, f);
      if p(last) {
        assert Filter(s, p) == Filter(front, p) + [last];
        SumOfAppend(Filter(front, p), [last], f);
        assert SumOf([last], f) == f(last) by {
          assert [last][..0] == [];
        }
      } else {
        assert Filter(s, p) == Filter(front, p);
      }
      assert SumOf(s, Masked(p, f)) == SumOf(front, Masked(p, f)) + Masked(p, f)(last);
    }
  }

  /** Both `p` and `q`. */
  function Both<T>(p: T -> bool, q: T -> bool): T -> bool
  {
    (x: T) => p(x) && q(x)
  }

  /** Counting `q` among the elements that satisfy `p` is counting both. */
  lemma {:induction false} CountWhereFilter<T>(s: seq<T>, p: T -> bool, q: T -> bool)
    ensures CountWhere(Filter(s, p), q) == CountWhere(s, Both(p, q))
    decreases |s|
  {
    if |s| > 0 {
      var front, last := s[..|s| - 1], s[|s| - 1];
      CountWhereFilter(front, p, q);
      if p(last) {
        assert Filter(s, p) == Filter(front, p) + [last];
        CountWhereAppend(Filter(front, p), [last], q);
        assert CountWhere([last], q) == (if q(last) then 1 else 0) by {
          assert [last][..0] == [];
        }
      } else {
        assert Filter(s, p) == Filter(front, p);
      }
      assert CountWhere(s, Both(p, q)) == CountWhere(front, Both(p, q)) + if Both(p, q)(last) then 1 else 0;
    }
  }

  /** Sum of the naturals `f(x)` over `s` (Python's `sum(...)` of counts
      or lengths). */
  function NatSum<T>(s: seq<T>, f: T -> nat): nat
  {
    if |s| == 0 then 0 else NatSum(s[..|s| - 1], f) + f(s[|s| - 1])
  }

  /** Replacing one element changes the sum by the difference of its terms. */
  lemma {:induction false} NatSumUpdate<T>(s: seq<T>, i: nat, x: T, f: T -> nat)
    requires i < |s|
    ensures NatSum(s[i := x], f) == NatSum(s, f) - f(s[i]) + f(x)
    decreases |s|
  {
    var n := |s|;
    if i == n - 1 {
      assert s[i := x][..n - 1] == s[..n - 1];
    } else {
      assert s[i := x][..n - 1] == s[..n - 1][i := x];
      NatSumUpdate(s[..n - 1], i, x, f);
    }
  }

  /** Appending one element adds its term. */
  lemma NatSumSnoc<T>(s: seq<T>, x: T, f: T -> nat)
    ensures NatSum(s + [x], f) == NatSum(s, f) + f(x)
  {
    assert (s + [x])[..|s|] == s;
  }

  /** A prefix's first match is the first match of any extension. */
  lemma FirstIndexExtend<T>(s: seq<T>, t: seq<T>, p: T -> bool)
    requires FirstIndexWhere(s, p).Some?
    ensures FirstIndexWhere(s + t, p) == FirstIndexWhere(s, p)
  {
    var i := FirstIndexWhere(s, p).value;
    assert forall j :: 0 <= j <= i ==> (s + t)[j] == s[j];
    FirstIndexIs(s + t, p, i);
  }

  /** The first index whose element satisfies `p` (a `for ... : if ...:
      return` loop), or None when no element does. */
  function FirstIndexWhere<T>(s: seq<T>, p: T -> bool): (r: Option<nat>)
    ensures r.Some? ==> r.value < |s| && p(s[r.value])
    ensures r.Some? ==> forall j :: 0 <= j < r.value ==> !p(s[j])
    ensures r.None? <==> forall j :: 0 <= j < |s| ==> !p(s[j])
  {
    if |s| == 0 then None
    else if p(s[0]) then Some(0)
    else match FirstIndexWhere(s[1..], p)
      case None => None
      case Some(k) => Some(k + 1)
  }

  /** The first index is determined by where `p` first holds. */
  lemma FirstIndexIs<T>(s: seq<T>, p: T -> bool, i: nat)
    requires i < |s| && p(s[i])
    requires forall j :: 0 <= j < i ==> !p(s[j])
    ensures FirstIndexWhere(s, p) == Some(i)
  {
    var r := FirstIndexWhere(s, p);
    assert r.Some?;
    assert !(r.value < i);
    assert !(r.value > i);
  }

  /** Python's `max(s, key=key)`: the FIRST element with the largest key. */
  function ArgMaxFirst<T>(s: seq<T>, key: T -> real): (i: nat)
    requires |s| > 0
    ensures i < |s|
    ensures forall j :: 0 <= j < |s| ==> key(s[j]) <= key(s[i])
    ensures forall j :: 0 <= j < i ==> key(s[j]) < key(s[i])
  {
    if |s| == 1 then 0
    else
      var k := ArgMaxFirst(s[..|s| - 1], key);
      if key(s[|s| - 1]) > key(s[k]) then |s| - 1 else k
  }

  /** Keys are in non-decreasing order. */
  predicate SortedBy<T>(s: seq<T>, key: T -> real)
  {
    forall i, j :: 0 <= i < j < |s| ==> key(s[i]) <= key(s[j])
  }

  /** Places `x` before the first element whose key is not smaller, so `x`
      precedes the elements with an equal key. */
  function Insert<T>(x: T, s: seq<T>, key: T -> real): (r: seq<T>)
    requires SortedBy(s, key)
    ensures SortedBy(r, key)
    ensures multiset(r) == multiset(s) + multiset{x}
    ensures |r| == |s| + 1
  {
    if |s| == 0 || key(x) <= key(s[0]) then [x] + s
    else
      var t := Insert(x, s[1..], key);
      InsertBehindHead(x, s, t, key);
      [s[0]] + t
  }

  /** Inserting behind a head with a smaller key keeps the order and the
      elements. */
  lemma InsertBehindHead<T>(x: T, s: seq<T>, t: seq<T>, key: T -> real)
    requires |s| > 0 && SortedBy(s, key) && key(s[0]) < key(x)
    requires SortedBy(t, key) && multiset(t) == multiset(s[1..]) + multiset{x}
    ensures SortedBy([s[0]] + t, key) && multiset([s[0]] + t) == multiset(s) + multiset{x}
  {
    assert s == [s[0]] + s[1..];
    forall k | 0 <= k < |t|
      ensures key(s[0]) <= key(t[k])
    {
      assert t[k] in multiset(t);
      if t[k] != x {
        assert t[k] in multiset(s[1..]);
      }
    }
    var r := [s[0]] + t;
    forall i, j | 0 <= i < j < |r|
      ensures key(r[i]) <= key(r[j])
    {
      assert r[j] == t[j - 1];
      if i > 0 {
        assert r[i] == t[i - 1];
      }
    }
  }

  /** Stable ascending sort by `key` (Python's `sorted(s, key=key)`). */
  function SortBy<T>(s: seq<T>, key: T -> real): (r: seq<T>)
    ensures SortedBy(r, key)
    ensures multiset(r) == multiset(s)
    ensures |r| == |s|
  {
    if |s| == 0 then []
    else
      assert s == [s[0]] + s[1..];
      Insert(s[0], SortBy(s[1..], key), key)
  }

  /** Stable descending sort by `key`
      (Python's `sorted(s, key=key, reverse=True)`). */
  function SortByDescending<T>(s: seq<T>, key: T -> real): (r: seq<T>)
    ensures forall i, j :: 0 <= i < j < |r| ==> key(r[i]) >= key(r[j])
    ensures multiset(r) == multiset(s)
    ensures |r| == |s|
  {
    var r := SortBy(s, Negated(key));
    assert forall i, j :: 0 <= i < j < |r| ==> -key(r[i]) <= -key(r[j]);
    r
  }

  /** The key that orders by `key` from the largest down. */
  function Negated<T>(key: T -> real): T -> real
  {
    x => -key(x)
  }

  /** `i` is the first position of `s` holding its smallest key. */
  predicate FirstMinAt<T>(s: seq<T>, key: T -> real, i: int)
  {
    0 <= i < |s|
    && (forall j :: 0 <= j < |s| ==> key(s[i]) <= key(s[j]))
    && (forall j :: 0 <= j < i ==> key(s[i]) < key(s[j]))
  }

  /** `i` is the first position of `s` holding its largest key. */
  predicate FirstMaxAt<T>(s: seq<T>, key: T -> real, i: int)
  {
    0 <= i < |s|
    && (forall j :: 0 <= j < |s| ==> key(s[j]) <= key(s[i]))
    && (forall j :: 0 <= j < i ==> key(s[j]) < key(s[i]))
  }

  /** The sort is stable at its head: it starts with the first element of
      smallest key. */
  lemma {:induction false} SortByHead<T>(s: seq<T>, key: T -> real, i: int)
    requires FirstMinAt(s, key, i)
    ensures SortBy(s, key)[0] == s[i]
    decreases |s|
  {
    assert s == [s[0]] + s[1..];
    var rest := s[1..];
    var t := SortBy(rest, key);
    if |rest| > 0 {
      if i == 0 {
        assert t[0] in multiset(rest);
        var j :| 0 <= j < |rest| && rest[j] == t[0];
        assert s[j + 1] == t[0];
      } else {
        assert FirstMinAt(rest, key, i - 1) by {
          forall j | 0 <= j < |rest|
            ensures key(rest[i - 1]) <= key(rest[j])
          {
            assert rest[j] == s[j + 1];
          }
        }
        SortByHead(rest, key, i - 1);
      }
    }
  }

  /** The descending sort starts with the first element of largest key, as
      Python's stable `sorted(…, reverse=True)` does. */
  lemma SortByDescendingHead<T>(s: seq<T>, key: T -> real, i: int)
    requires FirstMaxAt(s, key, i)
    ensures SortByDescending(s, key)[0] == s[i]
  {
    assert FirstMinAt(s, Negated(key), i);
    SortByHead(s, Negated(key), i);
  }

  /** Sorting keeps exactly the same elements. */
  lemma SortKeepsMembers<T>(s: seq<T>, r: seq<T>)
    requires multiset(r) == multiset(s)
    ensures forall x :: x in r <==> x in s
  {
    forall x
      ensures x in r <==> x in s
    {
      assert x in r <==> x in multiset(r);
      assert x in s <==> x in multiset(s);
    }
  }

  /** Counting is invariant under permutation. */
  lemma {:induction false} CountWherePermutation<T>(a: seq<T>, b: seq<T>, p: T -> bool)
    requires multiset(a) == multiset(b)
    ensures CountWhere(a, p) == CountWhere(b, p)
    decreases |a|
  {
    if |a| == 0 {
      assert |b| == |multiset(b)| == 0;
    } else {
      var x := a[|a| - 1];
      assert a == a[..|a| - 1] + [x];
      assert x in multiset(b);
      var k :| 0 <= k < |b| && b[k] == x;
      var b' := b[..k] + b[k + 1..];
      assert b == b[..k] + [x] + b[k + 1..];
      assert multiset(b) == multiset(b[..k]) + multiset{x} + multiset(b[k + 1..]);
      assert multiset(a) == multiset(a[..|a| - 1]) + multiset{x};
      assert multiset(b') == multiset(b[..k]) + multiset(b[k + 1..]);
      assert multiset(b') == multiset(b) - multiset{x};
      assert multiset(a[..|a| - 1]) == multiset(a) - multiset{x};
      CountWherePermutation(a[..|a| - 1], b', p);
      CountWhereAppend(b[..k] + [x], b[k + 1..], p);
      CountWhereAppend(b[..k], [x], p);
      CountWhereAppend(b[..k], b[k + 1..], p);
      CountWhereAppend(a[..|a| - 1], [x], p);
      assert CountWhere([x], p) == (if p(x) then 1 else 0) by {
        assert [x][..0] == [];
      }
    }
  }

  /** `s` has no repeated element. */
  predicate Distinct<T(==)>(s: seq<T>)
  {
    forall i, j :: 0 <= i < j < |s| ==> s[i] != s[j]
  }

  /** The distinct elements of `s` in order of first occurrence. */
  function Dedup<T(==)>(s: seq<T>): (r: seq<T>)
    ensures Distinct(r)
    ensures forall i :: 0 <= i < |r| ==> r[i] in s
    ensures forall i :: 0 <= i < |s| ==> s[i] in r
  {
    if |s| == 0 then []
    else
      var d := Dedup(s[..|s| - 1]);
      assert forall i :: 0 <= i < |s| - 1 ==> s[i] == s[..|s| - 1][i];
      if s[|s| - 1] in d then d else d + [s[|s| - 1]]
  }

  /** In a repetition-free sequence every element occurs at most once. */
  lemma {:induction false} DistinctMultiplicity<T>(s: seq<T>, x: T)
    requires Distinct(s)
    ensures multiset(s)[x] <= 1
    decreases |s|
  {
    if |s| > 0 {
      var front := s[..|s| - 1];
      assert s == front + [s[|s| - 1]];
      assert Distinct(front);
      DistinctMultiplicity(front, x);
      if x == s[|s| - 1] {
        assert x !in front;
      }
    }
  }

  /** A repeated element occurs at least twice. */
  lemma RepeatMultiplicity<T>(s: seq<T>, i: nat, j: nat)
    requires i < j < |s| && s[i] == s[j]
    ensures multiset(s)[s[i]] >= 2
  {
    assert s == s[..j] + [s[j]] + s[j + 1..];
    assert s[i] in s[..j];
  }

  /** Rearranging a repetition-free sequence keeps it repetition-free. */
  lemma DistinctPermutation<T>(a: seq<T>, b: seq<T>)
    requires multiset(a) == multiset(b) && Distinct(a)
    ensures Distinct(b)
  {
    forall i, j | 0 <= i < j < |b|
      ensures b[i] != b[j]
    {
      if b[i] == b[j] {
        RepeatMultiplicity(b, i, j);
        DistinctMultiplicity(a, b[i]);
      }
    }
  }
}
