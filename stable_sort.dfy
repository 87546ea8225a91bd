/** The `Array.prototype.sort(compareFn)` the task view calls. Since the 2019
    edition ECMA-262 requires the sort to be stable; given a consistent
    comparator its result is then the unique ordered permutation that keeps
    tied elements in input order. It is defined here as an insertion sort and
    proved to be exactly that. */
module StableSort {
  import opened Seqs

  /** `cmp(a, b)` and `cmp(b, a)` have opposite signs (both zero on a tie). */
  ghost predicate Antisymmetric<T(!new)>(cmp: (T, T) -> int) {
    forall a, b :: cmp(a, b) < 0 <==> cmp(b, a) > 0
  }

  ghost predicate Transitive<T(!new)>(cmp: (T, T) -> int) {
    forall a, b, c :: cmp(a, b) <= 0 && cmp(b, c) <= 0 ==> cmp(a, c) <= 0
  }

  /** What section 23.1.3.30 of ECMA-262 calls a consistent comparator. */
  ghost predicate IsComparator<T(!new)>(cmp: (T, T) -> int) {
    Antisymmetric(cmp) && Transitive(cmp)
  }

  ghost predicate SortedBy<T>(s: seq<T>, cmp: (T, T) -> int) {
    forall i, j :: 0 <= i < j < |s| ==> cmp(s[i], s[j]) <= 0
  }

  /** The elements of `s` that tie with `t`, in their order in `s`. */
  function Ties<T>(s: seq<T>, t: T, cmp: (T, T) -> int): seq<T> {
    Filter(s, e => cmp(e, t) == 0)
  }

  /** Insert `x` before the first element it does not sort after. */
  function Insert<T>(x: T, r: seq<T>, cmp: (T, T) -> int): (o: seq<T>)
    ensures multiset(o) == multiset(r) + multiset{x}
  {
    if r == [] then [x]
    else if cmp(x, r[0]) <= 0 then [x] + r
    else
      assert r == [r[0]] + r[1..];
      [r[0]] + Insert(x, r[1..], cmp)
  }

  /** The sorted result: a permutation of the input. */
  function Sort<T>(s: seq<T>, cmp: (T, T) -> int): (r: seq<T>)
    ensures multiset(r) == multiset(s)
    ensures |r| == |s|
  {
    if s == [] then []
    else
      assert s == [s[0]] + s[1..];
      Insert(s[0], Sort(s[1..], cmp), cmp)
  }

  /** A sequence with a head is sorted when its tail is and the head sorts
      before every element of the tail. */
  lemma SortedCons<T>(h: T, t: seq<T>, cmp: (T, T) -> int)
    requires SortedBy(t, cmp)
    requires forall k :: 0 <= k < |t| ==> cmp(h, t[k]) <= 0
    ensures SortedBy([h] + t, cmp)
  {
    var o := [h] + t;
    forall i, j | 0 <= i < j < |o| ensures cmp(o[i], o[j]) <= 0 {
      assert o[j] == t[j - 1];
      if i > 0 {
        assert o[i] == t[i - 1];
      }
    }
  }

  lemma {:induction false} InsertSorted<T(!new)>(x: T, r: seq<T>, cmp: (T, T) -> int)
    requires IsComparator(cmp) && SortedBy(r, cmp)
    ensures SortedBy(Insert(x, r, cmp), cmp)
  {
    if r == [] {
    } else if cmp(x, r[0]) <= 0 {
      forall k | 0 <= k < |r| ensures cmp(x, r[k]) <= 0 {
        assert cmp(r[0], r[k]) <= 0 by { if k > 0 { assert 0 < k; } }
      }
      SortedCons(x, r, cmp);
    } else {
      var tail := Insert(x, r[1..], cmp);
      InsertSorted(x, r[1..], cmp);
      assert cmp(r[0], x) < 0;
      forall k | 0 <= k < |tail| ensures cmp(r[0], tail[k]) <= 0 {
        var e := tail[k];
        assert e in multiset(tail);
        if e != x {
          assert e in multiset(r[1..]);
          var i :| 0 <= i < |r[1..]| && r[1..][i] == e;
          assert r[i + 1] == e;
        }
      }
      SortedCons(r[0], tail, cmp);
    }
  }

  lemma {:induction false} SortIsSorted<T(!new)>(s: seq<T>, cmp: (T, T) -> int)
    requires IsComparator(cmp)
    ensures SortedBy(Sort(s, cmp), cmp)
  {
    if s != [] {
      SortIsSorted(s[1..], cmp);
      InsertSorted(s[0], Sort(s[1..], cmp), cmp);
    }
  }

  lemma TiesCons<T>(x: T, s: seq<T>, t: T, cmp: (T, T) -> int)
    ensures Ties([x] + s, t, cmp) == if cmp(x, t) == 0 then [x] + Ties(s, t, cmp) else Ties(s, t, cmp)
  {
    var xs := [x] + s;
    assert xs[0] == x && xs[1..] == s;
  }

  /** Two elements that tie with a third tie with each other. */
  lemma TieTransitive<T(!new)>(a: T, b: T, t: T, cmp: (T, T) -> int)
    requires IsComparator(cmp)
    requires cmp(a, t) == 0 && cmp(b, t) == 0
    ensures cmp(a, b) == 0
  {
    assert cmp(t, b) == 0 && cmp(t, a) == 0;
    assert cmp(a, b) <= 0 && cmp(b, a) <= 0;
  }

  /** Inserting `x` puts it ahead of everything that ties with it. */
  lemma {:induction false} InsertTies<T(!new)>(x: T, r: seq<T>, t: T, cmp: (T, T) -> int)
    requires IsComparator(cmp)
    ensures Ties(Insert(x, r, cmp), t, cmp) == Ties([x] + r, t, cmp)
  {
    if r != [] && cmp(x, r[0]) > 0 {
      var r0, r' := r[0], r[1..];
      var tail := Insert(x, r', cmp);
      assert Insert(x, r, cmp) == [r0] + tail;
      assert r == [r0] + r';
      InsertTies(x, r', t, cmp);
      TiesCons(r0, tail, t, cmp);
      TiesCons(x, r', t, cmp);
      TiesCons(r0, r', t, cmp);
      TiesCons(x, r, t, cmp);
      if cmp(x, t) == 0 && cmp(r0, t) == 0 {
        TieTransitive(x, r0, t, cmp);
        assert false;
      }
    }
  }

  /** Stability: the elements that tie with any `t` come out in input order. */
  lemma {:induction false} SortIsStable<T(!new)>(s: seq<T>, t: T, cmp: (T, T) -> int)
    requires IsComparator(cmp)
    ensures Ties(Sort(s, cmp), t, cmp) == Ties(s, t, cmp)
  {
    if s != [] {
      SortIsStable(s[1..], t, cmp);
      InsertTies(s[0], Sort(s[1..], cmp), t, cmp);
      TiesCons(s[0], Sort(s[1..], cmp), t, cmp);
      TiesCons(s[0], s[1..], t, cmp);
      assert s == [s[0]] + s[1..];
    }
  }

  lemma SortedTail<T>(s: seq<T>, cmp: (T, T) -> int)
    requires s != [] && SortedBy(s, cmp)
    ensures SortedBy(s[1..], cmp)
  {
    forall i, j | 0 <= i < j < |s| - 1 ensures cmp(s[1..][i], s[1..][j]) <= 0 {
      assert s[1..][i] == s[i + 1] && s[1..][j] == s[j + 1];
    }
  }

  /** The first elements of two sorted permutations of each other tie. */
  lemma SortedHeadsTie<T(!new)>(r: seq<T>, q: seq<T>, cmp: (T, T) -> int)
    requires IsComparator(cmp)
    requires r != [] && multiset(r) == multiset(q)
    requires SortedBy(r, cmp) && SortedBy(q, cmp)
    ensures q != [] && cmp(r[0], q[0]) == 0
  {
    assert r[0] in multiset(q);
    var j :| 0 <= j < |q| && q[j] == r[0];
    assert q[0] in multiset(r);
    var i :| 0 <= i < |r| && r[i] == q[0];
    assert cmp(r[0], r[i]) <= 0 by { if i > 0 { assert 0 < i; } else { assert cmp(r[0], r[0]) == 0; } }
    assert cmp(q[0], q[j]) <= 0 by { if j > 0 { assert 0 < j; } else { assert cmp(q[0], q[0]) == 0; } }
  }

  /** Two sequences with equal heads and equal tie classes have tails with
      equal tie classes. */
  lemma TiesOfTails<T>(x: T, r: seq<T>, q: seq<T>, cmp: (T, T) -> int)
    requires forall t :: Ties([x] + r, t, cmp) == Ties([x] + q, t, cmp)
    ensures forall t :: Ties(r, t, cmp) == Ties(q, t, cmp)
  {
    forall t ensures Ties(r, t, cmp) == Ties(q, t, cmp) {
      TiesCons(x, r, t, cmp);
      TiesCons(x, q, t, cmp);
      assert Ties([x] + r, t, cmp) == Ties([x] + q, t, cmp);
      if cmp(x, t) == 0 {
        assert Ties(r, t, cmp) == Ties([x] + r, t, cmp)[1..];
        assert Ties(q, t, cmp) == Ties([x] + q, t, cmp)[1..];
      }
    }
  }

  /** Two sorted permutations of each other with equal tie classes start
      with the same element. */
  lemma SameHead<T(!new)>(r: seq<T>, q: seq<T>, cmp: (T, T) -> int)
    requires IsComparator(cmp)
    requires r != [] && multiset(r) == multiset(q)
    requires SortedBy(r, cmp) && SortedBy(q, cmp)
    requires Ties(r, r[0], cmp) == Ties(q, r[0], cmp)
    ensures q != [] && q[0] == r[0]
  {
    SortedHeadsTie(r, q, cmp);
    assert cmp(r[0], r[0]) == 0;
    assert r == [r[0]] + r[1..] && q == [q[0]] + q[1..];
    TiesCons(r[0], r[1..], r[0], cmp);
    TiesCons(q[0], q[1..], r[0], cmp);
    assert cmp(q[0], r[0]) == 0;
    assert Ties(r, r[0], cmp)[0] == Ties(q, r[0], cmp)[0];
  }

  /** An ordered permutation that keeps every tie class in the same order
      is unique: sorted, permuted and stable pins the result down. */
  lemma {:induction false} StableSortUnique<T(!new)>(r: seq<T>, q: seq<T>, cmp: (T, T) -> int)
    requires IsComparator(cmp)
    requires multiset(r) == multiset(q)
    requires SortedBy(r, cmp) && SortedBy(q, cmp)
    requires forall t :: Ties(r, t, cmp) == Ties(q, t, cmp)
    ensures r == q
    decreases |r|
  {
    assert |r| == |multiset(r)| == |multiset(q)| == |q|;
    if r != [] {
      SameHead(r, q, cmp);
      var x, r', q' := r[0], r[1..], q[1..];
      assert r == [x] + r' && q == [x] + q';
      TiesOfTails(x, r', q', cmp);
      CancelHead(x, r', q');
      SortedTail(r, cmp);
      SortedTail(q, cmp);
      StableSortUnique(r', q', cmp);
    }
  }

  lemma CancelHead<T>(x: T, a: seq<T>, b: seq<T>)
    requires multiset([x] + a) == multiset([x] + b)
    ensures multiset(a) == multiset(b)
  {
    assert multiset(a) == multiset([x] + a) - multiset{x};
    assert multiset(b) == multiset([x] + b) - multiset{x};
  }

  /** Hence any stable sort of `s` returns exactly what `Sort` returns. */
  lemma SortIsTheStableSort<T(!new)>(s: seq<T>, r: seq<T>, cmp: (T, T) -> int)
    requires IsComparator(cmp)
    requires multiset(r) == multiset(s) && SortedBy(r, cmp)
    requires forall t :: Ties(r, t, cmp) == Ties(s, t, cmp)
    ensures r == Sort(s, cmp)
  {
    SortIsSorted(s, cmp);
    forall t ensures Ties(r, t, cmp) == Ties(Sort(s, cmp), t, cmp) {
      SortIsStable(s, t, cmp);
    }
    StableSortUnique(r, Sort(s, cmp), cmp);
  }

  /** What remains of a sorted sequence after a filter is still sorted. */
  lemma {:induction false} FilterSorted<T>(s: seq<T>, p: T -> bool, cmp: (T, T) -> int)
    requires SortedBy(s, cmp)
    ensures SortedBy(Filter(s, p), cmp)
  {
    if s != [] {
      SortedTail(s, cmp);
      FilterSorted(s[1..], p, cmp);
      if p(s[0]) {
        var f := Filter(s[1..], p);
        forall k | 0 <= k < |f| ensures cmp(s[0], f[k]) <= 0 {
          var i :| 0 <= i < |s[1..]| && s[1..][i] == f[k];
          assert s[i + 1] == f[k];
        }
        SortedCons(s[0], f, cmp);
      }
    }
  }
}
