/** A stable sort by a comparator, the behaviour of `Array.prototype.sort`
    (stable since ECMAScript 2019) when its comparator orders elements by a
    total preorder. Insertion sort keeps elements that compare equal in their
    input order, so it produces exactly the array the library sort produces. */
module Sorting {

  /** `le` is total and transitive: the comparators the tracker passes to
      `sort` (by a date, by an artist name) all are. */
  ghost predicate TotalPreorder<T(!new)>(le: (T, T) -> bool) {
    && (forall a, b :: le(a, b) || le(b, a))
    && (forall a, b, c :: le(a, b) && le(b, c) ==> le(a, c))
  }

  /** No element occurs twice. */
  ghost predicate Distinct<T>(s: seq<T>) {
    forall i, j :: 0 <= i < j < |s| ==> s[i] != s[j]
  }

  lemma DistinctAppend<T>(s: seq<T>, x: T)
    requires Distinct(s) && x !in s
    ensures Distinct(s + [x])
  {
  }

  predicate SortedBy<T>(s: seq<T>, le: (T, T) -> bool) {
    forall i, j :: 0 <= i < j < |s| ==> le(s[i], s[j])
  }

  /** Inserts `x` after every element of `s` that is not greater than it. */
  function Insert<T>(x: T, s: seq<T>, le: (T, T) -> bool): (r: seq<T>)
    ensures |r| == |s| + 1
    ensures multiset(r) == multiset(s) + multiset{x}
  {
    if s == [] then [x]
    else if le(s[0], x) then
      assert s == [s[0]] + s[1..];
      [s[0]] + Insert(x, s[1..], le)
    else [x] + s
  }

  function Sort<T>(s: seq<T>, le: (T, T) -> bool): (r: seq<T>)
    ensures |r| == |s|
    ensures multiset(r) == multiset(s)
    decreases |s|
  {
    if s == [] then []
    else
      assert s == s[..|s| - 1] + [s[|s| - 1]];
      Insert(s[|s| - 1], Sort(s[..|s| - 1], le), le)
  }

  lemma {:induction false} InsertSorted<T(!new)>(x: T, s: seq<T>, le: (T, T) -> bool)
    requires TotalPreorder(le)
    requires SortedBy(s, le)
    ensures SortedBy(Insert(x, s, le), le)
  {
    if s != [] && le(s[0], x) {
      InsertSorted(x, s[1..], le);
      var r := Insert(x, s, le);
      var t := Insert(x, s[1..], le);
      assert r == [s[0]] + t;
      forall j | 0 < j < |r| ensures le(r[0], r[j]) {
        assert r[j] in multiset(t);
        assert r[j] in multiset(s[1..]) + multiset{x};
        if r[j] == x {
        } else {
          assert r[j] in s[1..];
        }
      }
    }
  }

  /** The sort's output is ordered by `le`. */
  lemma {:induction false} SortSorted<T(!new)>(s: seq<T>, le: (T, T) -> bool)
    requires TotalPreorder(le)
    ensures SortedBy(Sort(s, le), le)
    decreases |s|
  {
    if s != [] {
      SortSorted(s[..|s| - 1], le);
      InsertSorted(s[|s| - 1], Sort(s[..|s| - 1], le), le);
    }
  }

  /** Inserting an element that no element of `s` exceeds appends it. */
  lemma {:induction false} InsertAfterAll<T>(x: T, s: seq<T>, le: (T, T) -> bool)
    requires forall i :: 0 <= i < |s| ==> le(s[i], x)
    ensures Insert(x, s, le) == s + [x]
  {
    if s != [] {
      InsertAfterAll(x, s[1..], le);
      assert [s[0]] + (s[1..] + [x]) == s + [x];
    }
  }

  /** Sorting a sequence that is already in order leaves it as it is (the
      sort is stable). */
  lemma {:induction false} SortOfSorted<T>(s: seq<T>, le: (T, T) -> bool)
    requires SortedBy(s, le)
    ensures Sort(s, le) == s
    decreases |s|
  {
    if s != [] {
      var p := s[..|s| - 1];
      assert SortedBy(p, le);
      SortOfSorted(p, le);
      InsertAfterAll(s[|s| - 1], p, le);
      assert p + [s[|s| - 1]] == s;
    }
  }

  function Map<T, U>(s: seq<T>, f: T -> U): (r: seq<U>)
    ensures |r| == |s|
    ensures forall i :: 0 <= i < |s| ==> r[i] == f(s[i])
  {
    if s == [] then [] else [f(s[0])] + Map(s[1..], f)
  }

  lemma {:induction false} MapAppend<T, U>(s: seq<T>, t: seq<T>, f: T -> U)
    ensures Map(s + t, f) == Map(s, f) + Map(t, f)
  {
    var l, r := Map(s + t, f), Map(s, f) + Map(t, f);
    forall i | 0 <= i < |l| ensures l[i] == r[i] {
      if i < |s| {
        assert r[i] == Map(s, f)[i];
      } else {
        assert r[i] == Map(t, f)[i - |s|];
      }
    }
  }

  lemma PrefixStep<T>(s: seq<T>, i: nat)
    requires i < |s|
    ensures s[..i + 1] == s[..i] + [s[i]]
  {
  }

  lemma LastSplit<T>(s: seq<T>)
    requires s != []
    ensures s[..|s| - 1] + [s[|s| - 1]] == s
  {
  }

  lemma MapCons<T, U>(x: T, s: seq<T>, f: T -> U)
    ensures Map([x] + s, f) == [f(x)] + Map(s, f)
  {
    assert ([x] + s)[1..] == s;
  }

  lemma {:induction false} InsertMapMultiset<T, U>(x: T, s: seq<T>, le: (T, T) -> bool, f: T -> U)
    ensures multiset(Map(Insert(x, s, le), f)) == multiset(Map(s, f)) + multiset{f(x)}
  {
    if s == [] {
      assert Insert(x, s, le) == [x];
      assert Map([x], f) == [f(x)];
    } else if le(s[0], x) {
      var t := Insert(x, s[1..], le);
      InsertMapMultiset(x, s[1..], le, f);
      assert Insert(x, s, le) == [s[0]] + t;
      MapCons(s[0], t, f);
      MapCons(s[0], s[1..], f);
      assert [s[0]] + s[1..] == s;
      var m, mt, ms := f(s[0]), Map(t, f), Map(s[1..], f);
      assert Map(Insert(x, s, le), f) == [m] + mt;
      assert Map(s, f) == [m] + ms;
      assert multiset([m] + mt) == multiset{m} + multiset(mt);
      assert multiset([m] + ms) == multiset{m} + multiset(ms);
    } else {
      assert Insert(x, s, le) == [x] + s;
      MapCons(x, s, f);
      assert multiset([f(x)] + Map(s, f)) == multiset{f(x)} + multiset(Map(s, f));
    }
  }

  /** Whatever is projected out of the elements, sorting only permutes the
      projections. */
  lemma {:induction false} SortMapMultiset<T, U>(s: seq<T>, le: (T, T) -> bool, f: T -> U)
    ensures multiset(Map(Sort(s, le), f)) == multiset(Map(s, f))
    decreases |s|
  {
    if s != [] {
      var p, x := s[..|s| - 1], s[|s| - 1];
      var sp := Sort(p, le);
      assert Sort(s, le) == Insert(x, sp, le);
      SortMapMultiset(p, le, f);
      InsertMapMultiset(x, sp, le, f);
      MapAppend(p, [x], f);
      LastSplit(s);
      assert Map([x], f) == [f(x)];
      assert multiset(Map(p, f) + [f(x)]) == multiset(Map(p, f)) + multiset{f(x)};
    }
  }

  lemma DistinctCons<T>(x: T, s: seq<T>)
    requires Distinct(s)
    requires x !in s
    ensures Distinct([x] + s)
  {
    var r := [x] + s;
    forall i, j | 0 <= i < j < |r| ensures r[i] != r[j] {
      assert r[j] == s[j - 1];
      if i > 0 {
        assert r[i] == s[i - 1];
      }
    }
  }

  lemma DistinctTail<T>(s: seq<T>)
    requires Distinct(s) && s != []
    ensures Distinct(s[1..]) && s[0] !in s[1..]
  {
    forall k | 0 <= k < |s[1..]| ensures s[1..][k] != s[0] {
      assert s[1..][k] == s[k + 1];
    }
  }

  lemma {:induction false} InsertDistinct<T>(x: T, s: seq<T>, le: (T, T) -> bool)
    requires Distinct(s)
    requires x !in s
    ensures Distinct(Insert(x, s, le))
  {
    if s == [] {
    } else if le(s[0], x) {
      var t := Insert(x, s[1..], le);
      DistinctTail(s);
      assert x !in s[1..];
      InsertDistinct(x, s[1..], le);
      assert Insert(x, s, le) == [s[0]] + t;
      assert s[0] !in multiset(t);
      DistinctCons(s[0], t);
    } else {
      assert Insert(x, s, le) == [x] + s;
      DistinctCons(x, s);
    }
  }

  /** A sequence without repetitions sorts to one without repetitions. */
  lemma {:induction false} SortDistinct<T>(s: seq<T>, le: (T, T) -> bool)
    requires Distinct(s)
    ensures Distinct(Sort(s, le))
    decreases |s|
  {
    if s != [] {
      var p := s[..|s| - 1];
      var x := s[|s| - 1];
      assert Distinct(p) by {
        forall i, j | 0 <= i < j < |p| ensures p[i] != p[j] {
          assert p[i] == s[i] && p[j] == s[j];
        }
      }
      SortDistinct(p, le);
      assert x !in p by {
        forall k | 0 <= k < |p| ensures p[k] != x {
          assert p[k] == s[k];
        }
      }
      var q := Sort(p, le);
      assert x !in multiset(q);
      InsertDistinct(x, q, le);
    }
  }

  // ---------------------------------------------------------------------
  // Stability

  /** The elements of `s` that satisfy `p`, in their order. */
  function Filter<T>(s: seq<T>, p: T -> bool): (r: seq<T>)
    ensures |r| <= |s|
    ensures forall i :: 0 <= i < |r| ==> p(r[i])
    decreases |s|
  {
    if s == [] then []
    else
      (if p(s[0]) then [s[0]] else []) + Filter(s[1..], p)
  }

  lemma {:induction false} FilterAppend<T>(s: seq<T>, t: seq<T>, p: T -> bool)
    ensures Filter(s + t, p) == Filter(s, p) + Filter(t, p)
    decreases |s|
  {
    if s == [] {
      assert s + t == t;
    } else {
      assert (s + t)[0] == s[0];
      assert (s + t)[1..] == s[1..] + t;
      FilterAppend(s[1..], t, p);
    }
  }

  lemma {:induction false} FilterNone<T>(s: seq<T>, p: T -> bool)
    requires forall k :: 0 <= k < |s| ==> !p(s[k])
    ensures Filter(s, p) == []
    decreases |s|
  {
    if s != [] {
      FilterNone(s[1..], p);
    }
  }

  /** The elements that tie with `x` under `le`. */
  function Ties<T>(le: (T, T) -> bool, x: T): T -> bool {
    (y: T) => le(x, y) && le(y, x)
  }

  /** Inserting `y` into a sorted sequence places it after every element
      that ties with it. */
  lemma {:induction false} InsertTies<T(!new)>(y: T, s: seq<T>, le: (T, T) -> bool, x: T)
    requires TotalPreorder(le)
    requires SortedBy(s, le)
    ensures Filter(Insert(y, s, le), Ties(le, x)) == Filter(s, Ties(le, x)) + Filter([y], Ties(le, x))
    decreases |s|
  {
    if s == [] {
    } else if le(s[0], y) {
      SortedTail(s, le);
      InsertTies(y, s[1..], le, x);
      InsertTiesPast(y, s, le, Ties(le, x));
    } else {
      InsertTiesBefore(y, s, le, x);
    }
  }

  /** `y` goes past the first element: the filter of the rest decides. */
  lemma InsertTiesPast<T>(y: T, s: seq<T>, le: (T, T) -> bool, p: T -> bool)
    requires s != [] && le(s[0], y)
    requires Filter(Insert(y, s[1..], le), p) == Filter(s[1..], p) + Filter([y], p)
    ensures Filter(Insert(y, s, le), p) == Filter(s, p) + Filter([y], p)
  {
    var t := Insert(y, s[1..], le);
    assert Insert(y, s, le) == [s[0]] + t;
    var f0, fs, fy := Filter([s[0]], p), Filter(s[1..], p), Filter([y], p);
    FilterAppend([s[0]], t, p);
    assert Filter(Insert(y, s, le), p) == f0 + (fs + fy);
    HeadSplit(s);
    FilterAppend([s[0]], s[1..], p);
    assert Filter(s, p) == f0 + fs;
    assert f0 + (fs + fy) == (f0 + fs) + fy;
  }

  lemma HeadSplit<T>(s: seq<T>)
    requires s != []
    ensures [s[0]] + s[1..] == s
  {
  }

  /** `y` goes in front: nothing after it ties with it. */
  lemma InsertTiesBefore<T(!new)>(y: T, s: seq<T>, le: (T, T) -> bool, x: T)
    requires TotalPreorder(le)
    requires SortedBy(s, le)
    requires s != [] && !le(s[0], y)
    ensures Filter(Insert(y, s, le), Ties(le, x)) == Filter(s, Ties(le, x)) + Filter([y], Ties(le, x))
  {
    var p := Ties(le, x);
    assert Insert(y, s, le) == [y] + s;
    FilterAppend([y], s, p);
    if p(y) {
      NoTiesAbove(y, s, le, x);
      FilterNone(s, p);
      assert Filter([y], p) + [] == [] + Filter([y], p);
    } else {
      assert Filter([y], p) == [];
      assert [] + Filter(s, p) == Filter(s, p) + [];
    }
  }

  lemma SortedTail<T>(s: seq<T>, le: (T, T) -> bool)
    requires SortedBy(s, le) && s != []
    ensures SortedBy(s[1..], le)
  {
    forall i, j | 0 <= i < j < |s[1..]| ensures le(s[1..][i], s[1..][j]) {
      assert s[1..][i] == s[i + 1] && s[1..][j] == s[j + 1];
    }
  }

  /** In a sorted sequence starting above `y`, nothing ties with `y`. */
  lemma NoTiesAbove<T(!new)>(y: T, s: seq<T>, le: (T, T) -> bool, x: T)
    requires TotalPreorder(le)
    requires SortedBy(s, le) && s != [] && !le(s[0], y)
    requires Ties(le, x)(y)
    ensures forall k :: 0 <= k < |s| ==> !Ties(le, x)(s[k])
  {
    forall k | 0 <= k < |s| ensures !Ties(le, x)(s[k]) {
      assert k == 0 || le(s[0], s[k]);
    }
  }

  /** The sort is stable: the elements that tie with any `x` come out in
      the order they went in. */
  lemma {:induction false} SortStable<T(!new)>(s: seq<T>, le: (T, T) -> bool, x: T)
    requires TotalPreorder(le)
    ensures Filter(Sort(s, le), Ties(le, x)) == Filter(s, Ties(le, x))
    decreases |s|
  {
    if s != [] {
      var init, last := s[..|s| - 1], s[|s| - 1];
      SortStable(init, le, x);
      SortSorted(init, le);
      InsertTies(last, Sort(init, le), le, x);
      FilterAppend(init, [last], Ties(le, x));
      LastSplit(s);
    }
  }
}
