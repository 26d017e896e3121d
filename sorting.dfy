/**
 * A stable sort by a comparator, as JavaScript's `Array.prototype.sort` behaves,
 * written as insertion sort: each element is placed after every element that is
 * not greater than it, so elements the comparator calls equal keep their order.
 */
module Sorting {

  ghost predicate IsTotalPreorder<T(!new)>(le: (T, T) -> bool) {
    && (forall a, b :: le(a, b) || le(b, a))
    && (forall a, b, c :: le(a, b) && le(b, c) ==> le(a, c))
  }

  predicate SortedBy<T>(s: seq<T>, le: (T, T) -> bool) {
    forall i, j :: 0 <= i < j < |s| ==> le(s[i], s[j])
  }

  /** Every two elements at different positions satisfy `ok`, in both orders. */
  predicate Pairwise<T>(s: seq<T>, ok: (T, T) -> bool) {
    forall i, j :: 0 <= i < |s| && 0 <= j < |s| && i != j ==> ok(s[i], s[j])
  }

  /** The elements of `s` that the comparator ranks equal to `x`, in their order in `s`. */
  function Ties<T>(s: seq<T>, le: (T, T) -> bool, x: T): (r: seq<T>)
    ensures |r| <= |s|
  {
    if s == [] then []
    else Ties(s[..|s| - 1], le, x) + (if le(s[|s| - 1], x) && le(x, s[|s| - 1]) then [s[|s| - 1]] else [])
  }

  /** Places `x` after the last element of `t` not greater than it. */
  function Insert<T>(t: seq<T>, x: T, le: (T, T) -> bool): (r: seq<T>)
    ensures multiset(r) == multiset(t) + multiset{x}
    ensures |r| == |t| + 1
    decreases |t|
  {
    if t == [] then [x]
    else if le(t[|t| - 1], x) then t + [x]
    else
      var init, last := t[..|t| - 1], t[|t| - 1];
      assert t == init + [last];
      assert multiset(t) == multiset(init) + multiset{last};
      Insert(init, x, le) + [last]
  }

  /** Stable sort: the result is a permutation of the input (the order is proved in the lemmas below). */
  function Sort<T>(s: seq<T>, le: (T, T) -> bool): (r: seq<T>)
    ensures multiset(r) == multiset(s)
    ensures |r| == |s|
  {
    if s == [] then []
    else
      var init, last := s[..|s| - 1], s[|s| - 1];
      assert s == init + [last];
      assert multiset(s) == multiset(init) + multiset{last};
      Insert(Sort(init, le), last, le)
  }

  /** One instance of transitivity, for proofs that would otherwise search for it. */
  lemma Transitive<T(!new)>(le: (T, T) -> bool, a: T, b: T, c: T)
    requires IsTotalPreorder(le)
    ensures le(a, b) && le(b, c) ==> le(a, c)
  {
  }

  lemma InMultiset<T>(s: seq<T>, t: seq<T>, x: T)
    requires multiset(s) == multiset(t)
    ensures x in s <==> x in t
  {
    assert x in s <==> x in multiset(s);
    assert x in t <==> x in multiset(t);
  }

  lemma {:induction false} InsertSorted<T(!new)>(t: seq<T>, x: T, le: (T, T) -> bool)
    requires IsTotalPreorder(le)
    requires SortedBy(t, le)
    ensures SortedBy(Insert(t, x, le), le)
    decreases |t|
  {
    if t != [] && !le(t[|t| - 1], x) {
      var init, last := t[..|t| - 1], t[|t| - 1];
      InsertSorted(init, x, le);
      var u := Insert(init, x, le);
      assert le(x, last);
      forall y | y in u ensures le(y, last) {
        assert y in multiset(u);
        if y != x {
          assert y in multiset(init);
          var k :| 0 <= k < |init| && init[k] == y;
          assert t[k] == y;
        }
      }
      forall i, j | 0 <= i < j < |u + [last]| ensures le((u + [last])[i], (u + [last])[j]) {
        if j == |u| {
          assert (u + [last])[i] == u[i];
          assert u[i] in u;
        }
      }
    }
  }

  /** The sort puts the elements in comparator order. */
  lemma {:induction false} SortSorted<T(!new)>(s: seq<T>, le: (T, T) -> bool)
    requires IsTotalPreorder(le)
    ensures SortedBy(Sort(s, le), le)
  {
    if s != [] {
      SortSorted(s[..|s| - 1], le);
      InsertSorted(Sort(s[..|s| - 1], le), s[|s| - 1], le);
    }
  }

  /** Sorting an already sorted sequence leaves it as it is. */
  lemma {:induction false} SortOfSorted<T>(s: seq<T>, le: (T, T) -> bool)
    requires SortedBy(s, le)
    ensures Sort(s, le) == s
  {
    if s != [] {
      var init := s[..|s| - 1];
      assert SortedBy(init, le);
      SortOfSorted(init, le);
      if |init| > 0 {
        assert le(init[|init| - 1], s[|s| - 1]);
      }
      assert init + [s[|s| - 1]] == s;
    }
  }

  lemma TiesAppend<T>(s: seq<T>, y: T, le: (T, T) -> bool, x: T)
    ensures Ties(s + [y], le, x) == Ties(s, le, x) + (if le(y, x) && le(x, y) then [y] else [])
  {
    assert (s + [y])[..|s + [y]| - 1] == s;
  }

  lemma {:induction false} InsertTies<T(!new)>(t: seq<T>, y: T, le: (T, T) -> bool, x: T)
    requires IsTotalPreorder(le)
    ensures Ties(Insert(t, y, le), le, x) == Ties(t, le, x) + (if le(y, x) && le(x, y) then [y] else [])
    decreases |t|
  {
    if t == [] {
      TiesAppend([], y, le, x);
    } else if le(t[|t| - 1], y) {
      TiesAppend(t, y, le, x);
    } else {
      var init, last := t[..|t| - 1], t[|t| - 1];
      assert t == init + [last];
      assert Insert(t, y, le) == Insert(init, y, le) + [last];
      InsertTies(init, y, le, x);
      TiesAppend(Insert(init, y, le), last, le, x);
      TiesAppend(init, last, le, x);
      // `last` is strictly greater than `y`, so it cannot tie with an `x` that ties with `y`
      Transitive(le, last, x, y);
    }
  }

  /** Stability: the elements that tie with any `x` keep their relative order. */
  lemma {:induction false} SortStable<T(!new)>(s: seq<T>, le: (T, T) -> bool, x: T)
    requires IsTotalPreorder(le)
    ensures Ties(Sort(s, le), le, x) == Ties(s, le, x)
  {
    if s != [] {
      var init, last := s[..|s| - 1], s[|s| - 1];
      assert init + [last] == s;
      assert Sort(s, le) == Insert(Sort(init, le), last, le);
      var extra := if le(last, x) && le(x, last) then [last] else [];
      calc {
        Ties(Sort(s, le), le, x);
        { InsertTies(Sort(init, le), last, le, x); }
        Ties(Sort(init, le), le, x) + extra;
        { SortStable(init, le, x); }
        Ties(init, le, x) + extra;
        { TiesAppend(init, last, le, x); }
        Ties(s, le, x);
      }
    }
  }

  lemma {:induction false} InsertPairwise<T>(t: seq<T>, x: T, ok: (T, T) -> bool, le: (T, T) -> bool)
    requires Pairwise(t, ok)
    requires forall y :: y in t ==> ok(x, y) && ok(y, x)
    ensures Pairwise(Insert(t, x, le), ok)
    decreases |t|
  {
    if t == [] {
    } else if le(t[|t| - 1], x) {
      var r := t + [x];
      forall i, j | 0 <= i < |r| && 0 <= j < |r| && i != j ensures ok(r[i], r[j]) {
        if i == |t| {
          assert r[j] == t[j] && t[j] in t;
        } else if j == |t| {
          assert r[i] == t[i] && t[i] in t;
        } else {
          assert r[i] == t[i] && r[j] == t[j];
        }
      }
    } else {
      var init, last := t[..|t| - 1], t[|t| - 1];
      assert Pairwise(init, ok) by {
        forall i, j | 0 <= i < |init| && 0 <= j < |init| && i != j ensures ok(init[i], init[j]) {
          assert init[i] == t[i] && init[j] == t[j];
        }
      }
      forall y | y in init ensures ok(x, y) && ok(y, x) {
        var k :| 0 <= k < |init| && init[k] == y;
        assert t[k] == y;
      }
      InsertPairwise(init, x, ok, le);
      var u := Insert(init, x, le);
      forall y | y in u ensures ok(y, last) && ok(last, y) {
        assert y in multiset(u);
        if y != x {
          assert y in multiset(init);
          var k :| 0 <= k < |init| && init[k] == y;
          assert t[k] == y && k != |t| - 1;
        } else {
          assert last in t;
        }
      }
      var r := u + [last];
      forall i, j | 0 <= i < |r| && 0 <= j < |r| && i != j ensures ok(r[i], r[j]) {
        if i == |u| {
          assert r[j] == u[j] && u[j] in u;
        } else if j == |u| {
          assert r[i] == u[i] && u[i] in u;
        } else {
          assert r[i] == u[i] && r[j] == u[j];
        }
      }
    }
  }

  /** A property that holds of every two elements of `s` still holds after sorting. */
  lemma {:induction false} SortPairwise<T>(s: seq<T>, ok: (T, T) -> bool, le: (T, T) -> bool)
    requires Pairwise(s, ok)
    ensures Pairwise(Sort(s, le), ok)
  {
    if s != [] {
      var init, last := s[..|s| - 1], s[|s| - 1];
      assert Pairwise(init, ok) by {
        forall i, j | 0 <= i < |init| && 0 <= j < |init| && i != j ensures ok(init[i], init[j]) {
          assert init[i] == s[i] && init[j] == s[j];
        }
      }
      SortPairwise(init, ok, le);
      var u := Sort(init, le);
      forall y | y in u ensures ok(last, y) && ok(y, last) {
        InMultiset(u, init, y);
        var k :| 0 <= k < |init| && init[k] == y;
        assert s[k] == y && k != |s| - 1;
      }
      InsertPairwise(u, last, ok, le);
    }
  }
}
