/**
 * The `$group` stage of an aggregation pipeline: one group per distinct key,
 * with the number of documents and the `$sum` of a numeric field. The server
 * does not promise an order for the groups; this model lists them in order of
 * the first document of each group.
 */
module Grouping {

  predicate Distinct<K(==)>(ks: seq<K>) {
    forall i, j :: 0 <= i < j < |ks| ==> ks[i] != ks[j]
  }

  /** The distinct keys of `xs`, in order of first appearance. */
  function Keys<T, K(==)>(xs: seq<T>, key: T -> K): (ks: seq<K>)
    ensures Distinct(ks)
    ensures |ks| <= |xs|
    ensures forall k :: k in ks ==> exists i :: 0 <= i < |xs| && key(xs[i]) == k
    ensures forall i :: 0 <= i < |xs| ==> key(xs[i]) in ks
  {
    if xs == [] then []
    else
      var init := xs[..|xs| - 1];
      var ks := Keys(init, key);
      var k := key(xs[|xs| - 1]);
      assert forall i :: 0 <= i < |init| ==> xs[i] == init[i];
      if k in ks then ks else ks + [k]
  }

  /** The number of documents with key `k`. */
  function CountOf<T, K(==)>(xs: seq<T>, key: T -> K, k: K): (n: nat)
    ensures n <= |xs|
  {
    if xs == [] then 0
    else CountOf(xs[..|xs| - 1], key, k) + (if key(xs[|xs| - 1]) == k then 1 else 0)
  }

  /** `$sum` of `weight` over the documents with key `k`. */
  function SumOf<T, K(==)>(xs: seq<T>, key: T -> K, weight: T -> int, k: K): int {
    if xs == [] then 0
    else SumOf(xs[..|xs| - 1], key, weight, k) + (if key(xs[|xs| - 1]) == k then weight(xs[|xs| - 1]) else 0)
  }

  /** `$sum` of `weight` over all documents. */
  function Total<T>(xs: seq<T>, weight: T -> int): int {
    if xs == [] then 0 else Total(xs[..|xs| - 1], weight) + weight(xs[|xs| - 1])
  }

  /** One output document of a `$group` stage: the key, `{$sum: 1}` and `{$sum: <field>}`. */
  datatype Group<K> = Group(key: K, count: nat, sum: int)

  /** The groups for the keys `ks`, in that order. */
  function GroupsFor<T, K(==)>(xs: seq<T>, key: T -> K, weight: T -> int, ks: seq<K>): (gs: seq<Group<K>>)
    ensures |gs| == |ks|
    ensures forall i :: 0 <= i < |ks| ==>
      gs[i] == Group(ks[i], CountOf(xs, key, ks[i]), SumOf(xs, key, weight, ks[i]))
  {
    if ks == [] then []
    else [Group(ks[0], CountOf(xs, key, ks[0]), SumOf(xs, key, weight, ks[0]))] + GroupsFor(xs, key, weight, ks[1..])
  }

  /** `$group` by `key`, counting and summing `weight`. */
  function GroupBy<T, K(==)>(xs: seq<T>, key: T -> K, weight: T -> int): (gs: seq<Group<K>>)
    ensures |gs| <= |xs|
  {
    GroupsFor(xs, key, weight, Keys(xs, key))
  }

  function CountTotal<K>(gs: seq<Group<K>>): nat {
    if gs == [] then 0 else gs[0].count + CountTotal(gs[1..])
  }

  function SumTotal<K>(gs: seq<Group<K>>): int {
    if gs == [] then 0 else gs[0].sum + SumTotal(gs[1..])
  }

  /** A key with no document has count and sum 0. */
  lemma {:induction false} AbsentKeyIsZero<T, K>(xs: seq<T>, key: T -> K, weight: T -> int, k: K)
    requires forall i :: 0 <= i < |xs| ==> key(xs[i]) != k
    ensures CountOf(xs, key, k) == 0 && SumOf(xs, key, weight, k) == 0
  {
    if xs != [] {
      var init := xs[..|xs| - 1];
      assert forall i :: 0 <= i < |init| ==> init[i] == xs[i];
      AbsentKeyIsZero(init, key, weight, k);
    }
  }

  /** One more document adds one to the count and its weight to the sum of its own group only. */
  lemma {:induction false} GroupsForSnoc<T, K>(init: seq<T>, x: T, key: T -> K, weight: T -> int, ks: seq<K>)
    requires Distinct(ks)
    ensures CountTotal(GroupsFor(init + [x], key, weight, ks))
         == CountTotal(GroupsFor(init, key, weight, ks)) + (if key(x) in ks then 1 else 0)
    ensures SumTotal(GroupsFor(init + [x], key, weight, ks))
         == SumTotal(GroupsFor(init, key, weight, ks)) + (if key(x) in ks then weight(x) else 0)
  {
    if ks != [] {
      var xs := init + [x];
      assert xs[..|xs| - 1] == init && xs[|xs| - 1] == x;
      var rest := ks[1..];
      assert Distinct(rest);
      GroupsForSnoc(init, x, key, weight, rest);
      assert key(x) in ks <==> key(x) == ks[0] || key(x) in rest;
      assert key(x) == ks[0] ==> key(x) !in rest;
    }
  }

  /** Adding a key at the end adds that key's group. */
  lemma {:induction false} GroupsForAppendKey<T, K>(xs: seq<T>, key: T -> K, weight: T -> int, ks: seq<K>, k: K)
    ensures CountTotal(GroupsFor(xs, key, weight, ks + [k])) == CountTotal(GroupsFor(xs, key, weight, ks)) + CountOf(xs, key, k)
    ensures SumTotal(GroupsFor(xs, key, weight, ks + [k])) == SumTotal(GroupsFor(xs, key, weight, ks)) + SumOf(xs, key, weight, k)
  {
    if ks == [] {
      assert [k][1..] == [];
    } else {
      assert (ks + [k])[1..] == ks[1..] + [k];
      GroupsForAppendKey(xs, key, weight, ks[1..], k);
    }
  }

  /**
   * The groups account for every document exactly once: their counts add up
   * to the number of documents and their sums to the sum over all documents.
   */
  lemma {:induction false} GroupsAddUp<T, K>(xs: seq<T>, key: T -> K, weight: T -> int)
    ensures CountTotal(GroupBy(xs, key, weight)) == |xs|
    ensures SumTotal(GroupBy(xs, key, weight)) == Total(xs, weight)
  {
    if xs != [] {
      var init, x := xs[..|xs| - 1], xs[|xs| - 1];
      assert init + [x] == xs;
      var ks := Keys(init, key);
      GroupsAddUp(init, key, weight);
      GroupsForSnoc(init, x, key, weight, ks);
      if key(x) !in ks {
        GroupsForAppendKey(xs, key, weight, ks, key(x));
        AbsentKeyIsZero(init, key, weight, key(x));
      }
    }
  }
}
