/**
 Grouping a list by a string key in a plain JavaScript object whose properties are lists: the fast
 form, one push per item, against the naive one, a scan of the whole list per key.
 Keys and items are parallel sequences.
 */
module Grouping {
  import opened Sequences

  // ----- the naive form -----

  /** Each key once, in the order of first occurrence. */
  function Distinct(keys: seq<string>): seq<string> {
    if keys == [] then []
    else
      var front, k := Distinct(keys[..|keys| - 1]), keys[|keys| - 1];
      if k in front then front else front + [k]
  }

  /** The items of one key, in order. */
  function Matching<T>(keys: seq<string>, items: seq<T>, k: string): seq<T>
    requires |keys| == |items|
  {
    if keys == [] then []
    else
      var n := |keys| - 1;
      Matching(keys[..n], items[..n], k) + if keys[n] == k then [items[n]] else []
  }

  lemma {:induction false} DistinctHas(keys: seq<string>, k: string)
    ensures k in Distinct(keys) <==> k in keys
  {
    if keys == [] {
    } else {
      var n := |keys| - 1;
      assert keys == keys[..n] + [keys[n]];
      DistinctHas(keys[..n], k);
    }
  }

  lemma {:induction false} DistinctNoDup(keys: seq<string>)
    ensures NoDup(Distinct(keys))
  {
    if keys == [] {
    } else {
      DistinctNoDup(keys[..|keys| - 1]);
    }
  }

  lemma DistinctSnoc(keys: seq<string>, k: string)
    ensures Distinct(keys + [k]) == if k in keys then Distinct(keys) else Distinct(keys) + [k]
  {
    assert (keys + [k])[..|keys|] == keys;
    DistinctHas(keys, k);
  }

  lemma MatchingSnoc<T>(keys: seq<string>, items: seq<T>, key: string, item: T, k: string)
    requires |keys| == |items|
    ensures Matching(keys + [key], items + [item], k) == Matching(keys, items, k) + if key == k then [item] else []
  {
    assert (keys + [key])[..|keys|] == keys && (items + [item])[..|items|] == items;
  }

  lemma {:induction false} MatchingNone<T>(keys: seq<string>, items: seq<T>, k: string)
    requires |keys| == |items|
    ensures k !in keys <==> Matching(keys, items, k) == []
  {
    if keys == [] {
    } else {
      var n := |keys| - 1;
      assert keys == keys[..n] + [keys[n]];
      MatchingNone(keys[..n], items[..n], k);
    }
  }

  /** The items of a key are those at its positions, in the order of the list. */
  lemma {:induction false} MatchingPicks<T>(keys: seq<string>, items: seq<T>, k: string) returns (at: seq<nat>)
    requires |keys| == |items|
    ensures Picks(items, at, Matching(keys, items, k))
    ensures forall i: nat :: i in at <==> i < |keys| && keys[i] == k
  {
    if keys == [] {
      at := [];
    } else {
      var n := |keys| - 1;
      at := MatchingPicks(keys[..n], items[..n], k);
      PicksSnoc(items[..n], at, Matching(keys[..n], items[..n], k), items[n]);
      assert items[..n] + [items[n]] == items;
      if keys[n] == k {
        at := at + [n];
      }
    }
  }

  /** The keys stand in the order of their first positions. */
  lemma {:induction false} DistinctOrder(keys: seq<string>, i: nat, j: nat) returns (a: nat, b: nat)
    requires i < j < |Distinct(keys)|
    ensures a < b < |keys| && keys[a] == Distinct(keys)[i] && keys[b] == Distinct(keys)[j]
    ensures forall k :: 0 <= k < a ==> keys[k] != keys[a]
    ensures forall k :: 0 <= k < b ==> keys[k] != keys[b]
  {
    var n := |keys| - 1;
    var front := keys[..n];
    if j < |Distinct(front)| {
      a, b := DistinctOrder(front, i, j);
      assert front[..a] == keys[..a] && front[..b] == keys[..b];
    } else {
      DistinctHas(front, keys[n]);
      a := FirstPlace(front, i);
      assert front[..a] == keys[..a];
      b := n;
    }
  }

  lemma {:induction false} FirstPlace(keys: seq<string>, i: nat) returns (a: nat)
    requires i < |Distinct(keys)|
    ensures a < |keys| && keys[a] == Distinct(keys)[i] && forall k :: 0 <= k < a ==> keys[k] != keys[a]
  {
    var n := |keys| - 1;
    var front := keys[..n];
    if i < |Distinct(front)| {
      a := FirstPlace(front, i);
      assert front[..a] == keys[..a];
    } else {
      DistinctHas(front, keys[n]);
      a := n;
    }
  }

  // ----- all groups together -----

  function Regrouped<T>(keys: seq<string>, items: seq<T>, order: seq<string>): seq<T>
    requires |keys| == |items|
  {
    if order == [] then [] else Matching(keys, items, order[0]) + Regrouped(keys, items, order[1..])
  }

  lemma MultisetJoin<T>(a: seq<T>, b: seq<T>)
    ensures multiset(a + b) == multiset(a) + multiset(b)
  {
  }

  lemma {:induction false} RegroupedSnoc<T>(keys: seq<string>, items: seq<T>, key: string, item: T, order: seq<string>)
    requires |keys| == |items| && NoDup(order)
    ensures multiset(Regrouped(keys + [key], items + [item], order))
         == multiset(Regrouped(keys, items, order)) + if key in order then multiset{item} else multiset{}
  {
    if order == [] {
    } else {
      var k, rest := order[0], order[1..];
      RegroupedSnoc(keys, items, key, item, rest);
      MatchingSnoc(keys, items, key, item, k);
      var here, here' := Matching(keys, items, k), Matching(keys + [key], items + [item], k);
      var there, there' := Regrouped(keys, items, rest), Regrouped(keys + [key], items + [item], rest);
      MultisetJoin(here, if key == k then [item] else []);
      MultisetJoin(here', there');
      MultisetJoin(here, there);
      assert key in order <==> key == k || key in rest;
      assert k !in rest;
    }
  }

  lemma {:induction false} RegroupedOrderSnoc<T>(keys: seq<string>, items: seq<T>, order: seq<string>, k: string)
    requires |keys| == |items|
    ensures Regrouped(keys, items, order + [k]) == Regrouped(keys, items, order) + Matching(keys, items, k)
  {
    if order == [] {
      assert order + [k] == [k];
    } else {
      assert (order + [k])[1..] == order[1..] + [k];
      RegroupedOrderSnoc(keys, items, order[1..], k);
    }
  }

  lemma {:induction false} RegroupedConcat<T>(keys: seq<string>, items: seq<T>, a: seq<string>, b: seq<string>)
    requires |keys| == |items|
    ensures Regrouped(keys, items, a + b) == Regrouped(keys, items, a) + Regrouped(keys, items, b)
  {
    if a == [] {
      assert a + b == b;
    } else {
      assert (a + b)[1..] == a[1..] + b;
      RegroupedConcat(keys, items, a[1..], b);
    }
  }

  /** Element `m` of group `o` in the concatenation of all groups. */
  lemma RegroupedAt<T>(keys: seq<string>, items: seq<T>, order: seq<string>, o: nat, m: nat)
    requires |keys| == |items| && o < |order| && m < |Matching(keys, items, order[o])|
    ensures var p := |Regrouped(keys, items, order[..o])| + m;
            p < |Regrouped(keys, items, order[..o + 1])| <= |Regrouped(keys, items, order)|
            && Regrouped(keys, items, order)[p] == Matching(keys, items, order[o])[m]
  {
    assert order[..o + 1] == order[..o] + [order[o]];
    RegroupedOrderSnoc(keys, items, order[..o], order[o]);
    assert order == order[..o + 1] + order[o + 1..];
    RegroupedConcat(keys, items, order[..o + 1], order[o + 1..]);
  }

  lemma RegroupedGrows<T>(keys: seq<string>, items: seq<T>, order: seq<string>, i: nat, j: nat)
    requires |keys| == |items| && i <= j <= |order|
    ensures |Regrouped(keys, items, order[..i])| <= |Regrouped(keys, items, order[..j])|
  {
    assert order[..j] == order[..i] + order[i..j];
    RegroupedConcat(keys, items, order[..i], order[i..j]);
  }

  lemma PickedAt<T>(all: seq<T>, at: seq<nat>, chosen: seq<T>, x: nat) returns (m: nat)
    requires Picks(all, at, chosen) && x in at
    ensures m < |chosen| && at[m] == x && x < |all| && chosen[m] == all[x]
  {
    m :| 0 <= m < |at| && at[m] == x;
  }

  lemma OrderAt(keys: seq<string>, x: nat) returns (o: nat)
    requires x < |keys|
    ensures o < |Distinct(keys)| && Distinct(keys)[o] == keys[x]
  {
    DistinctHas(keys, keys[x]);
    o :| 0 <= o < |Distinct(keys)| && Distinct(keys)[o] == keys[x];
  }

  lemma NotBefore(keys: seq<string>, f: nat, first: nat, first': nat)
    requires first' < first < |keys| && f < |keys| && keys[f] == keys[first]
    requires forall k :: 0 <= k < first ==> keys[k] != keys[first]
    ensures keys[first'] in keys[..f]
  {
    assert first <= f;
    assert keys[..f][first'] == keys[first'];
  }

  lemma KeyOrder(keys: seq<string>, o: nat, o': nat, f: nat)
    requires o < |Distinct(keys)| && o' < |Distinct(keys)| && Distinct(keys)[o] != Distinct(keys)[o']
    requires f < |keys| && keys[f] == Distinct(keys)[o] && Distinct(keys)[o'] !in keys[..f]
    ensures o < o'
  {
    if o' < o {
      var first', first := DistinctOrder(keys, o', o);
      NotBefore(keys, f, first, first');
      assert false;
    }
  }

  /** Two increasing sequences of the same numbers are the same. */
  lemma {:induction false} SameIndices(s: seq<nat>, t: seq<nat>)
    requires forall i, j :: 0 <= i < j < |s| ==> s[i] < s[j]
    requires forall i, j :: 0 <= i < j < |t| ==> t[i] < t[j]
    requires |s| == |t| && forall x: nat :: x in s <==> x in t
    ensures s == t
  {
    if s == [] {
    } else {
      var n := |s| - 1;
      assert s[n] in t && t[n] in s;
      assert s[n] == t[n];
      forall x: nat
        ensures x in s[..n] <==> x in t[..n]
      {
        assert x in s <==> x in s[..n] || x == s[n];
        assert x in t <==> x in t[..n] || x == t[n];
        assert s[n] !in s[..n] && t[n] !in t[..n];
      }
      SameIndices(s[..n], t[..n]);
      assert s == s[..n] + [s[n]] && t == t[..n] + [t[n]];
    }
  }

  ghost predicate PlacesOf(keys: seq<string>, at: seq<nat>, k: string) {
    forall i: nat :: i in at <==> i < |keys| && keys[i] == k
  }

  /** Where item `x` stands in the concatenation of all groups: at place `m` of its group. */
  lemma RegroupedPlace<T>(keys: seq<string>, items: seq<T>, x: nat) returns (o: nat, m: nat, p: nat)
    requires |keys| == |items| && x < |keys|
    ensures o < |Distinct(keys)| && Distinct(keys)[o] == keys[x]
    ensures m < |Matching(keys, items, keys[x])|
    ensures forall at :: Picks(items, at, Matching(keys, items, keys[x])) && PlacesOf(keys, at, keys[x]) ==> at[m] == x
    ensures p == |Regrouped(keys, items, Distinct(keys)[..o])| + m < |Regrouped(keys, items, Distinct(keys)[..o + 1])|
    ensures p < |Regrouped(keys, items, Distinct(keys))| && Regrouped(keys, items, Distinct(keys))[p] == items[x]
  {
    o := OrderAt(keys, x);
    var at := MatchingPicks(keys, items, keys[x]);
    m := PickedAt(items, at, Matching(keys, items, keys[x]), x);
    RegroupedAt(keys, items, Distinct(keys), o, m);
    p := |Regrouped(keys, items, Distinct(keys)[..o])| + m;
    forall at' | Picks(items, at', Matching(keys, items, keys[x])) && PlacesOf(keys, at', keys[x])
      ensures at'[m] == x
    {
      SameIndices(at, at');
    }
  }

  /** In the concatenation of all groups, items of one key keep their order. */
  lemma RegroupedKeepsOrder<T>(keys: seq<string>, items: seq<T>, x: nat, y: nat) returns (a: nat, b: nat)
    requires |keys| == |items| && x < y < |keys| && keys[x] == keys[y]
    ensures var all := Regrouped(keys, items, Distinct(keys));
            a < b < |all| && all[a] == items[x] && all[b] == items[y]
  {
    var o, m, p := RegroupedPlace(keys, items, x);
    var o', m', p' := RegroupedPlace(keys, items, y);
    a, b := p, p';
    DistinctNoDup(keys);
    assert o == o';
    var at := MatchingPicks(keys, items, keys[x]);
    assert at[m] == x && at[m'] == y;
  }

  /** And all items of a key stand in front of those of a key whose first position is later. */
  lemma RegroupedByFirst<T>(keys: seq<string>, items: seq<T>, x: nat, y: nat, f: nat) returns (a: nat, b: nat)
    requires |keys| == |items| && x < |keys| && y < |keys| && keys[x] != keys[y]
    requires f < |keys| && keys[f] == keys[x] && keys[y] !in keys[..f]
    ensures var all := Regrouped(keys, items, Distinct(keys));
            a < b < |all| && all[a] == items[x] && all[b] == items[y]
  {
    var o, m, p := RegroupedPlace(keys, items, x);
    var o', m', p' := RegroupedPlace(keys, items, y);
    a, b := p, p';
    KeyOrder(keys, o, o', f);
    RegroupedGrows(keys, items, Distinct(keys), o + 1, o');
  }

  /** The groups of the distinct keys hold every item exactly as often as the list does. */
  lemma {:induction false} GroupsPartition<T>(keys: seq<string>, items: seq<T>)
    requires |keys| == |items|
    ensures multiset(Regrouped(keys, items, Distinct(keys))) == multiset(items)
  {
    if keys == [] {
    } else {
      var n := |keys| - 1;
      var ks, xs, k, x := keys[..n], items[..n], keys[n], items[n];
      assert keys == ks + [k] && items == xs + [x];
      GroupsPartition(ks, xs);
      DistinctSnoc(ks, k);
      DistinctNoDup(ks);
      DistinctHas(ks, k);
      RegroupedSnoc(ks, xs, k, x, Distinct(ks));
      if k !in ks {
        RegroupedOrderSnoc(keys, items, Distinct(ks), k);
        MatchingNone(ks, xs, k);
        MatchingSnoc(ks, xs, k, x, k);
      }
    }
  }

  // ----- the fast form -----

  /** The object as a value: its properties in insertion order, and the list each holds. */
  datatype Index<T> = Index(order: seq<string>, lists: map<string, seq<T>>)

  /** The list of a key, undefined if the key was never pushed. */
  function ListAt<T>(index: Index<T>, key: string): seq<T> {
    if key in index.lists then index.lists[key] else []
  }

  /** One push, which creates the property if it is new. */
  function Pushed<T>(index: Index<T>, key: string, item: T): Index<T> {
    Index(if key in index.lists then index.order else index.order + [key],
          index.lists[key := ListAt(index, key) + [item]])
  }

  /** One push per item. */
  function IndexBy<T>(keys: seq<string>, items: seq<T>): Index<T>
    requires |keys| == |items|
  {
    if keys == [] then Index([], map[])
    else Pushed(IndexBy(keys[..|keys| - 1], items[..|items| - 1]), keys[|keys| - 1], items[|items| - 1])
  }

  /** The fast form computes the naive groups. */
  lemma {:induction false} IndexIsNaive<T>(keys: seq<string>, items: seq<T>)
    requires |keys| == |items|
    ensures var index := IndexBy(keys, items);
            && index.order == Distinct(keys)
            && (forall k :: k in index.lists <==> k in keys)
            && (forall k :: ListAt(index, k) == Matching(keys, items, k))
  {
    if keys == [] {
    } else {
      var n := |keys| - 1;
      assert keys == keys[..n] + [keys[n]];
      IndexIsNaive(keys[..n], items[..n]);
      DistinctHas(keys[..n], keys[n]);
    }
  }

  lemma IndexSnoc<T>(keys: seq<string>, items: seq<T>, key: string, item: T)
    requires |keys| == |items|
    ensures IndexBy(keys + [key], items + [item]) == Pushed(IndexBy(keys, items), key, item)
  {
    assert (keys + [key])[..|keys|] == keys && (items + [item])[..|items|] == items;
  }

  /** The object that a loop fills. */
  class Buckets<T> {
    var order: seq<string>
    var lists: map<string, seq<T>>

    constructor ()
      ensures Contents() == Index([], map[])
    {
      order, lists := [], map[];
    }

    function Contents(): Index<T>
      reads this
    {
      Index(order, lists)
    }

    method Push(key: string, item: T)
      modifies this
      ensures Contents() == Pushed(old(Contents()), key, item)
    {
      if key !in lists {
        order := order + [key];
        lists := lists[key := []];
      }
      lists := lists[key := lists[key] + [item]];
    }
  }
}
