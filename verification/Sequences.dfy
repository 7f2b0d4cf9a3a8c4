/** Facts about finite sequences that the models share. */
module Sequences {

  /** The sequence without its element at index `i`. */
  function RemoveAt<T>(s: seq<T>, i: nat): seq<T>
    requires i < |s|
  {
    s[..i] + s[i + 1..]
  }

  /** The sequence with `x` put in front of the element at index `i`. */
  function InsertAt<T>(s: seq<T>, i: nat, x: T): seq<T>
    requires i <= |s|
  {
    s[..i] + [x] + s[i..]
  }

  /** No element occurs twice. */
  ghost predicate NoDup<T>(s: seq<T>) {
    forall i, j :: 0 <= i < j < |s| ==> s[i] != s[j]
  }

  /** JavaScript's `Array.prototype.splice`: both positions are clamped to the length. */
  function Spliced<T>(s: seq<T>, start: nat, deleteCount: nat, items: seq<T>): seq<T> {
    var from := if start < |s| then start else |s|;
    var to := if from + deleteCount < |s| then from + deleteCount else |s|;
    s[..from] + items + s[to..]
  }

  lemma SplitAround<T>(s: seq<T>, k: nat, x: T)
    requires k < |s|
    ensures s == s[..k] + [s[k]] + s[k + 1..]
    ensures s[k := x] == s[..k] + [x] + s[k + 1..]
    ensures RemoveAt(s, k) == s[..k] + [] + s[k + 1..]
  {
  }

  lemma RemoveAtIndex<T>(s: seq<T>, i: nat, j: nat)
    requires i < |s| && j < |s| - 1
    ensures RemoveAt(s, i)[j] == s[if j < i then j else j + 1]
  {
  }

  lemma RemoveAtMultiset<T>(s: seq<T>, i: nat)
    requires i < |s|
    ensures multiset(s) == multiset(RemoveAt(s, i)) + multiset{s[i]}
  {
    assert s == s[..i] + [s[i]] + s[i + 1..];
  }

  lemma InsertAtMultiset<T>(s: seq<T>, i: nat, x: T)
    requires i <= |s|
    ensures multiset(InsertAt(s, i, x)) == multiset(s) + multiset{x}
  {
    assert s == s[..i] + s[i..];
  }

  lemma OnceIfNoDup<T>(s: seq<T>, x: T)
    requires NoDup(s) && x in multiset(s)
    ensures multiset(s)[x] == 1
  {
    var k :| 0 <= k < |s| && s[k] == x;
    RemoveAtMultiset(s, k);
    assert x !in RemoveAt(s, k);
  }

  lemma TwiceIfDup<T>(s: seq<T>, i: nat, j: nat)
    requires i < j < |s| && s[i] == s[j]
    ensures multiset(s)[s[i]] >= 2
  {
    RemoveAtMultiset(s, i);
    assert RemoveAt(s, i)[j - 1] == s[j];
    assert s[i] in multiset(RemoveAt(s, i));
  }

  /** Distinctness only depends on the multiset of elements. */
  lemma NoDupByMultiset<T>(s: seq<T>)
    ensures NoDup(s) <==> forall x :: x in multiset(s) ==> multiset(s)[x] == 1
  {
    if NoDup(s) {
      forall x | x in multiset(s)
        ensures multiset(s)[x] == 1
      {
        OnceIfNoDup(s, x);
      }
    } else {
      var i, j :| 0 <= i < j < |s| && s[i] == s[j];
      TwiceIfDup(s, i, j);
      assert s[i] in multiset(s);
    }
  }

  lemma SameSizeIsEqual<T>(a: multiset<T>, b: multiset<T>)
    requires a <= b && |a| == |b|
    ensures a == b
  {
    assert b == a + (b - a);
    assert |b| == |a| + |b - a|;
  }

  // ----- what a filter chooses -----

  /** `chosen` holds the elements of `all` at these indices, in the order of `all`. */
  ghost predicate Picks<T>(all: seq<T>, at: seq<nat>, chosen: seq<T>) {
    && |at| == |chosen|
    && (forall i, j :: 0 <= i < j < |at| ==> at[i] < at[j])
    && (forall i :: 0 <= i < |at| ==> at[i] < |all| && all[at[i]] == chosen[i])
  }

  lemma PicksSnoc<T>(all: seq<T>, at: seq<nat>, chosen: seq<T>, x: T)
    requires Picks(all, at, chosen)
    ensures Picks(all + [x], at, chosen)
    ensures Picks(all + [x], at + [|all|], chosen + [x])
    ensures forall k :: k in at + [|all|] <==> k in at || k == |all|
  {
  }

  /** The positions of the elements that satisfy a condition. */
  function Positions<T>(s: seq<T>, p: T -> bool): set<nat> {
    set k: nat | k < |s| && p(s[k])
  }

  /** Their number grows by one with a further such element. */
  lemma PositionsSnoc<T>(s: seq<T>, x: T, p: T -> bool)
    ensures Positions([], p) == {}
    ensures |Positions(s + [x], p)| == |Positions(s, p)| + if p(x) then 1 else 0
  {
    assert Positions(s + [x], p) == Positions(s, p) + if p(x) then {|s|} else {};
    assert |s| !in Positions(s, p);
  }
}
