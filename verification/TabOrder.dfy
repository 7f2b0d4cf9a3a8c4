/**
 Placement of extension tabs in a horizontal navigation bar
 (packages/odf/utils/horizontal-nav-tab.tsx).
 */
module TabOrder {
  import opened Options
  import opened Sequences

  /** A `before` or `after` key: not a key of the object, a key holding `undefined`,
      or a key holding the id of a tab. */
  datatype Ref = Missing | Undefined | Names(id: string)

  datatype Tab = Tab(
    id: string, href: string, name: string, component: string, contextId: string,
    before: Ref, after: Ref)

  /** The properties a plugin registers; both references are optional there. */
  datatype Extension = Extension(
    id: string, href: string, name: string, component: string, contextId: string,
    before: Option<string>, after: Option<string>)

  function KeyFor(r: Option<string>): Ref {
    if r.Some? then Names(r.value) else Undefined
  }

  /** The page object built for an extension: both keys are always set. */
  function PageOf(e: Extension): Tab {
    Tab(e.id, e.href, e.name, e.component, e.contextId, KeyFor(e.before), KeyFor(e.after))
  }

  // ----- looking tabs up -----

  predicate HasId(tabs: seq<Tab>, id: string) {
    exists k :: 0 <= k < |tabs| && tabs[k].id == id
  }

  predicate Resolves(tabs: seq<Tab>, r: Ref) {
    r.Names? && HasId(tabs, r.id)
  }

  /** Index of the first tab with the id. */
  function IndexOf(tabs: seq<Tab>, id: string): (k: nat)
    requires HasId(tabs, id)
    ensures k < |tabs| && tabs[k].id == id
    ensures forall j :: 0 <= j < k ==> tabs[j].id != id
  {
    if tabs[0].id == id then 0 else
      assert HasId(tabs[1..], id) by {
        var k :| 0 <= k < |tabs| && tabs[k].id == id;
        assert tabs[1..][k - 1].id == id;
      }
      1 + IndexOf(tabs[1..], id)
  }

  ghost predicate DistinctIds(tabs: seq<Tab>) {
    forall i, j :: 0 <= i < j < |tabs| ==> tabs[i].id != tabs[j].id
  }

  // ----- what one iteration does -----

  /** Takes the tab at `i` out and puts it back directly in front of the tab at `b`. */
  function MoveBefore(tabs: seq<Tab>, i: nat, b: nat): seq<Tab>
    requires i < |tabs| && b < |tabs|
  {
    InsertAt(RemoveAt(tabs, i), if i < b then b - 1 else b, tabs[i])
  }

  /** Index at which the `before` step leaves the tab it moved from `i`. */
  function LandsAt(i: nat, b: nat): nat {
    if i < b then b - 1 else b
  }

  /** Puts `e` directly behind the tab at `a`, and drops whatever tab stands at `i`.
      A tab that stands at 0 and names itself goes to index 1. */
  function PutAfter(tabs: seq<Tab>, i: nat, a: nat, e: Tab): seq<Tab>
    requires i < |tabs| && a < |tabs|
  {
    var rest := RemoveAt(tabs, i);
    var at := if a == 0 then (if |rest| == 0 then 0 else 1) else if i <= a then a else a + 1;
    InsertAt(rest, at, e)
  }

  function BeforeStep(tabs: seq<Tab>, i: nat): (r: seq<Tab>)
    requires i < |tabs|
    ensures |r| == |tabs|
  {
    if Resolves(tabs, tabs[i].before) then MoveBefore(tabs, i, IndexOf(tabs, tabs[i].before.id)) else tabs
  }

  function AfterStep(tabs: seq<Tab>, i: nat, e: Tab): (r: seq<Tab>)
    requires i < |tabs|
    ensures |r| == |tabs|
  {
    if Resolves(tabs, e.after) then PutAfter(tabs, i, IndexOf(tabs, e.after.id), e) else tabs
  }

  /** A `before` key that resolves to nothing ends the iteration. */
  predicate SkipsAfter(tabs: seq<Tab>, i: nat)
    requires i < |tabs|
  {
    tabs[i].before != Missing && !Resolves(tabs, tabs[i].before)
  }

  function Step(tabs: seq<Tab>, i: nat): (r: seq<Tab>)
    requires i < |tabs|
    ensures |r| == |tabs|
  {
    if SkipsAfter(tabs, i) then tabs else AfterStep(BeforeStep(tabs, i), i, tabs[i])
  }

  /** The array after the iterations `i`, `i + 1`, ... */
  function SortFrom(tabs: seq<Tab>, i: nat): (r: seq<Tab>)
    requires i <= |tabs|
    ensures |r| == |tabs|
    decreases |tabs| - i
  {
    if i == |tabs| then tabs else SortFrom(Step(tabs, i), i + 1)
  }

  function Sorted(tabs: seq<Tab>): seq<Tab> {
    SortFrom(tabs, 0)
  }

  // ----- the code -----

  method FindIndex(tabs: seq<Tab>, r: Ref) returns (k: int)
    ensures Resolves(tabs, r) ==> k == IndexOf(tabs, r.id)
    ensures !Resolves(tabs, r) ==> k == -1
  {
    k := 0;
    while k < |tabs|
      invariant 0 <= k <= |tabs|
      invariant forall j :: 0 <= j < k ==> !(r.Names? && tabs[j].id == r.id)
    {
      if r.Names? && tabs[k].id == r.id {
        return;
      }
      k := k + 1;
    }
    k := -1;
  }

  lemma SpliceIn(s: seq<Tab>, p: nat, e: Tab)
    requires p <= |s|
    ensures Spliced(s, p, 0, [e]) == InsertAt(s, p, e)
  {
  }

  lemma SpliceOut(s: seq<Tab>, i: nat)
    requires i < |s|
    ensures Spliced(s, i, 1, []) == RemoveAt(s, i)
  {
  }

  /** Inserting at `p` and then deleting the old element `i`, whose index has shifted if it
      was not left of `p`. */
  lemma InsertThenRemove(s: seq<Tab>, i: nat, p: nat, e: Tab)
    requires i < |s| && p <= |s|
    ensures i >= p ==> RemoveAt(InsertAt(s, p, e), i + 1) == InsertAt(RemoveAt(s, i), p, e)
    ensures i < p ==> RemoveAt(InsertAt(s, p, e), i) == InsertAt(RemoveAt(s, i), p - 1, e)
  {
    if i >= p {
      assert InsertAt(s, p, e)[..i + 1] == s[..p] + [e] + s[p..i];
      assert RemoveAt(s, i)[p..] == s[p..i] + s[i + 1..];
    } else {
      assert InsertAt(s, p, e)[i + 1..] == s[i + 1..p] + [e] + s[p..];
      assert RemoveAt(s, i)[..p - 1] == s[..i] + s[i + 1..p];
    }
  }

  /** Deleting at an unshifted `i == p` undoes the insertion, and so does moving in place. */
  lemma InsertThenUndo(s: seq<Tab>, i: nat, e: Tab)
    requires i < |s| && s[i] == e
    ensures RemoveAt(InsertAt(s, i, e), i) == s == InsertAt(RemoveAt(s, i), i, e)
  {
  }

  /** The splices of a step, insertion at `p` first, whatever side of `p` the index `i` is on. */
  lemma SplicesMove(s: seq<Tab>, i: nat, p: nat, e: Tab)
    requires i < |s| && p <= |s|
    ensures i >= p ==> Spliced(Spliced(s, p, 0, [e]), i + 1, 1, []) == InsertAt(RemoveAt(s, i), p, e)
    ensures i < p ==> Spliced(Spliced(s, p, 0, [e]), i, 1, []) == InsertAt(RemoveAt(s, i), p - 1, e)
    ensures i == p && s[i] == e ==> Spliced(Spliced(s, p, 0, [e]), i, 1, []) == InsertAt(RemoveAt(s, i), i, e)
  {
    SpliceIn(s, p, e);
    SpliceOut(InsertAt(s, p, e), if i >= p then i + 1 else i);
    InsertThenRemove(s, i, p, e);
    if i == p && s[i] == e {
      SpliceOut(InsertAt(s, p, e), i);
      InsertThenUndo(s, i, e);
    }
  }

  /** The splices of a step that deletes first, used when the target stands at index 0. */
  lemma SplicesToFront(s: seq<Tab>, i: nat, e: Tab)
    requires i < |s|
    ensures Spliced(Spliced(s, i, 1, []), 0, 0, [e]) == InsertAt(RemoveAt(s, i), 0, e)
    ensures Spliced(Spliced(s, i, 1, []), 1, 0, [e]) == PutAfter(s, i, 0, e)
  {
    SpliceOut(s, i);
    SpliceIn(RemoveAt(s, i), 0, e);
  }

  lemma SplicesBefore(s: seq<Tab>, i: nat, b: nat)
    requires i < |s| && b < |s|
    ensures Spliced(Spliced(s, b, 0, [s[i]]), if i > b then i + 1 else i, 1, []) == MoveBefore(s, i, b)
  {
    SplicesMove(s, i, b, s[i]);
  }

  lemma SplicesAfter(s: seq<Tab>, i: nat, a: nat, e: Tab)
    requires i < |s| && 0 < a < |s|
    ensures Spliced(Spliced(s, a + 1, 0, [e]), if i > a then i + 1 else i, 1, []) == PutAfter(s, i, a, e)
  {
    SplicesMove(s, i, a + 1, e);
  }

  class TabArray {
    var tabs: seq<Tab>

    constructor (initial: seq<Tab>)
      ensures tabs == initial
    {
      tabs := initial;
    }

    method Splice(start: nat, deleteCount: nat, items: seq<Tab>)
      modifies this
      ensures tabs == Spliced(old(tabs), start, deleteCount, items)
    {
      tabs := Spliced(tabs, start, deleteCount, items);
    }

    method PlaceBefore(i: nat, element: Tab, placeAt: nat)
      requires i < |tabs| && placeAt < |tabs| && tabs[i] == element
      modifies this
      ensures tabs == MoveBefore(old(tabs), i, placeAt)
    {
      if placeAt == 0 {
        SplicesToFront(tabs, i, element);
        Splice(i, 1, []);
        Splice(0, 0, [element]);
      } else {
        SplicesBefore(tabs, i, placeAt);
        Splice(placeAt, 0, [element]);
        if i > placeAt {
          Splice(i + 1, 1, []);
        } else {
          Splice(i, 1, []);
        }
      }
    }

    method PlaceBehind(i: nat, element: Tab, placeAt: nat)
      requires i < |tabs| && 0 < placeAt < |tabs|
      modifies this
      ensures tabs == PutAfter(old(tabs), i, placeAt, element)
    {
      SplicesAfter(tabs, i, placeAt, element);
      Splice(placeAt + 1, 0, [element]);
      if i > placeAt {
        Splice(i + 1, 1, []);
      } else {
        Splice(i, 1, []);
      }
    }

    method PlaceAfter(i: nat, element: Tab, placeAt: nat)
      requires i < |tabs| && placeAt < |tabs|
      modifies this
      ensures tabs == PutAfter(old(tabs), i, placeAt, element)
    {
      if placeAt == 0 {
        SplicesToFront(tabs, i, element);
        Splice(i, 1, []);
        Splice(1, 0, [element]);
      } else {
        PlaceBehind(i, element, placeAt);
      }
    }

    /** The body of the loop of `sortPages`; returning early is its `continue`. */
    method Iterate(i: nat)
      requires i < |tabs|
      modifies this
      ensures tabs == Step(old(tabs), i)
    {
      var element := tabs[i];
      if element.before != Missing {
        var placeAt := FindIndex(tabs, element.before);
        if placeAt == -1 {
          return;
        }
        PlaceBefore(i, element, placeAt);
      }
      assert tabs == BeforeStep(old(tabs), i);
      if element.after != Missing {
        var placeAt := FindIndex(tabs, element.after);
        if placeAt == -1 {
          return;
        }
        PlaceAfter(i, element, placeAt);
      }
    }

    method SortPages()
      modifies this
      ensures tabs == Sorted(old(tabs))
    {
      var i := 0;
      while i < |tabs|
        invariant i <= |tabs| == |old(tabs)|
        invariant SortFrom(tabs, i) == Sorted(old(tabs))
      {
        Iterate(i);
        i := i + 1;
      }
    }
  }

  // ----- what survives sorting, for every input -----

  /** The `before` step moved the tab away from `i` and an `after` step follows: the `after`
      step then deletes the tab that has taken its place at `i`. */
  predicate Clobbers(tabs: seq<Tab>, i: nat)
    requires i < |tabs|
  {
    && Resolves(tabs, tabs[i].before)
    && LandsAt(i, IndexOf(tabs, tabs[i].before.id)) != i
    && Resolves(tabs, tabs[i].after)
  }

  /** No iteration from `i` on clobbers a tab. */
  predicate CleanFrom(tabs: seq<Tab>, i: nat)
    requires i <= |tabs|
    decreases |tabs| - i
  {
    i == |tabs| || (!Clobbers(tabs, i) && CleanFrom(Step(tabs, i), i + 1))
  }

  lemma SameTabs(s: seq<Tab>, t: seq<Tab>)
    requires multiset(s) == multiset(t)
    ensures |s| == |t|
    ensures forall x :: x in s <==> x in t
    ensures forall id :: HasId(s, id) <==> HasId(t, id)
    ensures NoDup(s) ==> NoDup(t)
    ensures DistinctIds(s) ==> DistinctIds(t)
  {
    assert |s| == |multiset(s)| == |multiset(t)| == |t|;
    forall x
      ensures x in s <==> x in t
    {
      assert x in s <==> x in multiset(s);
      assert x in t <==> x in multiset(t);
    }
    forall id
      ensures HasId(s, id) <==> HasId(t, id)
    {
      if k :| 0 <= k < |s| && s[k].id == id { assert s[k] in t; }
      if k :| 0 <= k < |t| && t[k].id == id { assert t[k] in s; }
    }
    NoDupByMultiset(s);
    NoDupByMultiset(t);
    if DistinctIds(s) {
      forall i, j | 0 <= i < j < |t|
        ensures t[i].id != t[j].id
      {
        assert t[i] in s && t[j] in s && t[i] != t[j];
      }
    }
  }

  lemma MoveBeforePermutes(tabs: seq<Tab>, i: nat, b: nat)
    requires i < |tabs| && b < |tabs|
    ensures multiset(MoveBefore(tabs, i, b)) == multiset(tabs)
    ensures MoveBefore(tabs, i, b)[LandsAt(i, b)] == tabs[i]
  {
    RemoveAtMultiset(tabs, i);
    InsertAtMultiset(RemoveAt(tabs, i), LandsAt(i, b), tabs[i]);
  }

  lemma PutAfterContents(tabs: seq<Tab>, i: nat, a: nat, e: Tab)
    requires i < |tabs| && a < |tabs|
    ensures multiset(PutAfter(tabs, i, a, e)) + multiset{tabs[i]} == multiset(tabs) + multiset{e}
  {
    var rest := RemoveAt(tabs, i);
    RemoveAtMultiset(tabs, i);
    InsertAtMultiset(rest, if a == 0 then (if |rest| == 0 then 0 else 1) else if i <= a then a else a + 1, e);
  }

  lemma BeforeStepPermutes(tabs: seq<Tab>, i: nat)
    requires i < |tabs|
    ensures multiset(BeforeStep(tabs, i)) == multiset(tabs)
    ensures Resolves(tabs, tabs[i].before) ==>
              BeforeStep(tabs, i)[LandsAt(i, IndexOf(tabs, tabs[i].before.id))] == tabs[i]
    ensures !Resolves(tabs, tabs[i].before) ==> BeforeStep(tabs, i)[i] == tabs[i]
  {
    if Resolves(tabs, tabs[i].before) {
      MoveBeforePermutes(tabs, i, IndexOf(tabs, tabs[i].before.id));
    }
  }

  /** The tab that iteration `i` overwrites with the tab it moves: itself, unless it clobbers. */
  function Dropped(tabs: seq<Tab>, i: nat): Tab
    requires i < |tabs|
  {
    if Clobbers(tabs, i) then BeforeStep(tabs, i)[i] else tabs[i]
  }

  /** The exact effect of one iteration on the contents: one tab is replaced by a second copy
      of the tab the iteration moves, and without clobbering these two are the same. */
  lemma StepContents(tabs: seq<Tab>, i: nat)
    requires i < |tabs|
    ensures multiset(Step(tabs, i)) + multiset{Dropped(tabs, i)} == multiset(tabs) + multiset{tabs[i]}
    ensures NoDup(tabs) && Clobbers(tabs, i) ==> Dropped(tabs, i) != tabs[i]
  {
    var e := tabs[i];
    var mid := BeforeStep(tabs, i);
    BeforeStepPermutes(tabs, i);
    SameTabs(tabs, mid);
    if !SkipsAfter(tabs, i) && Resolves(mid, e.after) {
      PutAfterContents(mid, i, IndexOf(mid, e.after.id), e);
    }
  }

  lemma CleanStepPermutes(tabs: seq<Tab>, i: nat)
    requires i < |tabs| && !Clobbers(tabs, i)
    ensures multiset(Step(tabs, i)) == multiset(tabs)
  {
    StepContents(tabs, i);
    assert multiset(Step(tabs, i)) == multiset(Step(tabs, i)) + multiset{tabs[i]} - multiset{tabs[i]};
  }

  lemma StepKeepsWithin(tabs: seq<Tab>, i: nat, x: Tab)
    requires i < |tabs| && x in Step(tabs, i)
    ensures x in tabs
  {
    StepContents(tabs, i);
    assert x in multiset(Step(tabs, i)) + multiset{Dropped(tabs, i)};
    assert x in multiset(tabs) + multiset{tabs[i]};
  }

  lemma LosesOne(after: multiset<Tab>, before: multiset<Tab>, lost: Tab, moved: Tab)
    requires after + multiset{lost} == before + multiset{moved} && lost != moved && before[lost] == 1
    ensures lost !in after
  {
    assert (after + multiset{lost})[lost] == after[lost] + 1;
  }

  lemma ClobberLoses(tabs: seq<Tab>, i: nat)
    requires i < |tabs| && NoDup(tabs) && Clobbers(tabs, i)
    ensures Dropped(tabs, i) in tabs && Dropped(tabs, i) !in Step(tabs, i)
  {
    var lost := Dropped(tabs, i);
    BeforeStepPermutes(tabs, i);
    SameTabs(tabs, BeforeStep(tabs, i));
    StepContents(tabs, i);
    NoDupByMultiset(tabs);
    LosesOne(multiset(Step(tabs, i)), multiset(tabs), lost, tabs[i]);
  }

  /** Sorting never invents a tab. */
  lemma {:induction false} SortFromKeepsWithin(tabs: seq<Tab>, i: nat, x: Tab)
    requires i <= |tabs| && x in SortFrom(tabs, i)
    ensures x in tabs
    decreases |tabs| - i
  {
    if i == |tabs| {
    } else {
      SortFromKeepsWithin(Step(tabs, i), i + 1, x);
      StepKeepsWithin(tabs, i, x);
    }
  }

  lemma ClobberIsFinal(tabs: seq<Tab>, i: nat)
    requires i < |tabs| && NoDup(tabs) && Clobbers(tabs, i)
    ensures Dropped(tabs, i) in tabs && Dropped(tabs, i) !in SortFrom(tabs, i)
  {
    ClobberLoses(tabs, i);
    if Dropped(tabs, i) in SortFrom(tabs, i) {
      SortFromKeepsWithin(Step(tabs, i), i + 1, Dropped(tabs, i));
    }
  }

  lemma ClobberIsNoPermutation(tabs: seq<Tab>, i: nat)
    requires i < |tabs| && NoDup(tabs) && Clobbers(tabs, i)
    ensures multiset(SortFrom(tabs, i)) != multiset(tabs)
  {
    ClobberIsFinal(tabs, i);
    var lost := Dropped(tabs, i);
    assert lost in multiset(tabs) && lost !in multiset(SortFrom(tabs, i));
  }

  /** Sorting distinct tabs returns a permutation of them exactly when no iteration clobbers one. */
  lemma {:induction false} SortFromPermutesIff(tabs: seq<Tab>, i: nat)
    requires i <= |tabs| && NoDup(tabs)
    ensures multiset(SortFrom(tabs, i)) == multiset(tabs) <==> CleanFrom(tabs, i)
    decreases |tabs| - i
  {
    if i == |tabs| {
    } else if Clobbers(tabs, i) {
      ClobberIsNoPermutation(tabs, i);
    } else {
      var next := Step(tabs, i);
      assert multiset(next) == multiset(tabs) && NoDup(next) by {
        CleanStepPermutes(tabs, i);
        SameTabs(tabs, next);
      }
      SortFromPermutesIff(next, i + 1);
    }
  }

  predicate NamesTwo(tabs: seq<Tab>, t: Tab) {
    Resolves(tabs, t.before) && Resolves(tabs, t.after)
  }

  lemma {:induction false} CleanWithoutDoubleNaming(tabs: seq<Tab>, i: nat)
    requires i <= |tabs|
    requires forall t :: t in tabs ==> !NamesTwo(tabs, t)
    ensures CleanFrom(tabs, i)
    ensures multiset(SortFrom(tabs, i)) == multiset(tabs)
    decreases |tabs| - i
  {
    if i == |tabs| {
    } else {
      assert tabs[i] in tabs;
      CleanStepPermutes(tabs, i);
      SameTabs(tabs, Step(tabs, i));
      CleanWithoutDoubleNaming(Step(tabs, i), i + 1);
    }
  }

  /** A tab naming an existing tab in both keys can cost another tab its place. */
  lemma DoubleNamingLosesATab()
    ensures exists tabs ::
              DistinctIds(tabs) && (exists t :: t in tabs && t !in Sorted(tabs))
  {
    var a := Tab("a", "", "", "", "", Missing, Missing);
    var b := Tab("b", "", "", "", "", Missing, Missing);
    var x := Tab("x", "", "", "", "", Names("a"), Names("b"));
    var tabs := [a, b, x];
    assert Step(tabs, 0) == tabs;
    assert Step(tabs, 1) == tabs;
    assert tabs[0].id == "a" && tabs[1].id == "b";
    assert HasId(tabs, "a") && IndexOf(tabs, "a") == 0;
    var mid := [x, a, b];
    assert BeforeStep(tabs, 2) == mid;
    assert mid[2].id == "b" && mid[0].id != "b" && mid[1].id != "b";
    assert HasId(mid, "b") && IndexOf(mid, "b") == 2;
    assert Step(tabs, 2) == [x, a, x];
    assert SortFrom(tabs, 2) == SortFrom([x, a, x], 3) == [x, a, x];
    assert SortFrom(tabs, 0) == SortFrom(tabs, 1) == SortFrom(tabs, 2);
    assert Sorted(tabs) == [x, a, x];
    assert b in tabs && b !in Sorted(tabs);
  }

  // ----- where one iteration puts its tab -----

  lemma StepIsMove(state: seq<Tab>, i: nat)
    requires i < |state| && Resolves(state, state[i].before) && !Resolves(state, state[i].after)
    ensures Step(state, i) == MoveBefore(state, i, IndexOf(state, state[i].before.id))
  {
    BeforeStepPermutes(state, i);
    SameTabs(state, BeforeStep(state, i));
  }

  /** `t` stands directly behind the tab with the id. */
  ghost predicate DirectlyBehind(tabs: seq<Tab>, id: string, t: Tab) {
    exists k :: 0 <= k && k + 1 < |tabs| && tabs[k].id == id && tabs[k + 1] == t
  }

  /** `t` stands directly in front of the tab with the id. */
  ghost predicate DirectlyBefore(tabs: seq<Tab>, id: string, t: Tab) {
    exists k :: 0 <= k && k + 1 < |tabs| && tabs[k] == t && tabs[k + 1].id == id
  }

  lemma MovedInFront(tabs: seq<Tab>, i: nat, b: nat)
    requires i < |tabs| && b < |tabs| && i != b
    ensures DirectlyBefore(MoveBefore(tabs, i, b), tabs[b].id, tabs[i])
    ensures RemoveAt(MoveBefore(tabs, i, b), LandsAt(i, b)) == RemoveAt(tabs, i)
  {
    var at := LandsAt(i, b);
    var moved := MoveBefore(tabs, i, b);
    assert moved[at] == tabs[i];
    assert moved[at + 1] == RemoveAt(tabs, i)[at] == tabs[b];
  }

  lemma PutBehind(tabs: seq<Tab>, i: nat, a: nat)
    requires i < |tabs| && a < |tabs| && i != a
    ensures DirectlyBehind(PutAfter(tabs, i, a, tabs[i]), tabs[a].id, tabs[i])
    ensures exists k: nat :: k < |tabs| && PutAfter(tabs, i, a, tabs[i])[k] == tabs[i]
                          && RemoveAt(PutAfter(tabs, i, a, tabs[i]), k) == RemoveAt(tabs, i)
  {
    var put := PutAfter(tabs, i, a, tabs[i]);
    var at := if i < a then a else a + 1;
    assert put == InsertAt(RemoveAt(tabs, i), at, tabs[i]);
    assert put[at] == tabs[i];
    assert put[at - 1] == RemoveAt(tabs, i)[at - 1] == tabs[a];
    assert RemoveAt(put, at) == RemoveAt(tabs, i);
    assert put[at - 1 + 1] == tabs[i];
  }

  /** An iteration whose tab names another tab in `before` only puts it directly in front of that tab. */
  lemma StepBefore(tabs: seq<Tab>, i: nat)
    requires i < |tabs| && DistinctIds(tabs)
    requires Resolves(tabs, tabs[i].before) && tabs[i].before != Names(tabs[i].id) && !Resolves(tabs, tabs[i].after)
    ensures DirectlyBefore(Step(tabs, i), tabs[i].before.id, tabs[i])
  {
    StepIsMove(tabs, i);
    MovedInFront(tabs, i, IndexOf(tabs, tabs[i].before.id));
  }

  /** One whose tab has no `before` key and names another tab in `after` puts it directly behind that tab. */
  lemma StepBehind(tabs: seq<Tab>, i: nat)
    requires i < |tabs| && DistinctIds(tabs)
    requires tabs[i].before == Missing && Resolves(tabs, tabs[i].after) && tabs[i].after != Names(tabs[i].id)
    ensures DirectlyBehind(Step(tabs, i), tabs[i].after.id, tabs[i])
  {
    PutBehind(tabs, i, IndexOf(tabs, tabs[i].after.id));
  }

  /** The tab of the iteration has moved, at most, and all others stand in their order. */
  ghost predicate MovesOnly(before: seq<Tab>, after: seq<Tab>, i: nat)
    requires i < |before|
  {
    exists k: nat :: k < |after| && after[k] == before[i] && RemoveAt(after, k) == RemoveAt(before, i)
  }

  lemma StaysOnly(tabs: seq<Tab>, i: nat)
    requires i < |tabs|
    ensures MovesOnly(tabs, tabs, i)
  {
    assert i < |tabs| && tabs[i] == tabs[i] && RemoveAt(tabs, i) == RemoveAt(tabs, i);
  }

  lemma BeforeMovesOnly(tabs: seq<Tab>, i: nat, b: nat)
    requires i < |tabs| && b < |tabs|
    ensures MovesOnly(tabs, MoveBefore(tabs, i, b), i)
  {
    var k, moved := LandsAt(i, b), MoveBefore(tabs, i, b);
    assert moved == InsertAt(RemoveAt(tabs, i), k, tabs[i]);
    assert moved[k] == tabs[i] && RemoveAt(moved, k) == RemoveAt(tabs, i);
  }

  lemma AfterMovesOnly(tabs: seq<Tab>, i: nat, a: nat)
    requires i < |tabs| && a < |tabs| && i != a
    ensures MovesOnly(tabs, PutAfter(tabs, i, a, tabs[i]), i)
  {
    PutBehind(tabs, i, a);
  }

  /** Unless a tab names itself or two others, its iteration moves no other tab. */
  lemma StepMovesOnly(tabs: seq<Tab>, i: nat)
    requires i < |tabs| && DistinctIds(tabs)
    requires !NamesTwo(tabs, tabs[i]) && tabs[i].after != Names(tabs[i].id)
    ensures MovesOnly(tabs, Step(tabs, i), i)
  {
    if Resolves(tabs, tabs[i].before) {
      StepIsMove(tabs, i);
      BeforeMovesOnly(tabs, i, IndexOf(tabs, tabs[i].before.id));
    } else if tabs[i].before == Missing && Resolves(tabs, tabs[i].after) {
      AfterMovesOnly(tabs, i, IndexOf(tabs, tabs[i].after.id));
    } else {
      StaysOnly(tabs, i);
    }
  }

  // ----- where the tabs end up -----

  /** A tab that sorting leaves alone, given the ids that resolve in `all`. */
  predicate Inert(all: seq<Tab>, t: Tab) {
    if t.before == Missing then !Resolves(all, t.after) else !Resolves(all, t.before)
  }

  /** A tab that names nothing in `before`, or a static page there and nothing in `after`.
      Its `before` key is present, as in every page built for an extension. */
  predicate Placeable(all: seq<Tab>, pages: seq<Tab>, t: Tab) {
    && t.before != Missing
    && (Resolves(all, t.before) ==> Resolves(pages, t.before) && !Resolves(all, t.after))
  }

  /** The tabs, in order, that name `id` in `before`. */
  function Block(tabs: seq<Tab>, id: string): seq<Tab> {
    if tabs == [] then []
    else
      var t := tabs[|tabs| - 1];
      Block(tabs[..|tabs| - 1], id) + if t.before == Names(id) then [t] else []
  }

  /** The tabs, in order, whose `before` names none of the pages. */
  function Loose(tabs: seq<Tab>, pages: seq<Tab>): seq<Tab> {
    if tabs == [] then []
    else
      var t := tabs[|tabs| - 1];
      Loose(tabs[..|tabs| - 1], pages) + if Resolves(pages, t.before) then [] else [t]
  }

  /** Each page behind the block of tabs that name it in `before`. */
  function Woven(pages: seq<Tab>, tabs: seq<Tab>): seq<Tab> {
    if pages == [] then [] else Block(tabs, pages[0].id) + [pages[0]] + Woven(pages[1..], tabs)
  }

  /** The promised layout: blocks and pages, then the tabs that are not placed before a page. */
  function Arranged(pages: seq<Tab>, tabs: seq<Tab>): seq<Tab> {
    Woven(pages, tabs) + Loose(tabs, pages)
  }

  /** Index of page `j` in the woven pages. */
  function PageAt(pages: seq<Tab>, tabs: seq<Tab>, j: nat): nat
    requires j < |pages|
  {
    |Block(tabs, pages[0].id)| + if j == 0 then 0 else 1 + PageAt(pages[1..], tabs, j - 1)
  }

  lemma BlockSnoc(tabs: seq<Tab>, e: Tab, id: string)
    ensures Block(tabs + [e], id) == if e.before == Names(id) then Block(tabs, id) + [e] else Block(tabs, id)
  {
    assert (tabs + [e])[..|tabs|] == tabs;
  }

  lemma LooseSnoc(tabs: seq<Tab>, e: Tab, pages: seq<Tab>)
    ensures Loose(tabs + [e], pages)
         == if Resolves(pages, e.before) then Loose(tabs, pages) else Loose(tabs, pages) + [e]
  {
    assert (tabs + [e])[..|tabs|] == tabs;
  }

  lemma {:induction false} WovenNothing(pages: seq<Tab>)
    ensures Woven(pages, []) == pages
  {
    if pages == [] {
    } else {
      WovenNothing(pages[1..]);
    }
  }

  lemma {:induction false} WovenPageAt(pages: seq<Tab>, tabs: seq<Tab>, j: nat)
    requires j < |pages|
    ensures PageAt(pages, tabs, j) < |Woven(pages, tabs)|
    ensures Woven(pages, tabs)[PageAt(pages, tabs, j)] == pages[j]
  {
    if j == 0 {
    } else {
      WovenPageAt(pages[1..], tabs, j - 1);
    }
  }

  lemma {:induction false} WovenMiss(pages: seq<Tab>, tabs: seq<Tab>, e: Tab)
    requires !Resolves(pages, e.before)
    ensures Woven(pages, tabs + [e]) == Woven(pages, tabs)
  {
    if pages == [] {
    } else {
      BlockSnoc(tabs, e, pages[0].id);
      assert e.before != Names(pages[0].id);
      assert forall k :: 0 <= k < |pages[1..]| ==> pages[1..][k] == pages[k + 1];
      WovenMiss(pages[1..], tabs, e);
    }
  }

  lemma InsertBehind(a: seq<Tab>, b: seq<Tab>, p: nat, e: Tab)
    requires p <= |b|
    ensures InsertAt(a + b, |a| + p, e) == a + InsertAt(b, p, e)
  {
    assert (a + b)[..|a| + p] == a + b[..p] && (a + b)[|a| + p..] == b[p..];
  }

  lemma InsertInFront(a: seq<Tab>, page: Tab, b: seq<Tab>, e: Tab)
    ensures InsertAt(a + [page] + b, |a|, e) == a + [e] + [page] + b
  {
  }

  lemma WovenHitFirst(pages: seq<Tab>, tabs: seq<Tab>, e: Tab)
    requires DistinctIds(pages) && pages != [] && e.before == Names(pages[0].id)
    ensures |Block(tabs, pages[0].id)| <= |Woven(pages, tabs)|
    ensures Woven(pages, tabs + [e]) == InsertAt(Woven(pages, tabs), |Block(tabs, pages[0].id)|, e)
  {
    BlockSnoc(tabs, e, pages[0].id);
    assert !Resolves(pages[1..], e.before);
    WovenMiss(pages[1..], tabs, e);
    var block, rest := Block(tabs, pages[0].id), Woven(pages[1..], tabs);
    assert Woven(pages, tabs + [e]) == block + [e] + [pages[0]] + rest;
    InsertInFront(block, pages[0], rest, e);
  }

  lemma InsertLater(a: seq<Tab>, page: Tab, b: seq<Tab>, b': seq<Tab>, p: nat, e: Tab)
    requires p <= |b| && b' == InsertAt(b, p, e)
    ensures a + [page] + b' == InsertAt(a + [page] + b, |a| + 1 + p, e)
  {
    InsertBehind(a + [page], b, p, e);
  }

  lemma WovenCons(pages: seq<Tab>, tabs: seq<Tab>)
    requires pages != []
    ensures Woven(pages, tabs) == Block(tabs, pages[0].id) + [pages[0]] + Woven(pages[1..], tabs)
  {
  }

  /** `after` is `before` with `e` put in at index `p`. */
  ghost predicate Inserted(before: seq<Tab>, after: seq<Tab>, p: nat, e: Tab) {
    p <= |before| && after == InsertAt(before, p, e)
  }

  lemma InsertedLater(a: seq<Tab>, page: Tab, b: seq<Tab>, b': seq<Tab>, p: nat, e: Tab, w: seq<Tab>, w': seq<Tab>)
    requires Inserted(b, b', p, e) && w == a + [page] + b && w' == a + [page] + b'
    ensures Inserted(w, w', |a| + 1 + p, e)
  {
    InsertLater(a, page, b, b', p, e);
  }

  lemma WovenLater(pages: seq<Tab>, tabs: seq<Tab>, e: Tab)
    requires pages != [] && e.before != Names(pages[0].id)
    ensures Woven(pages, tabs) == Block(tabs, pages[0].id) + [pages[0]] + Woven(pages[1..], tabs)
    ensures Woven(pages, tabs + [e]) == Block(tabs, pages[0].id) + [pages[0]] + Woven(pages[1..], tabs + [e])
  {
    BlockSnoc(tabs, e, pages[0].id);
    WovenCons(pages, tabs);
    WovenCons(pages, tabs + [e]);
  }

  /** A further tab naming page `j` enters the layout directly in front of that page. */
  lemma {:induction false} WovenHit(pages: seq<Tab>, tabs: seq<Tab>, e: Tab, j: nat)
    requires DistinctIds(pages) && j < |pages| && e.before == Names(pages[j].id)
    ensures Inserted(Woven(pages, tabs), Woven(pages, tabs + [e]), PageAt(pages, tabs, j), e)
  {
    if j == 0 {
      WovenHitFirst(pages, tabs, e);
    } else {
      assert pages[j].id != pages[0].id;
      WovenHit(pages[1..], tabs, e, j - 1);
      WovenLater(pages, tabs, e);
      InsertedLater(Block(tabs, pages[0].id), pages[0], Woven(pages[1..], tabs), Woven(pages[1..], tabs + [e]),
                    PageAt(pages[1..], tabs, j - 1), e, Woven(pages, tabs), Woven(pages, tabs + [e]));
    }
  }

  lemma IndexOfUnique(tabs: seq<Tab>, k: nat)
    requires DistinctIds(tabs) && k < |tabs|
    ensures HasId(tabs, tabs[k].id) && IndexOf(tabs, tabs[k].id) == k
  {
  }

  lemma HitMoves(woven: seq<Tab>, loose: seq<Tab>, e: Tab, queue: seq<Tab>, p: nat)
    requires p < |woven|
    ensures MoveBefore(woven + loose + [e] + queue, |woven + loose|, p) == InsertAt(woven, p, e) + loose + queue
  {
    var state := woven + loose + [e] + queue;
    assert RemoveAt(state, |woven + loose|) == woven + loose + queue;
  }

  /** Iteration on a tab that names page `j`: it moves from behind the layout into it. */
  lemma StepHit(pages: seq<Tab>, tabs: seq<Tab>, e: Tab, queue: seq<Tab>, j: nat)
    requires var state := Arranged(pages, tabs) + [e] + queue;
             DistinctIds(state) && Placeable(state, pages, e)
    requires DistinctIds(pages) && j < |pages| && e.before == Names(pages[j].id)
    ensures var state := Arranged(pages, tabs) + [e] + queue;
            Step(state, |Arranged(pages, tabs)|) == Arranged(pages, tabs + [e]) + queue
  {
    var woven, loose := Woven(pages, tabs), Loose(tabs, pages);
    var state := woven + loose + [e] + queue;
    var i := |woven + loose|;
    var p := PageAt(pages, tabs, j);
    assert state[i] == e;
    assert Step(state, i) == MoveBefore(state, i, p) by {
      WovenPageAt(pages, tabs, j);
      assert state[p] == pages[j];
      IndexOfUnique(state, p);
      StepIsMove(state, i);
    }
    assert Arranged(pages, tabs + [e]) == InsertAt(woven, p, e) + loose by {
      LooseSnoc(tabs, e, pages);
      WovenHit(pages, tabs, e, j);
    }
    WovenPageAt(pages, tabs, j);
    HitMoves(woven, loose, e, queue, p);
  }

  /** Iteration on a tab that names no page: it already stands behind the layout. */
  lemma StepMiss(pages: seq<Tab>, tabs: seq<Tab>, e: Tab, queue: seq<Tab>)
    requires Placeable(Arranged(pages, tabs) + [e] + queue, pages, e) && !Resolves(pages, e.before)
    ensures var state := Arranged(pages, tabs) + [e] + queue;
            Step(state, |Arranged(pages, tabs)|) == Arranged(pages, tabs + [e]) + queue == state
  {
    LooseSnoc(tabs, e, pages);
    WovenMiss(pages, tabs, e);
    var woven, loose := Woven(pages, tabs), Loose(tabs, pages);
    assert woven + (loose + [e]) == (woven + loose) + [e];
    var state := Arranged(pages, tabs) + [e] + queue;
    assert state[|Arranged(pages, tabs)|] == e;
    assert !Resolves(state, e.before);
  }

  lemma StepArranges(pages: seq<Tab>, tabs: seq<Tab>, e: Tab, queue: seq<Tab>)
    requires var state := Arranged(pages, tabs) + [e] + queue;
             DistinctIds(state) && Placeable(state, pages, e)
    requires DistinctIds(pages)
    ensures var state := Arranged(pages, tabs) + [e] + queue;
            var next := Arranged(pages, tabs + [e]) + queue;
            && Step(state, |Arranged(pages, tabs)|) == next && multiset(next) == multiset(state)
            && |Arranged(pages, tabs + [e])| == |Arranged(pages, tabs)| + 1
  {
    var state := Arranged(pages, tabs) + [e] + queue;
    if Resolves(pages, e.before) {
      var j :| 0 <= j < |pages| && pages[j].id == e.before.id;
      StepHit(pages, tabs, e, queue, j);
    } else {
      StepMiss(pages, tabs, e, queue);
    }
    assert state[|Arranged(pages, tabs)|] == e;
    CleanStepPermutes(state, |Arranged(pages, tabs)|);
  }

  lemma SortFromStep(tabs: seq<Tab>, next: seq<Tab>, i: nat)
    requires i < |tabs| && Step(tabs, i) == next
    ensures SortFrom(tabs, i) == SortFrom(next, i + 1)
  {
  }

  lemma PlaceableSame(s: seq<Tab>, t: seq<Tab>, pages: seq<Tab>, tab: Tab)
    requires Placeable(s, pages, tab) && forall id :: HasId(s, id) <==> HasId(t, id)
    ensures Placeable(t, pages, tab)
  {
  }

  /** One iteration leads from one layout, with its queue, to the next. */
  lemma SortTailStep(pages: seq<Tab>, tabs: seq<Tab>, e: Tab, rest: seq<Tab>)
    requires var state := Arranged(pages, tabs) + [e] + rest;
             DistinctIds(state) && Placeable(state, pages, e) && forall t :: t in rest ==> Placeable(state, pages, t)
    requires DistinctIds(pages)
    ensures var state, next := Arranged(pages, tabs) + [e] + rest, Arranged(pages, tabs + [e]) + rest;
            && DistinctIds(next) && (forall t :: t in rest ==> Placeable(next, pages, t))
            && multiset(next) == multiset(state)
            && SortFrom(state, |Arranged(pages, tabs)|) == SortFrom(next, |Arranged(pages, tabs + [e])|)
  {
    var state, next := Arranged(pages, tabs) + [e] + rest, Arranged(pages, tabs + [e]) + rest;
    StepArranges(pages, tabs, e, rest);
    SortFromStep(state, next, |Arranged(pages, tabs)|);
    SameTabs(state, next);
    forall t | t in rest
      ensures Placeable(next, pages, t)
    {
      PlaceableSame(state, next, pages, t);
    }
  }

  lemma {:induction false} SortTail(pages: seq<Tab>, tabs: seq<Tab>, queue: seq<Tab>)
    requires DistinctIds(Arranged(pages, tabs) + queue) && DistinctIds(pages)
    requires forall t :: t in queue ==> Placeable(Arranged(pages, tabs) + queue, pages, t)
    ensures SortFrom(Arranged(pages, tabs) + queue, |Arranged(pages, tabs)|) == Arranged(pages, tabs + queue)
    ensures multiset(Arranged(pages, tabs + queue)) == multiset(Arranged(pages, tabs) + queue)
    decreases |queue|
  {
    if queue == [] {
      assert Arranged(pages, tabs) + queue == Arranged(pages, tabs) && tabs + queue == tabs;
    } else {
      var e, rest := queue[0], queue[1..];
      assert e in queue && forall t :: t in rest ==> t in queue;
      assert Arranged(pages, tabs) + queue == Arranged(pages, tabs) + [e] + rest;
      assert tabs + queue == tabs + [e] + rest;
      SortTailStep(pages, tabs, e, rest);
      SortTail(pages, tabs + [e], rest);
    }
  }

  /** Iteration `i` changes nothing. */
  predicate Stays(all: seq<Tab>, i: nat)
    requires i < |all|
  {
    SortFrom(all, i) == SortFrom(all, i + 1)
  }

  lemma InertStays(all: seq<Tab>, i: nat)
    requires i < |all| && Inert(all, all[i])
    ensures Stays(all, i)
  {
    assert Step(all, i) == all;
    SortFromStep(all, all, i);
  }

  lemma {:induction false} SortPrefix(all: seq<Tab>, n: nat)
    requires n <= |all|
    requires forall k :: 0 <= k < n ==> Stays(all, k)
    ensures SortFrom(all, 0) == SortFrom(all, n)
  {
    if n == 0 {
    } else {
      SortPrefix(all, n - 1);
      assert Stays(all, n - 1);
    }
  }

  /** Sorting pages that stay put, followed by placeable tabs, gives exactly the promised layout. */
  lemma SortedIsArranged(pages: seq<Tab>, tabs: seq<Tab>)
    requires DistinctIds(pages + tabs)
    requires forall p :: p in pages ==> Inert(pages + tabs, p)
    requires forall t :: t in tabs ==> Placeable(pages + tabs, pages, t)
    ensures Sorted(pages + tabs) == Arranged(pages, tabs)
    ensures multiset(Arranged(pages, tabs)) == multiset(pages + tabs)
  {
    var all := pages + tabs;
    assert pages == all[..|pages|];
    forall i, j | 0 <= i < j < |pages|
      ensures pages[i].id != pages[j].id
    {
      assert all[i].id != all[j].id;
    }
    forall k | 0 <= k < |pages|
      ensures Stays(all, k)
    {
      assert all[k] == pages[k];
      InertStays(all, k);
    }
    SortPrefix(all, |pages|);
    WovenNothing(pages);
    assert Arranged(pages, []) == pages && [] + tabs == tabs;
    SortTail(pages, [], tabs);
  }

  // ----- when a tab is lost, by the names alone -----

  /** The tab names in `before` only what stands left of it, or nothing; without a `before` key it
      names nothing in `after` either. */
  predicate NamesBack(all: seq<Tab>, j: nat)
    requires j < |all|
  {
    if all[j].before == Missing then !Resolves(all, all[j].after)
    else Resolves(all, all[j].before) ==> Resolves(all[..j], all[j].before)
  }

  lemma FrontHas(front: seq<Tab>, back: seq<Tab>, id: string)
    requires HasId(front, id)
    ensures HasId(front + back, id) && IndexOf(front + back, id) < |front|
  {
    var k := IndexOf(front, id);
    assert (front + back)[k] == front[k];
  }

  lemma MoveWithinFront(front: seq<Tab>, e: Tab, queue: seq<Tab>, b: nat)
    requires b < |front|
    ensures MoveBefore(front + [e] + queue, |front|, b) == InsertAt(front, b, e) + queue
  {
    assert RemoveAt(front + [e] + queue, |front|) == front + queue;
  }

  lemma CleanFromStep(tabs: seq<Tab>, next: seq<Tab>, i: nat)
    requires i < |tabs| && !Clobbers(tabs, i) && Step(tabs, i) == next
    ensures CleanFrom(tabs, i) <==> CleanFrom(next, i + 1)
  {
  }

  /** One iteration on a tab that names only what stands left of it: it clobbers exactly if the tab
      names two, and otherwise leaves the tabs right of it in place. */
  lemma StepBack(front: seq<Tab>, e: Tab, queue: seq<Tab>) returns (front': seq<Tab>)
    requires DistinctIds(front + [e] + queue)
    requires var state := front + [e] + queue;
             if e.before == Missing then !Resolves(state, e.after)
             else Resolves(state, e.before) ==> Resolves(front, e.before)
    ensures var state := front + [e] + queue;
            && (Clobbers(state, |front|) <==> NamesTwo(state, e))
            && (!NamesTwo(state, e) ==> Step(state, |front|) == front' + queue)
    ensures multiset(front') == multiset(front + [e])
  {
    var state, i := front + [e] + queue, |front|;
    assert state[i] == e;
    if Resolves(state, e.before) {
      FrontHas(front, [e] + queue, e.before.id);
      assert state == front + ([e] + queue);
      var b := IndexOf(state, e.before.id);
      front' := InsertAt(front, b, e);
      InsertAtMultiset(front, b, e);
      MoveWithinFront(front, e, queue, b);
      if !NamesTwo(state, e) {
        StepIsMove(state, i);
      }
    } else {
      front' := front + [e];
    }
  }

  lemma ResolvesSame(s: seq<Tab>, t: seq<Tab>, e: Tab)
    requires forall id :: HasId(s, id) <==> HasId(t, id)
    ensures Resolves(s, e.before) <==> Resolves(t, e.before)
    ensures Resolves(s, e.after) <==> Resolves(t, e.after)
    ensures NamesTwo(s, e) <==> NamesTwo(t, e)
  {
  }

  /** The array before iteration `i`: the tabs up to there in some order, the others untouched. */
  ghost predicate Midway(all: seq<Tab>, front: seq<Tab>, i: nat) {
    i <= |all| && |front| == i && multiset(front) == multiset(all[..i])
  }

  lemma MidwaySame(all: seq<Tab>, front: seq<Tab>, i: nat)
    requires Midway(all, front, i) && DistinctIds(all)
    ensures DistinctIds(front + all[i..])
    ensures forall id :: HasId(front + all[i..], id) <==> HasId(all, id)
    ensures forall id :: HasId(front, id) <==> HasId(all[..i], id)
  {
    assert all == all[..i] + all[i..];
    assert multiset(front + all[i..]) == multiset(all);
    SameTabs(all, front + all[i..]);
    SameTabs(front, all[..i]);
  }

  lemma MidwayNext(all: seq<Tab>, front: seq<Tab>, i: nat, front': seq<Tab>)
    requires Midway(all, front, i) && i < |all| && multiset(front') == multiset(front + [all[i]])
    ensures Midway(all, front', i + 1)
  {
    assert all[..i + 1] == all[..i] + [all[i]];
    assert |multiset(front')| == |multiset(front + [all[i]])|;
  }

  lemma {:induction false} CleanFromIff(all: seq<Tab>, front: seq<Tab>, i: nat)
    requires DistinctIds(all) && Midway(all, front, i)
    requires forall j :: i <= j < |all| ==> NamesBack(all, j)
    ensures CleanFrom(front + all[i..], i) <==> forall j :: i <= j < |all| ==> !NamesTwo(all, all[j])
    decreases |all| - i
  {
    var state := front + all[i..];
    if i == |all| {
      assert state == front;
    } else {
      var e, queue := all[i], all[i + 1..];
      MidwaySame(all, front, i);
      assert state == front + [e] + queue;
      assert NamesBack(all, i);
      ResolvesSame(state, all, e);
      ResolvesSame(front, all[..i], e);
      var front' := StepBack(front, e, queue);
      if !NamesTwo(all, e) {
        MidwayNext(all, front, i, front');
        CleanFromStep(state, front' + queue, i);
        CleanFromIff(all, front', i + 1);
      }
    }
  }

  lemma CleanIff(all: seq<Tab>)
    requires DistinctIds(all) && forall j :: 0 <= j < |all| ==> NamesBack(all, j)
    ensures CleanFrom(all, 0) <==> forall j :: 0 <= j < |all| ==> !NamesTwo(all, all[j])
  {
    CleanFromIff(all, [], 0);
    assert [] + all[0..] == all;
  }

  lemma NobodyNamesTwo(all: seq<Tab>)
    ensures (forall j :: 0 <= j < |all| ==> !NamesTwo(all, all[j])) <==> forall t :: t in all ==> !NamesTwo(all, t)
  {
    forall j | 0 <= j < |all|
      ensures all[j] in all
    {
    }
  }

  /** If no tab names in `before` what stands right of it, sorting loses no tab exactly if none names
      an existing tab in both keys. */
  lemma LosesNoneIff(all: seq<Tab>)
    requires DistinctIds(all) && forall j :: 0 <= j < |all| ==> NamesBack(all, j)
    ensures CleanFrom(all, 0) <==> forall t :: t in all ==> !NamesTwo(all, t)
    ensures multiset(Sorted(all)) == multiset(all) <==> forall t :: t in all ==> !NamesTwo(all, t)
  {
    assert CleanFrom(all, 0) <==> forall t :: t in all ==> !NamesTwo(all, t) by {
      CleanIff(all);
      NobodyNamesTwo(all);
    }
    assert multiset(Sorted(all)) == multiset(all) <==> CleanFrom(all, 0) by {
      SortFromPermutesIff(all, 0);
    }
  }

  lemma CleanWhenStill(all: seq<Tab>, i: nat)
    requires i <= |all| && forall k :: i <= k < |all| ==> Step(all, k) == all && !Clobbers(all, k)
    ensures CleanFrom(all, i)
    decreases |all| - i
  {
    if i == |all| {
    } else {
      CleanFromStep(all, all, i);
      CleanWhenStill(all, i + 1);
    }
  }

  lemma ForwardStays(p: Tab, x: Tab, y: Tab)
    requires p == Tab("p", "", "", "", "", Missing, Missing) && y == Tab("y", "", "", "", "", Undefined, Undefined)
    requires x == Tab("x", "", "", "", "", Names("y"), Names("p"))
    ensures var all := [p, x, y];
            && DistinctIds(all) && NamesTwo(all, x)
            && forall k :: 0 <= k < |all| ==> Step(all, k) == all && !Clobbers(all, k)
  {
    var all := [p, x, y];
    assert all[0].id == "p" && all[1].id == "x" && all[2].id == "y";
    assert HasId(all, "p") && HasId(all, "y") && IndexOf(all, "p") == 0 && IndexOf(all, "y") == 2;
    assert BeforeStep(all, 1) == all;
    assert Step(all, 1) == all;
  }

  /** A tab that names what stands right of it may also name a second one without any loss: where the
      target is the next tab, nothing moves before the `after` step. */
  lemma NamingForwardCanKeep() returns (all: seq<Tab>, t: Tab)
    ensures DistinctIds(all) && t in all && NamesTwo(all, t) && CleanFrom(all, 0)
  {
    var p := Tab("p", "", "", "", "", Missing, Missing);
    t := Tab("x", "", "", "", "", Names("y"), Names("p"));
    var y := Tab("y", "", "", "", "", Undefined, Undefined);
    all := [p, t, y];
    assert all[1] == t;
    ForwardStays(p, t, y);
    CleanWhenStill(all, 0);
  }

  // ----- what the layout means for pages and tabs -----

  lemma {:induction false} PageAtIncreases(pages: seq<Tab>, tabs: seq<Tab>, i: nat, j: nat)
    requires i < j < |pages|
    ensures PageAt(pages, tabs, i) < PageAt(pages, tabs, j)
  {
    if i == 0 {
    } else {
      PageAtIncreases(pages[1..], tabs, i - 1, j - 1);
    }
  }

  lemma {:induction false} BlockEndsAtPage(pages: seq<Tab>, tabs: seq<Tab>, j: nat)
    requires j < |pages|
    ensures var p, block := PageAt(pages, tabs, j), Block(tabs, pages[j].id);
            |block| <= p <= |Woven(pages, tabs)| && Woven(pages, tabs)[p - |block|..p] == block
  {
    WovenPageAt(pages, tabs, j);
    if j == 0 {
    } else {
      BlockEndsAtPage(pages[1..], tabs, j - 1);
      var head := Block(tabs, pages[0].id) + [pages[0]];
      var p, block := PageAt(pages[1..], tabs, j - 1), Block(tabs, pages[j].id);
      assert pages[1..][j - 1] == pages[j];
      assert Woven(pages, tabs) == head + Woven(pages[1..], tabs);
      assert Woven(pages, tabs)[|head| + p - |block|..|head| + p] == Woven(pages[1..], tabs)[p - |block|..p];
    }
  }

  lemma {:induction false} BlockHas(tabs: seq<Tab>, id: string, t: Tab)
    ensures t in Block(tabs, id) <==> t in tabs && t.before == Names(id)
  {
    if tabs == [] {
    } else {
      var n := |tabs| - 1;
      BlockHas(tabs[..n], id, t);
      assert tabs == tabs[..n] + [tabs[n]];
    }
  }

  lemma {:induction false} LooseHas(tabs: seq<Tab>, pages: seq<Tab>, t: Tab)
    requires t in tabs && !Resolves(pages, t.before)
    ensures t in Loose(tabs, pages)
  {
    var n := |tabs| - 1;
    assert tabs == tabs[..n] + [tabs[n]];
    if t == tabs[n] {
    } else {
      LooseHas(tabs[..n], pages, t);
    }
  }

  /** The tabs naming the page in `before` stand, in registration order and with nothing in
      between, right in front of it. */
  ghost predicate PageStands(tabs: seq<Tab>, page: Tab, result: seq<Tab>) {
    && HasId(result, page.id)
    && var block, p := Block(tabs, page.id), IndexOf(result, page.id);
       |block| <= p && result[p - |block|..p] == block && result[p] == page
  }

  ghost predicate Precedes(result: seq<Tab>, id: string, id': string) {
    HasId(result, id) && HasId(result, id') && IndexOf(result, id) < IndexOf(result, id')
  }

  /** Nothing is lost or doubled, pages keep their order with their blocks in front of them, and
      every tab without a page to go before stands behind all pages. */
  ghost predicate LaidOut(pages: seq<Tab>, tabs: seq<Tab>, result: seq<Tab>) {
    && DistinctIds(result)
    && multiset(result) == multiset(pages + tabs)
    && (forall p :: p in pages ==> PageStands(tabs, p, result))
    && (forall i, j :: 0 <= i < j < |pages| ==> Precedes(result, pages[i].id, pages[j].id))
    && (forall t, p :: t in tabs && !Resolves(pages, t.before) && p in pages ==> Precedes(result, p.id, t.id))
  }

  lemma PageInPlace(pages: seq<Tab>, tabs: seq<Tab>, j: nat)
    requires DistinctIds(Arranged(pages, tabs)) && j < |pages|
    ensures PageStands(tabs, pages[j], Arranged(pages, tabs))
    ensures IndexOf(Arranged(pages, tabs), pages[j].id) == PageAt(pages, tabs, j) < |Woven(pages, tabs)|
  {
    var woven, p := Woven(pages, tabs), PageAt(pages, tabs, j);
    var block := Block(tabs, pages[j].id);
    var result := Arranged(pages, tabs);
    WovenPageAt(pages, tabs, j);
    assert result[p] == pages[j];
    IndexOfUnique(result, p);
    assert |block| <= p && result[p - |block|..p] == block by {
      BlockEndsAtPage(pages, tabs, j);
      assert result[p - |block|..p] == woven[p - |block|..p];
    }
  }

  lemma IndexBehind(front: seq<Tab>, back: seq<Tab>, t: Tab)
    requires DistinctIds(front + back) && t in back
    ensures HasId(front + back, t.id) && IndexOf(front + back, t.id) >= |front|
  {
    var k :| 0 <= k < |back| && back[k] == t;
    assert (front + back)[|front| + k] == t;
    IndexOfUnique(front + back, |front| + k);
  }

  lemma LooseInPlace(pages: seq<Tab>, tabs: seq<Tab>, t: Tab)
    requires DistinctIds(Arranged(pages, tabs)) && t in tabs && !Resolves(pages, t.before)
    ensures HasId(Arranged(pages, tabs), t.id)
    ensures IndexOf(Arranged(pages, tabs), t.id) >= |Woven(pages, tabs)|
  {
    LooseHas(tabs, pages, t);
    IndexBehind(Woven(pages, tabs), Loose(tabs, pages), t);
  }

  lemma ArrangedIsLaidOut(pages: seq<Tab>, tabs: seq<Tab>)
    requires DistinctIds(Arranged(pages, tabs))
    requires multiset(Arranged(pages, tabs)) == multiset(pages + tabs)
    ensures LaidOut(pages, tabs, Arranged(pages, tabs))
  {
    var result := Arranged(pages, tabs);
    forall p | p in pages
      ensures PageStands(tabs, p, result)
    {
      var j :| 0 <= j < |pages| && pages[j] == p;
      PageInPlace(pages, tabs, j);
    }
    forall i, j | 0 <= i < j < |pages|
      ensures Precedes(result, pages[i].id, pages[j].id)
    {
      PageInPlace(pages, tabs, i);
      PageInPlace(pages, tabs, j);
      PageAtIncreases(pages, tabs, i, j);
    }
    forall t, p | t in tabs && !Resolves(pages, t.before) && p in pages
      ensures Precedes(result, p.id, t.id)
    {
      var j :| 0 <= j < |pages| && pages[j] == p;
      LooseInPlace(pages, tabs, t);
      PageInPlace(pages, tabs, j);
    }
  }

  lemma SortedIsLaidOut(pages: seq<Tab>, tabs: seq<Tab>)
    requires DistinctIds(pages + tabs)
    requires forall p :: p in pages ==> Inert(pages + tabs, p)
    requires forall t :: t in tabs ==> Placeable(pages + tabs, pages, t)
    ensures LaidOut(pages, tabs, Sorted(pages + tabs))
  {
    SortedIsArranged(pages, tabs);
    SameTabs(pages + tabs, Arranged(pages, tabs));
    ArrangedIsLaidOut(pages, tabs);
  }

  lemma {:induction false} LooseInOrder(tabs: seq<Tab>, pages: seq<Tab>, i: nat, j: nat) returns (a: nat, b: nat)
    requires i < j < |tabs| && !Resolves(pages, tabs[i].before) && !Resolves(pages, tabs[j].before)
    ensures a < b < |Loose(tabs, pages)| && Loose(tabs, pages)[a] == tabs[i] && Loose(tabs, pages)[b] == tabs[j]
  {
    var n := |tabs| - 1;
    if j == n {
      assert tabs[..n][i] == tabs[i];
      LooseHas(tabs[..n], pages, tabs[i]);
      a :| 0 <= a < |Loose(tabs[..n], pages)| && Loose(tabs[..n], pages)[a] == tabs[i];
      b := |Loose(tabs[..n], pages)|;
    } else {
      a, b := LooseInOrder(tabs[..n], pages, i, j);
    }
  }

  lemma BackKeepsOrder(front: seq<Tab>, back: seq<Tab>, a: nat, b: nat)
    requires DistinctIds(front + back) && a < b < |back|
    ensures Precedes(front + back, back[a].id, back[b].id)
  {
    IndexOfUnique(front + back, |front| + a);
    IndexOfUnique(front + back, |front| + b);
  }

  /** Tabs without a page to go before keep their registration order. */
  lemma LooseKeepOrder(pages: seq<Tab>, tabs: seq<Tab>, i: nat, j: nat)
    requires DistinctIds(Arranged(pages, tabs))
    requires i < j < |tabs| && !Resolves(pages, tabs[i].before) && !Resolves(pages, tabs[j].before)
    ensures Precedes(Arranged(pages, tabs), tabs[i].id, tabs[j].id)
  {
    var a, b := LooseInOrder(tabs, pages, i, j);
    BackKeepsOrder(Woven(pages, tabs), Loose(tabs, pages), a, b);
  }

  lemma BlockPrecedes(tabs: seq<Tab>, result: seq<Tab>, p: Tab, y: Tab, id: string)
    requires DistinctIds(result) && PageStands(tabs, p, result) && Precedes(result, p.id, id)
    requires y in tabs && y.before == Names(p.id)
    ensures Precedes(result, y.id, id)
  {
    var block, at := Block(tabs, p.id), IndexOf(result, p.id);
    BlockHas(tabs, p.id, y);
    var k :| 0 <= k < |block| && block[k] == y;
    assert result[at - |block|..at][k] == y;
    IndexOfUnique(result, at - |block| + k);
  }

  /** A tab that goes before a page stands in front of every tab that does not. */
  lemma BlocksPrecede(pages: seq<Tab>, tabs: seq<Tab>, result: seq<Tab>, y: Tab, t: Tab)
    requires LaidOut(pages, tabs, result) && y in tabs && t in tabs
    requires Resolves(pages, y.before) && !Resolves(pages, t.before)
    ensures Precedes(result, y.id, t.id)
  {
    BlockPrecedes(tabs, result, pages[IndexOf(pages, y.before.id)], y, t.id);
  }

  lemma ArrangedPrecedes(pages: seq<Tab>, tabs: seq<Tab>, i: nat, j: nat)
    requires LaidOut(pages, tabs, Arranged(pages, tabs))
    requires i < |tabs| && j < |tabs| && !Resolves(pages, tabs[j].before)
    ensures Precedes(Arranged(pages, tabs), tabs[i].id, tabs[j].id) <==> Resolves(pages, tabs[i].before) || i < j
  {
    if Resolves(pages, tabs[i].before) {
      BlocksPrecede(pages, tabs, Arranged(pages, tabs), tabs[i], tabs[j]);
    } else if i < j {
      LooseKeepOrder(pages, tabs, i, j);
    } else if j < i {
      LooseKeepOrder(pages, tabs, j, i);
    }
  }

  /** What stands in front of a tab that goes before no page: the pages, the tabs that go before
      one, and otherwise only what was registered earlier. */
  lemma PrecedesIff(pages: seq<Tab>, tabs: seq<Tab>, i: nat, j: nat)
    requires DistinctIds(pages + tabs)
    requires forall p :: p in pages ==> Inert(pages + tabs, p)
    requires forall t :: t in tabs ==> Placeable(pages + tabs, pages, t)
    requires i < |tabs| && j < |tabs| && !Resolves(pages, tabs[j].before)
    ensures Precedes(Sorted(pages + tabs), tabs[i].id, tabs[j].id) <==> Resolves(pages, tabs[i].before) || i < j
  {
    assert LaidOut(pages, tabs, Arranged(pages, tabs)) && Sorted(pages + tabs) == Arranged(pages, tabs) by {
      SortedIsArranged(pages, tabs);
      SortedIsLaidOut(pages, tabs);
    }
    ArrangedPrecedes(pages, tabs, i, j);
  }

  lemma PagesPrecede(pages: seq<Tab>, tabs: seq<Tab>, k: nat, t: Tab)
    requires DistinctIds(pages + tabs)
    requires forall p :: p in pages ==> Inert(pages + tabs, p)
    requires forall u :: u in tabs ==> Placeable(pages + tabs, pages, u)
    requires k < |pages| && t in tabs && !Resolves(pages, t.before)
    ensures Precedes(Sorted(pages + tabs), pages[k].id, t.id)
  {
    SortedIsLaidOut(pages, tabs);
    assert pages[k] in pages;
  }

  /** When tab `named` of all precedes tab `j` of the extensions, which goes before no page. */
  lemma FollowsAt(pages: seq<Tab>, tabs: seq<Tab>, named: nat, j: nat)
    requires DistinctIds(pages + tabs)
    requires forall p :: p in pages ==> Inert(pages + tabs, p)
    requires forall u :: u in tabs ==> Placeable(pages + tabs, pages, u)
    requires |pages| <= named < |pages + tabs| && j < |tabs| && !Resolves(pages, tabs[j].before)
    ensures Precedes(Sorted(pages + tabs), (pages + tabs)[named].id, tabs[j].id) <==>
              Resolves(pages, (pages + tabs)[named].before) || named < |pages| + j
  {
    var i := named - |pages|;
    var precedes, beforePage := Precedes(Sorted(pages + tabs), tabs[i].id, tabs[j].id), Resolves(pages, tabs[i].before);
    assert precedes <==> beforePage || i < j by {
      PrecedesIff(pages, tabs, i, j);
    }
    assert (pages + tabs)[named] == tabs[i];
  }

  lemma FollowsIff(pages: seq<Tab>, tabs: seq<Tab>, t: Tab)
    requires DistinctIds(pages + tabs)
    requires forall p :: p in pages ==> Inert(pages + tabs, p)
    requires forall u :: u in tabs ==> Placeable(pages + tabs, pages, u)
    requires t in tabs && !Resolves(pages, t.before) && Resolves(pages + tabs, t.after)
    ensures HasId(pages + tabs, t.id)
    ensures var named := IndexOf(pages + tabs, t.after.id);
            Precedes(Sorted(pages + tabs), t.after.id, t.id) <==>
              named < |pages| || Resolves(pages, (pages + tabs)[named].before) || named < IndexOf(pages + tabs, t.id)
  {
    var all := pages + tabs;
    var j :| 0 <= j < |tabs| && tabs[j] == t;
    assert HasId(all, t.id) && IndexOf(all, t.id) == |pages| + j by {
      assert all[|pages| + j] == t;
      IndexOfUnique(all, |pages| + j);
    }
    var named := IndexOf(all, t.after.id);
    if named < |pages| {
      assert Precedes(Sorted(all), t.after.id, t.id) by {
        assert pages[named] == all[named];
        PagesPrecede(pages, tabs, named, t);
      }
    } else {
      FollowsAt(pages, tabs, named, j);
    }
  }

  lemma {:induction false} WovenEnds(pages: seq<Tab>, tabs: seq<Tab>)
    requires pages != []
    ensures Woven(pages, tabs) != [] && Woven(pages, tabs)[|Woven(pages, tabs)| - 1] == pages[|pages| - 1]
  {
    if |pages| == 1 {
      assert Woven(pages[1..], tabs) == [];
    } else {
      WovenEnds(pages[1..], tabs);
      assert pages[1..][|pages| - 2] == pages[|pages| - 1];
    }
  }

  lemma WovenEndsWithPage(pages: seq<Tab>, tabs: seq<Tab>)
    ensures Woven(pages, tabs) == [] <==> pages == []
    ensures pages != [] ==> Woven(pages, tabs)[|Woven(pages, tabs)| - 1] == pages[|pages| - 1]
  {
    if pages != [] {
      WovenEnds(pages, tabs);
    }
  }

  /** What stands directly in front of element `k` of the tail, which occurs nowhere else, is
      found in the tail or is the last element of the front. */
  lemma BehindInTail(front: seq<Tab>, back: seq<Tab>, k: nat, id: string)
    requires k < |back| && back[k] !in front
    requires forall i :: 0 <= i < |back| && i != k ==> back[i] != back[k]
    ensures DirectlyBehind(front + back, id, back[k]) <==>
              if k > 0 then back[k - 1].id == id else front != [] && front[|front| - 1].id == id
  {
    var all := front + back;
    assert forall i :: 0 <= i < |all| && all[i] == back[k] ==> i == |front| + k;
    if |front| + k > 0 {
      var before := |front| + k - 1;
      assert all[before] == if k > 0 then back[k - 1] else front[|front| - 1];
      assert all[before + 1] == back[k];
    }
  }

  lemma PagesInWoven(pages: seq<Tab>, tabs: seq<Tab>, i: nat)
    requires i < |pages|
    ensures pages[i] in Woven(pages, tabs)
  {
    WovenPageAt(pages, tabs, i);
  }

  lemma OnceInTail(front: seq<Tab>, back: seq<Tab>, k: nat)
    requires DistinctIds(front + back) && k < |back|
    ensures back[k] !in front
    ensures forall i :: 0 <= i < |back| && i != k ==> back[i] != back[k]
  {
    var all := front + back;
    assert all[|front| + k] == back[k];
    forall i | 0 <= i < |front|
      ensures front[i] != back[k]
    {
      assert all[i] == front[i];
    }
    forall i | 0 <= i < |back| && i != k
      ensures back[i] != back[k]
    {
      assert all[|front| + i] == back[i];
    }
  }

  lemma TailIsNoPage(pages: seq<Tab>, tabs: seq<Tab>, k: nat)
    requires DistinctIds(Arranged(pages, tabs)) && k < |Loose(tabs, pages)|
    ensures Loose(tabs, pages)[k] !in pages
  {
    OnceInTail(Woven(pages, tabs), Loose(tabs, pages), k);
    forall i | 0 <= i < |pages|
      ensures pages[i] != Loose(tabs, pages)[k]
    {
      PagesInWoven(pages, tabs, i);
    }
  }

  lemma SameLast(s: seq<Tab>, t: seq<Tab>, back: seq<Tab>, k: nat, id: string)
    requires k < |back| && back[k] !in s && back[k] !in t
    requires forall i :: 0 <= i < |back| && i != k ==> back[i] != back[k]
    requires (s == [] <==> t == []) && (s != [] ==> s[|s| - 1] == t[|t| - 1])
    ensures DirectlyBehind(s + back, id, back[k]) <==> DirectlyBehind(t + back, id, back[k])
  {
    BehindInTail(s, back, k, id);
    BehindInTail(t, back, k, id);
  }

  lemma SameLastOf(woven: seq<Tab>, pages: seq<Tab>, loose: seq<Tab>, k: nat, id: string)
    requires DistinctIds(woven + loose) && k < |loose| && loose[k] !in pages
    requires (woven == [] <==> pages == []) && (pages != [] ==> woven[|woven| - 1] == pages[|pages| - 1])
    ensures DirectlyBehind(woven + loose, id, loose[k]) <==> DirectlyBehind(pages + loose, id, loose[k])
  {
    OnceInTail(woven, loose, k);
    SameLast(woven, pages, loose, k, id);
  }

  lemma ArrangedBehindAt(pages: seq<Tab>, tabs: seq<Tab>, id: string, k: nat)
    requires DistinctIds(Arranged(pages, tabs)) && k < |Loose(tabs, pages)|
    ensures var t := Loose(tabs, pages)[k];
            DirectlyBehind(Arranged(pages, tabs), id, t) <==> DirectlyBehind(pages + Loose(tabs, pages), id, t)
  {
    TailIsNoPage(pages, tabs, k);
    WovenEndsWithPage(pages, tabs);
    SameLastOf(Woven(pages, tabs), pages, Loose(tabs, pages), k, id);
  }

  lemma ArrangedBehind(pages: seq<Tab>, tabs: seq<Tab>, id: string, t: Tab)
    requires DistinctIds(Arranged(pages, tabs)) && t in tabs && !Resolves(pages, t.before)
    ensures DirectlyBehind(Arranged(pages, tabs), id, t) <==> DirectlyBehind(pages + Loose(tabs, pages), id, t)
  {
    LooseHas(tabs, pages, t);
    var k :| 0 <= k < |Loose(tabs, pages)| && Loose(tabs, pages)[k] == t;
    ArrangedBehindAt(pages, tabs, id, k);
  }

  /** A tab that goes before no page stands directly behind a tab exactly if it does so where it is
      registered, once the tabs that do go before a page are taken out. */
  lemma DirectlyBehindIff(pages: seq<Tab>, tabs: seq<Tab>, id: string, t: Tab)
    requires DistinctIds(pages + tabs)
    requires forall p :: p in pages ==> Inert(pages + tabs, p)
    requires forall u :: u in tabs ==> Placeable(pages + tabs, pages, u)
    requires t in tabs && !Resolves(pages, t.before)
    ensures DirectlyBehind(Sorted(pages + tabs), id, t) <==> DirectlyBehind(pages + Loose(tabs, pages), id, t)
  {
    assert DistinctIds(Arranged(pages, tabs)) && Sorted(pages + tabs) == Arranged(pages, tabs) by {
      SortedIsArranged(pages, tabs);
      SameTabs(pages + tabs, Arranged(pages, tabs));
    }
    ArrangedBehind(pages, tabs, id, t);
  }

  /** In a page built for an extension, `after` has no effect unless `before` resolves: the
      `before` key is always present, and one that resolves to nothing ends the iteration. */
  lemma AfterAloneNeverMoves(pages: seq<Tab>, tabs: seq<Tab>)
    requires forall p :: p in pages ==> Inert(pages + tabs, p)
    requires forall t :: t in tabs ==> t.before != Missing && !Resolves(pages + tabs, t.before)
    ensures Sorted(pages + tabs) == pages + tabs
  {
    var all := pages + tabs;
    forall k | 0 <= k < |all|
      ensures Stays(all, k)
    {
      assert all[k] in pages || all[k] in tabs;
      InertStays(all, k);
    }
    SortPrefix(all, |all|);
  }

  /** So a tab registered with only `after` need not follow the tab it names. */
  lemma AfterNeedNotFollow()
    ensures exists pages: seq<Tab>, e: Extension ::
              && e.after.Some? && HasId(pages, e.after.value) && !HasId(pages, e.id)
              && !DirectlyBehind(Sorted(pages + [PageOf(e)]), e.after.value, PageOf(e))
  {
    var a := Tab("a", "", "", "", "", Missing, Missing);
    var b := Tab("b", "", "", "", "", Missing, Missing);
    var e := Extension("x", "", "", "", "", None, Some("a"));
    var pages := [a, b];
    AfterAloneNeverMoves(pages, [PageOf(e)]);
    assert pages[0].id == "a";
    assert Sorted(pages + [PageOf(e)]) == [a, b, PageOf(e)];
    assert !DirectlyBehind([a, b, PageOf(e)], "a", PageOf(e));
  }

  // ----- the hook -----

  /** The pages that the extensions add: those whose id is not taken yet. */
  function Added(pages: seq<Tab>, extensions: seq<Extension>): seq<Tab>
    decreases |extensions|
  {
    if extensions == [] then []
    else if HasId(pages, extensions[0].id) then Added(pages, extensions[1..])
    else [PageOf(extensions[0])] + Added(pages + [PageOf(extensions[0])], extensions[1..])
  }

  lemma {:induction false} AddedSpec(pages: seq<Tab>, extensions: seq<Extension>)
    ensures DistinctIds(pages) ==> DistinctIds(pages + Added(pages, extensions))
    ensures forall e :: e in extensions ==> HasId(pages + Added(pages, extensions), e.id)
    ensures forall t :: t in Added(pages, extensions) ==> exists e :: e in extensions && t == PageOf(e)
    decreases |extensions|
  {
    var all := pages + Added(pages, extensions);
    if extensions == [] {
      assert all == pages;
    } else {
      var e, rest := extensions[0], extensions[1..];
      if HasId(pages, e.id) {
        AddedSpec(pages, rest);
        var k :| 0 <= k < |pages| && pages[k].id == e.id;
        assert all[k].id == e.id;
      } else {
        AddedSpec(pages + [PageOf(e)], rest);
        assert all == (pages + [PageOf(e)]) + Added(pages + [PageOf(e)], rest);
        assert all[|pages|].id == e.id;
      }
    }
  }

  lemma {:induction false} AddedKeys(pages: seq<Tab>, extensions: seq<Extension>)
    ensures forall k :: 0 <= k < |Added(pages, extensions)| ==> Added(pages, extensions)[k].before != Missing
    decreases |extensions|
  {
    if extensions == [] {
    } else if HasId(pages, extensions[0].id) {
      AddedKeys(pages, extensions[1..]);
    } else {
      AddedKeys(pages + [PageOf(extensions[0])], extensions[1..]);
    }
  }

  /** Registered extension `k` is one whose id is new: no page has it, and none registered earlier. */
  ghost predicate IsNew(pages: seq<Tab>, extensions: seq<Extension>, k: nat) {
    && k < |extensions|
    && (forall p :: p in pages ==> p.id != extensions[k].id)
    && (forall j :: 0 <= j < k ==> extensions[j].id != extensions[k].id)
  }

  /** The page shows the extension, and has both keys. */
  predicate ShowsExtension(t: Tab, e: Extension) {
    && t.id == e.id && t.href == e.href && t.name == e.name && t.component == e.component && t.contextId == e.contextId
    && t.before == (if e.before.Some? then Names(e.before.value) else Undefined)
    && t.after == (if e.after.Some? then Names(e.after.value) else Undefined)
  }

  /** The added pages show the extensions registered at these places, in this order. */
  ghost predicate AddsInOrder(extensions: seq<Extension>, at: seq<nat>, tabs: seq<Tab>) {
    && |at| == |tabs|
    && (forall i, j :: 0 <= i < j < |at| ==> at[i] < at[j])
    && (forall i :: 0 <= i < |at| ==> at[i] < |extensions| && ShowsExtension(tabs[i], extensions[at[i]]))
  }

  lemma NewLater(pages: seq<Tab>, extensions: seq<Extension>, more: seq<Tab>, k: nat)
    requires extensions != [] && k > 0
    requires forall id :: HasId(more, id) <==> HasId(pages, id) || id == extensions[0].id
    ensures IsNew(more, extensions[1..], k - 1) <==> IsNew(pages, extensions, k)
  {
    if k < |extensions| {
      var id := extensions[k].id;
      assert extensions[1..][k - 1].id == id;
      assert HasId(more, id) <==> exists p :: p in more && p.id == id;
      assert HasId(pages, id) <==> exists p :: p in pages && p.id == id;
      assert forall j :: 0 <= j < k - 1 ==> extensions[1..][j] == extensions[j + 1];
      if IsNew(more, extensions[1..], k - 1) {
        forall j | 0 <= j < k
          ensures extensions[j].id != id
        {
          if j > 0 {
            assert extensions[1..][j - 1] == extensions[j];
          }
        }
      }
    }
  }

  lemma HasIdSnoc(pages: seq<Tab>, t: Tab)
    ensures forall id :: HasId(pages + [t], id) <==> HasId(pages, id) || id == t.id
  {
    assert (pages + [t])[|pages|] == t;
    forall id | HasId(pages, id)
      ensures HasId(pages + [t], id)
    {
      assert (pages + [t])[IndexOf(pages, id)].id == id;
    }
  }

  lemma FirstIsNew(pages: seq<Tab>, extensions: seq<Extension>)
    requires extensions != []
    ensures IsNew(pages, extensions, 0) <==> !HasId(pages, extensions[0].id)
  {
    assert HasId(pages, extensions[0].id) <==> exists p :: p in pages && p.id == extensions[0].id;
  }

  /** The places at which extensions with a new id are registered. */
  function NewAt(pages: seq<Tab>, extensions: seq<Extension>): seq<nat>
    decreases |extensions|
  {
    if extensions == [] then []
    else if HasId(pages, extensions[0].id) then Later(NewAt(pages, extensions[1..]))
    else [0] + Later(NewAt(pages + [PageOf(extensions[0])], extensions[1..]))
  }

  function Later(at: seq<nat>): (r: seq<nat>)
    ensures |r| == |at| && forall i :: 0 <= i < |at| ==> r[i] == at[i] + 1
  {
    seq(|at|, i requires 0 <= i < |at| => at[i] + 1)
  }

  lemma LaterHas(at: seq<nat>, k: nat)
    ensures k in Later(at) <==> k > 0 && k - 1 in at
    ensures k in [0] + Later(at) <==> k == 0 || k - 1 in at
  {
    if k > 0 && k - 1 in at {
      var i :| 0 <= i < |at| && at[i] == k - 1;
      assert Later(at)[i] == k;
    }
  }

  lemma {:induction false} NewAtHas(pages: seq<Tab>, extensions: seq<Extension>, k: nat)
    ensures k in NewAt(pages, extensions) <==> IsNew(pages, extensions, k)
    decreases |extensions|
  {
    if extensions == [] {
    } else {
      var taken := HasId(pages, extensions[0].id);
      var more := if taken then pages else pages + [PageOf(extensions[0])];
      LaterHas(NewAt(more, extensions[1..]), k);
      FirstIsNew(pages, extensions);
      if k > 0 {
        HasIdSnoc(pages, PageOf(extensions[0]));
        NewLater(pages, extensions, more, k);
        NewAtHas(more, extensions[1..], k - 1);
      }
    }
  }

  lemma LaterInOrder(extensions: seq<Extension>, at: seq<nat>, rest: seq<Tab>)
    requires extensions != [] && AddsInOrder(extensions[1..], at, rest)
    ensures AddsInOrder(extensions, Later(at), rest)
  {
    forall i | 0 <= i < |at|
      ensures Later(at)[i] < |extensions| && ShowsExtension(rest[i], extensions[Later(at)[i]])
    {
      assert extensions[1..][at[i]] == extensions[at[i] + 1];
    }
  }

  lemma FirstInOrder(extensions: seq<Extension>, later: seq<nat>, rest: seq<Tab>)
    requires extensions != [] && AddsInOrder(extensions, later, rest)
    requires forall i :: 0 <= i < |later| ==> later[i] > 0
    ensures AddsInOrder(extensions, [0] + later, [PageOf(extensions[0])] + rest)
  {
    var at, tabs := [0] + later, [PageOf(extensions[0])] + rest;
    assert ShowsExtension(PageOf(extensions[0]), extensions[0]);
    forall i | 0 <= i < |at|
      ensures at[i] < |extensions| && ShowsExtension(tabs[i], extensions[at[i]])
    {
    }
  }

  lemma {:induction false} AddedShows(pages: seq<Tab>, extensions: seq<Extension>)
    ensures AddsInOrder(extensions, NewAt(pages, extensions), Added(pages, extensions))
    decreases |extensions|
  {
    if extensions == [] {
    } else {
      var more := if HasId(pages, extensions[0].id) then pages else pages + [PageOf(extensions[0])];
      AddedShows(more, extensions[1..]);
      LaterInOrder(extensions, NewAt(more, extensions[1..]), Added(more, extensions[1..]));
      FirstInOrder(extensions, Later(NewAt(more, extensions[1..])), Added(more, extensions[1..]));
    }
  }

  /** The hook adds exactly the extensions with a new id, in the order of their registration. */
  lemma AddedInOrder(pages: seq<Tab>, extensions: seq<Extension>) returns (at: seq<nat>)
    ensures AddsInOrder(extensions, at, Added(pages, extensions))
    ensures forall k: nat :: k in at <==> IsNew(pages, extensions, k)
  {
    at := NewAt(pages, extensions);
    AddedShows(pages, extensions);
    forall k: nat
      ensures k in at <==> IsNew(pages, extensions, k)
    {
      NewAtHas(pages, extensions, k);
    }
  }

  method AppendNew(pages: seq<Tab>, extensions: seq<Extension>) returns (updatedPages: seq<Tab>)
    ensures updatedPages == pages + Added(pages, extensions)
  {
    updatedPages := pages;
    var n := 0;
    while n < |extensions|
      invariant n <= |extensions|
      invariant updatedPages + Added(updatedPages, extensions[n..]) == pages + Added(pages, extensions)
    {
      ghost var rest := extensions[n + 1..];
      assert extensions[n..] == [extensions[n]] + rest;
      var found := FindIndex(updatedPages, Names(extensions[n].id));
      if found < 0 {
        var page := PageOf(extensions[n]);
        assert updatedPages + ([page] + Added(updatedPages + [page], rest))
            == (updatedPages + [page]) + Added(updatedPages + [page], rest);
        updatedPages := updatedPages + [page];
      }
      n := n + 1;
    }
  }

  method UseSortPages(extensions: seq<Extension>, haveExtensionsResolved: bool, staticPages: Option<seq<Tab>>)
    returns (updatedPages: seq<Tab>)
    ensures var pages := if staticPages.Some? then staticPages.value else [];
            updatedPages == if haveExtensionsResolved then Sorted(pages + Added(pages, extensions)) else pages
  {
    updatedPages := if staticPages.Some? then staticPages.value else [];
    if haveExtensionsResolved {
      updatedPages := AppendNew(updatedPages, extensions);
      var array_ := new TabArray(updatedPages);
      array_.SortPages();
      updatedPages := array_.tabs;
    }
  }

  /** The promise for static pages without constraints and extensions that each name, in `before`,
      a static page or nothing; a tab with a `before` page must not also resolve in `after`. */
  lemma HookLaysOut(pages: seq<Tab>, extensions: seq<Extension>)
    requires DistinctIds(pages)
    requires forall p :: p in pages ==> p.before == p.after == Missing
    requires forall e :: e in extensions ==>
               var all := pages + Added(pages, extensions);
               Resolves(all, KeyFor(e.before)) ==>
                 Resolves(pages, KeyFor(e.before)) && !Resolves(all, KeyFor(e.after))
    ensures var tabs := Added(pages, extensions);
            LaidOut(pages, tabs, Sorted(pages + tabs))
  {
    AddedSpec(pages, extensions);
    SortedIsLaidOut(pages, Added(pages, extensions));
  }

  lemma AddedAt(pages: seq<Tab>, extensions: seq<Extension>, j: nat, k: nat) returns (a: nat, b: nat)
    requires j < k && IsNew(pages, extensions, j) && IsNew(pages, extensions, k)
    ensures a < b < |Added(pages, extensions)|
    ensures ShowsExtension(Added(pages, extensions)[a], extensions[j])
    ensures ShowsExtension(Added(pages, extensions)[b], extensions[k])
  {
    var at := AddedInOrder(pages, extensions);
    assert j in at && k in at;
    a :| 0 <= a < |at| && at[a] == j;
    b :| 0 <= b < |at| && at[b] == k;
  }

  lemma {:induction false} BlockInOrder(tabs: seq<Tab>, id: string, i: nat, j: nat) returns (a: nat, b: nat)
    requires i < j < |tabs| && tabs[i].before == tabs[j].before == Names(id)
    ensures a < b < |Block(tabs, id)| && Block(tabs, id)[a] == tabs[i] && Block(tabs, id)[b] == tabs[j]
  {
    var n := |tabs| - 1;
    if j == n {
      BlockHas(tabs[..n], id, tabs[i]);
      assert tabs[..n][i] == tabs[i];
      a :| 0 <= a < |Block(tabs[..n], id)| && Block(tabs[..n], id)[a] == tabs[i];
      b := |Block(tabs[..n], id)|;
    } else {
      a, b := BlockInOrder(tabs[..n], id, i, j);
    }
  }

  lemma BlockKeepsOrder(tabs: seq<Tab>, result: seq<Tab>, p: Tab, i: nat, j: nat)
    requires DistinctIds(result) && PageStands(tabs, p, result)
    requires i < j < |tabs| && tabs[i].before == tabs[j].before == Names(p.id)
    ensures Precedes(result, tabs[i].id, tabs[j].id)
  {
    var a, b := BlockInOrder(tabs, p.id, i, j);
    var block, at := Block(tabs, p.id), IndexOf(result, p.id);
    assert result[at - |block|..at][a] == tabs[i] && result[at - |block|..at][b] == tabs[j];
    IndexOfUnique(result, at - |block| + a);
    IndexOfUnique(result, at - |block| + b);
  }

  /** Of two extensions whose ids are new, the one registered earlier stands first, if both go before
      the same page or neither goes before any. */
  lemma HookKeepsOrder(pages: seq<Tab>, extensions: seq<Extension>, j: nat, k: nat)
    requires DistinctIds(pages)
    requires forall p :: p in pages ==> p.before == p.after == Missing
    requires forall e :: e in extensions ==>
               var all := pages + Added(pages, extensions);
               Resolves(all, KeyFor(e.before)) ==>
                 Resolves(pages, KeyFor(e.before)) && !Resolves(all, KeyFor(e.after))
    requires j < k && IsNew(pages, extensions, j) && IsNew(pages, extensions, k)
    requires var namesPage := (e: Extension) => e.before.Some? && HasId(pages, e.before.value);
             || (extensions[j].before == extensions[k].before && namesPage(extensions[j]))
             || (!namesPage(extensions[j]) && !namesPage(extensions[k]))
    ensures Precedes(Sorted(pages + Added(pages, extensions)), extensions[j].id, extensions[k].id)
  {
    var tabs := Added(pages, extensions);
    var a, b := AddedAt(pages, extensions, j, k);
    AddedSpec(pages, extensions);
    if Resolves(pages, tabs[a].before) {
      HookLaysOut(pages, extensions);
      var p := pages[IndexOf(pages, tabs[a].before.id)];
      BlockKeepsOrder(tabs, Sorted(pages + tabs), p, a, b);
    } else {
      PrecedesIff(pages, tabs, a, b);
    }
  }

  lemma ResolvesInMore(pages: seq<Tab>, tabs: seq<Tab>, r: Ref)
    ensures Resolves(pages, r) ==> Resolves(pages + tabs, r)
  {
    if Resolves(pages, r) {
      assert (pages + tabs)[IndexOf(pages, r.id)].id == r.id;
    }
  }

  /** Where a tab that names only `after` ends up: behind the tab it names if and only if that is a
      static page, goes before one itself, or was registered earlier. */
  lemma AfterFollowsIff(pages: seq<Tab>, extensions: seq<Extension>, t: Tab)
    requires DistinctIds(pages)
    requires forall p :: p in pages ==> p.before == p.after == Missing
    requires forall e :: e in extensions ==>
               var all := pages + Added(pages, extensions);
               Resolves(all, KeyFor(e.before)) ==>
                 Resolves(pages, KeyFor(e.before)) && !Resolves(all, KeyFor(e.after))
    requires var all := pages + Added(pages, extensions);
             t in Added(pages, extensions) && !Resolves(all, t.before) && Resolves(all, t.after)
    ensures HasId(pages + Added(pages, extensions), t.id)
    ensures var all := pages + Added(pages, extensions);
            var named := IndexOf(all, t.after.id);
            Precedes(Sorted(all), t.after.id, t.id) <==>
              named < |pages| || Resolves(pages, all[named].before) || named < IndexOf(all, t.id)
  {
    AddedSpec(pages, extensions);
    ResolvesInMore(pages, Added(pages, extensions), t.before);
    FollowsIff(pages, Added(pages, extensions), t);
  }

  /** Where a tab that names only `after` is placed directly behind a tab, as documented: exactly if
      it is so in registration order without the tabs that go before a page. */
  lemma AfterDirectlyIff(pages: seq<Tab>, extensions: seq<Extension>, t: Tab)
    requires DistinctIds(pages)
    requires forall p :: p in pages ==> p.before == p.after == Missing
    requires forall e :: e in extensions ==>
               var all := pages + Added(pages, extensions);
               Resolves(all, KeyFor(e.before)) ==>
                 Resolves(pages, KeyFor(e.before)) && !Resolves(all, KeyFor(e.after))
    requires var all := pages + Added(pages, extensions);
             t in Added(pages, extensions) && !Resolves(all, t.before) && Resolves(all, t.after)
    ensures var tabs := Added(pages, extensions);
            DirectlyBehind(Sorted(pages + tabs), t.after.id, t)
            <==> DirectlyBehind(pages + Loose(tabs, pages), t.after.id, t)
  {
    AddedSpec(pages, extensions);
    ResolvesInMore(pages, Added(pages, extensions), t.before);
    DirectlyBehindIff(pages, Added(pages, extensions), t.after.id, t);
  }

  /** In the hook the sorted tabs still have distinct ids, and are the same tabs, exactly when
      no iteration clobbers one; naming no second tab is enough for that. */
  lemma HookKeepsTabsIff(pages: seq<Tab>, extensions: seq<Extension>)
    requires DistinctIds(pages)
    ensures var all := pages + Added(pages, extensions);
            && (multiset(Sorted(all)) == multiset(all) <==> CleanFrom(all, 0))
            && (DistinctIds(Sorted(all)) <==> CleanFrom(all, 0))
            && ((forall t :: t in all ==> !NamesTwo(all, t)) ==> CleanFrom(all, 0))
  {
    var all := pages + Added(pages, extensions);
    AddedSpec(pages, extensions);
    SortFromPermutesIff(all, 0);
    if multiset(Sorted(all)) == multiset(all) {
      SameTabs(all, Sorted(all));
    }
    if DistinctIds(Sorted(all)) {
      NoDupByMultiset(Sorted(all));
      forall t | t in multiset(Sorted(all))
        ensures multiset(Sorted(all))[t] <= multiset(all)[t]
      {
        SortFromKeepsWithin(all, 0, t);
      }
      SameSizeIsEqual(multiset(Sorted(all)), multiset(all));
    }
    if forall t :: t in all ==> !NamesTwo(all, t) {
      CleanWithoutDoubleNaming(all, 0);
    }
  }

  lemma HookNamesBack(pages: seq<Tab>, tabs: seq<Tab>, j: nat)
    requires forall p :: p in pages ==> p.before == p.after == Missing
    requires forall k :: 0 <= k < |tabs| ==> tabs[k].before != Missing
    requires forall k :: 0 <= k < |tabs| && Resolves(pages + tabs, tabs[k].before) ==>
               Resolves(pages + tabs[..k], tabs[k].before)
    requires j < |pages + tabs|
    ensures NamesBack(pages + tabs, j)
    ensures j < |pages| ==> !NamesTwo(pages + tabs, (pages + tabs)[j])
  {
    var all := pages + tabs;
    if j < |pages| {
      assert all[j] == pages[j];
    } else {
      var k := j - |pages|;
      assert all[j] == tabs[k] && all[..j] == pages + tabs[..k];
    }
  }

  lemma NamesTwoAmongTabs(pages: seq<Tab>, tabs: seq<Tab>)
    requires DistinctIds(pages + tabs)
    requires forall p :: p in pages ==> p.before == p.after == Missing
    requires forall k :: 0 <= k < |tabs| ==> tabs[k].before != Missing
    requires forall k :: 0 <= k < |tabs| && Resolves(pages + tabs, tabs[k].before) ==>
               Resolves(pages + tabs[..k], tabs[k].before)
    ensures CleanFrom(pages + tabs, 0) <==> forall t :: t in tabs ==> !NamesTwo(pages + tabs, t)
  {
    var all := pages + tabs;
    forall j | 0 <= j < |all|
      ensures NamesBack(all, j) && (j < |pages| ==> !NamesTwo(all, all[j]))
    {
      HookNamesBack(pages, tabs, j);
    }
    LosesNoneIff(all);
    forall t
      ensures t in all <==> t in pages || t in tabs
      ensures t in pages ==> !NamesTwo(all, t)
    {
    }
  }

  /** For keyless static pages and extensions whose `before` names a page, an extension registered
      earlier, or nothing, the condition is one on the names: no tab is lost exactly if no extension
      that is added names an existing tab in both keys. */
  lemma HookLosesNoneIff(pages: seq<Tab>, extensions: seq<Extension>)
    requires DistinctIds(pages)
    requires forall p :: p in pages ==> p.before == p.after == Missing
    requires var tabs := Added(pages, extensions);
             forall k :: 0 <= k < |tabs| && Resolves(pages + tabs, tabs[k].before) ==>
               Resolves(pages + tabs[..k], tabs[k].before)
    ensures var all := pages + Added(pages, extensions);
            var single := forall t :: t in Added(pages, extensions) ==> !NamesTwo(all, t);
            && (CleanFrom(all, 0) <==> single)
            && (multiset(Sorted(all)) == multiset(all) <==> single)
            && (DistinctIds(Sorted(all)) <==> single)
  {
    AddedSpec(pages, extensions);
    AddedKeys(pages, extensions);
    HookKeepsTabsIff(pages, extensions);
    NamesTwoAmongTabs(pages, Added(pages, extensions));
  }

}
