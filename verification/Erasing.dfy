/**
 Erasing marked elements from a list: their indices are collected from the back, then each is
 overwritten by what is last at that moment, and the list is cut once at the end.
 */
module Erasing {

  /** The elements that are not marked, in their order. */
  function Survivors<T(==)>(items: seq<T>, dead: set<T>): seq<T> {
    if items == [] then []
    else if items[0] in dead then Survivors(items[1..], dead)
    else [items[0]] + Survivors(items[1..], dead)
  }

  /** A survivor is there as often as before, and nothing else is. */
  lemma {:induction false} SurvivorsCount<T>(items: seq<T>, dead: set<T>, x: T)
    ensures multiset(Survivors(items, dead))[x] == if x in dead then 0 else multiset(items)[x]
    ensures x in Survivors(items, dead) <==> x in items && x !in dead
  {
    if items != [] {
      SurvivorsCount(items[1..], dead, x);
      assert items == [items[0]] + items[1..];
    }
  }

  lemma {:induction false} SurvivorsOfNothingMarked<T>(items: seq<T>, dead: set<T>)
    requires forall k :: 0 <= k < |items| ==> items[k] !in dead
    ensures Survivors(items, dead) == items
  {
    if items != [] {
      SurvivorsOfNothingMarked(items[1..], dead);
    }
  }

  lemma {:induction false} SurvivorsAppend<T>(a: seq<T>, b: seq<T>, dead: set<T>)
    ensures Survivors(a + b, dead) == Survivors(a, dead) + Survivors(b, dead)
  {
    if a == [] {
      assert a + b == b;
    } else {
      assert (a + b)[1..] == a[1..] + b;
      SurvivorsAppend(a[1..], b, dead);
    }
  }

  /** The indices below `n` of marked elements, from the back. */
  function Marked<T(==)>(items: seq<T>, dead: set<T>, n: nat): (r: seq<nat>)
    requires n <= |items|
    ensures forall k :: 0 <= k < |r| ==> r[k] < n && items[r[k]] in dead
  {
    if n == 0 then []
    else if items[n - 1] in dead then [n - 1] + Marked(items, dead, n - 1)
    else Marked(items, dead, n - 1)
  }

  /** The list while everything from `lo` on was dealt with and `num` elements are left. */
  ghost predicate Erased<T>(was: seq<T>, dead: set<T>, items: seq<T>, num: nat, lo: nat) {
    && lo <= num <= |items| == |was|
    && items[..lo] == was[..lo]
    && multiset(items[lo..num]) == multiset(Survivors(was[lo..], dead))
  }

  /** What one round of the loop does. */
  function Overwrite<T>(items: seq<T>, num: nat, e: nat): (r: seq<T>)
    requires e < num <= |items|
    ensures |r| == |items|
  {
    items[e := items[num - 1]]
  }

  lemma {:induction false} NextMarked<T>(items: seq<T>, dead: set<T>, n: nat) returns (e: nat)
    requires n <= |items| && Marked(items, dead, n) != []
    ensures e == Marked(items, dead, n)[0] < n && items[e] in dead
    ensures Marked(items, dead, n)[1..] == Marked(items, dead, e)
    ensures forall k :: e < k < n ==> items[k] !in dead
  {
    if items[n - 1] in dead {
      e := n - 1;
    } else {
      e := NextMarked(items, dead, n - 1);
    }
  }

  lemma {:induction false} NoneMarked<T>(items: seq<T>, dead: set<T>, n: nat)
    requires n <= |items| && Marked(items, dead, n) == []
    ensures forall k :: 0 <= k < n ==> items[k] !in dead
  {
    if n > 0 {
      NoneMarked(items, dead, n - 1);
    }
  }

  lemma OverwriteDropsOne<T>(items: seq<T>, num: nat, e: nat)
    requires e < num <= |items|
    ensures multiset(Overwrite(items, num, e)[e..num - 1]) == multiset(items[e + 1..num])
  {
    var after := Overwrite(items, num, e)[e..num - 1];
    if e == num - 1 {
      assert after == [] && items[e + 1..num] == [];
    } else {
      assert after == [items[num - 1]] + items[e + 1..num - 1];
      assert items[e + 1..num] == items[e + 1..num - 1] + [items[num - 1]];
    }
  }

  lemma Glue<T>(alive: seq<T>, was: seq<T>, now: seq<T>, dead: set<T>)
    requires forall k :: 0 <= k < |alive| ==> alive[k] !in dead
    requires multiset(now) == multiset(Survivors(was, dead))
    ensures multiset(alive + now) == multiset(Survivors(alive + was, dead))
  {
    SurvivorsOfNothingMarked(alive, dead);
    SurvivorsAppend(alive, was, dead);
  }

  lemma SkipMarked<T>(was: seq<T>, dead: set<T>, e: nat)
    requires e < |was| && was[e] in dead
    ensures Survivors(was[e..], dead) == Survivors(was[e + 1..], dead)
  {
    assert was[e..][1..] == was[e + 1..];
  }

  lemma EraseNext<T>(was: seq<T>, dead: set<T>, items: seq<T>, num: nat, lo: nat) returns (e: nat)
    requires Erased(was, dead, items, num, lo) && Marked(was, dead, lo) != []
    ensures e == Marked(was, dead, lo)[0] < lo && items[e] == was[e] && was[e] in dead
    ensures Marked(was, dead, lo)[1..] == Marked(was, dead, e)
    ensures forall k :: e < k < lo ==> was[k] !in dead
    ensures Erased(was, dead, Overwrite(items, num, e), num - 1, e)
  {
    e := NextMarked(was, dead, lo);
    assert items[e] == items[..lo][e];
    OverwriteDropsOne(items, num, e);
    Glue(was[e + 1..lo], was[lo..], items[lo..num], dead);
    SkipMarked(was, dead, e);
    Slices(was, items, num, lo, e);
  }

  lemma Slices<T>(was: seq<T>, items: seq<T>, num: nat, lo: nat, e: nat)
    requires e < lo <= num <= |items| == |was| && items[..lo] == was[..lo]
    ensures items[e + 1..num] == was[e + 1..lo] + items[lo..num]
    ensures was[e + 1..] == was[e + 1..lo] + was[lo..]
    ensures Overwrite(items, num, e)[..e] == was[..e]
  {
    assert items[e + 1..lo] == items[..lo][e + 1..];
    assert was[e + 1..lo] == was[..lo][e + 1..];
    assert items[..lo][..e] == items[..e] && was[..lo][..e] == was[..e];
  }

  lemma Halves<T>(items: seq<T>, num: nat, lo: nat)
    requires lo <= num <= |items|
    ensures items[..num] == items[..lo] + items[lo..num] && items[lo..|items|] == items[lo..] && items[..|items|] == items
  {
  }

  lemma EraseEnd<T>(was: seq<T>, dead: set<T>, items: seq<T>, num: nat, lo: nat)
    requires Erased(was, dead, items, num, lo) && Marked(was, dead, lo) == []
    ensures multiset(items[..num]) == multiset(Survivors(was, dead))
  {
    NoneMarked(was, dead, lo);
    Halves(was, |was|, lo);
    Halves(items, num, lo);
    Glue(was[..lo], was[lo..], items[lo..num], dead);
  }

  /** One round of the loop on the list `items` with `num` elements left. */
  lemma EraseRound<T>(was: seq<T>, dead: set<T>, items: seq<T>, num: nat, lo: nat) returns (rest: seq<T>, left: nat, e: nat)
    requires Erased(was, dead, items, num, lo) && Marked(was, dead, lo) != []
    ensures e == Marked(was, dead, lo)[0] < lo && items[e] == was[e] && was[e] in dead
    ensures Marked(was, dead, lo)[1..] == Marked(was, dead, e)
    ensures forall k :: e < k < lo ==> was[k] !in dead
    ensures left == num - 1 && rest == Overwrite(items, num, e)
    ensures Erased(was, dead, rest, left, e)
  {
    e := EraseNext(was, dead, items, num, lo);
    rest, left := Overwrite(items, num, e), num - 1;
  }

  lemma EraseStart<T>(was: seq<T>, dead: set<T>)
    ensures Erased(was, dead, was, |was|, |was|)
  {
  }
}
