/** Removal by index: takes one item out of the pool, in place. */
module PoolRemoval {
  import opened Pieces

  /** The pool: the JavaScript array of items that `remove` changes in
      place. The planner owns a fresh one per call. */
  class Pool {
    var items: seq<Item>

    /** A fresh pool holding a copy of the given items. */
    constructor (s: seq<Item>)
      ensures items == s
    {
      items := s;
    }
  }

  /** The first position whose item carries `index`, or -1 when there is
      none. */
  function FindIndex(s: seq<Item>, index: nat): (k: int)
    ensures -1 <= k < |s|
    ensures k == -1 <==> forall j :: 0 <= j < |s| ==> s[j].index != index
    ensures k >= 0 ==> s[k].index == index && forall j :: 0 <= j < k ==> s[j].index != index
    decreases |s|
  {
    if s == [] then -1
    else if s[0].index == index then 0
    else
      var k := FindIndex(s[1..], index);
      if k == -1 then -1 else k + 1
  }

  /** The pool after `remove(s, target)`: the first item carrying
      `target.index` is spliced out; with no such item nothing changes. */
  function Removed(s: seq<Item>, target: Item): (r: seq<Item>)
    ensures FindIndex(s, target.index) == -1 ==> r == s
    ensures var k := FindIndex(s, target.index);
      k >= 0 ==>
        |r| == |s| - 1 &&
        (forall j :: 0 <= j < k ==> r[j] == s[j]) &&
        (forall j :: k <= j < |r| ==> r[j] == s[j + 1]) &&
        multiset(r) == multiset(s) - multiset{s[k]}
  {
    var k := FindIndex(s, target.index);
    if k < 0 then s
    else
      assert s == s[..k] + [s[k]] + s[k + 1..];
      s[..k] + s[k + 1..]
  }

  /** Looks up the first item with the target's index and, if there is
      one, splices it out of the pool. */
  method Remove(pool: Pool, target: Item)
    modifies pool
    ensures pool.items == Removed(old(pool.items), target)
  {
    var targetIndex := FindIndex(pool.items, target.index);
    if targetIndex >= 0 {
      pool.items := pool.items[..targetIndex] + pool.items[targetIndex + 1..];
    }
  }

  /** The removed item is `target` itself whenever `target` is in the pool
      and items sharing an index share their length. */
  lemma RemovedTarget(s: seq<Item>, target: Item)
    requires target in s && IndexConsistent(s)
    ensures |Removed(s, target)| == |s| - 1
    ensures multiset(Removed(s, target)) == multiset(s) - multiset{target}
  {
    var k := FindIndex(s, target.index);
    var m :| 0 <= m < |s| && s[m] == target;
    assert s[k].length == s[m].length;
  }

  /** Removing the first item of the pool removes exactly that item. */
  lemma RemovedHead(s: seq<Item>)
    requires |s| > 0
    ensures Removed(s, s[0]) == s[1..]
  {
    var r := Removed(s, s[0]);
    assert FindIndex(s, s[0].index) == 0;
    assert |r| == |s[1..]|;
    assert forall j :: 0 <= j < |r| ==> r[j] == s[1..][j];
  }

  /** Removal keeps the pool's longest-first order. */
  lemma RemovedDescending(s: seq<Item>, target: Item)
    requires Descending(s)
    ensures Descending(Removed(s, target))
  {
    var r := Removed(s, target);
    var k := FindIndex(s, target.index);
    if k >= 0 {
      forall i, j | 0 <= i < j < |r| ensures r[i].length >= r[j].length {
        var i' := if i < k then i else i + 1;
        var j' := if j < k then j else j + 1;
        assert r[i] == s[i'] && r[j] == s[j'];
      }
    }
  }

  /** Removal keeps the pool in the stable sort's order. */
  lemma RemovedOrdered(s: seq<Item>, target: Item)
    requires Ordered(s)
    ensures Ordered(Removed(s, target))
  {
    var r := Removed(s, target);
    var k := FindIndex(s, target.index);
    if k >= 0 {
      forall i, j | 0 <= i < j < |r| ensures Before(r[i], r[j]) {
        var i' := if i < k then i else i + 1;
        var j' := if j < k then j else j + 1;
        assert r[i] == s[i'] && r[j] == s[j'];
      }
    }
  }

  /** Every item left after removal was in the pool before. */
  lemma RemovedSubset(s: seq<Item>, target: Item)
    ensures multiset(Removed(s, target)) <= multiset(s)
    ensures forall x :: x in Removed(s, target) ==> x in s
  {
    var r := Removed(s, target);
    forall x | x in r ensures x in s {
      assert x in multiset(r);
    }
  }
}
