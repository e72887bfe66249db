/** The aligner: expands the specs into unit items and sorts them
    longest first. */
module PieceExpander {
  import opened Pieces

  /** How many times the counted inner loop runs: `number`, or none when
      it is not positive. */
  function Count(number: int): nat {
    if number > 0 then number else 0
  }

  /** `n` copies of the item `{index, length}`. */
  function Copies(index: nat, length: int, n: nat): seq<Item> {
    seq(n, _ => Item(index, length))
  }

  /** The items in the order the loops push them, before the sort: as
      many as the `number` fields add up to. */
  function Expand(specs: seq<Spec>): (r: seq<Item>)
    ensures |r| == Total(specs)
    decreases |specs|
  {
    if specs == [] then []
    else
      var n := |specs| - 1;
      Expand(specs[..n]) + Copies(n, specs[n].length, Count(specs[n].number))
  }

  /** The total number of items: the sum of the `number` fields. */
  function Total(specs: seq<Spec>): nat
    decreases |specs|
  {
    if specs == [] then 0 else Total(specs[..|specs| - 1]) + Count(specs[|specs| - 1].number)
  }

  predicate IndexNondecreasing(s: seq<Item>) {
    forall i, j :: 0 <= i < j < |s| ==> s[i].index <= s[j].index
  }

  /** Every expanded item points at a spec and has that spec's length, and
      items come out in spec order. */
  lemma {:induction false} ExpandItems(specs: seq<Spec>)
    ensures forall k :: 0 <= k < |Expand(specs)| ==>
      Expand(specs)[k].index < |specs| && Expand(specs)[k].length == specs[Expand(specs)[k].index].length
    ensures IndexNondecreasing(Expand(specs))
    decreases |specs|
  {
    if specs != [] {
      var n := |specs| - 1;
      var front := specs[..n];
      ExpandItems(front);
      var e: seq<Item>, c: seq<Item> := Expand(front), Copies(n, specs[n].length, Count(specs[n].number));
      assert Expand(specs) == e + c;
      forall k | 0 <= k < |e| ensures (e + c)[k].index < n && (e + c)[k].length == specs[(e + c)[k].index].length {
        assert (e + c)[k] == e[k];
        assert front[e[k].index] == specs[e[k].index];
      }
    }
  }

  lemma {:induction false} CopiesCount(index: nat, length: int, n: nat, x: Item)
    ensures multiset(Copies(index, length, n))[x] == if x == Item(index, length) then n else 0
    decreases n
  {
    if n > 0 {
      CopiesCount(index, length, n - 1, x);
      assert Copies(index, length, n) == Copies(index, length, n - 1) + [Item(index, length)];
    }
  }

  /** Exactly `specs[i].number` items (none when it is not positive) carry
      index `i`, each with `specs[i].length`. */
  lemma {:induction false} ExpandCount(specs: seq<Spec>, i: nat)
    requires i < |specs|
    ensures multiset(Expand(specs))[Item(i, specs[i].length)] == Count(specs[i].number)
    decreases |specs|
  {
    var n := |specs| - 1;
    var front := specs[..n];
    var x := Item(i, specs[i].length);
    CopiesCount(n, specs[n].length, Count(specs[n].number), x);
    if i < n {
      ExpandCount(front, i);
      assert front[i] == specs[i];
    } else {
      ExpandItems(front);
    }
  }

  /** The part of the array the sort has finished: `a[..i]` is longest
      first and, for an index-ordered input, ordered by `Before`; the rest
      is still as it was, and under the index order no finished item has a
      larger index than an unfinished one. */
  ghost predicate SortedPrefix(a: seq<Item>, i: nat, stable: bool)
    requires i <= |a|
  {
    (forall p, q :: 0 <= p < q < i ==> a[p].length >= a[q].length) &&
    (stable ==> forall p, q :: 0 <= p < q < i ==> Before(a[p], a[q])) &&
    (stable ==> forall p, m :: 0 <= p < i <= m < |a| ==> a[p].index <= a[m].index) &&
    (stable ==> forall m, n :: i <= m < n < |a| ==> a[m].index <= a[n].index)
  }

  /** The state inside one insertion pass: the item being inserted sits at
      `j`, everything in `s[..i + 1]` around it is in order, and what it has
      passed is shorter than it. */
  ghost predicate Sinking(s: seq<Item>, i: nat, j: nat, stable: bool)
    requires j <= i < |s|
  {
    (forall p, q :: 0 <= p < q <= i && p != j && q != j ==> s[p].length >= s[q].length) &&
    (forall q :: j < q <= i ==> s[q].length < s[j].length) &&
    (stable ==> forall p, q :: 0 <= p < q <= i && p != j && q != j ==> Before(s[p], s[q])) &&
    (stable ==> forall p :: 0 <= p <= i ==> s[p].index <= s[j].index) &&
    (stable ==> forall p, m :: 0 <= p <= i < m < |s| ==> s[p].index <= s[m].index) &&
    (stable ==> forall m, n :: i < m < n < |s| ==> s[m].index <= s[n].index)
  }

  /** `Sinking` on a permutation of the pass's starting array `s0` that has
      not touched anything after position `i`. */
  ghost predicate SinkState(s: seq<Item>, s0: seq<Item>, i: nat, j: nat, stable: bool)
    requires j <= i < |s|
  {
    Sinking(s, i, j, stable) && multiset(s) == multiset(s0) && |s0| == |s| && s[i + 1..] == s0[i + 1..]
  }

  lemma SinkStart(s: seq<Item>, i: nat, stable: bool)
    requires i < |s| && SortedPrefix(s, i, stable)
    ensures SinkState(s, s, i, i, stable)
  {
  }

  lemma SinkSwapOrder(s: seq<Item>, i: nat, j: nat, stable: bool)
    requires 0 < j <= i < |s| && Sinking(s, i, j, stable)
    requires s[j - 1].length < s[j].length
    ensures Sinking(s[j - 1 := s[j]][j := s[j - 1]], i, j - 1, stable)
  {
    var t := s[j - 1 := s[j]][j := s[j - 1]];
    assert forall p :: 0 <= p < |s| && p != j - 1 && p != j ==> t[p] == s[p];
    if stable {
      forall p, m | 0 <= p <= i < m < |s| ensures t[p].index <= t[m].index {
        if p == j - 1 { assert t[p] == s[j]; } else if p == j { assert t[p] == s[j - 1]; }
      }
    }
  }

  lemma SwapPermutes(s: seq<Item>, i: nat, j: nat)
    requires 0 < j <= i < |s|
    ensures multiset(s[j - 1 := s[j]][j := s[j - 1]]) == multiset(s)
    ensures s[j - 1 := s[j]][j := s[j - 1]][i + 1..] == s[i + 1..]
  {
    var t := s[j - 1 := s[j]][j := s[j - 1]];
    assert t == s[..j - 1] + [s[j], s[j - 1]] + s[j + 1..];
    assert s == s[..j - 1] + [s[j - 1], s[j]] + s[j + 1..];
  }

  lemma SinkSwap(s: seq<Item>, s0: seq<Item>, i: nat, j: nat, stable: bool)
    requires 0 < j <= i < |s| && SinkState(s, s0, i, j, stable)
    requires s[j - 1].length < s[j].length
    ensures SinkState(s[j - 1 := s[j]][j := s[j - 1]], s0, i, j - 1, stable)
  {
    SinkSwapOrder(s, i, j, stable);
    SwapPermutes(s, i, j);
  }

  lemma SinkStop(s: seq<Item>, s0: seq<Item>, i: nat, j: nat, stable: bool)
    requires j <= i < |s| && SinkState(s, s0, i, j, stable)
    requires j == 0 || s[j - 1].length >= s[j].length
    ensures SortedPrefix(s, i + 1, stable)
  {
    if stable {
      forall p, q | 0 <= p < q <= i ensures Before(s[p], s[q]) {
        if q == j && p < j - 1 {
          assert Before(s[p], s[j - 1]);
        }
      }
    }
  }

  /** One pass of the insertion: moves `a[i]` left past every shorter item
      before it, and no further, so equal lengths keep their order. */
  method Sink(a: array<Item>, i: nat, ghost stable: bool)
    requires i < a.Length && SortedPrefix(a[..], i, stable)
    modifies a
    ensures SortedPrefix(a[..], i + 1, stable)
    ensures multiset(a[..]) == multiset(old(a[..]))
    ensures a[i + 1..] == old(a[i + 1..])
  {
    ghost var s0 := a[..];
    var j := i;
    SinkStart(s0, i, stable);
    while j > 0 && a[j - 1].length < a[j].length
      invariant 0 <= j <= i
      invariant SinkState(a[..], s0, i, j, stable)
    {
      ghost var s := a[..];
      SinkSwap(s, s0, i, j, stable);
      a[j - 1], a[j] := a[j], a[j - 1];
      assert a[..] == s[j - 1 := s[j]][j := s[j - 1]];
      j := j - 1;
    }
    SinkStop(a[..], s0, i, j, stable);
  }

  /** The stable longest-first sort, as an insertion sort by adjacent
      swaps. */
  method SortLongestFirst(a: array<Item>)
    modifies a
    ensures multiset(a[..]) == multiset(old(a[..]))
    ensures Descending(a[..])
    ensures IndexNondecreasing(old(a[..])) ==> Ordered(a[..])
  {
    ghost var stable := IndexNondecreasing(a[..]);
    var i := 0;
    while i < a.Length
      invariant 0 <= i <= a.Length
      invariant multiset(a[..]) == multiset(old(a[..]))
      invariant SortedPrefix(a[..], i, stable)
    {
      Sink(a, i, stable);
      i := i + 1;
    }
  }

  /** `aligner`: for each spec, `number` pushes of `{index, length}`, then
      the longest-first sort. */
  method Aligner(specs: seq<Spec>) returns (result: seq<Item>)
    ensures multiset(result) == multiset(Expand(specs))
    ensures |result| == Total(specs)
    ensures forall k :: 0 <= k < |result| ==>
      result[k].index < |specs| && result[k].length == specs[result[k].index].length
    ensures forall i :: 0 <= i < |specs| ==> multiset(result)[Item(i, specs[i].length)] == Count(specs[i].number)
    ensures Ordered(result) && Descending(result)
    ensures IndexConsistent(result)
  {
    var pushed: seq<Item> := [];
    for index := 0 to |specs|
      invariant pushed == Expand(specs[..index])
    {
      var length, number := specs[index].length, specs[index].number;
      var i := 0;
      while i < number
        invariant 0 <= i <= Count(number)
        invariant pushed == Expand(specs[..index]) + Copies(index, length, i)
      {
        pushed := pushed + [Item(index, length)];
        i := i + 1;
        assert Copies(index, length, i) == Copies(index, length, i - 1) + [Item(index, length)];
      }
      assert specs[..index + 1][..index] == specs[..index];
    }
    assert specs[..|specs|] == specs;
    var a := new Item[|pushed|](k => if 0 <= k < |pushed| then pushed[k] else Item(0, 0));
    assert a[..] == pushed;
    ExpandItems(specs);
    SortLongestFirst(a);
    result := a[..];
    assert |result| == |multiset(result)|;
    forall k | 0 <= k < |result|
      ensures result[k].index < |specs| && result[k].length == specs[result[k].index].length
    {
      assert result[k] in multiset(pushed);
      var m :| 0 <= m < |pushed| && pushed[m] == result[k];
    }
    forall i | 0 <= i < |specs| ensures multiset(result)[Item(i, specs[i].length)] == Count(specs[i].number) {
      ExpandCount(specs, i);
    }
  }
}
