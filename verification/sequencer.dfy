/** The greedy grouping loop that plans the cuts. */
module Planner {
  import opened Pieces
  import opened GroupSum
  import opened PoolRemoval
  import opened BestFit

  /** All groups laid end to end. */
  function Flatten(groups: seq<seq<Item>>): seq<Item>
    decreases |groups|
  {
    if groups == [] then [] else Flatten(groups[..|groups| - 1]) + groups[|groups| - 1]
  }

  lemma FlattenAppend(groups: seq<seq<Item>>, g: seq<Item>)
    ensures Flatten(groups + [g]) == Flatten(groups) + g
  {
    assert (groups + [g])[..|groups|] == groups;
  }

  /** With no empty group, a group holds at most what is left after every
      other group takes one item. */
  lemma {:induction false} FlattenSize(groups: seq<seq<Item>>)
    requires forall p :: 0 <= p < |groups| ==> |groups[p]| > 0
    ensures forall p :: 0 <= p < |groups| ==> |groups[p]| + |groups| - 1 <= |Flatten(groups)|
    decreases |groups|
  {
    if groups != [] {
      var front := groups[..|groups| - 1];
      FlattenSize(front);
      forall p | 0 <= p < |groups| ensures |groups[p]| + |groups| - 1 <= |Flatten(groups)| {
        if p < |front| {
          assert groups[p] == front[p];
          assert |Flatten(front)| >= |groups[p]| + |front| - 1;
        } else if front != [] {
          assert |Flatten(front)| >= |front[0]| + |front| - 1;
        }
      }
    }
  }

  /** Capacity as the loop enforces it: past the seed, an item joins only
      while `limit - saw * count - sum > 0` and it fits that headroom, so a
      group of two or more items keeps `sum + saw * (count - 1) <= limit`. */
  predicate Fits(g: seq<Item>, limit: int, saw: int) {
    |g| >= 2 ==> Sum(g) + saw * (|g| - 1) <= limit
  }

  /** Every group's seed is at least as long as every item in it and in
      every later group. */
  predicate SeedsLead(groups: seq<seq<Item>>) {
    forall p, q, k :: 0 <= p <= q < |groups| && 0 <= k < |groups[q]| && |groups[p]| > 0 ==>
      groups[q][k].length <= groups[p][0].length
  }

  /** The room a group leaves: `limit - saw * count - sum`, the loop's
      `difference`. */
  function Headroom(g: seq<Item>, limit: int, saw: int): int {
    limit - saw * |g| - Sum(g)
  }

  /** Past the seed, each item joined while the group still had positive
      headroom, and fits that headroom. */
  predicate Chosen(g: seq<Item>, limit: int, saw: int) {
    forall j :: 1 <= j < |g| ==> 0 < Headroom(g[..j], limit, saw) && 0 <= g[j].length <= Headroom(g[..j], limit, saw)
  }

  /** What the probe at slot `j` of `g` settled for: the length taken
      there, or -1 where the group closed with nothing taken. */
  function Floor(g: seq<Item>, j: int): int
    requires 0 <= j <= |g|
  {
    if j < |g| then g[j].length else -1
  }

  /** The best-fit rule seen from slot `j` of `g`: when the group still had
      headroom there, `x` is not longer than what was taken at `j` while
      fitting that headroom (and, where the group closed, does not fit it
      at all). */
  predicate Passed(g: seq<Item>, j: int, x: Item, limit: int, saw: int)
    requires 1 <= j <= |g|
  {
    Headroom(g[..j], limit, saw) > 0 ==> !(Floor(g, j) < x.length <= Headroom(g[..j], limit, saw))
  }

  /** The items placed at or after slot `j` of group `q`. */
  function Later(groups: seq<seq<Item>>, q: int, j: int): seq<Item>
    requires 0 <= q < |groups| && 0 <= j <= |groups[q]|
  {
    groups[q][j..] + Flatten(groups[q + 1..])
  }

  /** Every probe made so far respects the best-fit rule for everything
      placed after it and everything still in the pool. A probe is made at
      each slot past a seed and, once a group is closed, at its end; only
      the end of the last group is still open while `open` holds. */
  ghost predicate Greedy(groups: seq<seq<Item>>, pool: seq<Item>, open: bool, limit: int, saw: int) {
    forall q, j, x :: Probed(groups, pool, open, q, j, x, limit, saw)
  }

  /** The rule for one probe, slot `j` of group `q`, and one item `x`. */
  ghost predicate Probed(groups: seq<seq<Item>>, pool: seq<Item>, open: bool, q: int, j: int, x: Item, limit: int, saw: int) {
    (0 <= q < |groups| && 1 <= j <= |groups[q]| && (j < |groups[q]| || q < |groups| - 1 || !open) &&
     (x in Later(groups, q, j) || x in pool)) ==>
      Passed(groups[q], j, x, limit, saw)
  }

  /** The tie rule for slot `j` of group `q` and one item `x`: among equal
      lengths, what was placed at that slot has an index no larger than
      anything of its length placed after it or still in the pool. */
  ghost predicate Tie(groups: seq<seq<Item>>, pool: seq<Item>, q: int, j: int, x: Item) {
    (0 <= q < |groups| && 0 <= j < |groups[q]| && (x in Later(groups, q, j) || x in pool) &&
     x.length == groups[q][j].length) ==>
      groups[q][j].index <= x.index
  }

  /** For an input in the stable sort's order: the pool keeps that order,
      and every slot keeps the tie rule, since seeds are the pool's head
      and `find` takes the first item of a length in pool order. */
  ghost predicate Stable(input: seq<Item>, groups: seq<seq<Item>>, pool: seq<Item>) {
    Ordered(input) ==> Ordered(pool) && forall q, j, x :: Tie(groups, pool, q, j, x)
  }

  /** The groups the loop has formed so far: the closed ones in `result`,
      and the open `stack` while the pool is not yet empty (once it is, the
      stack has been flushed into `result`). */
  ghost function Groups(result: seq<seq<Item>>, stack: seq<Item>, pool: seq<Item>): seq<seq<Item>> {
    if |pool| > 0 && |stack| > 0 then result + [stack] else result
  }

  /** Groups are never empty, the first is seeded with the first input
      item, and before any group exists the pool is the whole input. */
  ghost predicate Shaped(input: seq<Item>, groups: seq<seq<Item>>, pool: seq<Item>) {
    (groups == [] ==> pool == input) &&
    (forall p :: 0 <= p < |groups| ==> |groups[p]| > 0) &&
    (|groups| > 0 ==> |groups[0]| > 0 && |input| > 0 && groups[0][0] == input[0])
  }

  /** No item is lost or duplicated: the groups and the pool together hold
      the input (item for item when indices determine lengths). */
  ghost predicate Accounted(input: seq<Item>, groups: seq<seq<Item>>, pool: seq<Item>) {
    |Flatten(groups)| + |pool| == |input| &&
    (IndexConsistent(input) ==> multiset(Flatten(groups)) + multiset(pool) == multiset(input))
  }

  /** Every group keeps the coded capacity bound, each item past a seed
      fitted the headroom it joined, and a seed that leaves no headroom
      stays alone. */
  ghost predicate Capacity(groups: seq<seq<Item>>, limit: int, saw: int) {
    (forall p :: 0 <= p < |groups| ==> Fits(groups[p], limit, saw) && Chosen(groups[p], limit, saw)) &&
    (forall p :: 0 <= p < |groups| && |groups[p]| > 0 && groups[p][0].length >= limit - saw ==> |groups[p]| == 1)
  }

  /** `x` is no longer than the seed of any group. */
  ghost predicate Below(groups: seq<seq<Item>>, x: Item) {
    forall p :: 0 <= p < |groups| && |groups[p]| > 0 ==> x.length <= groups[p][0].length
  }

  /** For a longest-first input: the pool stays longest first, and every
      seed is at least as long as everything placed or left after it. */
  ghost predicate Leading(input: seq<Item>, groups: seq<seq<Item>>, pool: seq<Item>) {
    Descending(input) ==>
      Descending(pool) && SeedsLead(groups) &&
      forall k :: 0 <= k < |pool| ==> Below(groups, pool[k])
  }

  ghost predicate Planned(input: seq<Item>, limit: int, saw: int, groups: seq<seq<Item>>, pool: seq<Item>) {
    Shaped(input, groups, pool) && Accounted(input, groups, pool) &&
    Capacity(groups, limit, saw) && Leading(input, groups, pool)
  }

  lemma PlannedStart(input: seq<Item>, limit: int, saw: int)
    ensures Planned(input, limit, saw, [], input)
  {
  }

  lemma SeedAccounted(input: seq<Item>, groups: seq<seq<Item>>, pool: seq<Item>)
    requires Accounted(input, groups, pool) && |pool| > 0
    ensures Accounted(input, groups + [[pool[0]]], Removed(pool, pool[0]))
  {
    var seed := pool[0];
    var pool' := Removed(pool, seed);
    RemovedHead(pool);
    FlattenAppend(groups, [seed]);
    assert pool == [seed] + pool';
    assert multiset(pool) == multiset{seed} + multiset(pool');
  }

  lemma SeedCapacity(groups: seq<seq<Item>>, seed: Item, limit: int, saw: int)
    requires Capacity(groups, limit, saw)
    ensures Capacity(groups + [[seed]], limit, saw)
  {
    var groups' := groups + [[seed]];
    assert forall p :: 0 <= p < |groups| ==> groups'[p] == groups[p];
  }

  /** A new group whose seed is no longer than any earlier seed, and no
      shorter than what it holds, keeps the seeds leading. */
  lemma SeedsLeadAppend(groups: seq<seq<Item>>, g: seq<Item>)
    requires SeedsLead(groups) && |g| > 0 && Below(groups, g[0])
    requires forall k :: 0 <= k < |g| ==> g[k].length <= g[0].length
    ensures SeedsLead(groups + [g])
  {
    var groups': seq<seq<Item>> := groups + [g];
    forall p, q, k | 0 <= p <= q < |groups'| && 0 <= k < |groups'[q]| && |groups'[p]| > 0
      ensures groups'[q][k].length <= groups'[p][0].length
    {
      if q < |groups| {
        assert groups'[q] == groups[q] && groups'[p] == groups[p];
      } else if p < |groups| {
        assert groups'[q] == g && groups'[p] == groups[p];
      }
    }
  }

  /** An item no longer than the seeds so far stays below them once a group
      with a seed at least as long is added or extended. */
  lemma BelowAppend(groups: seq<seq<Item>>, g: seq<Item>, x: Item)
    requires Below(groups, x) && |g| > 0 && x.length <= g[0].length
    ensures Below(groups + [g], x)
  {
    var groups': seq<seq<Item>> := groups + [g];
    forall p | 0 <= p < |groups'| && |groups'[p]| > 0 ensures x.length <= groups'[p][0].length {
      if p < |groups| {
        assert groups'[p] == groups[p];
      }
    }
  }

  lemma SeedLeading(input: seq<Item>, groups: seq<seq<Item>>, pool: seq<Item>)
    requires Leading(input, groups, pool) && |pool| > 0
    ensures Leading(input, groups + [[pool[0]]], Removed(pool, pool[0]))
  {
    if Descending(input) {
      var seed := pool[0];
      var pool' := Removed(pool, seed);
      RemovedHead(pool);
      RemovedDescending(pool, seed);
      SeedsLeadAppend(groups, [seed]);
      forall k | 0 <= k < |pool'| ensures Below(groups + [[seed]], pool'[k]) {
        assert pool'[k] == pool[k + 1];
        BelowAppend(groups, [seed], pool'[k]);
      }
    }
  }

  /** The seed step: the first pool item opens a new group. */
  lemma SeedStep(input: seq<Item>, limit: int, saw: int, groups: seq<seq<Item>>, pool: seq<Item>)
    requires Planned(input, limit, saw, groups, pool) && |pool| > 0
    ensures Planned(input, limit, saw, groups + [[pool[0]]], Removed(pool, pool[0]))
  {
    var groups' := groups + [[pool[0]]];
    assert forall p :: 0 <= p < |groups| ==> groups'[p] == groups[p];
    SeedAccounted(input, groups, pool);
    SeedCapacity(groups, pool[0], limit, saw);
    SeedLeading(input, groups, pool);
  }

  /** A part of an input whose indices determine lengths inherits that. */
  lemma ConsistentPart(input: seq<Item>, placed: seq<Item>, pool: seq<Item>)
    requires IndexConsistent(input) && multiset(placed) + multiset(pool) == multiset(input)
    ensures IndexConsistent(pool)
  {
    forall i, j | 0 <= i < |pool| && 0 <= j < |pool| && pool[i].index == pool[j].index
      ensures pool[i].length == pool[j].length
    {
      assert pool[i] in multiset(input) && pool[j] in multiset(input);
    }
  }

  lemma AddAccounted(input: seq<Item>, groups: seq<seq<Item>>, stack: seq<Item>, pool: seq<Item>, next: Item)
    requires Accounted(input, groups + [stack], pool) && next in pool
    ensures Accounted(input, groups + [stack + [next]], Removed(pool, next))
  {
    var pool' := Removed(pool, next);
    RemovedSubset(pool, next);
    FlattenAppend(groups, stack);
    FlattenAppend(groups, stack + [next]);
    if IndexConsistent(input) {
      ConsistentPart(input, Flatten(groups + [stack]), pool);
      RemovedTarget(pool, next);
    } else {
      var k := FindIndex(pool, next.index);
      assert k >= 0;
    }
  }

  lemma AddCapacity(groups: seq<seq<Item>>, stack: seq<Item>, next: Item, limit: int, saw: int)
    requires Capacity(groups + [stack], limit, saw) && |stack| > 0
    requires 0 < Headroom(stack, limit, saw) && 0 <= next.length <= Headroom(stack, limit, saw)
    ensures Capacity(groups + [stack + [next]], limit, saw)
  {
    var before: seq<seq<Item>>, after: seq<seq<Item>> := groups + [stack], groups + [stack + [next]];
    var g := stack + [next];
    SumAppend(stack, next);
    assert before[|groups|] == stack && after[|groups|] == g;
    assert forall p :: 0 <= p < |groups| ==> after[p] == before[p];
    assert g[0] == stack[0];
    if |stack| == 1 {
      assert [] + [stack[0]] == stack;
      SumAppend([], stack[0]);
    }
    assert Chosen(stack, limit, saw);
    forall j | 1 <= j < |g| ensures 0 < Headroom(g[..j], limit, saw) && 0 <= g[j].length <= Headroom(g[..j], limit, saw) {
      if j < |stack| {
        assert g[..j] == stack[..j] && g[j] == stack[j];
      } else {
        assert g[..j] == stack;
      }
    }
  }

  /** Extending the last group with an item no longer than any seed keeps
      the seeds leading. */
  lemma SeedsLeadExtend(groups: seq<seq<Item>>, stack: seq<Item>, x: Item)
    requires SeedsLead(groups + [stack]) && |stack| > 0 && Below(groups + [stack], x)
    ensures SeedsLead(groups + [stack + [x]])
  {
    var before: seq<seq<Item>>, after: seq<seq<Item>> := groups + [stack], groups + [stack + [x]];
    assert before[|groups|] == stack && after[|groups|] == stack + [x];
    forall p, q, k | 0 <= p <= q < |after| && 0 <= k < |after[q]| && |after[p]| > 0
      ensures after[q][k].length <= after[p][0].length
    {
      assert after[p][0] == before[p][0];
      if q < |groups| || k < |stack| {
        assert after[q][k] == before[q][k];
      }
    }
  }

  lemma BelowExtend(groups: seq<seq<Item>>, stack: seq<Item>, x: Item, y: Item)
    requires Below(groups + [stack], y) && |stack| > 0
    ensures Below(groups + [stack + [x]], y)
  {
    var before: seq<seq<Item>>, after: seq<seq<Item>> := groups + [stack], groups + [stack + [x]];
    forall p | 0 <= p < |after| && |after[p]| > 0 ensures y.length <= after[p][0].length {
      assert after[p][0] == before[p][0];
    }
  }

  lemma AddLeading(input: seq<Item>, groups: seq<seq<Item>>, stack: seq<Item>, pool: seq<Item>, next: Item)
    requires Leading(input, groups + [stack], pool) && |stack| > 0 && next in pool
    ensures Leading(input, groups + [stack + [next]], Removed(pool, next))
  {
    var pool' := Removed(pool, next);
    RemovedSubset(pool, next);
    if Descending(input) {
      RemovedDescending(pool, next);
      SeedsLeadExtend(groups, stack, next);
      forall k | 0 <= k < |pool'| ensures Below(groups + [stack + [next]], pool'[k]) {
        assert pool'[k] in pool;
        BelowExtend(groups, stack, next, pool'[k]);
      }
    }
  }

  /** The fill step: an item `next` of the pool that fits the headroom of
      the open group joins it, and `remove` takes it out of the pool. */
  lemma AddStep(input: seq<Item>, limit: int, saw: int, groups: seq<seq<Item>>, stack: seq<Item>, pool: seq<Item>, next: Item)
    requires Planned(input, limit, saw, groups + [stack], pool) && |stack| > 0 && next in pool
    requires 0 < Headroom(stack, limit, saw) && 0 <= next.length <= Headroom(stack, limit, saw)
    ensures Planned(input, limit, saw, groups + [stack + [next]], Removed(pool, next))
  {
    var before: seq<seq<Item>>, after: seq<seq<Item>> := groups + [stack], groups + [stack + [next]];
    assert forall p :: 0 <= p < |groups| ==> after[p] == before[p];
    assert |groups| > 0 ==> after[0] == before[0];
    AddAccounted(input, groups, stack, pool, next);
    AddCapacity(groups, stack, next, limit, saw);
    AddLeading(input, groups, stack, pool, next);
  }

  /** Every item of every group is in the concatenation of the groups. */
  lemma {:induction false} FlattenMember(groups: seq<seq<Item>>, r: int, k: int)
    requires 0 <= r < |groups| && 0 <= k < |groups[r]|
    ensures groups[r][k] in Flatten(groups)
    decreases |groups|
  {
    var front := groups[..|groups| - 1];
    if r < |front| {
      FlattenMember(front, r, k);
      assert front[r] == groups[r];
    } else {
      assert groups[r][k] in groups[|groups| - 1];
    }
  }

  /** What comes after a slot of an earlier group gains the new group. */
  lemma LaterAppend(groups: seq<seq<Item>>, g: seq<Item>, q: int, j: int)
    requires 0 <= q < |groups| && 0 <= j <= |groups[q]|
    ensures Later(groups + [g], q, j) == Later(groups, q, j) + g
  {
    var after := groups + [g];
    assert after[q] == groups[q];
    assert after[q + 1..] == groups[q + 1..] + [g];
    FlattenAppend(groups[q + 1..], g);
  }

  /** What comes after a slot of the last group is the rest of that group. */
  lemma LaterLast(groups: seq<seq<Item>>, g: seq<Item>, j: int)
    ensures 0 <= j <= |g| ==> Later(groups + [g], |groups|, j) == g[j..]
  {
    var after := groups + [g];
    assert after[|groups|] == g;
    assert after[|groups| + 1..] == [];
  }

  /** Appending to a group leaves the rule at its earlier slots as it was. */
  lemma PassedExtend(g: seq<Item>, x: Item, j: int, y: Item, limit: int, saw: int)
    requires 1 <= j < |g|
    ensures Passed(g + [x], j, y, limit, saw) == Passed(g, j, y, limit, saw)
  {
    assert (g + [x])[..j] == g[..j];
    assert (g + [x])[j] == g[j];
  }

  /** The seed step keeps every probe's rule: the seed comes from the
      pool, and the pool only shrinks. */
  lemma SeedGreedy(groups: seq<seq<Item>>, pool: seq<Item>, limit: int, saw: int)
    requires Greedy(groups, pool, false, limit, saw) && |pool| > 0
    ensures Greedy(groups + [[pool[0]]], Removed(pool, pool[0]), |Removed(pool, pool[0])| > 0, limit, saw)
  {
    var seed := pool[0];
    var after: seq<seq<Item>>, pool' := groups + [[seed]], Removed(pool, seed);
    RemovedSubset(pool, seed);
    forall q, j, x | 0 <= q < |after| && 1 <= j <= |after[q]| && (j < |after[q]| || q < |after| - 1 || |pool'| == 0) &&
                     (x in Later(after, q, j) || x in pool')
      ensures Passed(after[q], j, x, limit, saw)
    {
      LaterLast(groups, [seed], j);
      if q < |groups| {
        LaterAppend(groups, [seed], q, j);
        assert after[q] == groups[q];
        assert Probed(groups, pool, false, q, j, x, limit, saw);
      }
    }
  }

  /** The fill step keeps every probe's rule and adds the probe that took
      `next`: nothing in the pool lies strictly between `next` and the
      headroom it filled. */
  lemma AddGreedy(groups: seq<seq<Item>>, stack: seq<Item>, pool: seq<Item>, next: Item, limit: int, saw: int)
    requires Greedy(groups + [stack], pool, true, limit, saw) && |stack| > 0 && next in pool
    requires forall k :: 0 <= k < |pool| ==> !(next.length < pool[k].length <= Headroom(stack, limit, saw))
    ensures Greedy(groups + [stack + [next]], Removed(pool, next), |Removed(pool, next)| > 0, limit, saw)
  {
    var before: seq<seq<Item>>, after: seq<seq<Item>> := groups + [stack], groups + [stack + [next]];
    var g, pool' := stack + [next], Removed(pool, next);
    RemovedSubset(pool, next);
    forall q, j, x | 0 <= q < |after| && 1 <= j <= |after[q]| && (j < |after[q]| || q < |after| - 1 || |pool'| == 0) &&
                     (x in Later(after, q, j) || x in pool')
      ensures Passed(after[q], j, x, limit, saw)
    {
      LaterLast(groups, g, j);
      LaterLast(groups, stack, j);
      if q < |groups| {
        LaterAppend(groups, stack, q, j);
        LaterAppend(groups, g, q, j);
        assert after[q] == before[q];
        assert Probed(before, pool, true, q, j, x, limit, saw);
      } else if j < |stack| {
        assert g[j..] == stack[j..] + [next];
        PassedExtend(stack, next, j, x, limit, saw);
        assert Probed(before, pool, true, q, j, x, limit, saw);
      } else if j == |stack| {
        assert g[..j] == stack && g[j..] == [next];
        if x in pool {
          var k :| 0 <= k < |pool| && pool[k] == x;
        }
      }
    }
  }

  /** Closing keeps every probe's rule and adds the probe at the end of the
      closed group: nothing in the pool fits the headroom it had left. */
  lemma CloseGreedy(groups: seq<seq<Item>>, stack: seq<Item>, pool: seq<Item>, limit: int, saw: int)
    requires Greedy(groups + [stack], pool, true, limit, saw) && |stack| > 0
    requires Headroom(stack, limit, saw) > 0 ==>
      forall k :: 0 <= k < |pool| ==> !(0 <= pool[k].length <= Headroom(stack, limit, saw))
    ensures Greedy(groups + [stack], pool, false, limit, saw)
  {
    var before := groups + [stack];
    forall q, j, x | 0 <= q < |before| && 1 <= j <= |before[q]| && (x in Later(before, q, j) || x in pool)
      ensures Passed(before[q], j, x, limit, saw)
    {
      if q == |groups| && j == |stack| {
        LaterLast(groups, stack, j);
        assert stack[..j] == stack;
        if x in pool {
          var k :| 0 <= k < |pool| && pool[k] == x;
        }
      } else {
        assert Probed(before, pool, true, q, j, x, limit, saw);
      }
    }
  }

  /** The seed step keeps the tie rule: the seed is the head of an
      ordered pool, and the pool only shrinks. */
  lemma SeedStable(input: seq<Item>, groups: seq<seq<Item>>, pool: seq<Item>)
    requires Stable(input, groups, pool) && |pool| > 0
    ensures Stable(input, groups + [[pool[0]]], Removed(pool, pool[0]))
  {
    if Ordered(input) {
      var seed := pool[0];
      var after: seq<seq<Item>>, pool' := groups + [[seed]], Removed(pool, seed);
      RemovedOrdered(pool, seed);
      RemovedSubset(pool, seed);
      forall q, j, x ensures Tie(after, pool', q, j, x) {
        if 0 <= q < |after| && 0 <= j < |after[q]| && (x in Later(after, q, j) || x in pool') &&
           x.length == after[q][j].length {
          LaterLast(groups, [seed], j);
          if q < |groups| {
            LaterAppend(groups, [seed], q, j);
            assert after[q] == groups[q];
            assert Tie(groups, pool, q, j, x);
          } else if x in pool {
            var m :| 0 <= m < |pool| && pool[m] == x;
            if m > 0 {
              assert Before(pool[0], pool[m]);
            }
          }
        }
      }
    }
  }

  /** The fill step keeps the tie rule: `next` is the first item of its
      length in an ordered pool. */
  lemma AddStable(input: seq<Item>, groups: seq<seq<Item>>, stack: seq<Item>, pool: seq<Item>, next: Item)
    requires Stable(input, groups + [stack], pool) && |stack| > 0 && next in pool
    requires Find(pool, next.length) == Some(next)
    ensures Stable(input, groups + [stack + [next]], Removed(pool, next))
  {
    if Ordered(input) {
      var before: seq<seq<Item>>, after: seq<seq<Item>> := groups + [stack], groups + [stack + [next]];
      var g, pool' := stack + [next], Removed(pool, next);
      RemovedOrdered(pool, next);
      RemovedSubset(pool, next);
      forall q, j, x ensures Tie(after, pool', q, j, x) {
        if 0 <= q < |after| && 0 <= j < |after[q]| && (x in Later(after, q, j) || x in pool') &&
           x.length == after[q][j].length {
          LaterLast(groups, g, j);
          if q < |groups| {
            LaterAppend(groups, stack, q, j);
            LaterAppend(groups, g, q, j);
            assert after[q] == before[q];
            assert Tie(before, pool, q, j, x);
          } else if j < |stack| {
            LaterLast(groups, stack, j);
            assert g[j..] == stack[j..] + [next] && g[j] == stack[j];
            assert Tie(before, pool, q, j, x);
          } else if x in pool {
            assert g[j] == next;
            var k :| 0 <= k < |pool| && pool[k] == next && forall i :: 0 <= i < k ==> pool[i].length != next.length;
            var m :| 0 <= m < |pool| && pool[m] == x;
            if m > k {
              assert Before(pool[k], pool[m]);
            }
          }
        }
      }
    }
  }

  /** What the finished plan promises: no group is empty and the first is
      seeded with the first input item; the groups together hold the input
      with no loss and no duplication (item for item when indices determine
      lengths, and in number in any case); every group of two or more items
      keeps `sum + saw * (count - 1) <= limit`; each item past a seed fitted
      the headroom it joined; every probe kept the best-fit rule for what
      came after it, so a group that closed with headroom left is one that
      nothing placed later fits, and an item taken with headroom `h` is at
      least as long as anything placed later that fits `h`; a seed that
      leaves no headroom (`length >= limit - saw`) is closed alone; for a
      longest-first input every seed is the longest item of its group and
      of every later group; and for an input in the stable sort's order,
      among equal lengths the item at each slot has an index no larger
      than any placed after it. */
  ghost predicate IsPlanOf(input: seq<Item>, limit: int, saw: int, groups: seq<seq<Item>>) {
    (forall p :: 0 <= p < |groups| ==> |groups[p]| > 0) &&
    |groups| > 0 && |input| > 0 && groups[0][0] == input[0] &&
    |Flatten(groups)| == |input| &&
    (IndexConsistent(input) ==> multiset(Flatten(groups)) == multiset(input)) &&
    (forall p :: 0 <= p < |groups| && |groups[p]| >= 2 ==> Sum(groups[p]) + saw * (|groups[p]| - 1) <= limit) &&
    (forall p :: 0 <= p < |groups| ==> Chosen(groups[p], limit, saw)) &&
    (forall q, j, x :: 0 <= q < |groups| && 1 <= j <= |groups[q]| && x in Later(groups, q, j) ==>
      Passed(groups[q], j, x, limit, saw)) &&
    (forall p :: 0 <= p < |groups| && groups[p][0].length >= limit - saw ==> |groups[p]| == 1) &&
    (Descending(input) ==> SeedsLead(groups)) &&
    (Ordered(input) ==> forall q, j, x ::
      (0 <= q < |groups| && 0 <= j < |groups[q]| && x in Later(groups, q, j) && x.length == groups[q][j].length) ==>
        groups[q][j].index <= x.index)
  }

  /** What `sequencer` keeps between iterations, on its own variables. */
  ghost predicate Progress(input: seq<Item>, limit: int, saw: int, result: seq<seq<Item>>, stack: seq<Item>, pool: seq<Item>) {
    Planned(input, limit, saw, Groups(result, stack, pool), pool) &&
    Greedy(Groups(result, stack, pool), pool, |stack| > 0 && |pool| > 0, limit, saw) &&
    Stable(input, Groups(result, stack, pool), pool)
  }

  /** Once the pool is empty, the open group has been flushed and the
      closed groups are a finished plan. */
  lemma PlannedDone(input: seq<Item>, limit: int, saw: int, result: seq<seq<Item>>, stack: seq<Item>, pool: seq<Item>)
    requires |input| > 0 && |pool| == 0 && Progress(input, limit, saw, result, stack, pool)
    ensures IsPlanOf(input, limit, saw, result)
  {
    assert pool == [] && Groups(result, stack, pool) == result;
    var groups := result;
    assert forall p :: 0 <= p < |groups| ==> Fits(groups[p], limit, saw);
    var empty: seq<Item> := [];
    assert multiset(Flatten(groups)) + multiset(empty) == multiset(Flatten(groups));
    forall q, j, x | 0 <= q < |groups| && 1 <= j <= |groups[q]| && x in Later(groups, q, j)
      ensures Passed(groups[q], j, x, limit, saw)
    {
      assert Probed(groups, pool, false, q, j, x, limit, saw);
    }
    forall q, j, x | Ordered(input) && 0 <= q < |groups| && 0 <= j < |groups[q]| && x in Later(groups, q, j) &&
                     x.length == groups[q][j].length
      ensures groups[q][j].index <= x.index
    {
      assert Tie(groups, pool, q, j, x);
    }
  }

  /** A group closed with headroom left only because nothing placed after
      it fits that headroom. */
  lemma ClosedWhenNothingFits(input: seq<Item>, limit: int, saw: int, groups: seq<seq<Item>>, p: int, q: int, k: int)
    requires IsPlanOf(input, limit, saw, groups)
    requires 0 <= p < q < |groups| && 0 <= k < |groups[q]| && Headroom(groups[p], limit, saw) > 0
    ensures !(0 <= groups[q][k].length <= Headroom(groups[p], limit, saw))
  {
    var g, rest := groups[p], groups[p + 1..];
    FlattenMember(rest, q - p - 1, k);
    assert rest[q - p - 1] == groups[q];
    assert g[..|g|] == g && g[|g|..] == [];
    assert groups[q][k] in Later(groups, p, |g|);
  }

  /** Seeding, then flushing the new group if the pool ran dry. */
  lemma SeedProgress(input: seq<Item>, limit: int, saw: int, result: seq<seq<Item>>, pool: seq<Item>)
    requires Progress(input, limit, saw, result, [], pool) && |pool| > 0
    ensures var pool' := Removed(pool, pool[0]);
      Progress(input, limit, saw, if |pool'| == 0 then result + [[pool[0]]] else result, [pool[0]], pool')
  {
    SeedStep(input, limit, saw, result, pool);
    SeedGreedy(result, pool, limit, saw);
    SeedStable(input, result, pool);
  }

  /** Filling by best fit, then flushing the open group if the pool ran
      dry. */
  lemma AddProgress(input: seq<Item>, limit: int, saw: int, result: seq<seq<Item>>, stack: seq<Item>, pool: seq<Item>, next: Item)
    requires Progress(input, limit, saw, result, stack, pool) && |stack| > 0 && next in pool
    requires 0 < Headroom(stack, limit, saw) && 0 <= next.length <= Headroom(stack, limit, saw)
    requires forall k :: 0 <= k < |pool| ==> !(next.length < pool[k].length <= Headroom(stack, limit, saw))
    requires Find(pool, next.length) == Some(next)
    ensures var pool' := Removed(pool, next);
      Progress(input, limit, saw, if |pool'| == 0 then result + [stack + [next]] else result, stack + [next], pool')
  {
    AddStep(input, limit, saw, result, stack, pool, next);
    AddGreedy(result, stack, pool, next, limit, saw);
    AddStable(input, result, stack, pool, next);
  }

  /** Closing the open group, with no headroom left or nothing in the pool
      that fits it, while the pool still has items. */
  lemma CloseProgress(input: seq<Item>, limit: int, saw: int, result: seq<seq<Item>>, stack: seq<Item>, pool: seq<Item>)
    requires Progress(input, limit, saw, result, stack, pool) && |stack| > 0 && |pool| > 0
    requires Headroom(stack, limit, saw) > 0 ==>
      forall k :: 0 <= k < |pool| ==> !(0 <= pool[k].length <= Headroom(stack, limit, saw))
    ensures Progress(input, limit, saw, result + [stack], [], pool)
  {
    CloseGreedy(result, stack, pool, limit, saw);
  }

  /** `sequencer`: seeds each group with the first (longest) pool item,
      fills it by best fit at one fractional digit while its headroom is
      positive, closes it when nothing fits, and flushes the open group
      once the pool is empty. */
  method Sequencer(input: seq<Item>, limit: int, saw: int) returns (result: seq<seq<Item>>)
    requires |input| > 0
    ensures IsPlanOf(input, limit, saw, result)
  {
    var pool := new Pool(input);  // the source's `array`
    result := [];
    var stack: seq<Item> := [];
    PlannedStart(input, limit, saw);
    while |pool.items| > 0
      invariant Progress(input, limit, saw, result, stack, pool.items)
      decreases 2 * |pool.items| + (if |stack| > 0 then 1 else 0)
    {
      if |stack| > 0 {
        var payload := Sum(stack);
        var amendment := saw * |stack|;
        var difference := limit - amendment - payload;
        if difference > 0 {
          var next := Closest(pool.items, difference);
          if next.Some? {
            AddProgress(input, limit, saw, result, stack, pool.items, next.value);
            Remove(pool, next.value);
            stack := stack + [next.value];
          } else {
            CloseProgress(input, limit, saw, result, stack, pool.items);
            result := result + [stack];
            stack := [];
          }
        } else {
          CloseProgress(input, limit, saw, result, stack, pool.items);
          result := result + [stack];
          stack := [];
        }
      } else {
        var value := pool.items[0];
        SeedProgress(input, limit, saw, result, pool.items);
        stack := stack + [value];
        assert stack == [value];
        Remove(pool, value);
      }
      if |pool.items| == 0 {
        result := result + [stack];
      }
    }
    PlannedDone(input, limit, saw, result, stack, pool.items);
  }
}
