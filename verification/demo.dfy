/** The planner on concrete inputs, in tenths: the sample order of
    `src/core/index.js`, and a piece longer than the stock. */
module Demo {
  import opened Pieces
  import opened GroupSum
  import opened PieceExpander
  import opened Planner

  /** 6.5 x 1, 40 x 1, 50 x 2, 10 x 6, 9 x 2, 0.5 x 1. */
  const Sample: seq<Spec> := [Spec(65, 1), Spec(400, 1), Spec(500, 2), Spec(100, 6), Spec(90, 2), Spec(5, 1)]

  lemma SampleTotal()
    ensures Total(Sample) == 13
  {
    assert Sample[..6] == Sample;
    forall k | 0 < k <= 6 ensures Sample[..k][..k - 1] == Sample[..k - 1] { }
    assert Total(Sample[..1]) == 1;
    assert Total(Sample[..2]) == 2;
    assert Total(Sample[..3]) == 4;
    assert Total(Sample[..4]) == 10;
    assert Total(Sample[..5]) == 12;
  }

  /** Whatever longest-first order of the expanded sample is chosen, it
      starts with a 50 of index 2, the only spec that long. */
  lemma SampleHead(pool: seq<Item>)
    requires |pool| > 0 && Descending(pool)
    requires forall k :: 0 <= k < |pool| ==> pool[k].index < |Sample| && pool[k].length == Sample[pool[k].index].length
    requires multiset(pool)[Item(2, 500)] == Count(Sample[2].number)
    ensures pool[0] == Item(2, 500)
  {
    assert Item(2, 500) in multiset(pool);
    var j :| 0 <= j < |pool| && pool[j] == Item(2, 500);
    assert pool[0].length >= 500;
  }

  /** The sample aligned, then planned for bars of 100 with a saw of 1:
      13 units, cut into groups that keep the coded capacity bound, the
      first seeded with a 50 (the first of the two, index 2). */
  method Sample100() returns (groups: seq<seq<Item>>)
    ensures |groups| > 0 && |groups[0]| > 0 && groups[0][0] == Item(2, 500)
    ensures |Flatten(groups)| == 13
    ensures multiset(Flatten(groups)) == multiset(Expand(Sample))
    ensures forall p :: 0 <= p < |groups| && |groups[p]| >= 2 ==> Sum(groups[p]) + 10 * (|groups[p]| - 1) <= 1000
  {
    var pool := Aligner(Sample);
    SampleTotal();
    SampleHead(pool);
    groups := Sequencer(pool, 1000, 10);
  }

  /** One piece of 150 against stock of 100 with a kerf of 1: it is emitted
      alone, over capacity, not rejected. */
  method Oversized() returns (groups: seq<seq<Item>>)
    ensures groups == [[Item(0, 1500)]]
    ensures Sum(groups[0]) + 10 > 1000
  {
    var pool := Aligner([Spec(1500, 1)]);
    assert Total([Spec(1500, 1)]) == 1;
    groups := Sequencer(pool, 1000, 10);
    SinglePlan(pool, groups);
    SumAppend([], Item(0, 1500));
    assert [] + [Item(0, 1500)] == groups[0];
  }

  /** The plan of a single item is that item alone. */
  lemma SinglePlan(pool: seq<Item>, groups: seq<seq<Item>>)
    requires |pool| == 1 && pool[0] == Item(0, 1500)
    requires |groups| > 0 && (forall p :: 0 <= p < |groups| ==> |groups[p]| > 0)
    requires |Flatten(groups)| == 1 && |groups[0]| > 0 && groups[0][0] == pool[0]
    ensures groups == [[Item(0, 1500)]]
  {
    FlattenSize(groups);
    assert |groups[0]| == 1 && |groups| == 1;
    assert groups[0] == [Item(0, 1500)];
  }

  /** A plan of a 50 and a 40 for bars of 100 with a saw of 1 has a single
      group: the 40 fits the 49 the 50 leaves, so a second group would
      break the best-fit rule. */
  lemma PairOneGroup(groups: seq<seq<Item>>)
    requires IsPlanOf([Item(0, 500), Item(1, 400)], 1000, 10, groups)
    ensures |groups| == 1
  {
    var input := [Item(0, 500), Item(1, 400)];
    assert IndexConsistent(input);
    if |groups| >= 2 {
      PairSplit(groups);
      SumAppend([], Item(0, 500));
      assert [] + [Item(0, 500)] == groups[0];
      ClosedWhenNothingFits(input, 1000, 10, groups, 0, 1, 0);
      assert false;
    }
  }

  /** Split over two or more groups, the pair can only be the 50 alone
      followed by the 40 alone. */
  lemma PairSplit(groups: seq<seq<Item>>)
    requires |groups| >= 2 && forall p :: 0 <= p < |groups| ==> |groups[p]| > 0
    requires |groups[0]| > 0 && groups[0][0] == Item(0, 500)
    requires multiset(Flatten(groups)) == multiset([Item(0, 500), Item(1, 400)])
    ensures |groups| == 2 && groups[0] == [Item(0, 500)] && groups[1] == [Item(1, 400)]
  {
    FlattenSize(groups);
    assert |groups| == 2 && |groups[0]| == 1 && |groups[1]| == 1;
    FlattenTwo(groups);
    SingletonPair(groups[0], groups[1]);
  }

  lemma FlattenTwo(groups: seq<seq<Item>>)
    requires |groups| == 2
    ensures Flatten(groups) == groups[0] + groups[1]
  {
    FlattenAppend([groups[0]], groups[1]);
    assert [groups[0]] + [groups[1]] == groups;
    FlattenAppend([], groups[0]);
    assert [] + [groups[0]] == [groups[0]];
  }

  lemma SingletonPair(g: seq<Item>, h: seq<Item>)
    requires |g| == 1 && |h| == 1 && g[0] == Item(0, 500)
    requires multiset(g + h) == multiset([Item(0, 500), Item(1, 400)])
    ensures g == [Item(0, 500)] && h == [Item(1, 400)]
  {
    assert g == [g[0]] && h == [h[0]];
    assert multiset(g + h) == multiset{g[0], h[0]};
  }

  /** Two items, the 50 first, holding the 50 and the 40: in that order. */
  lemma PairOrder(g: seq<Item>)
    requires |g| == 2 && g[0] == Item(0, 500)
    requires multiset(g) == multiset([Item(0, 500), Item(1, 400)])
    ensures g == [Item(0, 500), Item(1, 400)]
  {
    assert g == [g[0]] + [g[1]];
    assert multiset(g) == multiset{Item(0, 500), g[1]};
  }

  /** So the plan of the pair is that single bar, in that order. */
  lemma PairPlan(groups: seq<seq<Item>>)
    requires IsPlanOf([Item(0, 500), Item(1, 400)], 1000, 10, groups)
    ensures groups == [[Item(0, 500), Item(1, 400)]]
  {
    assert IndexConsistent([Item(0, 500), Item(1, 400)]);
    PairOneGroup(groups);
    PairGroup(groups);
  }

  lemma PairGroup(groups: seq<seq<Item>>)
    requires |groups| == 1 && |groups[0]| > 0 && groups[0][0] == Item(0, 500)
    requires |Flatten(groups)| == 2 && multiset(Flatten(groups)) == multiset([Item(0, 500), Item(1, 400)])
    ensures groups == [[Item(0, 500), Item(1, 400)]]
  {
    var g := groups[0];
    assert [] + [g] == groups;
    FlattenAppend([], g);
    PairOrder(g);
  }

  /** Of two pieces of the same length, the one of the lower index is taken
      first: a bar holding them in the other order is no plan. */
  lemma TieInIndexOrder()
    ensures !IsPlanOf([Item(0, 500), Item(1, 100), Item(2, 100)], 1000, 10, [[Item(0, 500), Item(2, 100), Item(1, 100)]])
  {
    var groups := [[Item(0, 500), Item(2, 100), Item(1, 100)]];
    assert Ordered([Item(0, 500), Item(1, 100), Item(2, 100)]);
    assert groups[0][1..] == [Item(2, 100), Item(1, 100)];
    assert Item(1, 100) in Later(groups, 0, 1);
  }

  /** A bar whose headroom is used up is closed, even when a zero-length
      piece is left: it is not added. */
  lemma ClosedAtZeroHeadroom()
    ensures !IsPlanOf([Item(0, 500), Item(1, 480), Item(2, 0)], 1000, 10, [[Item(0, 500), Item(1, 480), Item(2, 0)]])
  {
    var g := [Item(0, 500), Item(1, 480), Item(2, 0)];
    assert g[..2] == [Item(0, 500)] + [Item(1, 480)];
    assert [] + [Item(0, 500)] == [Item(0, 500)];
    SumAppend([], Item(0, 500));
    SumAppend([Item(0, 500)], Item(1, 480));
    assert Headroom(g[..2], 1000, 10) == 0;
  }

  /** The pair aligned and planned comes out as that single bar. */
  method PairOnOneBar() returns (groups: seq<seq<Item>>)
    ensures groups == [[Item(0, 500), Item(1, 400)]]
  {
    var specs := [Spec(500, 1), Spec(400, 1)];
    var pool := Aligner(specs);
    assert Total(specs[..1]) == 1;
    assert |pool| == 2;
    assert Item(0, 500) in multiset(pool) && Item(1, 400) in multiset(pool);
    assert pool[0].length >= pool[1].length;
    assert pool == [Item(0, 500), Item(1, 400)];
    groups := Sequencer(pool, 1000, 10);
    PairPlan(groups);
  }
}
