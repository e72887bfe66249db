/** The payload of a group: the sum of its items' lengths. */
module GroupSum {
  import opened Pieces

  /** The left fold that adds each item's length to an accumulator. With
      no negative length it never drops below its start and takes in each
      length. */
  function Fold(acc: int, group: seq<Item>): (r: int)
    ensures (forall k :: 0 <= k < |group| ==> group[k].length >= 0) ==>
      acc <= r && forall k :: 0 <= k < |group| ==> acc + group[k].length <= r
    decreases |group|
  {
    if group == [] then acc
    else
      assert forall k :: 1 <= k < |group| ==> group[k] == group[1..][k - 1];
      Fold(acc + group[0].length, group[1..])
  }

  /** The group's payload: 0 for the empty group, otherwise the fold from
      0. With no negative length it is non-negative and at least each
      item's length. */
  function Sum(group: seq<Item>): (r: int)
    ensures |group| == 0 ==> r == 0
    ensures (forall k :: 0 <= k < |group| ==> group[k].length >= 0) ==>
      r >= 0 && forall k :: 0 <= k < |group| ==> group[k].length <= r
  {
    if |group| == 0 then 0 else Fold(0, group)
  }

  lemma {:induction false} FoldAppend(acc: int, group: seq<Item>, x: Item)
    ensures Fold(acc, group + [x]) == Fold(acc, group) + x.length
    decreases |group|
  {
    if group == [] {
      assert [x][1..] == [];
    } else {
      assert (group + [x])[1..] == group[1..] + [x];
      FoldAppend(acc + group[0].length, group[1..], x);
    }
  }

  lemma {:induction false} FoldShift(acc: int, group: seq<Item>)
    ensures Fold(acc, group) == acc + Sum(group)
    decreases |group|
  {
    if group != [] {
      FoldShift(acc + group[0].length, group[1..]);
      FoldShift(group[0].length, group[1..]);
    }
  }

  /** Appending one item raises the payload by exactly its length. */
  lemma SumAppend(group: seq<Item>, x: Item)
    ensures Sum(group + [x]) == Sum(group) + x.length
  {
    FoldAppend(0, group, x);
  }

  /** The payload of a concatenation is the sum of the payloads. */
  lemma {:induction false} SumConcat(s: seq<Item>, t: seq<Item>)
    ensures Sum(s + t) == Sum(s) + Sum(t)
    decreases |s|
  {
    if s == [] {
      assert s + t == t;
    } else {
      assert (s + t)[1..] == s[1..] + t;
      FoldShift(s[0].length, s[1..] + t);
      SumConcat(s[1..], t);
      FoldShift(s[0].length, s[1..]);
    }
  }
}
