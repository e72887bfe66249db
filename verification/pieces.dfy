/** Values shared by every part of the cutting planner.
    All lengths (pieces, the stock length `limit` and the kerf `saw`) are
    integers counted in units of 10^-d, where d is the number of fractional
    digits the best-fit search works at; the planner always uses d = 1, so
    its unit is a tenth. */
module Pieces {

  /** A required piece as the caller supplies it: `{length, number}`. */
  datatype Spec = Spec(length: int, number: int)

  /** One unit piece of the pool: `{index, length}`, where `index` is the
      position of the spec it was expanded from (not an identity). */
  datatype Item = Item(index: nat, length: int)

  datatype Option<T> = None | Some(value: T)

  /** The pool order: longest first. */
  predicate Descending(s: seq<Item>) {
    forall i, j :: 0 <= i < j < |s| ==> s[i].length >= s[j].length
  }

  /** The order the stable longest-first sort gives to an expanded pool:
      longer first, and among equal lengths the smaller index first. */
  predicate Before(x: Item, y: Item) {
    x.length > y.length || (x.length == y.length && x.index <= y.index)
  }

  predicate Ordered(s: seq<Item>) {
    forall i, j :: 0 <= i < j < |s| ==> Before(s[i], s[j])
  }

  /** Items that share an `index` share their length, as every pool built
      from specs does. */
  predicate IndexConsistent(s: seq<Item>) {
    forall i, j :: 0 <= i < |s| && 0 <= j < |s| && s[i].index == s[j].index ==> s[i].length == s[j].length
  }
}
