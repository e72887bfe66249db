/** The quantised best-fit probe. Lengths and `target` are integers in
    units of 10^-d for the number d of fractional digits, so each step of
    the scan is a step of 1 and rounding a candidate to d digits leaves it
    unchanged. */
module BestFit {
  import opened Pieces

  /** The first position whose item has length `v`, or -1. */
  function FirstWithLength(s: seq<Item>, v: int): (k: int)
    ensures -1 <= k < |s|
    ensures k == -1 <==> forall j :: 0 <= j < |s| ==> s[j].length != v
    ensures k >= 0 ==> s[k].length == v && forall j :: 0 <= j < k ==> s[j].length != v
    decreases |s|
  {
    if s == [] then -1
    else if s[0].length == v then 0
    else
      var k := FirstWithLength(s[1..], v);
      if k == -1 then -1 else k + 1
  }

  /** The probe for one candidate length: the first item of that length,
      in pool order, if there is one. */
  function Find(s: seq<Item>, v: int): (r: Option<Item>)
    ensures r.None? <==> forall j :: 0 <= j < |s| ==> s[j].length != v
    ensures r.Some? ==> r.value in s && r.value.length == v
    ensures r.Some? ==> exists k :: 0 <= k < |s| && s[k] == r.value && forall j :: 0 <= j < k ==> s[j].length != v
  {
    var k := FirstWithLength(s, v);
    if k < 0 then None else Some(s[k])
  }

  /** The last candidate the scan checks: the first one that is <= 0, which
      is `target` itself when `target <= 0` and 0 otherwise. */
  function LastCandidate(target: int): int {
    if target <= 0 then target else 0
  }

  /** The scan from `target` down to `LastCandidate(target)`. `None` stands
      for the source's sentinel `0`. The result is the first item, in pool
      order, of the greatest length in that range; `None` exactly when no
      length lies in the range. */
  method Closest(pool: seq<Item>, target: int) returns (r: Option<Item>)
    ensures r.Some? ==> r.value in pool
    ensures r.Some? ==> LastCandidate(target) <= r.value.length <= target
    ensures r.Some? ==> forall k :: 0 <= k < |pool| ==> !(r.value.length < pool[k].length <= target)
    ensures r.Some? ==> r == Find(pool, r.value.length)
    ensures r.None? <==> forall k :: 0 <= k < |pool| ==> !(LastCandidate(target) <= pool[k].length <= target)
  {
    var range := target;
    var enough := false;
    r := None;
    while !enough
      invariant !enough ==> r.None? && LastCandidate(target) <= range <= target
      invariant !enough ==> forall k :: 0 <= k < |pool| ==> !(range < pool[k].length <= target)
      invariant enough && r.Some? ==>
        r.value in pool && LastCandidate(target) <= r.value.length <= target &&
        (forall k :: 0 <= k < |pool| ==> !(r.value.length < pool[k].length <= target)) &&
        r == Find(pool, r.value.length)
      invariant enough && r.None? ==> forall k :: 0 <= k < |pool| ==> !(LastCandidate(target) <= pool[k].length <= target)
      decreases if enough then 0 else range - LastCandidate(target) + 1
    {
      if range <= 0 {
        enough := true;
      }
      var value := Find(pool, range);
      if value.Some? {
        enough := true;
        r := value;
      }
      range := range - 1;
    }
  }
}
