/**
 * What the two JSON-file stores share: a backing file read whole (a missing
 * or unreadable file reads as the empty list), the `max(ids) + 1` id rule,
 * `findIndex` and `splice(index, 1)`.
 */
module FlatFile {
  import opened Wrappers

  /** A point in time as `new Date()` reads it; the model receives it as a parameter. */
  type Timestamp = int

  /**
   * The list a read of the backing file yields. The file is `None` when it is
   * missing or cannot be parsed, and the read then swallows the error.
   */
  function Load<T>(file: Option<seq<T>>): seq<T> {
    match file
    case None => []
    case Some(records) => records
  }

  /** `Math.max(...ids)` of a non-empty list of ids. */
  function MaxId(ids: seq<int>): (m: int)
    requires |ids| > 0
    ensures m in ids
    ensures forall i :: 0 <= i < |ids| ==> ids[i] <= m
  {
    if |ids| == 1 then ids[0]
    else
      var rest := MaxId(ids[1..]);
      if ids[0] >= rest then ids[0] else rest
  }

  /** The id `create` assigns: one more than the largest id present, or 1 when there is none. */
  function NextId(ids: seq<int>): (n: int)
    ensures forall i :: 0 <= i < |ids| ==> ids[i] < n
    ensures |ids| == 0 ==> n == 1
    ensures |ids| > 0 ==> n - 1 in ids
  {
    if |ids| > 0 then MaxId(ids) + 1 else 1
  }

  /** `findIndex` by key: the first position holding `k`, or -1. */
  function FindIndex<K(==)>(keys: seq<K>, k: K): (r: int)
    ensures -1 <= r < |keys|
    ensures r == -1 <==> k !in keys
    ensures 0 <= r ==> keys[r] == k && forall j :: 0 <= j < r ==> keys[j] != k
  {
    if |keys| == 0 then -1
    else if keys[0] == k then 0
    else
      var r := FindIndex(keys[1..], k);
      if r == -1 then -1 else r + 1
  }

  /** `splice(k, 1)`: the list without its element at `k`. */
  function RemoveAt<T>(s: seq<T>, k: nat): (r: seq<T>)
    requires k < |s|
    ensures |r| == |s| - 1
    ensures forall j :: 0 <= j < k ==> r[j] == s[j]
    ensures forall j :: k <= j < |r| ==> r[j] == s[j + 1]
    ensures multiset(r) + multiset{s[k]} == multiset(s)
  {
    assert s == s[..k] + [s[k]] + s[k + 1..];
    s[..k] + s[k + 1..]
  }

  /** The ids 1, 2, ..., n that n creates on an empty file hand out. */
  function Sequential(n: nat): (ids: seq<int>)
    ensures |ids| == n
    ensures forall i :: 0 <= i < n ==> ids[i] == i + 1
  {
    if n == 0 then [] else Sequential(n - 1) + [n]
  }

  /** After ids 1..n the next create receives n + 1: the n-th record created has id n. */
  lemma NextIdAfterSequential(n: nat)
    ensures NextId(Sequential(n)) == n + 1
    ensures Sequential(n) + [NextId(Sequential(n))] == Sequential(n + 1)
  {
    var ids := Sequential(n);
    if n > 0 {
      assert ids[n - 1] == n;
    }
  }

  /** When every id is positive (as every id `create` assigns is), removing a record never raises the next id. */
  lemma NextIdAfterRemoval(ids: seq<int>, k: nat)
    requires k < |ids|
    requires forall i :: 0 <= i < |ids| ==> ids[i] > 0
    ensures NextId(RemoveAt(ids, k)) <= NextId(ids)
  {
    var r := RemoveAt(ids, k);
    if |r| > 0 {
      var m := NextId(r) - 1;
      var j :| 0 <= j < |r| && r[j] == m;
      if j < k { assert ids[j] == m; } else { assert ids[j + 1] == m; }
    }
  }

  /**
   * Removing the record with the largest id hands that id out again as soon
   * as the ids below it are 1..n-1: ids are reused, not retired.
   */
  lemma RemovingNewestReusesId(n: nat)
    requires n > 0
    ensures NextId(RemoveAt(Sequential(n), n - 1)) == n == Sequential(n)[n - 1]
  {
    var ids := Sequential(n);
    assert RemoveAt(ids, n - 1) == Sequential(n - 1);
    NextIdAfterSequential(n - 1);
  }
}
