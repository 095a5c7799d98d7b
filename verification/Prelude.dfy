/** Small shared definitions, and Python's slice from the end. */
module Prelude {
  datatype Option<+T> = None | Some(value: T)

  /** Python's `s[-k:]`: the last `k`, everything for 0, and for a negative `k` all but the first `-k`. */
  function SliceTail<T>(s: seq<T>, k: int): (r: seq<T>)
    ensures |r| <= |s| && r == s[|s| - |r|..]
  {
    if k > 0 then (if k <= |s| then s[|s| - k..] else s)
    else if -k <= |s| then s[-k..]
    else []
  }

  predicate Distinct<T(==)>(s: seq<T>) {
    forall i, j :: 0 <= i < j < |s| ==> s[i] != s[j]
  }
}
