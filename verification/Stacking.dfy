/** Front-to-back lists and the three ways the compositor rearranges them. */
module Stacking {

  function RemoveAt<T>(s: seq<T>, k: nat): (r: seq<T>)
    requires k < |s|
    ensures |r| == |s| - 1
    ensures forall i :: 0 <= i < |r| ==> r[i] == if i < k then s[i] else s[i + 1]
  {
    s[..k] + s[k + 1..]
  }

  function ToFront<T>(s: seq<T>, k: nat): (r: seq<T>)
    requires k < |s|
  {
    [s[k]] + RemoveAt(s, k)
  }
}
