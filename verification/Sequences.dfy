/** Sequences with one element taken out. */
module Sequences {
  ghost function Without<T>(c: seq<T>, i: nat): (r: seq<T>)
    requires i < |c|
    ensures |r| == |c| - 1 && forall x :: 0 <= x < |r| ==> r[x] == c[if x < i then x else x + 1]
  {
    c[..i] + c[i + 1..]
  }
}
