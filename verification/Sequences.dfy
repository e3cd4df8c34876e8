/** Parts of sequences. */
module Sequences {
  /** The part of `len` elements at `pos`. */
  datatype Slice = Slice(pos: nat, len: nat)

  /** The sequence without element `k`. */
  function Delete<T>(s: seq<T>, k: nat): seq<T>
    requires k < |s|
  {
    s[..k] + s[k + 1..]
  }
}
