/** Byte strings: the C structure members and macros that the match code reads them with. */
module Bytes {

  /** The negation of `OF_VARIABLE_IS_NON_ZERO`. */
  predicate AllZero(bytes: seq<bv8>) {
    forall i :: 0 <= i < |bytes| ==> bytes[i] == 0
  }

  /** `OF_VARIABLE_IS_ALL_ONES`. */
  predicate AllOnes(bytes: seq<bv8>) {
    forall i :: 0 <= i < |bytes| ==> bytes[i] == 0xff
  }

  /** `memset`. */
  function Filled(n: nat, byte: bv8): (bytes: seq<bv8>)
    ensures |bytes| == n && forall i :: 0 <= i < n ==> bytes[i] == byte
  {
    seq(n, _ => byte)
  }

  lemma UniformBytesEqual(a: seq<bv8>, b: seq<bv8>)
    requires |a| == |b|
    ensures AllZero(a) ==> (a == b <==> AllZero(b))
    ensures AllOnes(a) ==> (a == b <==> AllOnes(b))
  {}
}
