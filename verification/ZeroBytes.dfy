/** Memory that was cleared. */
module ZeroBytes {
  function Zeros(n: nat): (b: seq<bv8>)
    ensures |b| == n && forall i :: 0 <= i < n ==> b[i] == 0
  {
    seq(n, _ => 0)
  }
}
