/** Numbers as sequences of bits, lowest first. */
module Bits {

  function Pow2(k: nat): (p: nat)
    ensures p > 0
  {
    if k == 0 then 1 else 2 * Pow2(k - 1)
  }

  function ToBits(n: nat, k: nat): (l: seq<bool>)
    ensures |l| == k
  {
    if k == 0 then [] else [n % 2 == 1] + ToBits(n / 2, k - 1)
  }

  function Value(l: seq<bool>): nat {
    if l == [] then 0 else (if l[0] then 1 else 0) + 2 * Value(l[1..])
  }

  lemma {:induction false} ValueBound(l: seq<bool>)
    ensures Value(l) < Pow2(|l|)
  {
    if l != [] {
      ValueBound(l[1..]);
    }
  }

  lemma {:induction false} ValueOfBits(n: nat, k: nat)
    requires n < Pow2(k)
    ensures Value(ToBits(n, k)) == n
    decreases k
  {
    if k > 0 {
      ValueOfBits(n / 2, k - 1);
    }
  }
}
