/** Small things that several modules use. */
module Common {

  function Least(a: int, b: int): int { if a < b then a else b }

  /** 1 << n */
  function Pow2(n: nat): (r: nat)
    ensures r > 0
  {
    if n == 0 then 1 else 2 * Pow2(n - 1)
  }

  lemma {:induction false} PowGrows(a: nat, b: nat)
    requires a <= b
    ensures Pow2(a) <= Pow2(b)
    decreases b
  {
    if a < b {
      PowGrows(a, b - 1);
    }
  }

  /** Nothing is in two places. */
  ghost predicate Once(m: multiset<int>) { forall x :: m[x] <= 1 }
}
