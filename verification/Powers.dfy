/** Powers of two. */
module Powers {
  function Pow2(n: nat): (r: nat)
    ensures r >= 1
  {
    if n == 0 then 1 else 2 * Pow2(n - 1)
  }

  lemma {:induction false} Pow2Sum(a: nat, b: nat)
    ensures Pow2(a + b) == Pow2(a) * Pow2(b)
  {
    if a != 0 {
      Pow2Sum(a - 1, b);
      assert Pow2(a + b) == 2 * (Pow2(a - 1) * Pow2(b)) == (2 * Pow2(a - 1)) * Pow2(b);
    }
  }

  lemma {:induction false} Pow2Grows(a: nat, b: nat)
    requires a < b
    ensures Pow2(a) < Pow2(b)
  {
    if a < b - 1 {
      Pow2Grows(a, b - 1);
    }
  }
}
