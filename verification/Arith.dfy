/** Facts about products and quotients that the solver needs told. */
module Arith {

  lemma {:induction false} MulMono(a: nat, b: nat, k: nat)
    requires a <= b
    ensures a * k <= b * k
  {
    assert b * k == a * k + (b - a) * k;
  }

  lemma MulStep(a: nat, b: nat, k: nat)
    ensures a < b ==> a * k + k <= b * k
  {
    if a < b {
      MulMono(a + 1, b, k);
      assert (a + 1) * k == a * k + k;
    }
  }

  lemma DivMod(p: nat, b: nat, j: nat, o: nat)
    requires b > 0 && o < b && p == j * b + o
    ensures p / b == j && p % b == o
  {
    var q := p / b;
    assert p == q * b + p % b;
    MulStep(q, j, b);
    MulStep(j, q, b);
  }
}
