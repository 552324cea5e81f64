/** Facts about numbers shared by the other modules. */
module Arithmetic {

  function Min(a: nat, b: nat): nat { if a <= b then a else b }

  /** a * n by repeated addition: proofs that only pass offsets around stay linear with it. */
  function Times(a: nat, n: nat): nat { if n == 0 then 0 else Times(a, n - 1) + a }

  lemma {:induction false} TimesIs(a: nat, n: nat)
    ensures Times(a, n) == a * n
  {
    if n > 0 { TimesIs(a, n - 1); }
  }

  lemma MulMono(a: int, b: int, k: nat)
    ensures a <= b ==> a * k <= b * k && k * a <= k * b
  {}

  lemma DivModUnique(q: nat, r: nat, k: nat)
    requires r < k
    ensures (q * k + r) / k == q && (q * k + r) % k == r
  {
    var n := q * k + r;
    assert n == (n / k) * k + n % k;
    var e := n / k - q;
    assert e * k == r - n % k;
    MulMono(1, e, k);
    MulMono(e, -1, k);
  }
}
