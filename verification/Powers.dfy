/** Powers of a positive base. */
module Powers {
  function Power(base: nat, k: nat): (p: nat)
    requires base > 0
    ensures p > 0
    decreases k
  {
    if k == 0 then 1
    else
      Positive(base, Power(base, k - 1));
      base * Power(base, k - 1)
  }

  lemma Positive(x: nat, y: nat)
    requires x > 0 && y > 0
    ensures x * y > 0
  {
  }
}
