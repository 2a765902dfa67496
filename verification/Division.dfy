/** Division of integers, for the timer and for shifts. */
module Division {

  lemma MultiplesLieApart(e: int, p: nat)
    ensures 1 <= e ==> p <= e * p
    ensures e <= -1 ==> e * p <= -(p as int)
  {
  }

  lemma DivModOf(m: nat, p: nat, q: nat, r: nat)
    requires m == q * p + r && r < p
    ensures m / p == q && m % p == r
  {
    var e := m / p - q;
    assert e * p == r - m % p;
    MultiplesLieApart(e, p);
  }

  lemma QuotientIsNoLarger(m: nat, p: nat)
    requires 1 <= p
    ensures m / p <= m
  {
  }

  /** Dividing by 2p is dividing by p and halving. */
  lemma HalvingTheQuotient(m: nat, p: nat)
    requires 0 < p
    ensures m / (2 * p) == m / p / 2
  {
    var q, r := m / p, m % p;
    var h, b := q / 2, q % 2;
    assert q * p == h * (2 * p) + b * p;
    assert 0 <= b * p <= p;
    DivModOf(m, 2 * p, h, b * p + r);
  }
}
