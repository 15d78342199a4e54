/** Products and quotients by a variable, kept out of the larger proofs. */
module Arithmetic {

  /** Later multiples lie at least one step on. */
  lemma {:induction false} MultiplesGrow(i: nat, j: nat, m: nat)
    requires i < j
    ensures i * m + m <= j * m
    decreases j - i
  {
    if i + 1 < j {
      MultiplesGrow(i, j - 1, m);
      OneMoreMultiple(j - 1, m);
    } else {
      OneMoreMultiple(i, m);
    }
  }

  lemma OneMoreMultiple(i: nat, m: nat)
    ensures (i + 1) * m == i * m + m
  {
  }

  /** A number is one multiple and one remainder. */
  lemma SplitIsUnique(q: nat, r: nat, q': nat, r': nat, m: nat)
    requires r < m && r' < m
    ensures q * m + r == q' * m + r' <==> q == q' && r == r'
  {
    if q < q' {
      MultiplesGrow(q, q', m);
    } else if q' < q {
      MultiplesGrow(q', q, m);
    }
  }

  /** `c / m` by repeated subtraction, so that a proof sees no division by a
      variable unless it asks. */
  function Quotient(c: nat, m: nat): nat
    requires m > 0
  {
    if c < m then 0 else Quotient(c - m, m) + 1
  }

  /** `c % m`, likewise. */
  function Remainder(c: nat, m: nat): nat
    requires m > 0
  {
    if c < m then c else Remainder(c - m, m)
  }

  lemma {:induction false} Split(c: nat, m: nat)
    requires m > 0
    ensures c == Quotient(c, m) * m + Remainder(c, m) && Remainder(c, m) < m
  {
    if c >= m {
      Split(c - m, m);
      OneMoreMultiple(Quotient(c - m, m), m);
    }
  }

  /** A step leaves the remainder as it is exactly when it is a multiple. */
  lemma {:induction false} SameRemainder(c: nat, step: nat, m: nat)
    requires m > 0
    ensures Remainder(c + step, m) == Remainder(c, m) <==> Remainder(step, m) == 0
    decreases c + step
  {
    if step >= m {
      SameRemainder(c, step - m, m);
    } else if c >= m {
      SameRemainder(c - m, step, m);
    }
  }

  /** The quotient and remainder are known from any split. */
  lemma QuotientOfSplit(c: nat, q: nat, r: nat, m: nat)
    requires r < m && c == q * m + r
    ensures Quotient(c, m) == q && Remainder(c, m) == r
  {
    Split(c, m);
    SplitIsUnique(q, r, Quotient(c, m), Remainder(c, m), m);
  }

  /** They are the division and the remainder of the language. */
  lemma QuotientIsDivision(c: nat, m: nat)
    requires m > 0
    ensures Quotient(c, m) == c / m && Remainder(c, m) == c % m
  {
    assert c == c / m * m + c % m;
    QuotientOfSplit(c, c / m, c % m, m);
  }

  /** Equal quotients and remainders mean equal numbers. */
  lemma SameSplit(c: nat, d: nat, m: nat)
    requires m > 0
    ensures c == d <==> Quotient(c, m) == Quotient(d, m) && Remainder(c, m) == Remainder(d, m)
  {
    Split(c, m);
    Split(d, m);
  }
}
