/** The facts about products, quotients and remainders that addresses need. */
module Arithmetic {

  lemma DivMod(a: int, b: nat)
    requires b > 0
    ensures a == a / b * b + a % b && 0 <= a % b < b
  {}

  lemma MulMonotone(a: int, b: int, c: nat)
    requires a <= b
    ensures a * c <= b * c
  {}

  lemma MulAssoc(a: int, b: int, c: int)
    ensures a * (b * c) == (a * b) * c
  {}

  lemma MulAdd(a: int, b: int, c: int)
    ensures (a + b) * c == a * c + b * c
  {}

  lemma ScaledSum(a: nat, b: nat, c: nat, n: nat)
    requires a + b <= c
    ensures a * n + b * n <= c * n
  {
    MulAdd(a, b, n);
    MulMonotone(a + b, c, n);
  }

  /** Two ways of writing a number as rows and a rest are one. */
  lemma SplitUnique(q1: int, r1: nat, q2: int, r2: nat, b: nat)
    requires r1 < b && r2 < b && q1 * b + r1 == q2 * b + r2
    ensures q1 == q2 && r1 == r2
  {
    if q1 < q2 {
      MulMonotone(q1 + 1, q2, b);
      MulAdd(q1, 1, b);
      assert false;
    } else if q2 < q1 {
      MulMonotone(q2 + 1, q1, b);
      MulAdd(q2, 1, b);
      assert false;
    }
  }

  lemma Split(q: int, r: nat, b: nat)
    requires r < b
    ensures (q * b + r) / b == q && (q * b + r) % b == r
  {
    DivMod(q * b + r, b);
    SplitUnique(q, r, (q * b + r) / b, (q * b + r) % b, b);
  }

  lemma WholeQuotient(q: int, b: nat)
    requires b > 0
    ensures q * b / b == q && q * b % b == 0
  {
    Split(q, 0, b);
  }

  /** Different multiples are at least one step apart. */
  lemma MultiplesApart(p: int, q: int, b: nat)
    requires b > 0 && p % b == 0 && q % b == 0 && p < q
    ensures p + b <= q
  {
    DivMod(p, b);
    DivMod(q, b);
    if p / b >= q / b { MulMonotone(q / b, p / b, b); }
    MulMonotone(p / b + 1, q / b, b);
    MulAdd(p / b, 1, b);
  }

  lemma NeighbourMultiples(p: int, b: nat)
    requires b > 0 && p % b == 0
    ensures (p - b) % b == 0 && (p + b) % b == 0
  {
    DivMod(p, b);
    MulAdd(p / b, 1, b);
    MulAdd(p / b, -1, b);
    WholeQuotient(p / b - 1, b);
    WholeQuotient(p / b + 1, b);
  }

  /** A row ends where the next begins, or before. */
  lemma RowsApart(b: nat, row: nat, q: nat)
    ensures q * b <= row * b || (row + 1) * b <= q * b
  {
    if q <= row {
      MulMonotone(q, row, b);
    } else {
      MulMonotone(row + 1, q, b);
    }
  }

  /** Rounded up to whole multiples. */
  function CeilDiv(a: nat, b: nat): (r: nat)
    requires b > 0
    ensures a <= r * b
    ensures r == 0 || (r - 1) * b < a
  {
    DivMod(a, b);
    MulAdd(a / b, 1, b);
    if a % b == 0 then a / b else a / b + 1
  }

  function RoundUp(a: nat, b: nat): (r: nat)
    requires b > 0
    ensures a <= r < a + b && r % b == 0
  {
    WholeQuotient(CeilDiv(a, b), b);
    CeilDiv(a, b) * b
  }
}
