/** Ceiling division, the counting function under every size computation of the file system. */
module Arithmetic {

  /** The number of cells of size `cell` needed to hold `particles` items. */
  function CeilDiv(cell: nat, particles: nat): (r: nat)
    requires 0 < cell
  {
    particles / cell + if particles % cell == 0 then 0 else 1
  }

  lemma DivMod(k: nat, m: nat)
    requires 0 < m
    ensures k == (k / m) * m + k % m
    ensures 0 <= k % m < m
  {
  }

  lemma MulMonotone(a: int, b: int, m: nat)
    requires a <= b
    ensures a * m <= b * m
  {
  }

  lemma SuccTimes(u: nat, m: nat)
    ensures (u + 1) * m == u * m + m
  {
  }

  /** A number is determined by its quotient and remainder. */
  lemma DivModUnique(q: nat, r: nat, m: nat)
    requires r < m
    ensures (q * m + r) / m == q
    ensures (q * m + r) % m == r
  {
    var k := q * m + r;
    DivMod(k, m);
    var q', r' := k / m, k % m;
    assert (q - q') * m == r' - r;
    if q < q' {
      MulMonotone(q - q', -1, m);
    } else if q' < q {
      MulMonotone(1, q - q', m);
    }
  }

  /** Ceiling division from quotient and remainder. */
  lemma CeilDivOf(q: nat, r: nat, cell: nat)
    requires r < cell
    ensures CeilDiv(cell, q * cell + r) == if r == 0 then q else q + 1
  {
    DivModUnique(q, r, cell);
  }

  lemma CellsSuffice(q: nat, r: nat, cell: nat, m: nat)
    requires r < cell && (if r == 0 then q else q + 1) <= m
    ensures q * cell + r <= m * cell
  {
    MulMonotone(if r == 0 then q else q + 1, m, cell);
    SuccTimes(q, cell);
  }

  lemma CellsNeeded(q: nat, r: nat, cell: nat, m: nat)
    requires r < cell && q * cell + r <= m * cell
    ensures (if r == 0 then q else q + 1) <= m
  {
    if m < q {
      MulMonotone(m + 1, q, cell);
      SuccTimes(m, cell);
    }
  }

  /** Ceiling division is adjoint to multiplication: `m` cells suffice exactly when the
      particles fit into them. Nested ceilings collapse by applying this level by level. */
  lemma CeilDivFits(cell: nat, particles: nat, m: nat)
    requires 0 < cell
    ensures CeilDiv(cell, particles) <= m <==> particles <= m * cell
  {
    var (q, r) := (particles / cell, particles % cell);
    DivMod(particles, cell);
    CeilDivOf(q, r, cell);
    if CeilDiv(cell, particles) <= m {
      CellsSuffice(q, r, cell, m);
    }
    if particles <= m * cell {
      CellsNeeded(q, r, cell, m);
    }
  }

  lemma CeilDivMonotone(cell: nat, x: nat, y: nat)
    requires 0 < cell && x <= y
    ensures CeilDiv(cell, x) <= CeilDiv(cell, y)
  {
    CeilDivFits(cell, y, CeilDiv(cell, y));
    CeilDivFits(cell, x, CeilDiv(cell, y));
  }

  /** Item `k` of `particles` lies in an existing cell. */
  lemma CellOf(cell: nat, particles: nat, k: nat)
    requires 0 < cell && k < particles
    ensures k / cell < CeilDiv(cell, particles)
  {
    CeilDivFits(cell, particles, k / cell);
    DivMod(k, cell);
  }

  /** The cell that item `k` falls into, and its position there. Defined by counting down, so
      that statements about pointers do not drag division into every proof; `QuotRem` says that
      these are the quotient and the remainder. */
  function Quot(k: nat, m: nat): nat
    requires 0 < m
  {
    if k < m then 0 else 1 + Quot(k - m, m)
  }

  function Rem(k: nat, m: nat): (r: nat)
    requires 0 < m
    ensures r < m
  {
    if k < m then k else Rem(k - m, m)
  }

  lemma {:induction false} QuotRemSum(k: nat, m: nat)
    requires 0 < m
    ensures k == Quot(k, m) * m + Rem(k, m)
  {
    if m <= k {
      QuotRemSum(k - m, m);
      var q := Quot(k - m, m);
      assert (1 + q) * m == m + q * m;
    }
  }

  lemma QuotRem(k: nat, m: nat)
    requires 0 < m
    ensures k == Quot(k, m) * m + Rem(k, m)
    ensures Quot(k, m) == k / m && Rem(k, m) == k % m
  {
    QuotRemSum(k, m);
    DivModUnique(Quot(k, m), Rem(k, m), m);
  }

  lemma QuotRemUnique(q: nat, r: nat, m: nat)
    requires r < m
    ensures Quot(q * m + r, m) == q && Rem(q * m + r, m) == r
  {
    QuotRem(q * m + r, m);
    DivModUnique(q, r, m);
  }

  lemma QuotCell(cell: nat, particles: nat, k: nat)
    requires 0 < cell && k < particles
    ensures Quot(k, cell) < CeilDiv(cell, particles)
  {
    QuotRem(k, cell);
    CellOf(cell, particles, k);
  }

  function Pow2(n: nat): (r: nat)
    ensures 0 < r
  {
    if n == 0 then 1 else 2 * Pow2(n - 1)
  }

  lemma {:induction false} Pow2Sum(m: nat, n: nat)
    ensures Pow2(m + n) == Pow2(m) * Pow2(n)
  {
    if m != 0 {
      Pow2Sum(m - 1, n);
      assert Pow2(m + n) == 2 * Pow2(m - 1 + n);
    }
  }
}
