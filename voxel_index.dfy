/** The voxel indexing used when the flat image buffer returned by the
    reconstruction library is unpacked into a 3D array: a flat index `ivox`
    is split into a voxel position (i, j, k), with i varying fastest. */
module VoxelIndex {

  /** A voxel position in the image grid. */
  datatype Cell = Cell(i: nat, j: nat, k: nat)

  /** The cell lies inside an xdim x ydim x zdim grid. */
  predicate InGrid(c: Cell, xdim: nat, ydim: nat, zdim: nat) {
    c.i < xdim && c.j < ydim && c.k < zdim
  }

  /** The flat index of a cell: i + j*xdim + k*xdim*ydim. */
  function Flatten(c: Cell, xdim: nat, ydim: nat): nat {
    c.i + c.j * xdim + c.k * (xdim * ydim)
  }

  /** The split of a flat index done by the unpacking loop:
      i = ivox % xdim, j = (ivox / xdim) % ydim, k = ivox / (xdim * ydim). */
  function Decompose(ivox: nat, xdim: nat, ydim: nat): Cell
    requires xdim > 0 && ydim > 0
  {
    Cell(ivox % xdim, (ivox / xdim) % ydim, ivox / (xdim * ydim))
  }

  // ---------------------------------------------------------------------
  // Arithmetic helpers
  // ---------------------------------------------------------------------

  /** Quotient and remainder are determined by a = q * b + r with 0 <= r < b. */
  lemma DivModUnique(a: nat, b: nat, q: nat, r: nat)
    requires b > 0 && r < b && a == q * b + r
    ensures a / b == q && a % b == r
  {
    var q', r' := a / b, a % b;
    assert a == q' * b + r';
    if q' < q {
      assert q' * b + b <= q * b by { MulMonotone(q' + 1, q, b); }
      assert false;
    } else if q < q' {
      assert q * b + b <= q' * b by { MulMonotone(q + 1, q', b); }
      assert false;
    }
  }

  lemma MulMonotone(m: nat, n: nat, b: nat)
    requires m <= n
    ensures m * b <= n * b
  {
    assert n * b == m * b + (n - m) * b;
  }

  /** Dividing twice is dividing by the product. */
  lemma DivDiv(a: nat, b: nat, c: nat)
    requires b > 0 && c > 0
    ensures b * c > 0 && a / b / c == a / (b * c)
  {
    var q, r1 := a / b, a % b;
    var q2, r2 := q / c, q % c;
    assert a == q * b + r1;
    assert q == q2 * c + r2;
    assert a == q2 * (b * c) + (r2 * b + r1) by {
      assert q * b == q2 * (b * c) + r2 * b;
    }
    assert r2 * b + r1 < b * c by {
      MulMonotone(r2 + 1, c, b);
    }
    assert b * c > 0 by { MulMonotone(1, c, b); }
    DivModUnique(a, b * c, q2, r2 * b + r1);
  }

  // ---------------------------------------------------------------------
  // The decomposition is a bijection between [0, xdim*ydim*zdim) and the grid
  // ---------------------------------------------------------------------

  /** A non-empty grid has no zero dimension. */
  lemma PositiveDims(ivox: nat, xdim: nat, ydim: nat, zdim: nat)
    requires ivox < xdim * ydim * zdim
    ensures xdim > 0 && ydim > 0 && zdim > 0
  {
  }

  /** Every flat index below xdim*ydim*zdim is split into a cell inside the grid. */
  lemma DecomposeInGrid(ivox: nat, xdim: nat, ydim: nat, zdim: nat)
    requires ivox < xdim * ydim * zdim
    ensures xdim > 0 && ydim > 0
    ensures InGrid(Decompose(ivox, xdim, ydim), xdim, ydim, zdim)
  {
    PositiveDims(ivox, xdim, ydim, zdim);
    var k := ivox / (xdim * ydim);
    assert xdim * ydim > 0 by { MulMonotone(1, ydim, xdim); }
    assert k * (xdim * ydim) <= ivox;
    if zdim <= k {
      MulMonotone(zdim, k, xdim * ydim);
      assert false;
    }
  }

  /** Flattening undoes the split: ivox == i + j*xdim + k*xdim*ydim. */
  lemma FlattenDecompose(ivox: nat, xdim: nat, ydim: nat)
    requires xdim > 0 && ydim > 0
    ensures Flatten(Decompose(ivox, xdim, ydim), xdim, ydim) == ivox
  {
    var c := Decompose(ivox, xdim, ydim);
    var q := ivox / xdim;
    DivDiv(ivox, xdim, ydim);
    assert ivox == q * xdim + c.i;
    assert q == c.k * ydim + c.j;
    assert q * xdim == c.j * xdim + c.k * (xdim * ydim);
  }

  /** Splitting undoes flattening for every cell inside the grid, and the
      flat index of such a cell lies below xdim*ydim*zdim. */
  lemma DecomposeFlatten(c: Cell, xdim: nat, ydim: nat, zdim: nat)
    requires InGrid(c, xdim, ydim, zdim)
    ensures xdim > 0 && ydim > 0
    ensures Flatten(c, xdim, ydim) < xdim * ydim * zdim
    ensures Decompose(Flatten(c, xdim, ydim), xdim, ydim) == c
  {
    var ivox := Flatten(c, xdim, ydim);
    var low := c.i + c.j * xdim;
    var q := c.j + c.k * ydim;
    LowerPartBound(c.i, c.j, xdim, ydim);
    FlatBound(low, c.k, xdim * ydim, zdim);
    assert ivox == q * xdim + c.i by {
      assert q * xdim == c.j * xdim + c.k * (xdim * ydim);
    }
    DivModUnique(ivox, xdim, q, c.i);
    DivModUnique(q, ydim, c.k, c.j);
    DivModUnique(ivox, xdim * ydim, c.k, low);
  }

  lemma LowerPartBound(i: nat, j: nat, xdim: nat, ydim: nat)
    requires i < xdim && j < ydim
    ensures i + j * xdim < xdim * ydim
  {
    MulMonotone(j + 1, ydim, xdim);
  }

  lemma FlatBound(low: nat, k: nat, plane: nat, zdim: nat)
    requires low < plane && k < zdim
    ensures low + k * plane < plane * zdim
  {
    MulMonotone(k + 1, zdim, plane);
  }

  /** Distinct flat indices are split into distinct cells. */
  lemma DecomposeInjective(a: nat, b: nat, xdim: nat, ydim: nat)
    requires xdim > 0 && ydim > 0
    requires a != b
    ensures Decompose(a, xdim, ydim) != Decompose(b, xdim, ydim)
  {
    FlattenDecompose(a, xdim, ydim);
    FlattenDecompose(b, xdim, ydim);
  }

  /** Each cell of the grid is the split of exactly one flat index below
      xdim*ydim*zdim, namely its flat index; so a loop over those indices
      visits every cell exactly once. */
  lemma CellVisitedOnce(c: Cell, xdim: nat, ydim: nat, zdim: nat, ivox: nat)
    requires InGrid(c, xdim, ydim, zdim)
    requires ivox < xdim * ydim * zdim
    ensures xdim > 0 && ydim > 0
    ensures Decompose(ivox, xdim, ydim) == c <==> ivox == Flatten(c, xdim, ydim)
  {
    DecomposeFlatten(c, xdim, ydim, zdim);
    FlattenDecompose(ivox, xdim, ydim);
  }
}
