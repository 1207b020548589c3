/**
 The visiting order of two nested loops over a grid, rows outer and columns
 inner, and natural-number facts about row-major offsets. A row-major offset
 `z * w + x` multiplies two variables; the model writes row starts as
 repeated addition and relates them to the product here, so that proofs
 about many cells do not each meet a nonlinear term.
 */
module Grid {
  /** A grid cell: row `z`, column `x`. */
  datatype Cell = Cell(z: nat, x: nat)

  /** Cells `(z, 0) .. (z, n-1)`, in the order the inner loop visits them. */
  function RowCells(z: nat, n: nat): seq<Cell>
  {
    if n == 0 then [] else RowCells(z, n - 1) + [Cell(z, n - 1)]
  }

  /** The cells of rows `0 .. m-1` of a grid `w` cells wide, in the order the two loops visit them. */
  function ScanOrder(w: nat, m: nat): seq<Cell>
  {
    if m == 0 then [] else ScanOrder(w, m - 1) + RowCells(m - 1, w)
  }

  /**
   Visiting cell `(z, x)` extends the cells visited so far by that cell: one
   unfolding of `RowCells`, stated for the loop proofs so that the solver
   need not find it.
   */
  lemma NextCell(done: seq<Cell>, z: nat, x: nat)
    ensures done + RowCells(z, x + 1) == done + RowCells(z, x) + [Cell(z, x)]
  {
  }

  lemma {:induction false} RowCellsLength(z: nat, n: nat)
    ensures |RowCells(z, n)| == n
  {
    if n > 0 {
      RowCellsLength(z, n - 1);
    }
  }

  lemma {:induction false} RowCellAt(z: nat, n: nat, x: nat)
    requires x < n
    ensures |RowCells(z, n)| == n
    ensures RowCells(z, n)[x] == Cell(z, x)
  {
    RowCellsLength(z, n - 1);
    if x < n - 1 {
      RowCellAt(z, n - 1, x);
    }
  }

  /** Scanning `m` rows of a grid `w` cells wide visits `m * w` cells. */
  lemma ScanOrderLength(w: nat, m: nat)
    ensures |ScanOrder(w, m)| == m * w
  {
    ScanOrderSize(w, m);
    RowBaseIsProduct(m, w);
  }

  lemma {:induction false} ScanOrderSize(w: nat, m: nat)
    ensures |ScanOrder(w, m)| == RowBase(m, w)
  {
    if m > 0 {
      ScanOrderSize(w, m - 1);
      RowCellsLength(m - 1, w);
    }
  }

  /** The scan visits cell `(z, x)` at position `z * w + x`: row-major order. */
  lemma ScanOrderAt(w: nat, m: nat, z: nat, x: nat)
    requires z < m && x < w
    ensures |ScanOrder(w, m)| == m * w
    ensures z * w + x < m * w
    ensures ScanOrder(w, m)[z * w + x] == Cell(z, x)
  {
    ScanOrderAtBase(w, m, z, x);
    RowBaseIsProduct(z, w);
    RowBaseIsProduct(m, w);
  }

  /** `ScanOrderAt` with the row start written as `RowBase(z, w)`. */
  lemma {:induction false} ScanOrderAtBase(w: nat, m: nat, z: nat, x: nat)
    requires z < m && x < w
    ensures |ScanOrder(w, m)| == RowBase(m, w)
    ensures RowBase(z, w) + x < RowBase(m, w)
    ensures ScanOrder(w, m)[RowBase(z, w) + x] == Cell(z, x)
  {
    ScanOrderSize(w, m - 1);
    RowCellsLength(m - 1, w);
    var pre, row := ScanOrder(w, m - 1), RowCells(m - 1, w);
    if z < m - 1 {
      ScanOrderAtBase(w, m - 1, z, x);
      assert (pre + row)[RowBase(z, w) + x] == pre[RowBase(z, w) + x];
    } else {
      RowCellAt(z, w, x);
      assert (pre + row)[RowBase(m - 1, w) + x] == row[x];
    }
  }

  /** Every cell the scan visits lies inside the grid. */
  lemma {:induction false} ScanOrderInside(w: nat, m: nat)
    ensures forall c :: c in ScanOrder(w, m) ==> c.z < m && c.x < w
  {
    if m > 0 {
      ScanOrderInside(w, m - 1);
      RowCellsInside(m - 1, w);
      forall c | c in ScanOrder(w, m)
        ensures c.z < m && c.x < w
      {
        assert c in ScanOrder(w, m - 1) || c in RowCells(m - 1, w);
      }
    }
  }

  lemma {:induction false} RowCellsInside(z: nat, n: nat)
    ensures forall c :: c in RowCells(z, n) ==> c.z == z && c.x < n
  {
    if n > 0 {
      RowCellsInside(z, n - 1);
    }
  }

  /** The last cell visited is the last cell of the last row. */
  lemma ScanOrderLast(w: nat, m: nat)
    requires w > 0 && m > 0
    ensures ScanOrder(w, m) != []
    ensures ScanOrder(w, m)[|ScanOrder(w, m)| - 1] == Cell(m - 1, w - 1)
  {
    RowCellsLength(m - 1, w);
  }

  /**
   `z * stride` as repeated addition. Sample offsets are written with it so
   that a proof about many samples does not meet a product of two variables
   in each of them; `RowBaseIsProduct` relates it to the product.
   */
  function RowBase(z: nat, stride: nat): nat
  {
    if z == 0 then 0 else RowBase(z - 1, stride) + stride
  }

  lemma {:induction false} RowBaseIsProduct(z: nat, stride: nat)
    ensures RowBase(z, stride) == z * stride
  {
    if z > 0 {
      RowBaseIsProduct(z - 1, stride);
      MulPred(z, stride);
    }
  }

  /** Row starts grow with the row: row `z` ends no later than a later row `m` starts. */
  lemma {:induction false} RowBaseMonotone(z: nat, m: nat, stride: nat)
    requires z < m
    ensures RowBase(z, stride) + stride <= RowBase(m, stride)
  {
    if z < m - 1 {
      RowBaseMonotone(z, m - 1, stride);
    }
  }

  lemma MulPred(a: nat, b: nat)
    requires a > 0
    ensures a * b == (a - 1) * b + b
  {
  }

  lemma MulMonotone(a: nat, b: nat, c: nat)
    requires a <= b
    ensures a * c <= b * c
  {
    assert b * c - a * c == (b - a) * c;
  }
}
