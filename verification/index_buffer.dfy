/**
 The index loop of the terrain generator. The outer loop runs `y` over
 `0 .. width - 2` and the inner loop `x` over `0 .. height - 2`; with the
 row start `b = width * y`, each step pushes the two triangles
 `(b + w + x, b + x + 1, b + x)` and `(b + w + x, b + w + x + 1, b + x + 1)`,
 where `w` is the width.

 Indices are natural numbers. The vertex buffer holds `width * height`
 vertices; `IndicesInRange` shows that every index addresses one of them
 exactly when the image is no wider than it is high.
 */
module IndexBuffer {
  import opened Grid

  /** Number of passes of a loop `for (i = 0; i < n - 1; i++)`: `n - 1`, and none for an empty dimension. */
  function Span(n: nat): (trips: nat)
    ensures n > 0 ==> trips + 1 == n
    ensures n == 0 ==> trips == 0
  {
    if n == 0 then 0 else n - 1
  }

  /**
   The six indices pushed for column `x` of a row starting at `b` in a grid
   `w` wide: two triangles over the corners `b + x`, `b + x + 1`, `b + w + x`
   and `b + w + x + 1`, sharing the diagonal from `b + w + x` to `b + x + 1`.
   */
  function Quad(w: nat, b: nat, x: nat): seq<nat>
  {
    [b + w + x, b + x + 1, b + x, b + w + x, b + w + x + 1, b + x + 1]
  }

  /**
   A quad's two triangles use exactly the four corners of the cell, share the
   diagonal, and (in a grid at least two wide) neither is degenerate.
   */
  lemma QuadCorners(w: nat, b: nat, x: nat)
    ensures var q := Quad(w, b, x);
            |q| == 6
            && (set e | e in q) == {b + x, b + x + 1, b + w + x, b + w + x + 1}
            && q[0] == q[3] && q[1] == q[5]
    ensures var q := Quad(w, b, x);
            w >= 2 ==> q[0] != q[1] && q[1] != q[2] && q[0] != q[2]
                       && q[3] != q[4] && q[4] != q[5] && q[3] != q[5]
  {
  }

  /** The indices pushed for `cells`, in order: the quad of each cell, with row start `w * z`. */
  function Quads(w: nat, cells: seq<Cell>): seq<nat>
  {
    if cells == [] then []
    else
      var c := cells[|cells| - 1];
      Quads(w, cells[..|cells| - 1]) + Quad(w, RowBase(c.z, w), c.x)
  }

  /**
   The whole index buffer of a `width` by `height` image: the quads of rows
   `0 .. width - 2`, each with columns `0 .. height - 2`.
   */
  function Indices(width: nat, height: nat): seq<nat>
  {
    Quads(width, ScanOrder(Span(height), Span(width)))
  }

  /** The index loop, pushing one triangle at a time. */
  method BuildIndices(width: nat, height: nat) returns (indices: seq<nat>)
    ensures indices == Indices(width, height)
  {
    indices := [];
    var y := 0;
    while y < width - 1
      invariant 0 <= y <= Span(width)
      invariant indices == Quads(width, ScanOrder(Span(height), y))
    {
      indices := BuildRow(width, height, y, ScanOrder(Span(height), y), indices);
      y := y + 1;
    }
  }

  /** The inner loop for row `y`: row start `width * y`, one quad per column. */
  method BuildRow(width: nat, height: nat, y: nat, ghost done: seq<Cell>, indices0: seq<nat>)
    returns (indices: seq<nat>)
    requires indices0 == Quads(width, done)
    ensures indices == Quads(width, done + RowCells(y, Span(height)))
  {
    indices := indices0;
    var heigthlength: nat := width * y;
    RowBaseIsProduct(y, width);
    ghost var cells := done;
    ghost var columns := Span(height);
    var x: nat := 0;
    while x < height - 1
      invariant x <= columns
      invariant cells == done + RowCells(y, x)
      invariant indices == Quads(width, cells)
    {
      QuadStep(width, cells, y, x, heigthlength, indices);
      indices := indices + [heigthlength + width + x, heigthlength + x + 1, heigthlength + x];
      indices := indices + [heigthlength + width + x, heigthlength + width + x + 1, heigthlength + x + 1];
      NextCell(done, y, x);
      cells := cells + [Cell(y, x)];
      x := x + 1;
    }
  }

  /**
   One pass of the inner loop appends the two triangles of the quad of cell
   `(y, x)`. An unfolding of `Quads`, stated so that the loop proof need not
   find it.
   */
  lemma QuadStep(w: nat, cells: seq<Cell>, y: nat, x: nat, b: nat, indices: seq<nat>)
    requires indices == Quads(w, cells) && b == RowBase(y, w)
    ensures indices + [b + w + x, b + x + 1, b + x] + [b + w + x, b + w + x + 1, b + x + 1]
            == Quads(w, cells + [Cell(y, x)])
  {
    assert (cells + [Cell(y, x)])[..|cells|] == cells;
  }

  lemma {:induction false} QuadsLength(w: nat, cells: seq<Cell>)
    ensures |Quads(w, cells)| == 6 * |cells|
  {
    if cells != [] {
      QuadsLength(w, cells[..|cells| - 1]);
    }
  }

  /** Group `k` of six entries of `a + b`, where `a` holds `n` groups, is group `k` of `a` or group `k - n` of `b`. 
   The group size is a literal here rather than a parameter, which would
   put a product of two variables into every index.
   */
  lemma SextupleOfConcat<T>(a: seq<T>, b: seq<T>, n: nat, k: nat)
    requires |a| == 6 * n && 6 * k + 6 <= |a| + |b|
    ensures k < n ==> (a + b)[6 * k .. 6 * k + 6] == a[6 * k .. 6 * k + 6]
    ensures n <= k ==> (a + b)[6 * k .. 6 * k + 6] == b[6 * (k - n) .. 6 * (k - n) + 6]
  {
  }

  /** Group `i` of the indices of `cells` is the quad of the `i`-th cell. */
  lemma {:induction false} QuadsAt(w: nat, cells: seq<Cell>, i: nat)
    requires i < |cells|
    ensures |Quads(w, cells)| == 6 * |cells|
    ensures Quads(w, cells)[6 * i .. 6 * i + 6] == Quad(w, RowBase(cells[i].z, w), cells[i].x)
  {
    var pre := cells[..|cells| - 1];
    var c := cells[|cells| - 1];
    QuadsLength(w, pre);
    if i < |pre| {
      QuadsAt(w, pre, i);
    }
    SextupleOfConcat(Quads(w, pre), Quad(w, RowBase(c.z, w), c.x), |pre|, i);
  }

  /**
   The buffer holds six indices per quad, `(width - 1) * (height - 1)` quads,
   and nothing at all when either dimension is below 2.
   */
  lemma IndicesLength(width: nat, height: nat)
    ensures |Indices(width, height)| == 6 * Span(width) * Span(height)
    ensures width < 2 || height < 2 ==> Indices(width, height) == []
    ensures width >= 2 && height >= 2 ==> |Indices(width, height)| == 6 * (width - 1) * (height - 1)
  {
    QuadsLength(width, ScanOrder(Span(height), Span(width)));
    ScanOrderLength(Span(height), Span(width));
  }

  /**
   Quads follow one another with `y` outer and `x` inner: for `y < width - 1`
   and `x < height - 1`, the six indices at position `6 * (y * (height - 1) + x)`
   are the quad pushed with row start `width * y`.
   */
  lemma IndicesAt(width: nat, height: nat, y: nat, x: nat)
    requires y < Span(width) && x < Span(height)
    ensures |Indices(width, height)| == 6 * (Span(width) * Span(height))
    ensures y * Span(height) + x < Span(width) * Span(height)
    ensures var p := 6 * (y * Span(height) + x);
            Indices(width, height)[p .. p + 6] == Quad(width, width * y, x)
  {
    var cells := ScanOrder(Span(height), Span(width));
    ScanOrderAt(Span(height), Span(width), y, x);
    QuadsAt(width, cells, y * Span(height) + x);
    RowBaseIsProduct(y, width);
  }

  /** Every index pushed for `cells` is at most `bound` when every quad's largest corner is. */
  lemma {:induction false} QuadsBound(w: nat, cells: seq<Cell>, bound: nat)
    requires forall c :: c in cells ==> RowBase(c.z, w) + w + c.x + 1 <= bound
    ensures forall e :: e in Quads(w, cells) ==> e <= bound
  {
    if cells != [] {
      var c := cells[|cells| - 1];
      assert c in cells;
      QuadsBound(w, cells[..|cells| - 1], bound);
    }
  }

  /** No index of an image at least 2 by 2 exceeds `(width - 1) * width + height - 1`. */
  lemma IndicesBound(width: nat, height: nat)
    requires width >= 2 && height >= 2
    ensures forall e :: e in Indices(width, height) ==> e <= (width - 1) * width + height - 1
  {
    var cols, rows := height - 1, width - 1;
    var cells := ScanOrder(cols, rows);
    var top := RowBase(rows, width) + cols;
    ScanOrderInside(cols, rows);
    forall c | c in cells
      ensures RowBase(c.z, width) + width + c.x + 1 <= top
    {
      RowBaseMonotone(c.z, rows, width);
    }
    QuadsBound(width, cells, top);
    RowBaseIsProduct(rows, width);
  }

  /** The last quad of an image at least 2 by 2 pushes `(width - 1) * width + height - 1`. */
  lemma LargestIndexPushed(width: nat, height: nat)
    requires width >= 2 && height >= 2
    ensures (width - 1) * width + height - 1 in Indices(width, height)
  {
    var cols, rows := height - 1, width - 1;
    var cells := ScanOrder(cols, rows);
    ScanOrderLast(cols, rows);
    var last := |cells| - 1;
    QuadsAt(width, cells, last);
    var quads := Quads(width, cells);
    var b := RowBase(rows - 1, width);
    assert quads[6 * last + 4] == quads[6 * last .. 6 * last + 6][4] == b + width + cols;
    assert b + width == RowBase(rows, width);
    RowBaseIsProduct(rows, width);
  }

  /**
   For an image at least 2 by 2, every index addresses one of the
   `width * height` vertices exactly when `width <= height`; a wider image
   makes the last quads point past the vertex buffer.
   */
  lemma IndicesInRange(width: nat, height: nat)
    requires width >= 2 && height >= 2
    ensures (forall e :: e in Indices(width, height) ==> e < width * height) <==> width <= height
  {
    IndicesBound(width, height);
    LargestIndexPushed(width, height);
    LargestBelowIff(width, height);
  }

  /** `(w - 1) * w + h - 1 < w * h` exactly when `w <= h`, since the difference is `(h - w) * (w - 1) + 1`. */
  lemma LargestBelowIff(w: nat, h: nat)
    requires w >= 2 && h >= 2
    ensures (w - 1) * w + h - 1 < w * h <==> w <= h
  {
    assert w * h - (w - 1) * w == w * (h - w) + w;
    if w <= h {
      MulMonotone(1, w, h - w);
    } else {
      MulMonotone(1, w, w - h);
      assert w * (h - w) == -(w * (w - h));
    }
  }
}
