/**
 The sampling loop of the terrain generator: for every row `z` and column `x`
 of the decoded image it sums three channel bytes into an elevation sample,
 keeps the running maximum `highest`, and emits the vertex `(x, sample / 90, z)`.

 The byte offsets are the ones the generator computes, which are not the
 red, green and blue bytes of pixel `(z, x)`: the row stride is the image
 HEIGHT, and the `+1` and `+2` are added to the pixel index before it is
 multiplied by 4, so the three bytes are the first channel of three
 consecutive pixels. A read past the end of the buffer yields NaN.
 */
module HeightSampler {
  import opened JsNumbers
  import opened Grid

  /** Decoded canvas pixels; nothing ties `|data|` to the dimensions. */
  datatype ImageData = ImageData(width: nat, height: nat, data: seq<Byte>)

  /** Vertical scale of the mesh: a vertex's y is its sample divided by this. */
  const Divider: int := 90

  /** Byte offset of the `k`-th read for cell `(z, x)`: `(z * height + x + k) * 4`. */
  function Offset(img: ImageData, z: nat, x: nat, k: nat): nat
  {
    (RowBase(z, img.height) + x + k) * 4
  }

  /** The offset in closed form: the row stride is the image height, and `k` is added before scaling by 4. */
  lemma OffsetIsProduct(img: ImageData, z: nat, x: nat, k: nat)
    ensures Offset(img, z, x, k) == (z * img.height + x + k) * 4
  {
    RowBaseIsProduct(z, img.height);
  }

  /** The elevation sample of cell `(z, x)`: the sum of the three bytes it reads. */
  function SampleAt(img: ImageData, z: nat, x: nat): JsNum<int>
  {
    Add(Add(Read(img.data, Offset(img, z, x, 0)), Read(img.data, Offset(img, z, x, 1))),
        Read(img.data, Offset(img, z, x, 2)))
  }

  /**
   A sample is NaN exactly when its last read, the furthest one, runs past the
   end of the buffer; otherwise it is the sum of the three bytes read.
   */
  lemma SampleAtReads(img: ImageData, z: nat, x: nat)
    ensures SampleAt(img, z, x).NaN? <==> Offset(img, z, x, 2) >= |img.data|
    ensures SampleAt(img, z, x).Num? ==>
              SampleAt(img, z, x).v == img.data[Offset(img, z, x, 0)] as int
                                       + img.data[Offset(img, z, x, 1)] as int
                                       + img.data[Offset(img, z, x, 2)] as int
    ensures SampleAt(img, z, x).Num? ==> 0 <= SampleAt(img, z, x).v <= 3 * 255
  {
  }

  /** The three numbers pushed for the vertex of cell `(z, x)`. */
  function VertexAt(img: ImageData, z: nat, x: nat): seq<JsNum<real>>
  {
    [Num(x as real), Divide(SampleAt(img, z, x), Divider), Num(z as real)]
  }

  /** The samples of `cells`, in order: what `ys` holds after visiting them. */
  function Samples(img: ImageData, cells: seq<Cell>): seq<JsNum<int>>
  {
    if cells == [] then []
    else
      var c := cells[|cells| - 1];
      Samples(img, cells[..|cells| - 1]) + [SampleAt(img, c.z, c.x)]
  }

  /** The vertex numbers of `cells`, in order: what `vertices` holds after visiting them. */
  function Vertices(img: ImageData, cells: seq<Cell>): seq<JsNum<real>>
  {
    if cells == [] then []
    else
      var c := cells[|cells| - 1];
      Vertices(img, cells[..|cells| - 1]) + VertexAt(img, c.z, c.x)
  }

  /**
   The final value of `highest`: starting from 0, a sample replaces it when it
   is a number greater than it; NaN never does.
   */
  function Highest(ys: seq<JsNum<int>>): int
  {
    if ys == [] then 0
    else
      var h := Highest(ys[..|ys| - 1]);
      var y := ys[|ys| - 1];
      if y.Num? && y.v > h then y.v else h
  }

  /**
   The sampling loop: it visits the cells in scan order, appending each
   cell's sample and vertex, and keeps the running maximum of the samples.
   */
  method SampleHeights(img: ImageData) returns (ys: seq<JsNum<int>>, vertices: seq<JsNum<real>>, highest: int)
    ensures ys == Samples(img, ScanOrder(img.width, img.height))
    ensures vertices == Vertices(img, ScanOrder(img.width, img.height))
    ensures highest == Highest(ys)
  {
    ys, vertices, highest := [], [], 0;
    var z := 0;
    while z < img.height
      invariant z <= img.height
      invariant ys == Samples(img, ScanOrder(img.width, z))
      invariant vertices == Vertices(img, ScanOrder(img.width, z))
      invariant highest == Highest(ys)
    {
      ys, vertices, highest := SampleRow(img, z, ScanOrder(img.width, z), ys, vertices, highest);
      z := z + 1;
    }
  }

  /**
   The inner loop for row `z`: it appends the sample and the vertex of each
   cell of the row to what the rows before it produced.
   */
  method SampleRow(img: ImageData, z: nat, ghost done: seq<Cell>,
                   ys0: seq<JsNum<int>>, vertices0: seq<JsNum<real>>, highest0: int)
    returns (ys: seq<JsNum<int>>, vertices: seq<JsNum<real>>, highest: int)
    requires ys0 == Samples(img, done) && vertices0 == Vertices(img, done)
    requires highest0 == Highest(ys0)
    ensures ys == Samples(img, done + RowCells(z, img.width))
    ensures vertices == Vertices(img, done + RowCells(z, img.width))
    ensures highest == Highest(ys)
  {
    ys, vertices, highest := ys0, vertices0, highest0;
    ghost var cells := done;
    var x: nat := 0;
    while x < img.width
      invariant x <= img.width
      invariant cells == done + RowCells(z, x)
      invariant ys == Samples(img, cells)
      invariant vertices == Vertices(img, cells)
      invariant highest == Highest(ys)
    {
      var y := Read(img.data, Offset(img, z, x, 0));
      y := Add(y, Read(img.data, Offset(img, z, x, 1)));
      y := Add(y, Read(img.data, Offset(img, z, x, 2)));

      ghost var v := [Num(x as real), Divide(y, Divider), Num(z as real)];
      ScanStep(img, cells, z, x, ys, y, vertices, v);
      HighestStep(ys, y);
      ys := ys + [y];
      if y.Num? && y.v > highest {
        highest := y.v;
      }

      vertices := vertices + [Num(x as real), Divide(y, Divider), Num(z as real)];
      NextCell(done, z, x);
      cells := cells + [Cell(z, x)];
      x := x + 1;
    }
  }

  /**
   One step of the inner loop: the next cell's sample and vertex are appended.
   An unfolding of `Samples` and `Vertices`, stated so that the loop proof
   need not find it.
   */
  lemma ScanStep(img: ImageData, cells: seq<Cell>, z: nat, x: nat, ys: seq<JsNum<int>>, y: JsNum<int>,
                 vertices: seq<JsNum<real>>, v: seq<JsNum<real>>)
    requires ys == Samples(img, cells)
    requires vertices == Vertices(img, cells)
    requires y == Add(Add(Read(img.data, Offset(img, z, x, 0)), Read(img.data, Offset(img, z, x, 1))),
                      Read(img.data, Offset(img, z, x, 2)))
    requires v == [Num(x as real), Divide(y, Divider), Num(z as real)]
    ensures ys + [y] == Samples(img, cells + [Cell(z, x)])
    ensures vertices + v == Vertices(img, cells + [Cell(z, x)])
  {
    assert (cells + [Cell(z, x)])[..|cells|] == cells;
  }

  /** One unfolding of `Highest`, for the loop proof: a sample replaces the maximum exactly when it is a larger number. */
  lemma HighestStep(ys: seq<JsNum<int>>, y: JsNum<int>)
    ensures Highest(ys + [y]) == if y.Num? && y.v > Highest(ys) then y.v else Highest(ys)
  {
    assert (ys + [y])[..|ys|] == ys;
  }

  /**
   `highest` is the maximum of 0 and the numeric samples: no numeric sample
   exceeds it, and it is 0 or one of the samples.
   */
  lemma {:induction false} HighestIsMax(ys: seq<JsNum<int>>)
    ensures 0 <= Highest(ys)
    ensures forall i :: 0 <= i < |ys| && ys[i].Num? ==> ys[i].v <= Highest(ys)
    ensures Highest(ys) == 0 || Num(Highest(ys)) in ys
  {
    if ys != [] {
      var pre := ys[..|ys| - 1];
      HighestIsMax(pre);
      assert ys == pre + [ys[|ys| - 1]];
    }
  }

  /** Sample `i` is the sample of the `i`-th cell visited. */
  lemma {:induction false} SamplesAt(img: ImageData, cells: seq<Cell>, i: nat)
    requires i < |cells|
    ensures |Samples(img, cells)| == |cells|
    ensures Samples(img, cells)[i] == SampleAt(img, cells[i].z, cells[i].x)
  {
    var pre := cells[..|cells| - 1];
    SamplesLength(img, pre);
    if i < |pre| {
      SamplesAt(img, pre, i);
    }
  }

  /** Every numeric sample is the sum of three bytes: between 0 and 765. */
  lemma SamplesInRange(img: ImageData, cells: seq<Cell>)
    ensures |Samples(img, cells)| == |cells|
    ensures forall i :: 0 <= i < |cells| && Samples(img, cells)[i].Num? ==>
              0 <= Samples(img, cells)[i].v <= 3 * 255
  {
    SamplesLength(img, cells);
    forall i | 0 <= i < |cells| && Samples(img, cells)[i].Num?
      ensures 0 <= Samples(img, cells)[i].v <= 3 * 255
    {
      SamplesAt(img, cells, i);
      SampleAtReads(img, cells[i].z, cells[i].x);
    }
  }

  lemma {:induction false} SamplesLength(img: ImageData, cells: seq<Cell>)
    ensures |Samples(img, cells)| == |cells|
  {
    if cells != [] {
      SamplesLength(img, cells[..|cells| - 1]);
    }
  }

  /** Vertex `i` holds the three numbers of the `i`-th cell visited. */
  lemma {:induction false} VerticesAt(img: ImageData, cells: seq<Cell>, i: nat)
    requires i < |cells|
    ensures |Vertices(img, cells)| == 3 * |cells|
    ensures Vertices(img, cells)[3 * i .. 3 * i + 3] == VertexAt(img, cells[i].z, cells[i].x)
  {
    var pre := cells[..|cells| - 1];
    var c := cells[|cells| - 1];
    VerticesLength(img, pre);
    if i < |pre| {
      VerticesAt(img, pre, i);
    }
    TripleOfConcat(Vertices(img, pre), VertexAt(img, c.z, c.x), |pre|, i);
  }

  lemma {:induction false} VerticesLength(img: ImageData, cells: seq<Cell>)
    ensures |Vertices(img, cells)| == 3 * |cells|
  {
    if cells != [] {
      VerticesLength(img, cells[..|cells| - 1]);
    }
  }

  /** Triple `k` of `a + b`, where `a` holds `n` triples, is triple `k` of `a` or triple `k - n` of `b`. 
   The group size is a literal here rather than a parameter, which would
   put a product of two variables into every index.
   */
  lemma TripleOfConcat<T>(a: seq<T>, b: seq<T>, n: nat, k: nat)
    requires |a| == 3 * n && 3 * k + 3 <= |a| + |b|
    ensures k < n ==> (a + b)[3 * k .. 3 * k + 3] == a[3 * k .. 3 * k + 3]
    ensures n <= k ==> (a + b)[3 * k .. 3 * k + 3] == b[3 * (k - n) .. 3 * (k - n) + 3]
  {
  }

  /**
   The samples the loop produces: `width * height` of them, and entry
   `z * width + x` is the sample of cell `(z, x)`.
   */
  lemma SampleOfCell(img: ImageData, z: nat, x: nat)
    requires z < img.height && x < img.width
    ensures |Samples(img, ScanOrder(img.width, img.height))| == img.height * img.width
    ensures z * img.width + x < img.height * img.width
    ensures Samples(img, ScanOrder(img.width, img.height))[z * img.width + x] == SampleAt(img, z, x)
  {
    ScanOrderAt(img.width, img.height, z, x);
    SamplesAt(img, ScanOrder(img.width, img.height), z * img.width + x);
  }

  /**
   The vertices the loop produces: three numbers per cell, and vertex
   `z * width + x` is `(x, sample / 90, z)`: its x coordinate is the column,
   its z coordinate the row.
   */
  lemma VertexOfCell(img: ImageData, z: nat, x: nat)
    requires z < img.height && x < img.width
    ensures |Vertices(img, ScanOrder(img.width, img.height))| == 3 * (img.height * img.width)
    ensures z * img.width + x < img.height * img.width
    ensures var i := z * img.width + x;
            Vertices(img, ScanOrder(img.width, img.height))[3 * i .. 3 * i + 3]
            == [Num(x as real), Divide(SampleAt(img, z, x), Divider), Num(z as real)]
  {
    ScanOrderAt(img.width, img.height, z, x);
    VerticesAt(img, ScanOrder(img.width, img.height), z * img.width + x);
  }

  /** Vertex `i` carries sample `i`: its y is the sample divided by 90, NaN exactly when the sample is. */
  lemma VertexCarriesSample(img: ImageData, cells: seq<Cell>, i: nat)
    requires i < |cells|
    ensures |Samples(img, cells)| == |cells|
    ensures |Vertices(img, cells)| == 3 * |cells|
    ensures Vertices(img, cells)[3 * i + 1] == Divide(Samples(img, cells)[i], Divider)
    ensures Vertices(img, cells)[3 * i + 1].NaN? <==> Samples(img, cells)[i].NaN?
  {
    SamplesAt(img, cells, i);
    VerticesAt(img, cells, i);
    assert Vertices(img, cells)[3 * i .. 3 * i + 3][1] == Vertices(img, cells)[3 * i + 1];
  }

  /**
   For a square image whose buffer holds exactly its pixels, the only cells
   whose reads run past the end are the last two cells of the last row.
   */
  lemma SquareImageNaNCells(img: ImageData, z: nat, x: nat)
    requires img.width == img.height >= 2
    requires |img.data| == 4 * (img.width * img.height)
    requires z < img.height && x < img.width
    ensures SampleAt(img, z, x).NaN? <==> z == img.height - 1 && x >= img.height - 2
  {
    var h := img.height;
    SampleAtReads(img, z, x);
    RowBaseIsProduct(z, h);
    MulPred(h, h);
    MulPred(h - 1, h);
    if z < h - 1 {
      MulMonotone(z, h - 2, h);
    }
  }
}
