/**
 The terrain generator as a whole: it samples the heightmap, colours the
 samples and builds the triangle index buffer, and hands the three buffers
 to the renderer as one geometry (positions in threes, colours in fours).
 */
module Terrain {
  import opened JsNumbers
  import opened Grid
  import opened HeightSampler
  import opened ColorRamp
  import opened IndexBuffer

  /** The buffers of the mesh: vertex positions, vertex colours and triangle indices. */
  datatype Geometry = Geometry(position: seq<JsNum<real>>, color: seq<JsNum<real>>, index: seq<nat>)

  /** The elevation samples of an image, in the order the sampling loop visits the pixels. */
  function ImageSamples(img: ImageData): (ys: seq<JsNum<int>>)
    ensures |ys| == img.height * img.width
  {
    SamplesLength(img, ScanOrder(img.width, img.height));
    ScanOrderLength(img.width, img.height);
    Samples(img, ScanOrder(img.width, img.height))
  }

  /**
   Sampling, colouring and indexing in the order the generator runs them; the
   colour loop sees the samples and the final running maximum.
   */
  method GenerateTerrain(img: ImageData, round: real -> real) returns (g: Geometry)
    ensures g.position == Vertices(img, ScanOrder(img.width, img.height))
    ensures g.color == Colors(ImageSamples(img), Highest(ImageSamples(img)), round)
    ensures g.index == Indices(img.width, img.height)
    ensures |g.position| == 3 * (img.height * img.width)
    ensures |g.color| == 4 * (img.height * img.width)
    ensures |g.index| == 6 * Span(img.width) * Span(img.height)
  {
    var ys, vertices, highest := SampleHeights(img);
    var colors := ColorBuffer(ys, highest, round);
    var indices := BuildIndices(img.width, img.height);
    VerticesLength(img, ScanOrder(img.width, img.height));
    ScanOrderLength(img.width, img.height);
    ColorsLength(ys, highest, round);
    IndicesLength(img.width, img.height);
    g := Geometry(vertices, colors, indices);
  }

  /**
   A zero running maximum only arises when every numeric sample is 0, so the
   colour level `sample / highest` is then `0 / 0` (NaN) and never a non-zero
   sample divided by zero. Otherwise every numeric sample lies in
   [0, highest], so its level lies in [0, 1] for a rounding that keeps [0, 1].
   */
  lemma FlatTerrainLevels(img: ImageData, i: nat)
    requires i < img.height * img.width && ImageSamples(img)[i].Num?
    ensures Highest(ImageSamples(img)) == 0 ==> ImageSamples(img)[i].v == 0
    ensures 0 <= ImageSamples(img)[i].v <= Highest(ImageSamples(img))
  {
    var ys := ImageSamples(img);
    SamplesInRange(img, ScanOrder(img.width, img.height));
    HighestIsMax(ys);
  }

  /**
   Every colour channel of the mesh is NaN or lies in [0, 1] and every alpha
   is 1, for any rounding that keeps [0, 1] inside [0, 1]; the red channel of
   pixel `i` is NaN exactly when its sample is NaN or `highest` is 0, that
   is, when every numeric sample is 0.
   */
  lemma TerrainColorsInUnitCube(img: ImageData, round: real -> real, i: nat, k: nat)
    requires KeepsUnitInterval(round)
    requires i < img.height * img.width && k < 4
    ensures var colors := Colors(ImageSamples(img), Highest(ImageSamples(img)), round);
            |colors| == 4 * (img.height * img.width)
            && (colors[4 * i + k].NaN? || 0.0 <= colors[4 * i + k].v <= 1.0)
            && colors[4 * i + 3] == Num(1.0)
            && (colors[4 * i].NaN? <==> ImageSamples(img)[i].NaN? || Highest(ImageSamples(img)) == 0)
  {
    var ys := ImageSamples(img);
    SamplesInRange(img, ScanOrder(img.width, img.height));
    HighestIsMax(ys);
    ColorsInUnitCube(ys, Highest(ys), round, i, k);
  }

  /**
   For an image at least 2 by 2, every triangle index names one of the mesh's
   vertices (three position entries each) exactly when the image is no wider
   than it is high; in particular for every square image.
   */
  lemma IndicesAddressVertices(img: ImageData)
    requires img.width >= 2 && img.height >= 2
    ensures var vertexCount := |Vertices(img, ScanOrder(img.width, img.height))| / 3;
            (forall e :: e in Indices(img.width, img.height) ==> e < vertexCount)
            <==> img.width <= img.height
  {
    VerticesLength(img, ScanOrder(img.width, img.height));
    ScanOrderLength(img.width, img.height);
    IndicesInRange(img.width, img.height);
    assert img.height * img.width == img.width * img.height;
  }
}
