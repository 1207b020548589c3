/**
 The colour loop of the terrain generator: every elevation sample becomes one
 RGBA quadruple. The sample is divided by the highest sample and rounded to
 three significant digits; that level `c` gives red `c`, green `2c` inside
 the band `0.2 < c < 0.5` and `c` outside it, blue `1 - c`, alpha 1.

 The rounding (`toPrecision(3)` read back as a number) is a parameter
 `round`: the model proves what holds for any rounding, and bounds the
 channels for every rounding that keeps [0, 1] inside [0, 1].
 */
module ColorRamp {
  import opened JsNumbers

  /** A rounding that maps every level in [0, 1] to a level in [0, 1]. */
  ghost predicate KeepsUnitInterval(round: real -> real)
  {
    forall c: real :: 0.0 <= c <= 1.0 ==> 0.0 <= round(c) <= 1.0
  }

  /**
   The colour level of a sample: `sample / highest` rounded. It is NaN when the
   sample is NaN, and when `highest` is 0 (`0 / 0`; `Terrain.FlatTerrainLevels`
   shows that no non-zero sample meets a zero `highest`).
   */
  function Level(sample: JsNum<int>, highest: int, round: real -> real): (level: JsNum<real>)
    ensures level.NaN? <==> sample.NaN? || highest == 0
    ensures KeepsUnitInterval(round) && sample.Num? && 0 <= sample.v <= highest && highest != 0
            ==> 0.0 <= level.v <= 1.0
  {
    if sample.NaN? || highest == 0 then NaN
    else Num(round(sample.v as real / highest as real))
  }

  /**
   The quadruple pushed for a level. A NaN level makes red, green and blue NaN
   (every comparison with NaN is false, and `1 - NaN` is NaN); alpha is 1
   whatever the level.
   */
  function Rgba(level: JsNum<real>): (rgba: seq<JsNum<real>>)
    ensures |rgba| == 4
    ensures rgba[0] == level && rgba[3] == Num(1.0)
    ensures rgba[1].NaN? <==> level.NaN?
    ensures rgba[2].NaN? <==> level.NaN?
    ensures level.Num? ==> level.v + rgba[2].v == 1.0
    ensures level.Num? ==> level.v <= rgba[1].v
    ensures level.Num? && 0.2 < level.v < 0.5 ==> rgba[1].v == 2.0 * level.v
    ensures level.Num? && !(0.2 < level.v < 0.5) ==> rgba[1] == level
    ensures level.Num? && 0.0 <= level.v <= 1.0 ==>
              forall k :: 0 <= k < 4 ==> rgba[k].Num? && 0.0 <= rgba[k].v <= 1.0
  {
    match level
    case NaN => [NaN, NaN, NaN, Num(1.0)]
    case Num(c) =>
      [Num(c), Num(if c < 0.5 && c > 0.2 then c * 2.0 else c), Num(1.0 - c), Num(1.0)]
  }

  /** The colour buffer after visiting `ys` in order: one quadruple per sample. */
  function Colors(ys: seq<JsNum<int>>, highest: int, round: real -> real): seq<JsNum<real>>
  {
    if ys == [] then []
    else Colors(ys[..|ys| - 1], highest, round) + Rgba(Level(ys[|ys| - 1], highest, round))
  }

  /**
   The colour loop: for each sample, compute its level, derive the three
   channels from it and push them with alpha 1.
   */
  method ColorBuffer(ys: seq<JsNum<int>>, highest: int, round: real -> real) returns (colors: seq<JsNum<real>>)
    ensures colors == Colors(ys, highest, round)
  {
    colors := [];
    var i := 0;
    while i < |ys|
      invariant i <= |ys|
      invariant colors == Colors(ys[..i], highest, round)
    {
      var color := Level(ys[i], highest, round);
      var red, green, blue;
      red := color;
      if color.Num? && color.v < 0.5 && color.v > 0.2 {
        green := Num(color.v * 2.0);
      } else {
        green := color;
      }
      blue := if color.NaN? then NaN else Num(1.0 - color.v);
      assert ys[..i + 1][..i] == ys[..i];
      colors := colors + [red, green, blue, Num(1.0)];
      i := i + 1;
    }
    assert ys[..i] == ys;
  }

  /** The colour buffer holds four entries per sample, and quadruple `i` is the colour of sample `i`. */
  lemma {:induction false} ColorsAt(ys: seq<JsNum<int>>, highest: int, round: real -> real, i: nat)
    requires i < |ys|
    ensures |Colors(ys, highest, round)| == 4 * |ys|
    ensures Colors(ys, highest, round)[4 * i .. 4 * i + 4] == Rgba(Level(ys[i], highest, round))
  {
    var pre := ys[..|ys| - 1];
    ColorsLength(pre, highest, round);
    if i < |pre| {
      ColorsAt(pre, highest, round, i);
    }
    QuadrupleOfConcat(Colors(pre, highest, round), Rgba(Level(ys[|ys| - 1], highest, round)), |pre|, i);
  }

  lemma {:induction false} ColorsLength(ys: seq<JsNum<int>>, highest: int, round: real -> real)
    ensures |Colors(ys, highest, round)| == 4 * |ys|
  {
    if ys != [] {
      ColorsLength(ys[..|ys| - 1], highest, round);
    }
  }

  /** Quadruple `k` of `a + b`, where `a` holds `n` quadruples, is quadruple `k` of `a` or quadruple `k - n` of `b`. 
   The group size is a literal here rather than a parameter, which would
   put a product of two variables into every index.
   */
  lemma QuadrupleOfConcat<T>(a: seq<T>, b: seq<T>, n: nat, k: nat)
    requires |a| == 4 * n && 4 * k + 4 <= |a| + |b|
    ensures k < n ==> (a + b)[4 * k .. 4 * k + 4] == a[4 * k .. 4 * k + 4]
    ensures n <= k ==> (a + b)[4 * k .. 4 * k + 4] == b[4 * (k - n) .. 4 * (k - n) + 4]
  {
  }

  /**
   Every channel of the colour buffer is NaN or lies in [0, 1], and every
   fourth entry (alpha) is 1, provided the rounding keeps [0, 1] and no numeric
   sample is negative or above `highest`.
   */
  lemma ColorsInUnitCube(ys: seq<JsNum<int>>, highest: int, round: real -> real, i: nat, k: nat)
    requires KeepsUnitInterval(round)
    requires forall j :: 0 <= j < |ys| && ys[j].Num? ==> 0 <= ys[j].v <= highest
    requires i < |ys| && k < 4
    ensures |Colors(ys, highest, round)| == 4 * |ys|
    ensures var e := Colors(ys, highest, round)[4 * i + k];
            e.NaN? || 0.0 <= e.v <= 1.0
    ensures Colors(ys, highest, round)[4 * i + 3] == Num(1.0)
    ensures Colors(ys, highest, round)[4 * i].NaN? <==> ys[i].NaN? || highest == 0
  {
    ColorsAt(ys, highest, round, i);
    var q := Colors(ys, highest, round)[4 * i .. 4 * i + 4];
    assert q[k] == Colors(ys, highest, round)[4 * i + k];
    assert q[3] == Colors(ys, highest, round)[4 * i + 3];
    assert q[0] == Colors(ys, highest, round)[4 * i];
  }
}
