/** The flow-field analyser (`calculateImageFlowData`): a 3x3 Sobel-style
    stencil over the grey levels of the image, neighbours clamped to the edge.
    `Math.sqrt` is a parameter of the model; `Math.atan2` (the unused angle
    grid) is not modelled. */
module FlowField {
  import opened Geometry

  /** Horizontal weight of neighbour offset (dx, dy): zero on the centre column,
      doubled on the centre row. */
  function WeightX(dx: int, dy: int): (w: int)
    ensures -1 <= dx <= 1 ==> -2 <= w <= 2
  {
    if dx == 0 then 0 else if dy == 0 then 2 * dx else dx
  }

  /** Vertical weight of neighbour offset (dx, dy), the transpose of WeightX. */
  function WeightY(dx: int, dy: int): (w: int)
    ensures -1 <= dy <= 1 ==> -2 <= w <= 2
  {
    if dy == 0 then 0 else if dx == 0 then 2 * dy else dy
  }

  /** `v * w` for the stencil weights -2 .. 2, spelled out as additions so that the
      verifier's arithmetic on grey levels stays linear (ScaleIsProduct). */
  function Scale(v: real, w: int): real
    requires -2 <= w <= 2
  {
    if w == 0 then 0.0 else if w == 1 then v else if w == -1 then -v else if w == 2 then v + v else -(v + v)
  }

  lemma ScaleIsProduct(v: real, w: int)
    requires -2 <= w <= 2
    ensures Scale(v, w) == v * w as real
  {
  }

  /** The k-th neighbour visited by the stencil loops (dy outer, dx inner, both from -1 to 1). */
  function OffsetY(k: int): int
  {
    if k < 3 then -1 else if k < 6 then 0 else 1
  }

  function OffsetX(k: int): int
  {
    k - 3 * (OffsetY(k) + 1) - 1
  }

  /** (x, y) is a pixel of a well-formed image. */
  predicate PixelOf(img: Image, x: int, y: int)
  {
    ValidImage(img) && 0 <= x < img.width && 0 <= y < img.height
  }

  /** The grey level of neighbour (dx, dy) of (x, y), clamped to the image. */
  function Neighbour(img: Image, x: int, y: int, dx: int, dy: int): real
    requires PixelOf(img, x, y)
  {
    Intensity(img, Constrain(x + dx, 0, img.width - 1), Constrain(y + dy, 0, img.height - 1))
  }

  /** Weight of the k-th neighbour in gx (horizontal) or gy. */
  function Weight(k: int, horizontal: bool): int
  {
    if horizontal then WeightX(OffsetX(k), OffsetY(k)) else WeightY(OffsetX(k), OffsetY(k))
  }

  /** Contribution of the k-th neighbour of (x, y) to gx (horizontal) or gy. */
  function StencilTerm(img: Image, x: int, y: int, k: int, horizontal: bool): real
    requires PixelOf(img, x, y) && 0 <= k < 9
  {
    Scale(Neighbour(img, x, y, OffsetX(k), OffsetY(k)), Weight(k, horizontal))
  }

  /** Sum of the first k stencil terms, in loop order. */
  function StencilSum(img: Image, x: int, y: int, k: int, horizontal: bool): real
    requires PixelOf(img, x, y) && 0 <= k <= 9
  {
    if k == 0 then 0.0 else StencilSum(img, x, y, k - 1, horizontal) + StencilTerm(img, x, y, k - 1, horizontal)
  }

  function GradX(img: Image, x: int, y: int): real
    requires PixelOf(img, x, y)
  {
    StencilSum(img, x, y, 9, true)
  }

  function GradY(img: Image, x: int, y: int): real
    requires PixelOf(img, x, y)
  {
    StencilSum(img, x, y, 9, false)
  }

  /** The grids the analyser returns: gradientX, gradientY and edgeStrength
      (the source's `magnitude` grid holds the same values as edgeStrength). */
  datatype FlowData = FlowData(gradientX: seq<seq<real>>, gradientY: seq<seq<real>>, edgeStrength: seq<seq<real>>)

  /** The two accumulations `gx += intensity * wx; gy += intensity * wy` over the 3x3 neighbourhood. */
  method Stencil(img: Image, x: int, y: int) returns (gx: real, gy: real)
    requires PixelOf(img, x, y)
    ensures gx == GradX(img, x, y) && gy == GradY(img, x, y)
  {
    gx := 0.0; gy := 0.0;
    ghost var k := 0;
    var dy := -1;
    while dy <= 1
      invariant -1 <= dy <= 2 && k == 3 * (dy + 1)
      invariant gx == StencilSum(img, x, y, k, true) && gy == StencilSum(img, x, y, k, false)
    {
      var dx := -1;
      while dx <= 1
        invariant -1 <= dx <= 2 && k == 3 * (dy + 1) + dx + 1
        invariant gx == StencilSum(img, x, y, k, true) && gy == StencilSum(img, x, y, k, false)
      {
        var intensity := Neighbour(img, x, y, dx, dy);
        var wx := WeightX(dx, dy);
        var wy := WeightY(dx, dy);
        StencilStep(img, x, y, k, dx, dy);
        gx := gx + Scale(intensity, wx);
        gy := gy + Scale(intensity, wy);
        dx := dx + 1;
        k := k + 1;
      }
      dy := dy + 1;
    }
  }

  /** One step of the stencil loops: neighbour (dx, dy) is term 3 * (dy + 1) + dx + 1 of both sums. */
  lemma StencilStep(img: Image, x: int, y: int, k: int, dx: int, dy: int)
    requires PixelOf(img, x, y) && -1 <= dx <= 1 && -1 <= dy <= 1
    requires k == 3 * (dy + 1) + dx + 1
    ensures var i := Neighbour(img, x, y, dx, dy);
      StencilSum(img, x, y, k + 1, true) == StencilSum(img, x, y, k, true) + Scale(i, WeightX(dx, dy)) &&
      StencilSum(img, x, y, k + 1, false) == StencilSum(img, x, y, k, false) + Scale(i, WeightY(dx, dy))
  {
    assert OffsetX(k) == dx && OffsetY(k) == dy;
    var i := Neighbour(img, x, y, dx, dy);
    assert StencilTerm(img, x, y, k, true) == Scale(i, WeightX(dx, dy));
    assert StencilTerm(img, x, y, k, false) == Scale(i, WeightY(dx, dy));
  }

  /** `Math.sqrt(gx * gx + gy * gy)`, the edge strength of one pixel. */
  function Magnitude(sqrt: real -> real, gx: real, gy: real): real
  {
    sqrt(gx * gx + gy * gy)
  }

  /** The per-pixel loops of the analyser. `sqrt` stands for `Math.sqrt`. */
  method CalculateImageFlowData(img: Image, sqrt: real -> real) returns (flow: FlowData)
    requires ValidImage(img)
    ensures IsGrid(flow.gradientX, img.width, img.height)
    ensures IsGrid(flow.gradientY, img.width, img.height)
    ensures IsGrid(flow.edgeStrength, img.width, img.height)
    ensures forall y, x :: 0 <= y < img.height && 0 <= x < img.width ==>
              flow.gradientX[y][x] == GradX(img, x, y) && flow.gradientY[y][x] == GradY(img, x, y) &&
              flow.edgeStrength[y][x] == Magnitude(sqrt, GradX(img, x, y), GradY(img, x, y))
  {
    var gradX, gradY, edge: seq<seq<real>> := [], [], [];
    var y := 0;
    while y < img.height
      invariant 0 <= y <= img.height
      invariant IsGrid(gradX, img.width, y) && IsGrid(gradY, img.width, y) && IsGrid(edge, img.width, y)
      invariant forall yy, xx :: 0 <= yy < y && 0 <= xx < img.width ==>
                  gradX[yy][xx] == GradX(img, xx, yy) && gradY[yy][xx] == GradY(img, xx, yy) &&
                  edge[yy][xx] == Magnitude(sqrt, GradX(img, xx, yy), GradY(img, xx, yy))
    {
      var rowX, rowY, rowE: seq<real> := [], [], [];
      var x := 0;
      while x < img.width
        invariant 0 <= x <= img.width
        invariant |rowX| == x && |rowY| == x && |rowE| == x
        invariant forall xx :: 0 <= xx < x ==> rowX[xx] == GradX(img, xx, y)
        invariant forall xx :: 0 <= xx < x ==> rowY[xx] == GradY(img, xx, y)
        invariant forall xx :: 0 <= xx < x ==>
                    rowE[xx] == Magnitude(sqrt, GradX(img, xx, y), GradY(img, xx, y))
      {
        var gx, gy := Stencil(img, x, y);
        rowX, rowY, rowE := rowX + [gx], rowY + [gy], rowE + [Magnitude(sqrt, gx, gy)];
        x := x + 1;
      }
      gradX, gradY, edge := gradX + [rowX], gradY + [rowY], edge + [rowE];
      y := y + 1;
    }
    flow := FlowData(gradX, gradY, edge);
  }

  /** Every pixel has the red, green and blue values of pixel (0, 0). */
  ghost predicate SolidColour(img: Image)
    requires ValidImage(img)
  {
    img.width > 0 && img.height > 0 &&
    forall x, y, c :: 0 <= x < img.width && 0 <= y < img.height && 0 <= c < 3 ==>
      Channel(img, x, y, c) == Channel(img, 0, 0, c)
  }

  lemma SolidIntensity(img: Image, x: int, y: int)
    requires ValidImage(img) && SolidColour(img)
    requires 0 <= x < img.width && 0 <= y < img.height
    ensures Intensity(img, x, y) == Intensity(img, 0, 0)
  {
    assert Channel(img, x, y, 0) == Channel(img, 0, 0, 0);
    assert Channel(img, x, y, 1) == Channel(img, 0, 0, 1);
    assert Channel(img, x, y, 2) == Channel(img, 0, 0, 2);
  }

  /** Each of the nine stencil terms of a solid-colour image is the one grey level scaled by the term's weight. */
  lemma SolidStencilTerm(img: Image, x: int, y: int, k: int, horizontal: bool)
    requires ValidImage(img) && SolidColour(img)
    requires 0 <= x < img.width && 0 <= y < img.height && 0 <= k < 9
    ensures StencilTerm(img, x, y, k, horizontal) == Scale(Intensity(img, 0, 0), Weight(k, horizontal))
  {
    var nx := Constrain(x + OffsetX(k), 0, img.width - 1);
    var ny := Constrain(y + OffsetY(k), 0, img.height - 1);
    SolidIntensity(img, nx, ny);
  }

  /** The first k stencil terms of an image whose every grey level is v. */
  function UniformSum(v: real, k: int, horizontal: bool): real
    requires 0 <= k <= 9
  {
    if k == 0 then 0.0 else UniformSum(v, k - 1, horizontal) + Scale(v, Weight(k - 1, horizontal))
  }

  lemma {:induction false} SolidStencilSum(img: Image, x: int, y: int, k: int, horizontal: bool)
    requires ValidImage(img) && SolidColour(img)
    requires 0 <= x < img.width && 0 <= y < img.height && 0 <= k <= 9
    ensures StencilSum(img, x, y, k, horizontal) == UniformSum(Intensity(img, 0, 0), k, horizontal)
  {
    if k > 0 {
      SolidStencilSum(img, x, y, k - 1, horizontal);
      SolidStencilTerm(img, x, y, k - 1, horizontal);
    }
  }

  /** The weights of each axis add up to zero. */
  lemma UniformSumVanishes(v: real, horizontal: bool)
    ensures UniformSum(v, 9, horizontal) == 0.0
  {
    if horizontal {
      assert UniformSum(v, 3, true) == 0.0 by {
        assert UniformSum(v, 1, true) == -v;
        assert UniformSum(v, 2, true) == -v;
      }
      assert UniformSum(v, 6, true) == 0.0 by {
        assert UniformSum(v, 4, true) == -(v + v);
        assert UniformSum(v, 5, true) == -(v + v);
      }
      assert UniformSum(v, 8, true) == -v;
    } else {
      assert UniformSum(v, 3, false) == -(v + v + v + v) by {
        assert UniformSum(v, 1, false) == -v;
        assert UniformSum(v, 2, false) == -(v + v + v);
      }
      assert UniformSum(v, 6, false) == -(v + v + v + v) by {
        assert UniformSum(v, 4, false) == -(v + v + v + v);
        assert UniformSum(v, 5, false) == -(v + v + v + v);
      }
      assert UniformSum(v, 8, false) == -v by {
        assert UniformSum(v, 7, false) == -(v + v + v);
      }
    }
  }

  /** On a solid-colour image both Sobel sums vanish at every pixel, because the
      weights on each axis add up to zero; so the edge strength is sqrt(0). */
  lemma SolidImageHasNoGradient(img: Image, sqrt: real -> real, x: int, y: int)
    requires ValidImage(img) && SolidColour(img)
    requires 0 <= x < img.width && 0 <= y < img.height
    ensures GradX(img, x, y) == 0.0 && GradY(img, x, y) == 0.0
    ensures Magnitude(sqrt, GradX(img, x, y), GradY(img, x, y)) == sqrt(0.0)
  {
    SolidStencilSum(img, x, y, 9, true);
    SolidStencilSum(img, x, y, 9, false);
    UniformSumVanishes(Intensity(img, 0, 0), true);
    UniformSumVanishes(Intensity(img, 0, 0), false);
  }
}
