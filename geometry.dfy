/** Value types shared by the stages of the mosaic generator: points, pixels,
    RGBA images, row-major grids, and the small numeric helpers the generator
    defines for itself (random, randomRange, constrain, max). */
module Geometry {

  datatype Option<T> = None | Some(value: T)

  /** A seed or a polygon vertex: the `{x, y}` object with number fields. */
  datatype Point = Point(x: real, y: real)

  /** An integer pixel position (column x, row y). */
  datatype Pixel = Pixel(x: int, y: int)

  type Byte = b: int | 0 <= b < 256

  /** An RGBA raster: `width * height` pixels, row-major, four bytes each. */
  datatype Image = Image(width: nat, height: nat, pixels: seq<Byte>)

  predicate ValidImage(img: Image)
  {
    |img.pixels| == Times(img.width, img.height) * 4
  }

  predicate InImage(p: Pixel, w: nat, h: nat)
  {
    0 <= p.x < w && 0 <= p.y < h
  }

  /** A `h` rows by `w` columns grid, indexed `g[y][x]` as the source's nested arrays are. */
  predicate IsGrid<T>(g: seq<seq<T>>, w: nat, h: nat)
  {
    |g| == h && forall y :: 0 <= y < h ==> |g[y]| == w
  }

  /** Pixel p comes strictly before pixel q in row-major scan order. */
  predicate Before(p: Pixel, q: Pixel)
  {
    p.y < q.y || (p.y == q.y && p.x < q.x)
  }

  function AsPoint(p: Pixel): Point
  {
    Point(p.x as real, p.y as real)
  }

  function Sq(a: real): real
  {
    a * a
  }

  /** Squared Euclidean distance, the quantity `dx * dx + dy * dy` the generator compares. */
  function DistSq(p: Point, q: Point): real
  {
    Sq(p.x - q.x) + Sq(p.y - q.y)
  }

  function Max(a: int, b: int): int { if a >= b then a else b }

  function Min(a: int, b: int): int { if a <= b then a else b }

  /** `constrain(v, lo, hi)`: clamps v into [lo, hi]. */
  function Constrain(v: int, lo: int, hi: int): (r: int)
    requires lo <= hi
    ensures lo <= r <= hi
    ensures lo <= v <= hi ==> r == v
    ensures v < lo ==> r == lo
    ensures hi < v ==> r == hi
  {
    Max(lo, Min(hi, v))
  }

  /** `random(max)`, given the draw u that `Math.random()` returned. */
  function Random(u: real, max: real): real
  {
    u * max
  }

  /** `randomRange(lo, hi)`, given the draw u that `Math.random()` returned. */
  function RandomRange(u: real, lo: real, hi: real): real
  {
    lo + u * (hi - lo)
  }

  /** A `Math.random()` draw lies in [0, 1). */
  ghost predicate UnitDraws(draws: nat -> real)
  {
    forall k: nat :: 0.0 <= draws(k) < 1.0
  }

  /** The product `v * n` written as n additions of v, so that pixel indexing
      (`y * width`) and sums over pixels stay linear arithmetic for the verifier. */
  function Times(v: nat, n: nat): nat
  {
    if n == 0 then 0 else Times(v, n - 1) + v
  }

  lemma {:induction false} TimesIsProduct(v: nat, n: nat)
    ensures Times(v, n) == v * n
  {
    if n > 0 {
      TimesIsProduct(v, n - 1);
      assert v * (n - 1) + v == v * n;
    }
  }

  /** Times grows with its count. */
  lemma {:induction false} TimesMonotone(v: nat, n: nat, m: nat)
    requires n <= m
    ensures Times(v, n) <= Times(v, m)
    decreases m - n
  {
    if n < m {
      TimesMonotone(v, n + 1, m);
    }
  }

  /** The byte offset of channel 0 of an in-image pixel, and the three
      channels after it, lie inside the pixel buffer. */
  lemma PixelIndexInBounds(w: nat, h: nat, x: int, y: int)
    requires 0 <= x < w && 0 <= y < h
    ensures 0 <= (Times(w, y) + x) * 4 && (Times(w, y) + x) * 4 + 3 < Times(w, h) * 4
  {
    TimesMonotone(w, y + 1, h);
  }

  /** Channel c (0 red, 1 green, 2 blue, 3 alpha) of pixel (x, y). */
  function Channel(img: Image, x: int, y: int, c: int): Byte
    requires ValidImage(img)
    requires 0 <= x < img.width && 0 <= y < img.height && 0 <= c < 4
  {
    PixelIndexInBounds(img.width, img.height, x, y);
    img.pixels[(Times(img.width, y) + x) * 4 + c]
  }

  /** The grey level `(r + g + b) / 3` of pixel (x, y); alpha is ignored. */
  function Intensity(img: Image, x: int, y: int): real
    requires ValidImage(img)
    requires 0 <= x < img.width && 0 <= y < img.height
  {
    (Channel(img, x, y, 0) + Channel(img, x, y, 1) + Channel(img, x, y, 2)) as real / 3.0
  }
}
