/** The last stage of the mosaic generator: for every seed, the pixels of its
    Voronoi cell that lie on the cell's edge (`extractCellBoundary`), their
    convex hull as the polygon, the average colour of the cell
    (`calculateCellColor`), and the list of polygons (`extractVoronoiCells`).
    The pipeline `generateVoronoiMosaic` chains all stages. */
module Cells {
  import opened Geometry
  import opened FlowField
  import opened Seeds
  import opened Voronoi
  import opened Hull

  /** The `{r, g, b}` colour of a cell. */
  datatype Color = Color(r: real, g: real, b: real)

  /** A polygon of the mosaic: the hull vertices and the average colour. */
  datatype Cell = Cell(vertices: seq<Pixel>, color: Color)

  // ---------------------------------------------------------------- boundary pixels

  /** Some 8-neighbour of (x, y) inside the image carries another label. */
  predicate ForeignNeighbour(labels: seq<seq<int>>, id: int, w: nat, h: nat, x: int, y: int)
    requires IsGrid(labels, w, h)
  {
    exists ny, nx | (y - 1 <= ny <= y + 1 && x - 1 <= nx <= x + 1 && (nx != x || ny != y) &&
                     0 <= nx < w && 0 <= ny < h) :: labels[ny][nx] != id
  }

  /** Pixel (x, y) belongs to cell id and lies on its edge: on the image border
      or next to a pixel of another cell. */
  predicate OnBoundary(labels: seq<seq<int>>, id: int, w: nat, h: nat, x: int, y: int)
    requires IsGrid(labels, w, h) && 0 <= x < w && 0 <= y < h
  {
    labels[y][x] == id &&
    (x == 0 || x == w - 1 || y == 0 || y == h - 1 || ForeignNeighbour(labels, id, w, h, x, y))
  }

  /** The two nested `dy`/`dx` loops that look for a neighbour of another cell,
      leaving both loops at the first one. */
  method HasForeignNeighbour(labels: seq<seq<int>>, id: int, w: nat, h: nat, x: int, y: int)
    returns (isBoundary: bool)
    requires IsGrid(labels, w, h)
    ensures isBoundary == ForeignNeighbour(labels, id, w, h, x, y)
  {
    isBoundary := false;
    var dy := -1;
    while dy <= 1
      invariant -1 <= dy <= 2
      invariant ForeignNeighbour(labels, id, w, h, x, y) || !isBoundary
      invariant !isBoundary ==> forall ny, nx ::
        (y - 1 <= ny < y + dy && x - 1 <= nx <= x + 1 && (nx != x || ny != y) &&
         0 <= nx < w && 0 <= ny < h) ==> labels[ny][nx] == id
    {
      var dx := -1;
      while dx <= 1
        invariant -1 <= dx <= 2
        invariant ForeignNeighbour(labels, id, w, h, x, y) || !isBoundary
        invariant !isBoundary ==> forall ny, nx ::
          ((y - 1 <= ny < y + dy || (ny == y + dy && nx < x + dx)) && x - 1 <= nx <= x + 1 &&
           (nx != x || ny != y) && 0 <= nx < w && 0 <= ny < h) ==> labels[ny][nx] == id
      {
        if dx == 0 && dy == 0 {
          dx := dx + 1;
          continue;
        }
        var nx := x + dx;
        var ny := y + dy;
        if 0 <= nx < w && 0 <= ny < h {
          if labels[ny][nx] != id {
            isBoundary := true;
            break;
          }
        }
        dx := dx + 1;
      }
      if isBoundary {
        break;
      }
      dy := dy + 1;
    }
  }

  /** The boundary flag of every pixel of cell id. */
  function BoundaryMask(labels: seq<seq<int>>, id: int, w: nat, h: nat): (m: seq<seq<bool>>)
    requires IsGrid(labels, w, h)
    ensures IsGrid(m, w, h)
  {
    seq(h, y requires 0 <= y < h => seq(w, x requires 0 <= x < w => OnBoundary(labels, id, w, h, x, y)))
  }

  lemma BoundaryMaskAt(labels: seq<seq<int>>, id: int, w: nat, h: nat, x: int, y: int)
    requires IsGrid(labels, w, h) && 0 <= x < w && 0 <= y < h
    ensures BoundaryMask(labels, id, w, h)[y][x] == OnBoundary(labels, id, w, h, x, y)
  {
  }

  /** The flagged pixels from (x, y) on, in the row-major order the scan adds
      them to the set `boundaryPixels` (each pixel is visited once, so the set
      holds no duplicate to drop). */
  function MarkedFrom(m: seq<seq<bool>>, w: nat, h: nat, x: nat, y: nat): seq<Pixel>
    requires IsGrid(m, w, h)
    decreases h - y, w - x
  {
    if y >= h then []
    else if x >= w then MarkedFrom(m, w, h, 0, y + 1)
    else (if m[y][x] then [Pixel(x, y)] else []) + MarkedFrom(m, w, h, x + 1, y)
  }

  /** The boundary pixels of cell id in scan order. */
  function BoundaryList(labels: seq<seq<int>>, id: int, w: nat, h: nat): seq<Pixel>
    requires IsGrid(labels, w, h)
  {
    MarkedFrom(BoundaryMask(labels, id, w, h), w, h, 0, 0)
  }

  /** A sequence strictly increasing in scan order. */
  predicate ScanSorted(s: seq<Pixel>)
  {
    forall i, j :: 0 <= i < j < |s| ==> Before(s[i], s[j])
  }

  /** The pixels from (x, y) on are the flagged pixels at or after (x, y). */
  lemma {:induction false} MarkedFromMembers(m: seq<seq<bool>>, w: nat, h: nat, x: nat, y: nat)
    requires IsGrid(m, w, h)
    ensures forall p :: p in MarkedFrom(m, w, h, x, y) <==>
              InImage(p, w, h) && m[p.y][p.x] && !Before(p, Pixel(x, y))
    decreases h - y, w - x
  {
    if y >= h {
    } else if x >= w {
      MarkedFromMembers(m, w, h, 0, y + 1);
    } else {
      MarkedFromMembers(m, w, h, x + 1, y);
    }
  }

  /** A pixel before every element of a scan-sorted sequence can be put in front. */
  lemma SortedCons(p: Pixel, rest: seq<Pixel>)
    requires ScanSorted(rest) && forall q :: q in rest ==> Before(p, q)
    ensures ScanSorted([p] + rest)
  {
    var r := [p] + rest;
    forall i, j | 0 <= i < j < |r|
      ensures Before(r[i], r[j])
    {
      assert r[j] == rest[j - 1];
      if i > 0 {
        assert r[i] == rest[i - 1];
      }
    }
  }

  /** The pixels from (x, y) on come in strictly increasing scan order. */
  lemma {:induction false} MarkedFromSorted(m: seq<seq<bool>>, w: nat, h: nat, x: nat, y: nat)
    requires IsGrid(m, w, h)
    ensures ScanSorted(MarkedFrom(m, w, h, x, y))
    decreases h - y, w - x
  {
    if y >= h {
    } else if x >= w {
      MarkedFromSorted(m, w, h, 0, y + 1);
    } else {
      MarkedFromSorted(m, w, h, x + 1, y);
      var rest := MarkedFrom(m, w, h, x + 1, y);
      if m[y][x] {
        MarkedFromMembers(m, w, h, x + 1, y);
        SortedCons(Pixel(x, y), rest);
      } else {
        assert MarkedFrom(m, w, h, x, y) == rest;
      }
    }
  }

  /** The collected pixels are exactly the boundary pixels of the cell, each
      once and in scan order. */
  lemma BoundaryListSpec(labels: seq<seq<int>>, id: int, w: nat, h: nat)
    requires IsGrid(labels, w, h)
    ensures var r := BoundaryList(labels, id, w, h);
      (forall p :: p in r <==> InImage(p, w, h) && OnBoundary(labels, id, w, h, p.x, p.y)) &&
      ScanSorted(r)
  {
    var m := BoundaryMask(labels, id, w, h);
    MarkedFromMembers(m, w, h, 0, 0);
    MarkedFromSorted(m, w, h, 0, 0);
    forall p | InImage(p, w, h)
      ensures m[p.y][p.x] == OnBoundary(labels, id, w, h, p.x, p.y)
    {
      BoundaryMaskAt(labels, id, w, h, p.x, p.y);
    }
  }

  /** The test of one pixel: a pixel of cell id is on the boundary when it
      lies on the image border or, inside, has a neighbour of another cell.
      The result is the pixel's flag in BoundaryMask, which BoundaryMaskAt
      ties to OnBoundary. */
  method IsBoundaryPixel(labels: seq<seq<int>>, id: int, w: nat, h: nat, x: int, y: int) returns (isBoundary: bool)
    requires IsGrid(labels, w, h) && 0 <= x < w && 0 <= y < h
    ensures isBoundary == BoundaryMask(labels, id, w, h)[y][x]
  {
    BoundaryMaskAt(labels, id, w, h, x, y);
    isBoundary := false;
    if labels[y][x] == id {
      if x == 0 || x == w - 1 || y == 0 || y == h - 1 {
        isBoundary := true;
      } else {
        isBoundary := HasForeignNeighbour(labels, id, w, h, x, y);
      }
    }
  }

  /** The scan that collects the boundary pixels of cell id. */
  method BoundaryPixels(labels: seq<seq<int>>, id: int, w: nat, h: nat) returns (pixels: seq<Pixel>)
    requires IsGrid(labels, w, h)
    ensures pixels == BoundaryList(labels, id, w, h)
  {
    ghost var m := BoundaryMask(labels, id, w, h);
    ghost var all := MarkedFrom(m, w, h, 0, 0);
    pixels := [];
    var y: nat := 0;
    while y < h
      invariant y <= h
      invariant pixels + MarkedFrom(m, w, h, 0, y) == all
    {
      var x: nat := 0;
      while x < w
        invariant x <= w
        invariant pixels + MarkedFrom(m, w, h, x, y) == all
      {
        var isBoundary := IsBoundaryPixel(labels, id, w, h, x, y);
        MarkedFromStep(m, w, h, x, y, pixels, all);
        if isBoundary {
          pixels := pixels + [Pixel(x, y)];
        }
        x := x + 1;
      }
      MarkedFromRowEnd(m, w, h, y);
      y := y + 1;
    }
  }

  /** One step of the scan: the pixel at (x, y) is collected exactly when it
      is marked. */
  lemma MarkedFromStep(m: seq<seq<bool>>, w: nat, h: nat, x: nat, y: nat, pixels: seq<Pixel>, all: seq<Pixel>)
    requires IsGrid(m, w, h) && x < w && y < h
    requires pixels + MarkedFrom(m, w, h, x, y) == all
    ensures m[y][x] ==> (pixels + [Pixel(x, y)]) + MarkedFrom(m, w, h, x + 1, y) == all
    ensures !m[y][x] ==> pixels + MarkedFrom(m, w, h, x + 1, y) == all
  {
    var rest := MarkedFrom(m, w, h, x + 1, y);
    if m[y][x] {
      assert MarkedFrom(m, w, h, x, y) == [Pixel(x, y)] + rest;
      AppendAssoc(pixels, [Pixel(x, y)], rest);
    } else {
      assert MarkedFrom(m, w, h, x, y) == [] + rest;
      assert [] + rest == rest;
    }
  }

  lemma AppendAssoc<T>(a: seq<T>, b: seq<T>, c: seq<T>)
    ensures a + (b + c) == (a + b) + c
  {
  }

  lemma MarkedFromRowEnd(m: seq<seq<bool>>, w: nat, h: nat, y: nat)
    requires IsGrid(m, w, h) && y < h
    ensures MarkedFrom(m, w, h, w, y) == MarkedFrom(m, w, h, 0, y + 1)
  {
  }

  // ---------------------------------------------------------------- cell polygon

  /** The polygon `extractCellBoundary` returns: no vertices for a cell without
      boundary pixels, otherwise the convex hull of its boundary pixels. */
  function CellBoundary(labels: seq<seq<int>>, id: int, w: nat, h: nat, atan2: (real, real) -> real): seq<Pixel>
    requires IsGrid(labels, w, h)
  {
    var b := BoundaryList(labels, id, w, h);
    if |b| == 0 then [] else GrahamHull(b, atan2)
  }

  method ExtractCellBoundary(labels: seq<seq<int>>, id: int, w: nat, h: nat, atan2: (real, real) -> real)
    returns (hull: seq<Pixel>)
    requires IsGrid(labels, w, h)
    ensures hull == CellBoundary(labels, id, w, h, atan2)
  {
    var pixels := BoundaryPixels(labels, id, w, h);
    if |pixels| == 0 {
      return [];
    }
    hull := ConvexHull(pixels, atan2);
  }

  /** In a scan-sorted sequence the lowest point is the first one. */
  lemma {:induction false} LowestOfScanSorted(points: seq<Pixel>, n: nat)
    requires 0 < n <= |points| && ScanSorted(points)
    ensures LowestOf(points, n) == 0
  {
    if n > 1 {
      LowestOfScanSorted(points, n - 1);
    }
  }

  /** A polygon with three or more vertices starts at the first boundary pixel
      in scan order (the one the hull takes as its start), its vertices are
      boundary pixels of the cell, and it turns strictly left at every vertex. */
  lemma CellBoundaryProperties(labels: seq<seq<int>>, id: int, w: nat, h: nat, atan2: (real, real) -> real)
    requires IsGrid(labels, w, h)
    ensures var hull := CellBoundary(labels, id, w, h, atan2);
      (forall v :: v in hull ==> InImage(v, w, h) && OnBoundary(labels, id, w, h, v.x, v.y)) &&
      LeftTurns(hull) &&
      (|hull| >= 3 ==> hull[0] == BoundaryList(labels, id, w, h)[0])
  {
    var b := BoundaryList(labels, id, w, h);
    BoundaryListSpec(labels, id, w, h);
    var hull := CellBoundary(labels, id, w, h, atan2);
    if |b| >= 3 {
      GrahamHullProperties(b, atan2);
      LowestOfScanSorted(b, |b|);
    } else {
      assert hull == b || hull == [];
      assert LeftTurns(hull);
    }
  }

  // ---------------------------------------------------------------- cell colour

  /** Sum of colour channel c over the pixels of cell id from (x, y) on. */
  function ChannelSumFrom(labels: seq<seq<int>>, img: Image, id: int, c: int, x: nat, y: nat): int
    requires ValidImage(img) && IsGrid(labels, img.width, img.height) && 0 <= c < 3
    decreases img.height - y, img.width - x
  {
    if y >= img.height then 0
    else if x >= img.width then ChannelSumFrom(labels, img, id, c, 0, y + 1)
    else
      (if labels[y][x] == id then Channel(img, x, y, c) else 0) +
      ChannelSumFrom(labels, img, id, c, x + 1, y)
  }

  /** Number of pixels of cell id from (x, y) on. */
  function CountFrom(labels: seq<seq<int>>, id: int, w: nat, h: nat, x: nat, y: nat): nat
    requires IsGrid(labels, w, h)
    decreases h - y, w - x
  {
    if y >= h then 0
    else if x >= w then CountFrom(labels, id, w, h, 0, y + 1)
    else (if labels[y][x] == id then 1 else 0) + CountFrom(labels, id, w, h, x + 1, y)
  }

  /** The colour of a cell: the mean of each channel over its pixels, grey 128
      for a cell without pixels. */
  function MeanColor(labels: seq<seq<int>>, img: Image, id: int): Color
    requires ValidImage(img) && IsGrid(labels, img.width, img.height)
  {
    var count := CountFrom(labels, id, img.width, img.height, 0, 0);
    if count == 0 then Color(128.0, 128.0, 128.0)
    else
      Color(ChannelSumFrom(labels, img, id, 0, 0, 0) as real / count as real,
            ChannelSumFrom(labels, img, id, 1, 0, 0) as real / count as real,
            ChannelSumFrom(labels, img, id, 2, 0, 0) as real / count as real)
  }

  /** `calculateCellColor`. */
  method CalculateCellColor(labels: seq<seq<int>>, id: int, img: Image) returns (color: Color)
    requires ValidImage(img) && IsGrid(labels, img.width, img.height)
    ensures color == MeanColor(labels, img, id)
  {
    var sumR, sumG, sumB, count := 0, 0, 0, 0;
    var y := 0;
    while y < img.height
      invariant 0 <= y <= img.height
      invariant sumR + ChannelSumFrom(labels, img, id, 0, 0, y) == ChannelSumFrom(labels, img, id, 0, 0, 0)
      invariant sumG + ChannelSumFrom(labels, img, id, 1, 0, y) == ChannelSumFrom(labels, img, id, 1, 0, 0)
      invariant sumB + ChannelSumFrom(labels, img, id, 2, 0, y) == ChannelSumFrom(labels, img, id, 2, 0, 0)
      invariant count + CountFrom(labels, id, img.width, img.height, 0, y) ==
                CountFrom(labels, id, img.width, img.height, 0, 0)
    {
      var x := 0;
      while x < img.width
        invariant 0 <= x <= img.width
        invariant sumR + ChannelSumFrom(labels, img, id, 0, x, y) == ChannelSumFrom(labels, img, id, 0, 0, 0)
        invariant sumG + ChannelSumFrom(labels, img, id, 1, x, y) == ChannelSumFrom(labels, img, id, 1, 0, 0)
        invariant sumB + ChannelSumFrom(labels, img, id, 2, x, y) == ChannelSumFrom(labels, img, id, 2, 0, 0)
        invariant count + CountFrom(labels, id, img.width, img.height, x, y) ==
                  CountFrom(labels, id, img.width, img.height, 0, 0)
      {
        if labels[y][x] == id {
          sumR := sumR + Channel(img, x, y, 0);
          sumG := sumG + Channel(img, x, y, 1);
          sumB := sumB + Channel(img, x, y, 2);
          count := count + 1;
        }
        x := x + 1;
      }
      y := y + 1;
    }
    if count == 0 {
      return Color(128.0, 128.0, 128.0);
    }
    color := Color(sumR as real / count as real, sumG as real / count as real, sumB as real / count as real);
  }

  /** Channel c of every pixel of cell id lies in [lo, hi]. */
  predicate ChannelWithin(labels: seq<seq<int>>, img: Image, id: int, c: int, lo: nat, hi: nat)
    requires ValidImage(img) && IsGrid(labels, img.width, img.height) && 0 <= c < 3
  {
    forall y, x :: 0 <= y < img.height && 0 <= x < img.width && labels[y][x] == id ==>
      lo <= Channel(img, x, y, c) <= hi
  }

  /** Channel c of the cell sums to between lo and hi times its pixel count. */
  lemma {:induction false} ChannelSumWithin(labels: seq<seq<int>>, img: Image, id: int, c: int, lo: nat, hi: nat, x: nat, y: nat)
    requires ValidImage(img) && IsGrid(labels, img.width, img.height) && 0 <= c < 3
    requires ChannelWithin(labels, img, id, c, lo, hi)
    ensures var count := CountFrom(labels, id, img.width, img.height, x, y);
      Times(lo, count) <= ChannelSumFrom(labels, img, id, c, x, y) <= Times(hi, count)
    decreases img.height - y, img.width - x
  {
    if y >= img.height {
    } else if x >= img.width {
      ChannelSumWithin(labels, img, id, c, lo, hi, 0, y + 1);
    } else {
      ChannelSumWithin(labels, img, id, c, lo, hi, x + 1, y);
      if labels[y][x] == id {
        var rest := CountFrom(labels, id, img.width, img.height, x + 1, y);
        assert Times(lo, 1 + rest) == Times(lo, rest) + lo;
        assert Times(hi, 1 + rest) == Times(hi, rest) + hi;
      }
    }
  }

  /** A mean of values in [lo, hi] lies in [lo, hi]. */
  lemma MeanWithin(sum: int, count: int, lo: int, hi: int)
    requires 0 < count && lo * count <= sum <= hi * count
    ensures lo as real <= sum as real / count as real <= hi as real
  {
    var q := sum as real / count as real;
    assert q * count as real == sum as real;
  }

  function ChannelOf(color: Color, c: int): real
  {
    if c == 0 then color.r else if c == 1 then color.g else color.b
  }

  /** Each channel of a cell's colour lies between the smallest and the
      largest value of that channel among the cell's pixels; a cell without
      pixels is grey 128. */
  lemma MeanColorBetween(labels: seq<seq<int>>, img: Image, id: int, c: int, lo: nat, hi: nat)
    requires ValidImage(img) && IsGrid(labels, img.width, img.height) && 0 <= c < 3
    requires ChannelWithin(labels, img, id, c, lo, hi)
    ensures CountFrom(labels, id, img.width, img.height, 0, 0) > 0 ==>
      lo as real <= ChannelOf(MeanColor(labels, img, id), c) <= hi as real
    ensures CountFrom(labels, id, img.width, img.height, 0, 0) == 0 ==>
      MeanColor(labels, img, id) == Color(128.0, 128.0, 128.0)
  {
    var count := CountFrom(labels, id, img.width, img.height, 0, 0);
    if count > 0 {
      ChannelSumWithin(labels, img, id, c, lo, hi, 0, 0);
      TimesIsProduct(lo, count);
      TimesIsProduct(hi, count);
      MeanWithin(ChannelSumFrom(labels, img, id, c, 0, 0), count, lo, hi);
    }
  }

  predicate InColorRange(color: Color)
  {
    0.0 <= color.r <= 255.0 && 0.0 <= color.g <= 255.0 && 0.0 <= color.b <= 255.0
  }

  /** Every channel of a cell's colour lies in [0, 255]. */
  lemma MeanColorInRange(labels: seq<seq<int>>, img: Image, id: int)
    requires ValidImage(img) && IsGrid(labels, img.width, img.height)
    ensures InColorRange(MeanColor(labels, img, id))
  {
    MeanColorBetween(labels, img, id, 0, 0, 255);
    MeanColorBetween(labels, img, id, 1, 0, 255);
    MeanColorBetween(labels, img, id, 2, 0, 255);
  }

  // ---------------------------------------------------------------- the polygons

  /** The cell of seed id: its polygon and colour when the polygon has three
      or more vertices, none otherwise. */
  function SeedCell(labels: seq<seq<int>>, img: Image, atan2: (real, real) -> real, id: int): Option<Cell>
    requires ValidImage(img) && IsGrid(labels, img.width, img.height)
  {
    var hull := CellBoundary(labels, id, img.width, img.height, atan2);
    if |hull| < 3 then None else Some(Cell(hull, MeanColor(labels, img, id)))
  }

  /** SeedCell as a function of the seed index. */
  function SeedCells(labels: seq<seq<int>>, img: Image, atan2: (real, real) -> real): nat -> Option<Cell>
    requires ValidImage(img) && IsGrid(labels, img.width, img.height)
  {
    id => SeedCell(labels, img, atan2, id)
  }

  /** The values that f gives for k, k + 1, ..., n - 1, in that order,
      skipping the indices where it gives none. */
  function Kept<T>(f: nat -> Option<T>, n: nat, k: nat): seq<T>
    decreases n - k
  {
    if k >= n then []
    else (if f(k).Some? then [f(k).value] else []) + Kept(f, n, k + 1)
  }

  /** A value is kept exactly when f gives it for some index k <= id < n,
      and at most one value is kept per index. */
  lemma {:induction false} KeptMembers<T>(f: nat -> Option<T>, n: nat, k: nat)
    requires k <= n
    ensures |Kept(f, n, k)| <= n - k
    ensures forall v :: v in Kept(f, n, k) <==> exists id: nat :: k <= id < n && f(id) == Some(v)
    decreases n - k
  {
    if k < n {
      KeptMembers(f, n, k + 1);
      forall v
        ensures v in Kept(f, n, k) <==> exists id: nat :: k <= id < n && f(id) == Some(v)
      {
        if f(k) == Some(v) {
          assert v in Kept(f, n, k);
        } else if exists id: nat :: k <= id < n && f(id) == Some(v) {
          var id: nat :| k <= id < n && f(id) == Some(v);
          assert id != k;
          assert v in Kept(f, n, k + 1);
        }
      }
    }
  }

  /** The polygons of the seeds 0, 1, ..., n - 1, in seed order. */
  function VoronoiCells(labels: seq<seq<int>>, img: Image, n: nat, atan2: (real, real) -> real): seq<Cell>
    requires ValidImage(img) && IsGrid(labels, img.width, img.height)
  {
    Kept(SeedCells(labels, img, atan2), n, 0)
  }

  /** `extractVoronoiCells`. */
  method ExtractVoronoiCells(labels: seq<seq<int>>, seeds: seq<Point>, img: Image, atan2: (real, real) -> real)
    returns (cells: seq<Cell>)
    requires ValidImage(img) && IsGrid(labels, img.width, img.height)
    ensures cells == VoronoiCells(labels, img, |seeds|, atan2)
  {
    ghost var f := SeedCells(labels, img, atan2);
    cells := [];
    var seedIdx := 0;
    while seedIdx < |seeds|
      invariant 0 <= seedIdx <= |seeds|
      invariant cells + Kept(f, |seeds|, seedIdx) == Kept(f, |seeds|, 0)
    {
      var boundary := ExtractCellBoundary(labels, seedIdx, img.width, img.height, atan2);
      KeptStep(f, |seeds|, seedIdx);
      if |boundary| < 3 {
        NoSeedCell(labels, img, atan2, seedIdx);
        seedIdx := seedIdx + 1;
        continue;
      }
      var avgColor := CalculateCellColor(labels, seedIdx, img);
      SomeSeedCell(labels, img, atan2, seedIdx);
      assert cells + Kept(f, |seeds|, seedIdx) ==
             (cells + [Cell(boundary, avgColor)]) + Kept(f, |seeds|, seedIdx + 1);
      cells := cells + [Cell(boundary, avgColor)];
      seedIdx := seedIdx + 1;
    }
  }

  lemma NoSeedCell(labels: seq<seq<int>>, img: Image, atan2: (real, real) -> real, id: nat)
    requires ValidImage(img) && IsGrid(labels, img.width, img.height)
    requires |CellBoundary(labels, id, img.width, img.height, atan2)| < 3
    ensures SeedCells(labels, img, atan2)(id) == None
  {
  }

  lemma SomeSeedCell(labels: seq<seq<int>>, img: Image, atan2: (real, real) -> real, id: nat)
    requires ValidImage(img) && IsGrid(labels, img.width, img.height)
    requires |CellBoundary(labels, id, img.width, img.height, atan2)| >= 3
    ensures SeedCells(labels, img, atan2)(id) ==
            Some(Cell(CellBoundary(labels, id, img.width, img.height, atan2), MeanColor(labels, img, id)))
  {
  }

  lemma KeptStep<T>(f: nat -> Option<T>, n: nat, k: nat)
    requires k < n
    ensures f(k).None? ==> Kept(f, n, k) == Kept(f, n, k + 1)
    ensures f(k).Some? ==> Kept(f, n, k) == [f(k).value] + Kept(f, n, k + 1)
  {
  }

  /** Every vertex is a boundary pixel of cell id. */
  predicate VerticesOnBoundary(labels: seq<seq<int>>, id: int, w: nat, h: nat, vertices: seq<Pixel>)
    requires IsGrid(labels, w, h)
  {
    forall v :: v in vertices ==> InImage(v, w, h) && OnBoundary(labels, id, w, h, v.x, v.y)
  }

  /** What every polygon of the mosaic satisfies: three or more vertices,
      all boundary pixels of one seed's cell, strict left turns, and a colour
      in [0, 255]. */
  predicate WellFormedCell(labels: seq<seq<int>>, img: Image, n: nat, cell: Cell)
    requires IsGrid(labels, img.width, img.height)
  {
    |cell.vertices| >= 3 && LeftTurns(cell.vertices) && InColorRange(cell.color) &&
    exists id :: 0 <= id < n && VerticesOnBoundary(labels, id, img.width, img.height, cell.vertices)
  }

  lemma SeedCellWellFormed(labels: seq<seq<int>>, img: Image, n: nat, atan2: (real, real) -> real, id: nat)
    requires ValidImage(img) && IsGrid(labels, img.width, img.height) && id < n
    requires |CellBoundary(labels, id, img.width, img.height, atan2)| >= 3
    ensures WellFormedCell(labels, img, n,
              Cell(CellBoundary(labels, id, img.width, img.height, atan2), MeanColor(labels, img, id)))
  {
    CellBoundaryProperties(labels, id, img.width, img.height, atan2);
    MeanColorInRange(labels, img, id);
    assert VerticesOnBoundary(labels, id, img.width, img.height, CellBoundary(labels, id, img.width, img.height, atan2));
  }

  /** Every polygon of the mosaic is well formed, and there is at most one
      polygon per seed. */
  lemma VoronoiCellsProperties(labels: seq<seq<int>>, img: Image, n: nat, atan2: (real, real) -> real)
    requires ValidImage(img) && IsGrid(labels, img.width, img.height)
    ensures |VoronoiCells(labels, img, n, atan2)| <= n
    ensures forall cell :: cell in VoronoiCells(labels, img, n, atan2) ==> WellFormedCell(labels, img, n, cell)
  {
    var f := SeedCells(labels, img, atan2);
    KeptMembers(f, n, 0);
    forall cell | cell in VoronoiCells(labels, img, n, atan2)
      ensures WellFormedCell(labels, img, n, cell)
    {
      var id: nat :| id < n && f(id) == Some(cell);
      SeedCellWellFormed(labels, img, n, atan2, id);
    }
  }

  // ---------------------------------------------------------------- the pipeline

  /** `generateVoronoiMosaic`: flow field, seeds, Voronoi labels, polygons. */
  method GenerateVoronoiMosaic(img: Image, numSeeds: nat, draws: nat -> real,
                               sqrt: real -> real, atan2: (real, real) -> real)
    returns (cells: seq<Cell>, ghost flow: FlowData, ghost seeds: seq<Point>, ghost labels: seq<seq<int>>)
    requires ValidImage(img)
    ensures IsGrid(flow.edgeStrength, img.width, img.height)
    ensures forall y, x :: 0 <= y < img.height && 0 <= x < img.width ==>
              flow.edgeStrength[y][x] == Magnitude(sqrt, GradX(img, x, y), GradY(img, x, y))
    ensures exists edgeTrace, uniformTrace ::
              SeedRun(flow.edgeStrength, img.width, img.height, numSeeds, draws, edgeTrace, uniformTrace, seeds)
    ensures IsGrid(labels, img.width, img.height)
    ensures forall y, x :: 0 <= y < img.height && 0 <= x < img.width ==> IsLabel(seeds, Pixel(x, y), labels[y][x])
    ensures cells == VoronoiCells(labels, img, |seeds|, atan2)
    ensures |cells| <= 32 + numSeeds
    ensures forall cell :: cell in cells ==>
      |cell.vertices| >= 3 && LeftTurns(cell.vertices) && InColorRange(cell.color) &&
      forall v :: v in cell.vertices ==> InImage(v, img.width, img.height)
  {
    var flowData := CalculateImageFlowData(img, sqrt);
    flow := flowData;
    var sampled;
    ghost var edgeTrace, uniformTrace;
    sampled, edgeTrace, uniformTrace := GenerateFlowBasedSeeds(img, flowData, numSeeds, draws);
    seeds := sampled;
    var grid := ComputeVoronoi(sampled, img.width, img.height);
    labels := grid;
    cells := ExtractVoronoiCells(grid, sampled, img, atan2);
    VoronoiCellsProperties(labels, img, |seeds|, atan2);
    forall cell | cell in cells
      ensures forall v :: v in cell.vertices ==> InImage(v, img.width, img.height)
    {
      assert WellFormedCell(labels, img, |seeds|, cell);
    }
  }
}
