/** The label map (`computeVoronoi`): every pixel takes the index of its
    nearest seed by squared distance, the lowest index winning ties, or -1
    when there are no seeds. */
module Voronoi {
  import opened Geometry

  /** Seed i is the one the strict `<` scan picks for pixel p: no seed is
      nearer, and every seed before i is strictly farther. */
  predicate IsNearest(seeds: seq<Point>, p: Pixel, i: int)
  {
    0 <= i < |seeds| &&
    (forall j :: 0 <= j < |seeds| ==> DistSq(AsPoint(p), seeds[i]) <= DistSq(AsPoint(p), seeds[j])) &&
    (forall j :: 0 <= j < i ==> DistSq(AsPoint(p), seeds[i]) < DistSq(AsPoint(p), seeds[j]))
  }

  /** The label the map gives pixel p. */
  predicate IsLabel(seeds: seq<Point>, p: Pixel, owner: int)
  {
    if |seeds| == 0 then owner == -1 else IsNearest(seeds, p, owner)
  }

  /** At most one seed is the nearest in the sense of IsNearest. */
  lemma NearestIsUnique(seeds: seq<Point>, p: Pixel, i: int, j: int)
    requires IsNearest(seeds, p, i) && IsNearest(seeds, p, j)
    ensures i == j
  {
    assert DistSq(AsPoint(p), seeds[i]) == DistSq(AsPoint(p), seeds[j]);
  }

  /** The inner loop over the seeds for one pixel. `closest == -1` plays the
      part of `minDist == Infinity`: the first seed always beats it. */
  method ClosestSeed(seeds: seq<Point>, p: Pixel) returns (closest: int)
    ensures IsLabel(seeds, p, closest)
  {
    var minDist := 0.0;
    closest := -1;
    var i := 0;
    while i < |seeds|
      invariant 0 <= i <= |seeds|
      invariant i == 0 <==> closest == -1
      invariant i > 0 ==> 0 <= closest < i && minDist == DistSq(AsPoint(p), seeds[closest])
      invariant forall j :: 0 <= j < i ==> minDist <= DistSq(AsPoint(p), seeds[j])
      invariant forall j :: 0 <= j < closest ==> minDist < DistSq(AsPoint(p), seeds[j])
    {
      var dist := DistSq(AsPoint(p), seeds[i]);
      if closest == -1 || dist < minDist {
        minDist := dist;
        closest := i;
      }
      i := i + 1;
    }
  }

  /** The label map of a `width` by `height` image: pre-filled with -1, then
      every pixel overwritten by its nearest seed. */
  method ComputeVoronoi(seeds: seq<Point>, width: nat, height: nat) returns (labels: seq<seq<int>>)
    ensures IsGrid(labels, width, height)
    ensures forall y, x :: 0 <= y < height && 0 <= x < width ==> IsLabel(seeds, Pixel(x, y), labels[y][x])
  {
    labels := [];
    var y := 0;
    while y < height
      invariant 0 <= y <= height
      invariant IsGrid(labels, width, y)
      invariant forall yy, xx :: 0 <= yy < y && 0 <= xx < width ==> labels[yy][xx] == -1
    {
      var row := [];
      var x := 0;
      while x < width
        invariant 0 <= x <= width
        invariant |row| == x && forall xx :: 0 <= xx < x ==> row[xx] == -1
      {
        row := row + [-1];
        x := x + 1;
      }
      labels := labels + [row];
      y := y + 1;
    }
    y := 0;
    while y < height
      invariant 0 <= y <= height
      invariant IsGrid(labels, width, height)
      invariant forall yy, xx :: 0 <= yy < y && 0 <= xx < width ==> IsLabel(seeds, Pixel(xx, yy), labels[yy][xx])
    {
      var x := 0;
      while x < width
        invariant 0 <= x <= width
        invariant IsGrid(labels, width, height)
        invariant forall yy, xx :: 0 <= yy < y && 0 <= xx < width ==> IsLabel(seeds, Pixel(xx, yy), labels[yy][xx])
        invariant forall xx :: 0 <= xx < x ==> IsLabel(seeds, Pixel(xx, y), labels[y][xx])
      {
        var closest := ClosestSeed(seeds, Pixel(x, y));
        labels := labels[y := labels[y][x := closest]];
        x := x + 1;
      }
      y := y + 1;
    }
  }
}
