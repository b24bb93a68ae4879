/** Seed placement (`generateFlowBasedSeeds`, `isFarEnough`): 32 fixed seeds
    on the image border, then edge-weighted samples found by inverse lookup
    over the cumulative weights `edgeStrength + 1`, then uniform samples, each
    accepted only when it keeps its distance from every seed placed so far.
    `Math.random()` is the parameter `draws`: the k-th call returns draws(k),
    and the methods thread the index of the next unused draw. */
module Seeds {
  import opened Geometry
  import opened FlowField

  /** The retry budget `maxAttempts` of every sampling loop. */
  const MaxAttempts: nat := 30

  /** `minDistance`: a fifteenth of the longer image side. */
  function MinDistance(w: nat, h: nat): (d: real)
    ensures d >= 0.0
  {
    Max(w, h) as real / 15.0
  }

  /** The four corners, pushed first. */
  function Corners(w: nat, h: nat): seq<Point>
  {
    [Point(0.0, 0.0), Point((w - 1) as real, 0.0), Point(0.0, (h - 1) as real), Point((w - 1) as real, (h - 1) as real)]
  }

  /** The coordinate at fraction t of a side of length n, `t * (image.width - 1)`. */
  function Along(t: real, n: int): real
  {
    t * n as real
  }

  /** The four border points of round i, at t = i / 8: top, bottom, left, right. */
  function BorderRound(w: nat, h: nat, i: int): seq<Point>
  {
    var t := i as real / 8.0;
    [Point(Along(t, w - 1), 0.0), Point(Along(t, w - 1), (h - 1) as real),
     Point(0.0, Along(t, h - 1)), Point((w - 1) as real, Along(t, h - 1))]
  }

  /** Rounds 1 .. k of border points, in order. */
  function BorderRounds(w: nat, h: nat, k: nat): seq<Point>
  {
    if k == 0 then [] else BorderRounds(w, h, k - 1) + BorderRound(w, h, k)
  }

  /** The 32 seeds placed before any sampling. */
  function FixedSeeds(w: nat, h: nat): seq<Point>
  {
    Corners(w, h) + BorderRounds(w, h, 7)
  }

  lemma {:induction false} BorderRoundsLayout(w: nat, h: nat, k: nat)
    ensures |BorderRounds(w, h, k)| == 4 * k
    ensures forall i :: 1 <= i <= k ==> BorderRounds(w, h, k)[4 * (i - 1)..4 * i] == BorderRound(w, h, i)
  {
    if k > 0 {
      BorderRoundsLayout(w, h, k - 1);
      var prev := BorderRounds(w, h, k - 1);
      assert BorderRounds(w, h, k) == prev + BorderRound(w, h, k);
      forall i | 1 <= i <= k
        ensures BorderRounds(w, h, k)[4 * (i - 1)..4 * i] == BorderRound(w, h, i)
      {
        if i < k {
          assert BorderRounds(w, h, k)[4 * (i - 1)..4 * i] == prev[4 * (i - 1)..4 * i];
        }
      }
    }
  }

  /** The fixed seeds are the 4 corners followed by 7 rounds of 4 border points. */
  lemma FixedSeedsLayout(w: nat, h: nat)
    ensures |FixedSeeds(w, h)| == 32
    ensures FixedSeeds(w, h)[..4] == Corners(w, h)
    ensures forall i :: 1 <= i < 8 ==> FixedSeeds(w, h)[4 * i..4 * i + 4] == BorderRound(w, h, i)
  {
    BorderRoundsLayout(w, h, 7);
    forall i | 1 <= i < 8
      ensures FixedSeeds(w, h)[4 * i..4 * i + 4] == BorderRound(w, h, i)
    {
      assert FixedSeeds(w, h)[4 * i..4 * i + 4] == BorderRounds(w, h, 7)[4 * (i - 1)..4 * i];
    }
  }

  /** The pushes of the corners and of the border loop `for i in 1 .. 7`. */
  method PlaceFixedSeeds(w: nat, h: nat) returns (seeds: seq<Point>)
    ensures seeds == FixedSeeds(w, h)
  {
    seeds := [];
    seeds := seeds + [Point(0.0, 0.0)];
    seeds := seeds + [Point((w - 1) as real, 0.0)];
    seeds := seeds + [Point(0.0, (h - 1) as real)];
    seeds := seeds + [Point((w - 1) as real, (h - 1) as real)];
    var i := 1;
    while i < 8
      invariant 1 <= i <= 8
      invariant seeds == Corners(w, h) + BorderRounds(w, h, i - 1)
    {
      var t := i as real / 8.0;
      seeds := seeds + [Point(Along(t, w - 1), 0.0)];
      seeds := seeds + [Point(Along(t, w - 1), (h - 1) as real)];
      seeds := seeds + [Point(0.0, Along(t, h - 1))];
      seeds := seeds + [Point((w - 1) as real, Along(t, h - 1))];
      assert BorderRounds(w, h, i) == BorderRounds(w, h, i - 1) + BorderRound(w, h, i);
      i := i + 1;
    }
  }

  // ---------------------------------------------------------------- distance test

  /** `isFarEnough(c, seeds, d)` holds: every seed is at squared distance at least d * d. */
  predicate FarEnough(c: Point, seeds: seq<Point>, d: real)
  {
    forall i :: 0 <= i < |seeds| ==> DistSq(c, seeds[i]) >= Sq(d)
  }

  /** The early-return loop of `isFarEnough`. */
  method IsFarEnough(c: Point, seeds: seq<Point>, d: real) returns (ok: bool)
    ensures ok == FarEnough(c, seeds, d)
  {
    var minDistSq := d * d;
    var i := 0;
    while i < |seeds|
      invariant 0 <= i <= |seeds|
      invariant forall j :: 0 <= j < i ==> DistSq(c, seeds[j]) >= minDistSq
    {
      var dx := c.x - seeds[i].x;
      var dy := c.y - seeds[i].y;
      var distSq := dx * dx + dy * dy;
      if distSq < minDistSq {
        return false;
      }
      i := i + 1;
    }
    return true;
  }

  lemma SquareMonotone(a: real, b: real)
    requires 0.0 <= a <= b
    ensures Sq(a) <= Sq(b)
  {
    assert a * a <= a * b <= b * b;
  }

  lemma SquarePositive(d: real)
    requires d > 0.0
    ensures Sq(d) > 0.0
  {
    calc {
      Sq(d);
      d * d;
    >
      0.0;
    }
  }

  /** A candidate far enough at distance d is far enough at any smaller distance. */
  lemma FarEnoughAtSmallerDistance(c: Point, seeds: seq<Point>, d: real, e: real)
    requires 0.0 <= e <= d && FarEnough(c, seeds, d)
    ensures FarEnough(c, seeds, e)
  {
    SquareMonotone(e, d);
  }

  /** A candidate is never far enough from a seed at its own position when d > 0. */
  lemma NotFarFromItself(c: Point, seeds: seq<Point>, d: real)
    requires c in seeds && d > 0.0
    ensures !FarEnough(c, seeds, d)
  {
    var i :| 0 <= i < |seeds| && seeds[i] == c;
    SquarePositive(d);
  }

  // ---------------------------------------------------------------- weighted pick

  /** The weight `edgeStrength[y][x] + 1` of pixel (x, y). */
  function Weight(edge: seq<seq<real>>, x: int, y: int): real
    requires 0 <= y < |edge| && 0 <= x < |edge[y]|
  {
    edge[y][x] + 1.0
  }

  /** Sum of the weights of the pixels before (x, y) in row-major order:
      all of rows 0 .. y - 1 and the first x pixels of row y. */
  function PrefixWeight(edge: seq<seq<real>>, w: nat, h: nat, y: int, x: int): real
    requires IsGrid(edge, w, h)
    requires 0 <= y <= h && 0 <= x <= w && (y == h ==> x == 0)
    decreases y, x
  {
    if x > 0 then PrefixWeight(edge, w, h, y, x - 1) + Weight(edge, x - 1, y)
    else if y > 0 then PrefixWeight(edge, w, h, y - 1, w)
    else 0.0
  }

  /** `totalWeight`: the weights of all pixels. */
  function TotalWeightOf(edge: seq<seq<real>>, w: nat, h: nat): real
    requires IsGrid(edge, w, h)
  {
    PrefixWeight(edge, w, h, h, 0)
  }

  /** `cumSum` just after pixel p has been added. */
  function CumSum(edge: seq<seq<real>>, w: nat, h: nat, p: Pixel): real
    requires IsGrid(edge, w, h) && InImage(p, w, h)
  {
    PrefixWeight(edge, w, h, p.y, p.x + 1)
  }

  /** The row-major scan from pixel (x, y) onwards for the first pixel whose
      `cumSum` reaches rv; None when the scan runs off the image. */
  function FirstAtLeast(edge: seq<seq<real>>, w: nat, h: nat, rv: real, y: int, x: int): Option<Pixel>
    requires IsGrid(edge, w, h)
    requires 0 <= y <= h && 0 <= x <= w
    decreases h - y, w - x
  {
    if y == h then None
    else if x == w then FirstAtLeast(edge, w, h, rv, y + 1, 0)
    else if PrefixWeight(edge, w, h, y, x + 1) >= rv then Some(Pixel(x, y))
    else FirstAtLeast(edge, w, h, rv, y, x + 1)
  }

  /** The candidate the inverse lookup finds for the value rv. */
  function WeightedPick(edge: seq<seq<real>>, w: nat, h: nat, rv: real): Option<Pixel>
    requires IsGrid(edge, w, h)
  {
    FirstAtLeast(edge, w, h, rv, 0, 0)
  }

  /** The summing loop that computes `totalWeight`. */
  method TotalWeight(edge: seq<seq<real>>, w: nat, h: nat) returns (total: real)
    requires IsGrid(edge, w, h)
    ensures total == TotalWeightOf(edge, w, h)
  {
    total := 0.0;
    var y := 0;
    while y < h
      invariant 0 <= y <= h
      invariant total == PrefixWeight(edge, w, h, y, 0)
    {
      var x := 0;
      while x < w
        invariant 0 <= x <= w
        invariant total == PrefixWeight(edge, w, h, y, x)
      {
        total := total + (edge[y][x] + 1.0);
        x := x + 1;
      }
      y := y + 1;
    }
  }

  /** The inverse-lookup loops for one draw: `cumSum` grows pixel by pixel
      and the first pixel where it reaches rv is the candidate. */
  method PickWeighted(edge: seq<seq<real>>, w: nat, h: nat, rv: real) returns (candidate: Option<Pixel>)
    requires IsGrid(edge, w, h)
    ensures candidate == WeightedPick(edge, w, h, rv)
  {
    var cumSum := 0.0;
    var y := 0;
    while y < h
      invariant 0 <= y <= h
      invariant cumSum == PrefixWeight(edge, w, h, y, 0)
      invariant FirstAtLeast(edge, w, h, rv, y, 0) == WeightedPick(edge, w, h, rv)
    {
      var x := 0;
      while x < w
        invariant 0 <= x <= w
        invariant cumSum == PrefixWeight(edge, w, h, y, x)
        invariant FirstAtLeast(edge, w, h, rv, y, x) == WeightedPick(edge, w, h, rv)
      {
        cumSum := cumSum + (edge[y][x] + 1.0);
        if cumSum >= rv {
          return Some(Pixel(x, y));
        }
        x := x + 1;
      }
      y := y + 1;
    }
    return None;
  }

  /** The scan from (x, y) returns the first pixel at or after (x, y) whose
      `cumSum` reaches rv, or None when no such pixel exists. */
  lemma {:induction false} FirstAtLeastSpec(edge: seq<seq<real>>, w: nat, h: nat, rv: real, y: int, x: int)
    requires IsGrid(edge, w, h)
    requires 0 <= y <= h && 0 <= x <= w
    ensures var r := FirstAtLeast(edge, w, h, rv, y, x);
      (r.Some? ==> InImage(r.value, w, h) && !Before(r.value, Pixel(x, y)) && CumSum(edge, w, h, r.value) >= rv &&
                   forall q :: InImage(q, w, h) && !Before(q, Pixel(x, y)) && Before(q, r.value) ==> CumSum(edge, w, h, q) < rv) &&
      (r.None? ==> forall q :: InImage(q, w, h) && !Before(q, Pixel(x, y)) ==> CumSum(edge, w, h, q) < rv)
    decreases h - y, w - x
  {
    if y == h {
    } else if x == w {
      FirstAtLeastSpec(edge, w, h, rv, y + 1, 0);
    } else if PrefixWeight(edge, w, h, y, x + 1) >= rv {
    } else {
      FirstAtLeastSpec(edge, w, h, rv, y, x + 1);
    }
  }

  /** The weighted candidate is the first row-major pixel whose cumulative
      weight reaches rv, and lies inside the image. */
  lemma WeightedPickIsFirstAtLeast(edge: seq<seq<real>>, w: nat, h: nat, rv: real)
    requires IsGrid(edge, w, h)
    ensures var r := WeightedPick(edge, w, h, rv);
      (r.Some? ==> InImage(r.value, w, h) && CumSum(edge, w, h, r.value) >= rv &&
                   forall q :: InImage(q, w, h) && Before(q, r.value) ==> CumSum(edge, w, h, q) < rv) &&
      (r.None? ==> forall q :: InImage(q, w, h) ==> CumSum(edge, w, h, q) < rv)
  {
    FirstAtLeastSpec(edge, w, h, rv, 0, 0);
  }

  /** The `cumSum` of the last pixel is `totalWeight`. */
  lemma LastCumSumIsTotal(edge: seq<seq<real>>, w: nat, h: nat)
    requires IsGrid(edge, w, h) && w > 0 && h > 0
    ensures CumSum(edge, w, h, Pixel(w - 1, h - 1)) == TotalWeightOf(edge, w, h)
  {
  }

  /** A value no larger than `totalWeight` always finds a candidate. */
  lemma PickFoundWithinTotal(edge: seq<seq<real>>, w: nat, h: nat, rv: real)
    requires IsGrid(edge, w, h) && w > 0 && h > 0
    requires rv <= TotalWeightOf(edge, w, h)
    ensures WeightedPick(edge, w, h, rv).Some?
  {
    WeightedPickIsFirstAtLeast(edge, w, h, rv);
    LastCumSumIsTotal(edge, w, h);
    assert InImage(Pixel(w - 1, h - 1), w, h);
  }

  /** With non-negative edge strengths `totalWeight` is non-negative. */
  lemma {:induction false} PrefixWeightNonNegative(edge: seq<seq<real>>, w: nat, h: nat, y: int, x: int)
    requires IsGrid(edge, w, h)
    requires 0 <= y <= h && 0 <= x <= w && (y == h ==> x == 0)
    requires forall yy, xx :: 0 <= yy < h && 0 <= xx < w ==> edge[yy][xx] >= 0.0
    ensures PrefixWeight(edge, w, h, y, x) >= 0.0
    decreases y, x
  {
    if x > 0 {
      PrefixWeightNonNegative(edge, w, h, y, x - 1);
    } else if y > 0 {
      PrefixWeightNonNegative(edge, w, h, y - 1, w);
    }
  }

  /** `random(totalWeight)` never exceeds a non-negative `totalWeight`. */
  lemma DrawWithinTotal(u: real, total: real)
    requires 0.0 <= u < 1.0 && total >= 0.0
    ensures 0.0 <= Random(u, total) <= total
  {
    assert u * total <= 1.0 * total;
  }

  /** On a non-empty image with non-negative edge strengths, and weights
      therefore at least 1, every draw in [0, 1) finds a candidate. */
  lemma EveryDrawFindsCandidate(edge: seq<seq<real>>, w: nat, h: nat, u: real)
    requires IsGrid(edge, w, h) && w > 0 && h > 0 && 0.0 <= u < 1.0
    requires forall yy, xx :: 0 <= yy < h && 0 <= xx < w ==> edge[yy][xx] >= 0.0
    ensures WeightedPick(edge, w, h, Random(u, TotalWeightOf(edge, w, h))).Some?
  {
    PrefixWeightNonNegative(edge, w, h, h, 0);
    DrawWithinTotal(u, TotalWeightOf(edge, w, h));
    PickFoundWithinTotal(edge, w, h, Random(u, TotalWeightOf(edge, w, h)));
  }

  /** The copy that returns `{x: 0, y: 0}` when the scan finds no pixel. */
  function PickOrOrigin(c: Option<Pixel>): Pixel
  {
    if c.Some? then c.value else Pixel(0, 0)
  }

  /** That fallback is never accepted: the corner (0, 0) is already a seed, so
      the test fails whenever the distance is positive. The two copies therefore
      place the same seeds on every non-empty image. */
  lemma OriginFallbackNeverAccepted(seeds: seq<Point>, w: nat, h: nat, d: real)
    requires |seeds| >= 32 && seeds[..32] == FixedSeeds(w, h) && d > 0.0
    ensures !FarEnough(AsPoint(PickOrOrigin(None)), seeds, d)
  {
    assert seeds[0] == Point(0.0, 0.0);
    NotFarFromItself(Point(0.0, 0.0), seeds, d);
  }

  /** A positive side gives a positive `minDistance`. */
  lemma MinDistancePositive(w: nat, h: nat)
    requires w > 0 || h > 0
    ensures MinDistance(w, h) > 0.0
  {
  }

  // ---------------------------------------------------------------- attempts

  /** An accepted candidate: found, and far enough from every seed at distance d. */
  predicate Accepts(seeds: seq<Point>, c: Option<Pixel>, d: real)
  {
    c.Some? && FarEnough(AsPoint(c.value), seeds, d)
  }

  /** The candidate of weighted attempt a when the attempts start at draw pos. */
  function WeightedAttempt(edge: seq<seq<real>>, w: nat, h: nat, total: real, draws: nat -> real, pos: nat, a: nat): Option<Pixel>
    requires IsGrid(edge, w, h)
  {
    WeightedPick(edge, w, h, Random(draws(pos + a), total))
  }

  /** Weighted attempts 0, ..., n - 1 from draw pos were all rejected at distance d. */
  predicate WeightedRejected(seeds: seq<Point>, edge: seq<seq<real>>, w: nat, h: nat, total: real, d: real,
                             draws: nat -> real, pos: nat, n: int)
    requires IsGrid(edge, w, h)
  {
    forall a: nat :: a < n ==> !Accepts(seeds, WeightedAttempt(edge, w, h, total, draws, pos, a), d)
  }

  /** Weighted attempt t from draw pos is the first one accepted at distance d,
      and next is seeds with its pixel pushed. */
  predicate WeightedPushed(seeds: seq<Point>, next: seq<Point>, edge: seq<seq<real>>, w: nat, h: nat, total: real,
                           d: real, draws: nat -> real, pos: nat, t: int)
    requires IsGrid(edge, w, h)
  {
    0 <= t < MaxAttempts && WeightedRejected(seeds, edge, w, h, total, d, draws, pos, t) &&
    Accepts(seeds, WeightedAttempt(edge, w, h, total, draws, pos, t), d) &&
    next == seeds + [AsPoint(WeightedAttempt(edge, w, h, total, draws, pos, t).value)]
  }

  /** Up to 30 weighted attempts, one draw each; the first accepted candidate is pushed. */
  method TryWeighted(seeds: seq<Point>, edge: seq<seq<real>>, w: nat, h: nat, total: real, d: real,
                     draws: nat -> real, pos: nat)
    returns (next: seq<Point>, tries: nat, placed: bool)
    requires IsGrid(edge, w, h)
    ensures tries <= MaxAttempts
    ensures placed ==> WeightedPushed(seeds, next, edge, w, h, total, d, draws, pos, tries - 1)
    ensures !placed ==> tries == MaxAttempts && next == seeds &&
                        WeightedRejected(seeds, edge, w, h, total, d, draws, pos, MaxAttempts)
  {
    tries := 0;
    while tries < MaxAttempts
      invariant 0 <= tries <= MaxAttempts
      invariant WeightedRejected(seeds, edge, w, h, total, d, draws, pos, tries)
    {
      var randVal := Random(draws(pos + tries), total);
      var candidate := PickWeighted(edge, w, h, randVal);
      var ok := false;
      if candidate.Some? {
        ok := IsFarEnough(AsPoint(candidate.value), seeds, d);
      }
      tries := tries + 1;
      if ok {
        return seeds + [AsPoint(candidate.value)], tries, true;
      }
    }
    return seeds, tries, false;
  }

  /** The candidate `{x: randomRange(x0, x1), y: randomRange(y0, y1)}` of uniform
      attempt a when the attempts start at draw pos (two draws per attempt). */
  function UniformAttempt(x0: real, x1: real, y0: real, y1: real, draws: nat -> real, pos: nat, a: nat): Point
  {
    Point(RandomRange(draws(pos + 2 * a), x0, x1), RandomRange(draws(pos + 2 * a + 1), y0, y1))
  }

  /** Uniform attempts 0, ..., n - 1 in the box from draw pos were all rejected at distance d. */
  predicate UniformRejected(seeds: seq<Point>, x0: real, x1: real, y0: real, y1: real, d: real,
                            draws: nat -> real, pos: nat, n: int)
  {
    forall a: nat :: a < n ==> !FarEnough(UniformAttempt(x0, x1, y0, y1, draws, pos, a), seeds, d)
  }

  /** Uniform attempt t in the box from draw pos is the first one accepted at
      distance d, and next is seeds with that candidate pushed. */
  predicate UniformPushed(seeds: seq<Point>, next: seq<Point>, x0: real, x1: real, y0: real, y1: real, d: real,
                          draws: nat -> real, pos: nat, t: int)
  {
    0 <= t < MaxAttempts && UniformRejected(seeds, x0, x1, y0, y1, d, draws, pos, t) &&
    FarEnough(UniformAttempt(x0, x1, y0, y1, draws, pos, t), seeds, d) &&
    next == seeds + [UniformAttempt(x0, x1, y0, y1, draws, pos, t)]
  }

  /** Up to 30 uniform attempts in the box [x0, x1) by [y0, y1); the first accepted candidate is pushed. */
  method TryUniform(seeds: seq<Point>, x0: real, x1: real, y0: real, y1: real, d: real,
                    draws: nat -> real, pos: nat)
    returns (next: seq<Point>, tries: nat, placed: bool)
    ensures tries <= MaxAttempts
    ensures placed ==> UniformPushed(seeds, next, x0, x1, y0, y1, d, draws, pos, tries - 1)
    ensures !placed ==> tries == MaxAttempts && next == seeds &&
                        UniformRejected(seeds, x0, x1, y0, y1, d, draws, pos, MaxAttempts)
  {
    tries := 0;
    while tries < MaxAttempts
      invariant 0 <= tries <= MaxAttempts
      invariant UniformRejected(seeds, x0, x1, y0, y1, d, draws, pos, tries)
    {
      var candidate := Point(RandomRange(draws(pos + 2 * tries), x0, x1), RandomRange(draws(pos + 2 * tries + 1), y0, y1));
      assert candidate == UniformAttempt(x0, x1, y0, y1, draws, pos, tries);
      var ok := IsFarEnough(candidate, seeds, d);
      tries := tries + 1;
      if ok {
        return seeds + [candidate], tries, true;
      }
    }
    return seeds, tries, false;
  }

  /** `random(max)` is `randomRange(0, max)`, so the full-image fallback is a uniform attempt. */
  lemma RandomIsRangeFromZero(u: real, max: real)
    ensures Random(u, max) == RandomRange(u, 0.0, max)
  {
  }

  // ---------------------------------------------------------------- phases

  /** `numEdgeSeeds = floor(numSeeds * 0.6)`. */
  function NumEdgeSeeds(numSeeds: nat): (n: int)
    ensures 0 <= n <= numSeeds
  {
    (numSeeds as real * 0.6).Floor
  }

  /** `numUniformSeeds`, the rest. */
  function NumUniformSeeds(numSeeds: nat): (n: int)
    ensures 0 <= n <= numSeeds
    ensures NumEdgeSeeds(numSeeds) + n == numSeeds
  {
    numSeeds - NumEdgeSeeds(numSeeds)
  }

  /** q is the centre of a pixel of the image. */
  ghost predicate IsPixelOf(q: Point, w: nat, h: nat)
  {
    exists p :: InImage(p, w, h) && AsPoint(p) == q
  }

  /** Seed j, placed during sampling, passed the distance test at distance d
      against every seed placed before it. */
  predicate SeparatedAt(seeds: seq<Point>, j: int, d: real)
    requires 0 <= j < |seeds|
  {
    FarEnough(seeds[j], seeds[..j], d)
  }

  /** `i > numEdgeSeeds * 0.5`: round i may relax the distance. */
  predicate Relaxes(i: nat, numEdge: nat)
  {
    i as real > numEdge as real * 0.5
  }

  /** The three outcomes of edge round i from `seeds` at draw `pos`, ending
      with `next` at draw `pos'`: a seed accepted at `minDistance`; all 30
      rejected, `i > numEdgeSeeds * 0.5`, then a seed accepted at 0.7 of it; no
      seed, after 30 rejections and, when the round may relax, 30 more. */
  predicate EdgeRoundOutcome(seeds: seq<Point>, next: seq<Point>, edge: seq<seq<real>>, w: nat, h: nat,
                             total: real, minDistance: real, i: nat, numEdge: nat, draws: nat -> real,
                             pos: nat, pos': nat)
    requires IsGrid(edge, w, h)
  {
    pos <= pos' &&
    (WeightedPushed(seeds, next, edge, w, h, total, minDistance, draws, pos, pos' - pos - 1) ||
     (WeightedRejected(seeds, edge, w, h, total, minDistance, draws, pos, MaxAttempts) && Relaxes(i, numEdge) &&
      WeightedPushed(seeds, next, edge, w, h, total, minDistance * 0.7, draws, pos + MaxAttempts,
                     pos' - pos - MaxAttempts - 1)) ||
     (WeightedRejected(seeds, edge, w, h, total, minDistance, draws, pos, MaxAttempts) && next == seeds &&
      if Relaxes(i, numEdge) then
        WeightedRejected(seeds, edge, w, h, total, minDistance * 0.7, draws, pos + MaxAttempts, MaxAttempts) &&
        pos' == pos + 2 * MaxAttempts
      else pos' == pos + MaxAttempts))
  }

  /** At most one weighted attempt is the first accepted, and it can not be
      accepted when all 30 were rejected. */
  lemma WeightedPushedUnique(seeds: seq<Point>, n1: seq<Point>, n2: seq<Point>, edge: seq<seq<real>>, w: nat, h: nat,
                             total: real, d: real, draws: nat -> real, pos: nat, t1: int, t2: int)
    requires IsGrid(edge, w, h)
    requires WeightedPushed(seeds, n1, edge, w, h, total, d, draws, pos, t1)
    ensures !WeightedRejected(seeds, edge, w, h, total, d, draws, pos, MaxAttempts)
    ensures WeightedPushed(seeds, n2, edge, w, h, total, d, draws, pos, t2) ==> t1 == t2 && n1 == n2
  {
    var t: nat := t1;
    assert !WeightedRejected(seeds, edge, w, h, total, d, draws, pos, MaxAttempts) by {
      assert Accepts(seeds, WeightedAttempt(edge, w, h, total, draws, pos, t), d);
    }
  }

  /** An edge round has one outcome: the draws fix the seeds it leaves and the
      draw position it ends at. */
  lemma EdgeRoundDeterministic(seeds: seq<Point>, n1: seq<Point>, n2: seq<Point>, edge: seq<seq<real>>, w: nat,
                               h: nat, total: real, minDistance: real, i: nat, numEdge: nat, draws: nat -> real,
                               pos: nat, p1: nat, p2: nat)
    requires IsGrid(edge, w, h)
    requires EdgeRoundOutcome(seeds, n1, edge, w, h, total, minDistance, i, numEdge, draws, pos, p1)
    requires EdgeRoundOutcome(seeds, n2, edge, w, h, total, minDistance, i, numEdge, draws, pos, p2)
    ensures n1 == n2 && p1 == p2
  {
    var d, d7 := minDistance, minDistance * 0.7;
    var q := pos + MaxAttempts;
    if WeightedPushed(seeds, n1, edge, w, h, total, d, draws, pos, p1 - pos - 1) {
      WeightedPushedUnique(seeds, n1, n2, edge, w, h, total, d, draws, pos, p1 - pos - 1, p2 - pos - 1);
    } else if WeightedPushed(seeds, n2, edge, w, h, total, d, draws, pos, p2 - pos - 1) {
      WeightedPushedUnique(seeds, n2, n1, edge, w, h, total, d, draws, pos, p2 - pos - 1, p1 - pos - 1);
    } else if WeightedPushed(seeds, n1, edge, w, h, total, d7, draws, q, p1 - q - 1) && Relaxes(i, numEdge) {
      WeightedPushedUnique(seeds, n1, n2, edge, w, h, total, d7, draws, q, p1 - q - 1, p2 - q - 1);
    }
  }

  /** One round `i` of the edge phase: the weighted attempts at `minDistance`,
      then, only if they all failed and `i > numEdgeSeeds * 0.5`, at 0.7 of it.
      The three outcomes: a seed accepted at `minDistance`; all 30 rejected, then
      a seed accepted at 0.7 of it; no seed. pos' - pos is the number of draws used. */
  method EdgeRound(seeds: seq<Point>, edge: seq<seq<real>>, w: nat, h: nat, total: real, minDistance: real,
                   i: nat, numEdge: nat, draws: nat -> real, pos: nat)
    returns (next: seq<Point>, pos': nat)
    requires IsGrid(edge, w, h) && minDistance >= 0.0
    ensures EdgeRoundOutcome(seeds, next, edge, w, h, total, minDistance, i, numEdge, draws, pos, pos')
    ensures next == seeds ||
            (|next| == |seeds| + 1 && next[..|seeds|] == seeds && IsPixelOf(next[|seeds|], w, h) &&
             (FarEnough(next[|seeds|], seeds, minDistance) ||
              (Relaxes(i, numEdge) && FarEnough(next[|seeds|], seeds, minDistance * 0.7))))
  {
    var tries, placed;
    next, tries, placed := TryWeighted(seeds, edge, w, h, total, minDistance, draws, pos);
    pos' := pos + tries;
    if placed {
      var c := WeightedAttempt(edge, w, h, total, draws, pos, tries - 1).value;
      assert next[|seeds|] == AsPoint(c) && InImage(c, w, h) by {
        WeightedPickIsFirstAtLeast(edge, w, h, Random(draws(pos + (tries - 1)), total));
      }
    }
    if !placed && Relaxes(i, numEdge) {
      var tries2;
      next, tries2, placed := TryWeighted(seeds, edge, w, h, total, minDistance * 0.7, draws, pos');
      if placed {
        var c := WeightedAttempt(edge, w, h, total, draws, pos', tries2 - 1).value;
        assert next[|seeds|] == AsPoint(c) && InImage(c, w, h) by {
          WeightedPickIsFirstAtLeast(edge, w, h, Random(draws(pos' + (tries2 - 1)), total));
        }
      }
      pos' := pos' + tries2;
    }
  }

  /** The three outcomes of a uniform round from `seeds` at draw `pos`,
      ending with `next` at draw `pos'`: a seed from the box inset by
      `minDistance` accepted at `minDistance`; all 30 rejected, then a seed from
      the whole image accepted at 0.6 of it; no seed after 60 rejections. */
  predicate UniformRoundOutcome(seeds: seq<Point>, next: seq<Point>, w: nat, h: nat, minDistance: real,
                                draws: nat -> real, pos: nat, pos': nat)
  {
    var md, wr, hr := minDistance, w as real, h as real;
    pos <= pos' && (pos' - pos) % 2 == 0 &&
    (UniformPushed(seeds, next, md, wr - md, md, hr - md, md, draws, pos, (pos' - pos) / 2 - 1) ||
     (UniformRejected(seeds, md, wr - md, md, hr - md, md, draws, pos, MaxAttempts) &&
      UniformPushed(seeds, next, 0.0, wr, 0.0, hr, md * 0.6, draws, pos + 2 * MaxAttempts,
                    (pos' - pos) / 2 - MaxAttempts - 1)) ||
     (UniformRejected(seeds, md, wr - md, md, hr - md, md, draws, pos, MaxAttempts) &&
      UniformRejected(seeds, 0.0, wr, 0.0, hr, md * 0.6, draws, pos + 2 * MaxAttempts, MaxAttempts) &&
      next == seeds && pos' == pos + 4 * MaxAttempts))
  }

  /** At most one uniform attempt is the first accepted, and it can not be
      accepted when all 30 were rejected. */
  lemma UniformPushedUnique(seeds: seq<Point>, n1: seq<Point>, n2: seq<Point>, x0: real, x1: real, y0: real,
                            y1: real, d: real, draws: nat -> real, pos: nat, t1: int, t2: int)
    requires UniformPushed(seeds, n1, x0, x1, y0, y1, d, draws, pos, t1)
    ensures !UniformRejected(seeds, x0, x1, y0, y1, d, draws, pos, MaxAttempts)
    ensures UniformPushed(seeds, n2, x0, x1, y0, y1, d, draws, pos, t2) ==> t1 == t2 && n1 == n2
  {
    var t: nat := t1;
    assert !UniformRejected(seeds, x0, x1, y0, y1, d, draws, pos, MaxAttempts) by {
      assert FarEnough(UniformAttempt(x0, x1, y0, y1, draws, pos, t), seeds, d);
    }
  }

  /** A uniform round has one outcome: the draws fix the seeds it leaves and
      the draw position it ends at. */
  lemma UniformRoundDeterministic(seeds: seq<Point>, n1: seq<Point>, n2: seq<Point>, w: nat, h: nat,
                                  minDistance: real, draws: nat -> real, pos: nat, p1: nat, p2: nat)
    requires UniformRoundOutcome(seeds, n1, w, h, minDistance, draws, pos, p1)
    requires UniformRoundOutcome(seeds, n2, w, h, minDistance, draws, pos, p2)
    ensures n1 == n2 && p1 == p2
  {
    var md, wr, hr := minDistance, w as real, h as real;
    var a1, a2 := (p1 - pos) / 2, (p2 - pos) / 2;
    assert p1 == pos + 2 * a1 && p2 == pos + 2 * a2;
    TwoBoxesDeterministic(seeds, n1, n2, md, wr - md, md, hr - md, md, 0.0, wr, 0.0, hr, md * 0.6, draws, pos, a1, a2);
  }

  /** The two stages of a uniform round, with the box and the distance of
      each stage as parameters: a1 and a2 are the attempts used. */
  predicate TwoBoxesOutcome(seeds: seq<Point>, next: seq<Point>, x0: real, x1: real, y0: real, y1: real, d: real,
                            u0: real, u1: real, v0: real, v1: real, e: real, draws: nat -> real, pos: nat, a: int)
  {
    UniformPushed(seeds, next, x0, x1, y0, y1, d, draws, pos, a - 1) ||
    (UniformRejected(seeds, x0, x1, y0, y1, d, draws, pos, MaxAttempts) &&
     UniformPushed(seeds, next, u0, u1, v0, v1, e, draws, pos + 2 * MaxAttempts, a - MaxAttempts - 1)) ||
    (UniformRejected(seeds, x0, x1, y0, y1, d, draws, pos, MaxAttempts) &&
     UniformRejected(seeds, u0, u1, v0, v1, e, draws, pos + 2 * MaxAttempts, MaxAttempts) &&
     next == seeds && a == 2 * MaxAttempts)
  }

  lemma TwoBoxesDeterministic(seeds: seq<Point>, n1: seq<Point>, n2: seq<Point>, x0: real, x1: real, y0: real,
                              y1: real, d: real, u0: real, u1: real, v0: real, v1: real, e: real,
                              draws: nat -> real, pos: nat, a1: int, a2: int)
    requires TwoBoxesOutcome(seeds, n1, x0, x1, y0, y1, d, u0, u1, v0, v1, e, draws, pos, a1)
    requires TwoBoxesOutcome(seeds, n2, x0, x1, y0, y1, d, u0, u1, v0, v1, e, draws, pos, a2)
    ensures n1 == n2 && a1 == a2
  {
    var q := pos + 2 * MaxAttempts;
    if UniformPushed(seeds, n1, x0, x1, y0, y1, d, draws, pos, a1 - 1) {
      UniformPushedUnique(seeds, n1, n2, x0, x1, y0, y1, d, draws, pos, a1 - 1, a2 - 1);
    } else if UniformPushed(seeds, n2, x0, x1, y0, y1, d, draws, pos, a2 - 1) {
      UniformPushedUnique(seeds, n2, n1, x0, x1, y0, y1, d, draws, pos, a2 - 1, a1 - 1);
    } else if UniformPushed(seeds, n1, u0, u1, v0, v1, e, draws, q, a1 - MaxAttempts - 1) {
      UniformPushedUnique(seeds, n1, n2, u0, u1, v0, v1, e, draws, q, a1 - MaxAttempts - 1, a2 - MaxAttempts - 1);
    }
  }

  /** One round of the uniform phase: attempts in [minDistance, w - minDistance)
      by [minDistance, h - minDistance) at `minDistance`, then, if they all
      failed, attempts over the whole image at 0.6 of it. The three outcomes: a
      seed from the inset box accepted at `minDistance`; all 30 rejected, then a
      seed from the whole image accepted at 0.6 of it; no seed. Each attempt
      uses two draws. */
  method UniformRound(seeds: seq<Point>, w: nat, h: nat, minDistance: real, draws: nat -> real, pos: nat)
    returns (next: seq<Point>, pos': nat)
    requires minDistance >= 0.0
    ensures UniformRoundOutcome(seeds, next, w, h, minDistance, draws, pos, pos')
    ensures next == seeds ||
            (|next| == |seeds| + 1 && next[..|seeds|] == seeds &&
             (FarEnough(next[|seeds|], seeds, minDistance) || FarEnough(next[|seeds|], seeds, minDistance * 0.6)))
  {
    var tries, placed;
    next, tries, placed := TryUniform(seeds, minDistance, w as real - minDistance, minDistance, h as real - minDistance,
                                      minDistance, draws, pos);
    pos' := pos + 2 * tries;
    if !placed {
      var tries2;
      next, tries2, placed := TryUniform(seeds, 0.0, w as real, 0.0, h as real, minDistance * 0.6, draws, pos');
      pos' := pos' + 2 * tries2;
    }
  }

  /** The seeds placed by the edge phase, from index `from` on, are pixels of
      the image and passed the test at 0.7 of `minDistance` or more. */
  ghost predicate EdgeSeeds(seeds: seq<Point>, from: int, w: nat, h: nat, minDistance: real)
    requires 0 <= from <= |seeds|
  {
    var d := minDistance * 0.7;
    forall j :: from <= j < |seeds| ==> IsPixelOf(seeds[j], w, h) && SeparatedAt(seeds, j, d)
  }

  /** The seeds from index `from` on passed the test at 0.6 of `minDistance` or more. */
  predicate UniformSeeds(seeds: seq<Point>, from: int, minDistance: real)
    requires 0 <= from <= |seeds|
  {
    var d := minDistance * 0.6;
    forall j :: from <= j < |seeds| ==> SeparatedAt(seeds, j, d)
  }

  /** Appending one seed keeps the earlier seeds' separation facts. */
  lemma SeparatedAfterPush(seeds: seq<Point>, next: seq<Point>, j: int, d: real)
    requires |next| == |seeds| + 1 && next[..|seeds|] == seeds && 0 <= j < |seeds|
    requires SeparatedAt(seeds, j, d)
    ensures SeparatedAt(next, j, d)
  {
    assert next[..j] == seeds[..j];
  }

  /** The (seeds, draw position) states of the edge phase before each round
      and after the last: every state follows from the one before it by an outcome
      of that round. */
  predicate EdgeTrace(trace: seq<(seq<Point>, nat)>, edge: seq<seq<real>>, w: nat, h: nat, total: real,
                      minDistance: real, numEdge: nat, draws: nat -> real)
    requires IsGrid(edge, w, h)
  {
    |trace| > 0 &&
    forall r :: 0 <= r < |trace| - 1 ==>
      EdgeRoundOutcome(trace[r].0, trace[r + 1].0, edge, w, h, total, minDistance, r, numEdge, draws,
                       trace[r].1, trace[r + 1].1)
  }

  lemma EdgeTraceStep(trace: seq<(seq<Point>, nat)>, next: seq<Point>, pos': nat, edge: seq<seq<real>>,
                      w: nat, h: nat, total: real, minDistance: real, numEdge: nat, draws: nat -> real)
    requires IsGrid(edge, w, h) && EdgeTrace(trace, edge, w, h, total, minDistance, numEdge, draws)
    requires EdgeRoundOutcome(trace[|trace| - 1].0, next, edge, w, h, total, minDistance, |trace| - 1, numEdge,
                              draws, trace[|trace| - 1].1, pos')
    ensures EdgeTrace(trace + [(next, pos')], edge, w, h, total, minDistance, numEdge, draws)
  {
    var t := trace + [(next, pos')];
    forall r | 0 <= r < |t| - 1
      ensures EdgeRoundOutcome(t[r].0, t[r + 1].0, edge, w, h, total, minDistance, r, numEdge, draws,
                               t[r].1, t[r + 1].1)
    {
      assert t[r] == trace[r];
      if r < |trace| - 1 {
        assert t[r + 1] == trace[r + 1];
      }
    }
  }

  /** The edge phase: `numEdge` rounds of EdgeRound. */
  method EdgePhase(seeds0: seq<Point>, edge: seq<seq<real>>, w: nat, h: nat, total: real, minDistance: real,
                   numEdge: nat, draws: nat -> real, pos0: nat)
    returns (seeds: seq<Point>, pos: nat, ghost trace: seq<(seq<Point>, nat)>)
    requires IsGrid(edge, w, h) && minDistance >= 0.0
    ensures |trace| == numEdge + 1 && trace[0] == (seeds0, pos0) && trace[numEdge] == (seeds, pos)
    ensures EdgeTrace(trace, edge, w, h, total, minDistance, numEdge, draws)
    ensures pos0 <= pos
    ensures |seeds0| <= |seeds| <= |seeds0| + numEdge && seeds[..|seeds0|] == seeds0
    ensures EdgeSeeds(seeds, |seeds0|, w, h, minDistance)
  {
    seeds, pos := seeds0, pos0;
    trace := [(seeds0, pos0)];
    var i := 0;
    while i < numEdge
      invariant 0 <= i <= numEdge && pos0 <= pos
      invariant |trace| == i + 1 && trace[0] == (seeds0, pos0) && trace[i] == (seeds, pos)
      invariant EdgeTrace(trace, edge, w, h, total, minDistance, numEdge, draws)
      invariant |seeds0| <= |seeds| <= |seeds0| + i && seeds[..|seeds0|] == seeds0
      invariant EdgeSeeds(seeds, |seeds0|, w, h, minDistance)
    {
      var next, pos';
      next, pos' := EdgeRound(seeds, edge, w, h, total, minDistance, i, numEdge, draws, pos);
      EdgeTraceStep(trace, next, pos', edge, w, h, total, minDistance, numEdge, draws);
      trace := trace + [(next, pos')];
      pos := pos';
      if next != seeds {
        var d := minDistance * 0.7;
        forall j | |seeds0| <= j < |next|
          ensures IsPixelOf(next[j], w, h) && SeparatedAt(next, j, d)
        {
          if j < |seeds| {
            SeparatedAfterPush(seeds, next, j, d);
          } else {
            assert next[..j] == seeds;
            if FarEnough(next[j], seeds, minDistance) {
              FarEnoughAtSmallerDistance(next[j], seeds, minDistance, d);
            }
          }
        }
        assert next[..|seeds0|] == seeds[..|seeds0|];
      }
      seeds := next;
      i := i + 1;
    }
  }

  /** The (seeds, draw position) states of the uniform phase before each round
      and after the last: every state follows from the one before it by an
      outcome of a uniform round. */
  predicate UniformTrace(trace: seq<(seq<Point>, nat)>, w: nat, h: nat, minDistance: real, draws: nat -> real)
  {
    |trace| > 0 &&
    forall r :: 0 <= r < |trace| - 1 ==>
      UniformRoundOutcome(trace[r].0, trace[r + 1].0, w, h, minDistance, draws, trace[r].1, trace[r + 1].1)
  }

  lemma UniformTraceStep(trace: seq<(seq<Point>, nat)>, next: seq<Point>, pos': nat,
                         w: nat, h: nat, minDistance: real, draws: nat -> real)
    requires UniformTrace(trace, w, h, minDistance, draws)
    requires UniformRoundOutcome(trace[|trace| - 1].0, next, w, h, minDistance, draws, trace[|trace| - 1].1, pos')
    ensures UniformTrace(trace + [(next, pos')], w, h, minDistance, draws)
  {
    var t := trace + [(next, pos')];
    forall r | 0 <= r < |t| - 1
      ensures UniformRoundOutcome(t[r].0, t[r + 1].0, w, h, minDistance, draws, t[r].1, t[r + 1].1)
    {
      assert t[r] == trace[r];
      if r < |trace| - 1 {
        assert t[r + 1] == trace[r + 1];
      }
    }
  }

  /** The uniform phase: `numUniform` rounds of UniformRound. */
  method UniformPhase(seeds0: seq<Point>, w: nat, h: nat, minDistance: real, numUniform: nat, draws: nat -> real, pos0: nat)
    returns (seeds: seq<Point>, pos: nat, ghost trace: seq<(seq<Point>, nat)>)
    requires minDistance >= 0.0
    ensures |trace| == numUniform + 1 && trace[0] == (seeds0, pos0) && trace[numUniform] == (seeds, pos)
    ensures UniformTrace(trace, w, h, minDistance, draws)
    ensures pos0 <= pos
    ensures |seeds0| <= |seeds| <= |seeds0| + numUniform && seeds[..|seeds0|] == seeds0
    ensures UniformSeeds(seeds, |seeds0|, minDistance)
  {
    seeds, pos := seeds0, pos0;
    trace := [(seeds0, pos0)];
    var i := 0;
    while i < numUniform
      invariant 0 <= i <= numUniform && pos0 <= pos
      invariant |trace| == i + 1 && trace[0] == (seeds0, pos0) && trace[i] == (seeds, pos)
      invariant UniformTrace(trace, w, h, minDistance, draws)
      invariant |seeds0| <= |seeds| <= |seeds0| + i && seeds[..|seeds0|] == seeds0
      invariant UniformSeeds(seeds, |seeds0|, minDistance)
    {
      var next, pos';
      next, pos' := UniformRound(seeds, w, h, minDistance, draws, pos);
      UniformTraceStep(trace, next, pos', w, h, minDistance, draws);
      trace := trace + [(next, pos')];
      pos := pos';
      if next != seeds {
        var d := minDistance * 0.6;
        forall j | |seeds0| <= j < |next|
          ensures SeparatedAt(next, j, d)
        {
          if j < |seeds| {
            SeparatedAfterPush(seeds, next, j, d);
          } else {
            assert next[..j] == seeds;
            if FarEnough(next[j], seeds, minDistance) {
              FarEnoughAtSmallerDistance(next[j], seeds, minDistance, d);
            }
          }
        }
        assert next[..|seeds0|] == seeds[..|seeds0|];
      }
      seeds := next;
      i := i + 1;
    }
  }

  /** A run of the sampling from draw 0: the edge phase starts from the fixed
      seeds and makes `numEdgeSeeds` rounds at `minDistance`, with the total
      weight of the edge grid; the uniform phase starts where it ended and makes
      `numUniformSeeds` rounds; `seeds` is the last state's list. */
  predicate SeedRun(edge: seq<seq<real>>, w: nat, h: nat, numSeeds: nat, draws: nat -> real,
                    edgeTrace: seq<(seq<Point>, nat)>, uniformTrace: seq<(seq<Point>, nat)>, seeds: seq<Point>)
    requires IsGrid(edge, w, h)
  {
    var md := MinDistance(w, h);
    |edgeTrace| == NumEdgeSeeds(numSeeds) + 1 && edgeTrace[0] == (FixedSeeds(w, h), 0) &&
    EdgeTrace(edgeTrace, edge, w, h, TotalWeightOf(edge, w, h), md, NumEdgeSeeds(numSeeds), draws) &&
    |uniformTrace| == NumUniformSeeds(numSeeds) + 1 && uniformTrace[0] == edgeTrace[|edgeTrace| - 1] &&
    UniformTrace(uniformTrace, w, h, md, draws) && seeds == uniformTrace[|uniformTrace| - 1].0
  }

  /** Two edge traces from the same state agree on every state they both have. */
  lemma {:induction false} EdgeTraceAgree(t1: seq<(seq<Point>, nat)>, t2: seq<(seq<Point>, nat)>, edge: seq<seq<real>>,
                                          w: nat, h: nat, total: real, minDistance: real, numEdge: nat,
                                          draws: nat -> real, r: nat)
    requires IsGrid(edge, w, h)
    requires EdgeTrace(t1, edge, w, h, total, minDistance, numEdge, draws)
    requires EdgeTrace(t2, edge, w, h, total, minDistance, numEdge, draws)
    requires t1[0] == t2[0] && r < |t1| && r < |t2|
    ensures t1[r] == t2[r]
  {
    if r > 0 {
      EdgeTraceAgree(t1, t2, edge, w, h, total, minDistance, numEdge, draws, r - 1);
      EdgeRoundDeterministic(t1[r - 1].0, t1[r].0, t2[r].0, edge, w, h, total, minDistance, r - 1, numEdge, draws,
                             t1[r - 1].1, t1[r].1, t2[r].1);
    }
  }

  /** Two uniform traces from the same state agree on every state they both have. */
  lemma {:induction false} UniformTraceAgree(t1: seq<(seq<Point>, nat)>, t2: seq<(seq<Point>, nat)>, w: nat, h: nat,
                                             minDistance: real, draws: nat -> real, r: nat)
    requires UniformTrace(t1, w, h, minDistance, draws) && UniformTrace(t2, w, h, minDistance, draws)
    requires t1[0] == t2[0] && r < |t1| && r < |t2|
    ensures t1[r] == t2[r]
  {
    if r > 0 {
      UniformTraceAgree(t1, t2, w, h, minDistance, draws, r - 1);
      UniformRoundDeterministic(t1[r - 1].0, t1[r].0, t2[r].0, w, h, minDistance, draws, t1[r - 1].1, t1[r].1, t2[r].1);
    }
  }

  /** The draws fix the seeds: two runs of the sampling on the same edge grid,
      seed count and draws end with the same seeds. */
  lemma SeedRunDeterministic(edge: seq<seq<real>>, w: nat, h: nat, numSeeds: nat, draws: nat -> real,
                             e1: seq<(seq<Point>, nat)>, u1: seq<(seq<Point>, nat)>, s1: seq<Point>,
                             e2: seq<(seq<Point>, nat)>, u2: seq<(seq<Point>, nat)>, s2: seq<Point>)
    requires IsGrid(edge, w, h)
    requires SeedRun(edge, w, h, numSeeds, draws, e1, u1, s1) && SeedRun(edge, w, h, numSeeds, draws, e2, u2, s2)
    ensures s1 == s2
  {
    var md, total, numEdge := MinDistance(w, h), TotalWeightOf(edge, w, h), NumEdgeSeeds(numSeeds);
    EdgeTraceAgree(e1, e2, edge, w, h, total, md, numEdge, draws, |e1| - 1);
    UniformTraceAgree(u1, u2, w, h, md, draws, |u1| - 1);
  }

  /** `generateFlowBasedSeeds`: the fixed seeds, whatever `numSeeds` is, then
      at most `numEdgeSeeds` edge-phase seeds (pixels of the image, separated by
      0.7 of `minDistance` or more), then at most `numUniformSeeds` uniform-phase
      seeds (separated by 0.6 of `minDistance` or more). */
  method GenerateFlowBasedSeeds(img: Image, flow: FlowData, numSeeds: nat, draws: nat -> real)
    returns (seeds: seq<Point>, ghost edgeTrace: seq<(seq<Point>, nat)>, ghost uniformTrace: seq<(seq<Point>, nat)>)
    requires IsGrid(flow.edgeStrength, img.width, img.height)
    ensures SeedRun(flow.edgeStrength, img.width, img.height, numSeeds, draws, edgeTrace, uniformTrace, seeds)
    ensures 32 <= |seeds| <= 32 + numSeeds
    ensures seeds[..32] == FixedSeeds(img.width, img.height)
    ensures exists e :: 32 <= e <= |seeds| && e <= 32 + NumEdgeSeeds(numSeeds) &&
              EdgeSeeds(seeds[..e], 32, img.width, img.height, MinDistance(img.width, img.height)) &&
              UniformSeeds(seeds, e, MinDistance(img.width, img.height))
  {
    var w, h := img.width, img.height;
    var minDistance := MinDistance(w, h);
    var fixed := PlaceFixedSeeds(w, h);
    FixedSeedsLayout(w, h);
    var total := TotalWeight(flow.edgeStrength, w, h);
    var numEdge := NumEdgeSeeds(numSeeds);
    var numUniform := NumUniformSeeds(numSeeds);
    var edgeSeeds, pos;
    edgeSeeds, pos, edgeTrace := EdgePhase(fixed, flow.edgeStrength, w, h, total, minDistance, numEdge, draws, 0);
    var pos';
    seeds, pos', uniformTrace := UniformPhase(edgeSeeds, w, h, minDistance, numUniform, draws, pos);
    assert seeds[..|edgeSeeds|] == edgeSeeds;
    assert seeds[..32] == edgeSeeds[..32];
  }

  /** Every seed placed by sampling is at least 0.6 of `minDistance` from all seeds before it. */
  lemma AllSampledSeedsSeparated(seeds: seq<Point>, e: int, w: nat, h: nat, minDistance: real)
    requires 32 <= e <= |seeds| && minDistance >= 0.0
    requires EdgeSeeds(seeds[..e], 32, w, h, minDistance) && UniformSeeds(seeds, e, minDistance)
    ensures UniformSeeds(seeds, 32, minDistance)
  {
    var d6, d7 := minDistance * 0.6, minDistance * 0.7;
    forall j | 32 <= j < |seeds|
      ensures SeparatedAt(seeds, j, d6)
    {
      if j < e {
        assert SeparatedAt(seeds[..e], j, d7);
        assert seeds[..e][..j] == seeds[..j];
        FarEnoughAtSmallerDistance(seeds[j], seeds[..j], d7, d6);
      }
    }
  }
}
