/** The Graham scan (`convexHull`) over boundary pixels: the lowest point
    (smallest y, then smallest x) first, the others sorted by the angle
    `Math.atan2` gives them around it, then a stack that pops until the last
    two points and the next one turn strictly left. `Math.atan2` is the
    parameter `atan2`; `Array.prototype.sort`, which is stable, is the stable
    insertion sort SortByAngle. */
module Hull {
  import opened Geometry

  /** The cross product `(b.x - a.x) * (c.y - a.y) - (b.y - a.y) * (c.x - a.x)`;
      positive when a, b, c turn left. */
  function Cross(a: Pixel, b: Pixel, c: Pixel): int
  {
    (b.x - a.x) * (c.y - a.y) - (b.y - a.y) * (c.x - a.x)
  }

  predicate LeftTurn(a: Pixel, b: Pixel, c: Pixel)
  {
    Cross(a, b, c) > 0
  }

  // ---------------------------------------------------------------- start point

  /** Index of the point the scan `if (p.y < start.y || (p.y === start.y && p.x < start.x)) start = p`
      holds after the first n points. */
  function LowestOf(points: seq<Pixel>, n: nat): (s: nat)
    requires 0 < n <= |points|
    ensures s < n
  {
    if n == 1 then 0
    else
      var s := LowestOf(points, n - 1);
      if Before(points[n - 1], points[s]) then n - 1 else s
  }

  /** The start point is the first occurrence of the minimum in (y, x) order:
      no point is lower, and every earlier point is strictly higher. */
  lemma {:induction false} LowestOfIsFirstMinimum(points: seq<Pixel>, n: nat)
    requires 0 < n <= |points|
    ensures forall j :: 0 <= j < n ==> !Before(points[j], points[LowestOf(points, n)])
    ensures forall j :: 0 <= j < LowestOf(points, n) ==> Before(points[LowestOf(points, n)], points[j])
  {
    if n > 1 {
      LowestOfIsFirstMinimum(points, n - 1);
    }
  }

  /** The loop that finds `start`. */
  method LowestIndex(points: seq<Pixel>) returns (s: nat)
    requires |points| > 0
    ensures s == LowestOf(points, |points|)
  {
    s := 0;
    var i := 0;
    while i < |points|
      invariant 0 <= i <= |points|
      invariant s == LowestOf(points, if i == 0 then 1 else i)
    {
      if Before(points[i], points[s]) {
        s := i;
      }
      i := i + 1;
    }
  }

  // ---------------------------------------------------------------- angular sort

  /** The sort key `atan2(p.y - start.y, p.x - start.x)`. */
  function Angle(atan2: (real, real) -> real, start: Pixel, p: Pixel): real
  {
    atan2((p.y - start.y) as real, (p.x - start.x) as real)
  }

  predicate SortedByAngle(atan2: (real, real) -> real, start: Pixel, s: seq<Pixel>)
  {
    forall i, j :: 0 <= i < j < |s| ==> Angle(atan2, start, s[i]) <= Angle(atan2, start, s[j])
  }

  /** Inserts p before the first element whose angle is not smaller. */
  function InsertByAngle(atan2: (real, real) -> real, start: Pixel, p: Pixel, s: seq<Pixel>): (r: seq<Pixel>)
    requires SortedByAngle(atan2, start, s)
    ensures multiset(r) == multiset(s) + multiset{p}
    ensures SortedByAngle(atan2, start, r)
    ensures |r| == |s| + 1 && (r[0] == p || (|s| > 0 && r[0] == s[0]))
  {
    if |s| == 0 then [p]
    else if Angle(atan2, start, p) <= Angle(atan2, start, s[0]) then [p] + s
    else
      var tail := InsertByAngle(atan2, start, p, s[1..]);
      assert s == [s[0]] + s[1..];
      assert Angle(atan2, start, s[0]) <= Angle(atan2, start, tail[0]) by {
        if tail[0] != p {
          assert tail[0] == s[1];
        }
      }
      assert SortedByAngle(atan2, start, [s[0]] + tail) by {
        forall j | 0 < j < |tail| + 1
          ensures Angle(atan2, start, s[0]) <= Angle(atan2, start, ([s[0]] + tail)[j])
        {
          if j > 1 {
            assert Angle(atan2, start, tail[0]) <= Angle(atan2, start, tail[j - 1]);
          }
        }
      }
      [s[0]] + tail
  }

  /** A stable sort by angle: ties keep their order in the input. */
  function SortByAngle(atan2: (real, real) -> real, start: Pixel, s: seq<Pixel>): (r: seq<Pixel>)
    ensures multiset(r) == multiset(s)
    ensures SortedByAngle(atan2, start, r)
  {
    if |s| == 0 then []
    else
      assert s == [s[0]] + s[1..];
      InsertByAngle(atan2, start, s[0], SortByAngle(atan2, start, s[1..]))
  }

  /** The points of s whose angle is a, in their order in s. */
  function WithAngle(atan2: (real, real) -> real, start: Pixel, a: real, s: seq<Pixel>): seq<Pixel>
  {
    if |s| == 0 then [] else Own(atan2, start, a, s[0]) + WithAngle(atan2, start, a, s[1..])
  }

  /** [p] when p has angle a, else nothing. */
  function Own(atan2: (real, real) -> real, start: Pixel, a: real, p: Pixel): seq<Pixel>
  {
    if Angle(atan2, start, p) == a then [p] else []
  }

  lemma SortedTail(atan2: (real, real) -> real, start: Pixel, s: seq<Pixel>)
    requires SortedByAngle(atan2, start, s) && |s| > 0
    ensures SortedByAngle(atan2, start, s[1..])
  {
    forall i, j | 0 <= i < j < |s| - 1
      ensures Angle(atan2, start, s[1..][i]) <= Angle(atan2, start, s[1..][j])
    {
      assert s[1..][i] == s[i + 1] && s[1..][j] == s[j + 1];
    }
  }

  /** Inserting p adds it in front of the points of equal angle. */
  lemma {:induction false} InsertByAngleStable(atan2: (real, real) -> real, start: Pixel, a: real, p: Pixel, s: seq<Pixel>)
    requires SortedByAngle(atan2, start, s)
    ensures WithAngle(atan2, start, a, InsertByAngle(atan2, start, p, s)) ==
      Own(atan2, start, a, p) + WithAngle(atan2, start, a, s)
    decreases |s|
  {
    if |s| > 0 && Angle(atan2, start, p) > Angle(atan2, start, s[0]) {
      SortedTail(atan2, start, s);
      InsertByAngleStable(atan2, start, a, p, s[1..]);
      assert Own(atan2, start, a, s[0]) == [] || Own(atan2, start, a, p) == [];
      InsertLater(atan2, start, a, p, s);
    } else if |s| > 0 {
      assert InsertByAngle(atan2, start, p, s) == [p] + s;
      assert ([p] + s)[1..] == s;
    }
  }

  /** The step of InsertByAngleStable where p goes after the first point. */
  lemma InsertLater(atan2: (real, real) -> real, start: Pixel, a: real, p: Pixel, s: seq<Pixel>)
    requires SortedByAngle(atan2, start, s) && |s| > 0
    requires Angle(atan2, start, p) > Angle(atan2, start, s[0])
    requires SortedByAngle(atan2, start, s[1..])
    requires Own(atan2, start, a, s[0]) == [] || Own(atan2, start, a, p) == []
    requires WithAngle(atan2, start, a, InsertByAngle(atan2, start, p, s[1..])) ==
      Own(atan2, start, a, p) + WithAngle(atan2, start, a, s[1..])
    ensures WithAngle(atan2, start, a, InsertByAngle(atan2, start, p, s)) ==
      Own(atan2, start, a, p) + WithAngle(atan2, start, a, s)
  {
    var tail := InsertByAngle(atan2, start, p, s[1..]);
    assert InsertByAngle(atan2, start, p, s) == [s[0]] + tail;
    WithAngleCons(atan2, start, a, s[0], tail);
    assert WithAngle(atan2, start, a, s) ==
      Own(atan2, start, a, s[0]) + WithAngle(atan2, start, a, s[1..]);
    OwnCommute(Own(atan2, start, a, s[0]), Own(atan2, start, a, p), WithAngle(atan2, start, a, s[1..]));
  }

  /** Two parts of which one is empty can be joined in either order. */
  lemma OwnCommute(head: seq<Pixel>, mine: seq<Pixel>, w: seq<Pixel>)
    requires head == [] || mine == []
    ensures head + (mine + w) == mine + (head + w)
  {
    if head == [] {
      assert head + (mine + w) == mine + w;
    } else {
      assert mine + (head + w) == head + w;
    }
  }

  lemma WithAngleCons(atan2: (real, real) -> real, start: Pixel, a: real, x: Pixel, t: seq<Pixel>)
    ensures WithAngle(atan2, start, a, [x] + t) ==
      Own(atan2, start, a, x) + WithAngle(atan2, start, a, t)
  {
    assert ([x] + t)[1..] == t;
  }

  /** The sort is stable: for every angle, the points with that angle appear in
      the result in the order they had in the input. */
  lemma {:induction false} SortByAngleStable(atan2: (real, real) -> real, start: Pixel, a: real, s: seq<Pixel>)
    ensures WithAngle(atan2, start, a, SortByAngle(atan2, start, s)) == WithAngle(atan2, start, a, s)
  {
    if |s| > 0 {
      SortByAngleStable(atan2, start, a, s[1..]);
      InsertByAngleStable(atan2, start, a, s[0], SortByAngle(atan2, start, s[1..]));
    }
  }

  /** `sorted` after `unshift(start)`: the start point, then the other points
      (`filter(p => p !== start)` removes exactly the start object) sorted by angle. */
  function ScanOrder(points: seq<Pixel>, atan2: (real, real) -> real): (sorted: seq<Pixel>)
    requires |points| > 0
    ensures |sorted| == |points| && multiset(sorted) == multiset(points)
  {
    var s := LowestOf(points, |points|);
    assert points == points[..s] + [points[s]] + points[s + 1..];
    assert multiset(points) == multiset(points[..s] + points[s + 1..]) + multiset{points[s]};
    [points[s]] + SortByAngle(atan2, points[s], points[..s] + points[s + 1..])
  }

  // ---------------------------------------------------------------- the scan

  /** The inner `while`: pops while the stack has two points that do not turn
      strictly left with c. */
  function PopNonLeft(stack: seq<Pixel>, c: Pixel): (r: seq<Pixel>)
    ensures |r| <= |stack| && r == stack[..|r|]
    ensures |stack| >= 1 ==> |r| >= 1
    ensures |r| >= 2 ==> LeftTurn(r[|r| - 2], r[|r| - 1], c)
    decreases |stack|
  {
    if |stack| >= 2 && !LeftTurn(stack[|stack| - 2], stack[|stack| - 1], c) then
      PopNonLeft(stack[..|stack| - 1], c)
    else stack
  }

  /** The outer loop from position i of the scan order, with the current stack. */
  function Scan(sorted: seq<Pixel>, stack: seq<Pixel>, i: nat): seq<Pixel>
    requires i <= |sorted|
    decreases |sorted| - i
  {
    if i == |sorted| then stack
    else Scan(sorted, PopNonLeft(stack, sorted[i]) + [sorted[i]], i + 1)
  }

  /** The hull `convexHull` returns: the input itself for fewer than 3 points. */
  function GrahamHull(points: seq<Pixel>, atan2: (real, real) -> real): seq<Pixel>
  {
    if |points| < 3 then points
    else
      var sorted := ScanOrder(points, atan2);
      Scan(sorted, [sorted[0], sorted[1]], 2)
  }

  /** `convexHull`. */
  method ConvexHull(points: seq<Pixel>, atan2: (real, real) -> real) returns (hull: seq<Pixel>)
    ensures hull == GrahamHull(points, atan2)
  {
    if |points| < 3 {
      return points;
    }
    ghost var target := GrahamHull(points, atan2);
    var s := LowestIndex(points);
    var start := points[s];
    var sorted := [start] + SortByAngle(atan2, start, points[..s] + points[s + 1..]);
    assert sorted == ScanOrder(points, atan2);
    hull := [sorted[0], sorted[1]];
    var i := 2;
    while i < |sorted|
      invariant 2 <= i <= |sorted|
      invariant Scan(sorted, hull, i) == target
    {
      ghost var before := hull;
      var c := sorted[i];
      while |hull| >= 2
        invariant PopNonLeft(hull, c) == PopNonLeft(before, c)
        decreases |hull|
      {
        var a := hull[|hull| - 2];
        var b := hull[|hull| - 1];
        var cross := Cross(a, b, c);
        if cross <= 0 {
          hull := hull[..|hull| - 1];
        } else {
          break;
        }
      }
      ScanStep(sorted, before, i);
      hull := hull + [c];
      i := i + 1;
    }
  }

  lemma ScanStep(sorted: seq<Pixel>, stack: seq<Pixel>, i: nat)
    requires i < |sorted|
    ensures Scan(sorted, stack, i) == Scan(sorted, PopNonLeft(stack, sorted[i]) + [sorted[i]], i + 1)
  {
  }

  // ---------------------------------------------------------------- properties

  /** Every consecutive triple turns strictly left. */
  predicate LeftTurns(s: seq<Pixel>)
  {
    forall k :: 0 <= k < |s| - 2 ==> LeftTurn(s[k], s[k + 1], s[k + 2])
  }

  /** m maps the elements of a, in order, to positions of b. */
  predicate Embeds(a: seq<Pixel>, b: seq<Pixel>, m: seq<nat>)
  {
    |m| == |a| &&
    (forall k :: 0 <= k < |m| ==> m[k] < |b| && a[k] == b[m[k]]) &&
    (forall k :: 0 <= k < |m| - 1 ==> m[k] < m[k + 1])
  }

  ghost predicate SubsequenceOf(a: seq<Pixel>, b: seq<Pixel>)
  {
    exists m :: Embeds(a, b, m)
  }

  /** A prefix of a left-turning sequence turns left. */
  lemma PrefixKeepsLeftTurns(s: seq<Pixel>, n: nat)
    requires LeftTurns(s) && n <= |s|
    ensures LeftTurns(s[..n])
  {
    forall k | 0 <= k < n - 2
      ensures LeftTurn(s[..n][k], s[..n][k + 1], s[..n][k + 2])
    {
      assert LeftTurn(s[k], s[k + 1], s[k + 2]);
    }
  }

  /** Appending c to a left-turning sequence whose last two points turn left
      towards c keeps it left-turning. */
  lemma AppendKeepsLeftTurns(r: seq<Pixel>, c: Pixel)
    requires LeftTurns(r)
    requires |r| >= 2 ==> LeftTurn(r[|r| - 2], r[|r| - 1], c)
    ensures LeftTurns(r + [c])
  {
    var t := r + [c];
    forall k | 0 <= k < |t| - 2
      ensures LeftTurn(t[k], t[k + 1], t[k + 2])
    {
      if k + 2 < |r| {
        assert LeftTurn(r[k], r[k + 1], r[k + 2]);
      } else {
        assert t[k] == r[|r| - 2] && t[k + 1] == r[|r| - 1] && t[k + 2] == c;
      }
    }
  }

  /** Pushing c after the pops keeps every triple a left turn. */
  lemma PushKeepsLeftTurns(stack: seq<Pixel>, c: Pixel)
    requires LeftTurns(stack)
    ensures LeftTurns(PopNonLeft(stack, c) + [c])
  {
    var r := PopNonLeft(stack, c);
    PrefixKeepsLeftTurns(stack, |r|);
    AppendKeepsLeftTurns(r, c);
  }

  lemma {:induction false} ScanLeftTurns(sorted: seq<Pixel>, stack: seq<Pixel>, i: nat)
    requires i <= |sorted| && LeftTurns(stack)
    ensures LeftTurns(Scan(sorted, stack, i))
    decreases |sorted| - i
  {
    if i < |sorted| {
      PushKeepsLeftTurns(stack, sorted[i]);
      ScanLeftTurns(sorted, PopNonLeft(stack, sorted[i]) + [sorted[i]], i + 1);
    }
  }

  /** The scan keeps the bottom of the stack, keeps at least two points, and
      adds at most one point per remaining input point. */
  lemma {:induction false} ScanShape(sorted: seq<Pixel>, stack: seq<Pixel>, i: nat)
    requires i <= |sorted| && |stack| >= 2
    ensures var r := Scan(sorted, stack, i);
      2 <= |r| <= |stack| + |sorted| - i && r[0] == stack[0]
    decreases |sorted| - i
  {
    if i < |sorted| {
      var next := PopNonLeft(stack, sorted[i]) + [sorted[i]];
      ScanShape(sorted, next, i + 1);
    }
  }

  /** If the stack is a subsequence of the first i points of the scan order,
      the final hull is a subsequence of all of it. */
  lemma {:induction false} ScanEmbeds(sorted: seq<Pixel>, stack: seq<Pixel>, i: nat, m: seq<nat>)
    requires i <= |sorted| && Embeds(stack, sorted, m)
    requires forall k :: 0 <= k < |m| ==> m[k] < i
    ensures SubsequenceOf(Scan(sorted, stack, i), sorted)
    decreases |sorted| - i
  {
    if i == |sorted| {
      assert Embeds(Scan(sorted, stack, i), sorted, m);
    } else {
      var r := PopNonLeft(stack, sorted[i]);
      var m' := m[..|r|] + [i];
      assert Embeds(r + [sorted[i]], sorted, m');
      ScanEmbeds(sorted, r + [sorted[i]], i + 1, m');
    }
  }

  /** The properties of the hull of three or more points: it starts at the
      lowest point, has between 2 and |points| vertices, is a subsequence of
      the scan order (so every vertex is an input point), and turns strictly
      left at every vertex. */
  lemma GrahamHullProperties(points: seq<Pixel>, atan2: (real, real) -> real)
    requires |points| >= 3
    ensures var hull := GrahamHull(points, atan2);
      2 <= |hull| <= |points| &&
      hull[0] == points[LowestOf(points, |points|)] &&
      SubsequenceOf(hull, ScanOrder(points, atan2)) &&
      (forall v :: v in hull ==> v in points) &&
      LeftTurns(hull)
  {
    var sorted := ScanOrder(points, atan2);
    var stack := [sorted[0], sorted[1]];
    ScanShape(sorted, stack, 2);
    ScanLeftTurns(sorted, stack, 2);
    assert Embeds(stack, sorted, [0, 1]);
    ScanEmbeds(sorted, stack, 2, [0, 1]);
    var hull := GrahamHull(points, atan2);
    var m :| Embeds(hull, sorted, m);
    forall v | v in hull
      ensures v in points
    {
      var k :| 0 <= k < |hull| && hull[k] == v;
      assert sorted[m[k]] in multiset(sorted);
    }
  }

  /** Fewer than 3 points are returned unchanged. */
  lemma SmallInputUnchanged(points: seq<Pixel>, atan2: (real, real) -> real)
    requires |points| < 3
    ensures GrahamHull(points, atan2) == points
  {
  }
}
