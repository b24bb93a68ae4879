/** The puzzle built on the mosaic (`app/state/gameUtils.ts`): the tiles keep
    their polygons while their colours are scrambled by pairwise swaps, the
    player swaps colours back, and the puzzle is solved when every tile shows
    its original colour again. A tile's colour is of any type C with
    equality; the original compares colour objects by reference, which C's
    equality stands for. */
module Puzzle {
  import opened Geometry

  /** A mosaic cell as the puzzle sees it: polygon and colour. */
  datatype Tile<C> = Tile(vertices: seq<Pixel>, color: C)

  /** The colour column of a tile list. */
  function Colors<C(==)>(tiles: seq<Tile<C>>): (r: seq<C>)
    ensures |r| == |tiles| && forall i :: 0 <= i < |tiles| ==> r[i] == tiles[i].color
  {
    seq(|tiles|, i requires 0 <= i < |tiles| => tiles[i].color)
  }

  /** Tiles i and j exchange colours; the polygons stay where they are. */
  function SwapColors<C(==)>(tiles: seq<Tile<C>>, i: int, j: int): (r: seq<Tile<C>>)
    requires 0 <= i < |tiles| && 0 <= j < |tiles|
    ensures |r| == |tiles|
    ensures forall k :: 0 <= k < |tiles| ==> r[k].vertices == tiles[k].vertices
    ensures r[i].color == tiles[j].color && r[j].color == tiles[i].color
    ensures forall k :: 0 <= k < |tiles| && k != i && k != j ==> r[k] == tiles[k]
  {
    tiles[i := tiles[i].(color := tiles[j].color)][j := tiles[j].(color := tiles[i].color)]
  }

  /** Swapping the same pair twice restores the tiles. */
  lemma SwapTwiceIsIdentity<C>(tiles: seq<Tile<C>>, i: int, j: int)
    requires 0 <= i < |tiles| && 0 <= j < |tiles|
    ensures SwapColors(SwapColors(tiles, i, j), i, j) == tiles
  {
    var once := SwapColors(tiles, i, j);
    var twice := SwapColors(once, i, j);
    forall k | 0 <= k < |tiles|
      ensures twice[k] == tiles[k]
    {
      if k == i || k == j {
        assert twice[k].vertices == tiles[k].vertices;
      }
    }
  }

  /** A swap permutes the colours, and swapping a tile with itself changes nothing. */
  lemma SwapPermutesColors<C>(tiles: seq<Tile<C>>, i: int, j: int)
    requires 0 <= i < |tiles| && 0 <= j < |tiles|
    ensures multiset(Colors(SwapColors(tiles, i, j))) == multiset(Colors(tiles))
    ensures i == j ==> SwapColors(tiles, i, j) == tiles
  {
    var cs := Colors(tiles);
    var swapped := cs[i := cs[j]][j := cs[i]];
    assert Colors(SwapColors(tiles, i, j)) == swapped;
    if i == j {
      assert SwapColors(tiles, i, j) == tiles;
    }
  }

  /** tiles is cells with the colours permuted and every polygon in place. */
  predicate Rearranges<C(==)>(tiles: seq<Tile<C>>, cells: seq<Tile<C>>)
  {
    |tiles| == |cells| &&
    (forall k :: 0 <= k < |cells| ==> tiles[k].vertices == cells[k].vertices) &&
    multiset(Colors(tiles)) == multiset(Colors(cells))
  }

  lemma SwapRearranges<C>(tiles: seq<Tile<C>>, cells: seq<Tile<C>>, i: int, j: int)
    requires Rearranges(tiles, cells) && 0 <= i < |tiles| && 0 <= j < |tiles|
    ensures Rearranges(SwapColors(tiles, i, j), cells)
  {
    SwapPermutesColors(tiles, i, j);
  }

  /** `swapCells`: the colours at indexA and indexB change places in the array. */
  method SwapCells<C(==)>(cells: array<Tile<C>>, indexA: int, indexB: int)
    requires 0 <= indexA < cells.Length && 0 <= indexB < cells.Length
    modifies cells
    ensures cells[..] == SwapColors(old(cells[..]), indexA, indexB)
  {
    var temp := cells[indexA].color;
    cells[indexA] := cells[indexA].(color := cells[indexB].color);
    cells[indexB] := cells[indexB].(color := temp);
  }

  // ---------------------------------------------------------------- swap lists

  /** Every swap of the list exchanges two indices below n. */
  predicate SwapsIn(swaps: seq<(int, int)>, n: int)
  {
    forall k :: 0 <= k < |swaps| ==> 0 <= swaps[k].0 < n && 0 <= swaps[k].1 < n
  }

  /** The tiles after the colour swaps of the list, first to last. */
  function ApplySwaps<C(==)>(tiles: seq<Tile<C>>, swaps: seq<(int, int)>): (r: seq<Tile<C>>)
    requires SwapsIn(swaps, |tiles|)
    ensures |r| == |tiles|
    decreases |swaps|
  {
    if |swaps| == 0 then tiles
    else
      var last := swaps[|swaps| - 1];
      SwapColors(ApplySwaps(tiles, swaps[..|swaps| - 1]), last.0, last.1)
  }

  /** The indices that take part in some swap of the list. */
  function Touched(swaps: seq<(int, int)>): set<int>
    decreases |swaps|
  {
    if |swaps| == 0 then {}
    else Touched(swaps[..|swaps| - 1]) + {swaps[|swaps| - 1].0, swaps[|swaps| - 1].1}
  }

  /** Any list of swaps keeps every polygon in place and permutes the colours. */
  lemma {:induction false} ApplySwapsRearranges<C>(tiles: seq<Tile<C>>, swaps: seq<(int, int)>)
    requires SwapsIn(swaps, |tiles|)
    ensures Rearranges(ApplySwaps(tiles, swaps), tiles)
    decreases |swaps|
  {
    if |swaps| > 0 {
      var front := swaps[..|swaps| - 1];
      assert SwapsIn(front, |tiles|);
      ApplySwapsRearranges(tiles, front);
      var last := swaps[|swaps| - 1];
      SwapRearranges(ApplySwaps(tiles, front), tiles, last.0, last.1);
    }
  }

  /** One more swap at the end of the list. */
  lemma SwapsSnoc<C>(tiles: seq<Tile<C>>, swaps: seq<(int, int)>, i: int, j: int)
    requires SwapsIn(swaps, |tiles|) && 0 <= i < |tiles| && 0 <= j < |tiles|
    ensures SwapsIn(swaps + [(i, j)], |tiles|)
    ensures ApplySwaps(tiles, swaps + [(i, j)]) == SwapColors(ApplySwaps(tiles, swaps), i, j)
    ensures Touched(swaps + [(i, j)]) == Touched(swaps) + {i, j}
  {
    assert (swaps + [(i, j)])[..|swaps|] == swaps;
  }

  /** A list joined from two lists of in-range swaps has only in-range swaps. */
  lemma SwapsInAppend(a: seq<(int, int)>, b: seq<(int, int)>, n: int)
    requires SwapsIn(a, n) && SwapsIn(b, n)
    ensures SwapsIn(a + b, n)
  {
    forall k | 0 <= k < |a + b|
      ensures 0 <= (a + b)[k].0 < n && 0 <= (a + b)[k].1 < n
    {
      if k >= |a| {
        assert (a + b)[k] == b[k - |a|];
      }
    }
  }

  /** Applying two lists one after the other applies their concatenation. */
  lemma {:induction false} ApplySwapsAppend<C>(tiles: seq<Tile<C>>, a: seq<(int, int)>, b: seq<(int, int)>)
    requires SwapsIn(a, |tiles|) && SwapsIn(b, |tiles|)
    ensures SwapsIn(a + b, |tiles|)
    ensures ApplySwaps(ApplySwaps(tiles, a), b) == ApplySwaps(tiles, a + b)
    decreases |b|
  {
    SwapsInAppend(a, b, |tiles|);
    if |b| == 0 {
      assert a + b == a;
    } else {
      var front := b[..|b| - 1];
      assert SwapsIn(front, |tiles|);
      ApplySwapsAppend(tiles, a, front);
      assert (a + b)[..|a + b| - 1] == a + front;
    }
  }

  /** The tiles touched by a concatenation are those touched by either part. */
  lemma {:induction false} TouchedAppend(a: seq<(int, int)>, b: seq<(int, int)>)
    ensures Touched(a + b) == Touched(a) + Touched(b)
    decreases |b|
  {
    if |b| == 0 {
      assert a + b == a;
    } else {
      var front := b[..|b| - 1];
      TouchedAppend(a, front);
      assert (a + b)[..|a + b| - 1] == a + front;
    }
  }

  /** `checkIfSolved`: false for lists of different lengths, and otherwise
      true exactly when every tile shows the colour of the original tile at
      the same index. */
  method CheckIfSolved<C(==)>(scrambled: seq<Tile<C>>, original: seq<Tile<C>>) returns (solved: bool)
    ensures solved <==> Colors(scrambled) == Colors(original)
  {
    if |scrambled| != |original| {
      return false;
    }
    var i := 0;
    while i < |scrambled|
      invariant 0 <= i <= |scrambled|
      invariant Colors(scrambled)[..i] == Colors(original)[..i]
    {
      if scrambled[i].color != original[i].color {
        assert Colors(scrambled)[i] != Colors(original)[i];
        return false;
      }
      i := i + 1;
    }
    assert Colors(scrambled) == Colors(scrambled)[..i];
    return true;
  }

  /** `Math.floor(Math.random() * m)` lies in [0, m). */
  lemma RandomIndexInRange(u: real, m: nat)
    requires 0.0 <= u < 1.0 && m > 0
    ensures 0 <= Random(u, m as real).Floor < m
  {
    assert 0.0 <= u * m as real;
    assert u * m as real < 1.0 * m as real;
  }

  /** The swaps of the Fisher-Yates pass over n tiles: swap k exchanges tile
      `i = n - 1 - k` with tile `floor(draws(k) * (i + 1))`, for i = n - 1 down to 1. */
  predicate ShuffleSwaps(swaps: seq<(int, int)>, n: int, draws: nat -> real)
  {
    |swaps| == (if n > 0 then n - 1 else 0) &&
    forall k :: 0 <= k < |swaps| ==> swaps[k] == ShuffleSwap(n, draws, k)
  }

  /** Swap k of the Fisher-Yates pass over n tiles. */
  function ShuffleSwap(n: int, draws: nat -> real, k: nat): (int, int)
  {
    (n - 1 - k, Random(draws(k), (n - k) as real).Floor)
  }

  /** The swaps of the repair pass from tile i on, with the marks in swapped:
      each unmarked tile is swapped with tile `(i + 1) % n`, and both are marked. */
  function RepairSwaps(swapped: set<int>, n: nat, i: nat): seq<(int, int)>
    decreases n - i
  {
    if i >= n then []
    else if i in swapped then RepairSwaps(swapped, n, i + 1)
    else [(i, (i + 1) % n)] + RepairSwaps(swapped + {i, (i + 1) % n}, n, i + 1)
  }

  /** `getScrambledVersion`: a copy of the tiles, then the Fisher-Yates pass,
      then the repair pass. The result is the copy after the swaps of both
      passes; these swaps keep every polygon and permute the colours, every
      tile takes part in at least one of them, and `swapped` is exactly the set
      of tiles that took part. */
  method GetScrambledVersion<C(==)>(cells: seq<Tile<C>>, draws: nat -> real)
    returns (scrambled: seq<Tile<C>>, swapped: set<int>, ghost swaps: seq<(int, int)>)
    requires UnitDraws(draws)
    ensures exists shuffle :: ShuffleSwaps(shuffle, |cells|, draws) &&
              swaps == shuffle + RepairSwaps(Touched(shuffle), |cells|, 0)
    ensures SwapsIn(swaps, |cells|) && scrambled == ApplySwaps(cells, swaps)
    ensures swapped == Touched(swaps)
    ensures Rearranges(scrambled, cells)
    ensures forall i :: 0 <= i < |cells| ==> i in swapped
    ensures forall i :: i in swapped ==> 0 <= i < |cells|
  {
    var copy := new Tile<C>[|cells|](i requires 0 <= i < |cells| => cells[i]);
    assert copy[..] == cells;
    ghost var shuffle, repair;
    swapped, shuffle := ShufflePass(copy, draws);
    ghost var shuffled := copy[..];
    swapped, repair := RepairPass(copy, swapped);
    ApplySwapsAppend(cells, shuffle, repair);
    TouchedAppend(shuffle, repair);
    swaps := shuffle + repair;
    ApplySwapsRearranges(cells, swaps);
    scrambled := copy[..];
  }

  /** The state of the Fisher-Yates pass after its first k swaps: the tiles
      are the start with those swaps applied, and `swapped` holds the tiles they
      touched, which include every tile above `n - 1 - k`. */
  predicate Shuffled<C(==)>(start: seq<Tile<C>>, tiles: seq<Tile<C>>, swapped: set<int>,
                            swaps: seq<(int, int)>, draws: nat -> real, k: nat)
  {
    var n := |start|;
    |swaps| == k && (forall q :: 0 <= q < k ==> swaps[q] == ShuffleSwap(n, draws, q)) &&
    SwapsIn(swaps, n) && tiles == ApplySwaps(start, swaps) && swapped == Touched(swaps) &&
    (forall t :: n - 1 - k < t < n ==> t in swapped) &&
    (forall t :: t in swapped ==> 0 <= t < n)
  }

  lemma ShuffleStep<C>(start: seq<Tile<C>>, tiles: seq<Tile<C>>, swapped: set<int>,
                       swaps: seq<(int, int)>, draws: nat -> real, k: nat)
    requires Shuffled(start, tiles, swapped, swaps, draws, k)
    requires UnitDraws(draws) && k + 1 < |start|
    ensures var (i, j) := ShuffleSwap(|start|, draws, k);
      0 <= i < |start| && 0 <= j < |start| &&
      Shuffled(start, SwapColors(tiles, i, j), swapped + {i, j}, swaps + [(i, j)], draws, k + 1)
  {
    var n := |start|;
    var (i, j) := ShuffleSwap(n, draws, k);
    RandomIndexInRange(draws(k), n - k);
    SwapsSnoc(start, swaps, i, j);
  }

  /** The loop `for (i = n - 1; i > 0; i--)` swapping tile i with tile
      `floor(random * (i + 1))`: the tiles end up as the ShuffleSwaps applied
      to them, `swapped` holds the tiles those swaps touched, and that is every
      tile but possibly the first. */
  method ShufflePass<C(==)>(copy: array<Tile<C>>, draws: nat -> real)
    returns (swapped: set<int>, ghost swaps: seq<(int, int)>)
    requires UnitDraws(draws)
    modifies copy
    ensures ShuffleSwaps(swaps, copy.Length, draws) && SwapsIn(swaps, copy.Length)
    ensures copy[..] == ApplySwaps(old(copy[..]), swaps)
    ensures swapped == Touched(swaps)
    ensures forall t :: 0 < t < copy.Length ==> t in swapped
    ensures forall t :: t in swapped ==> 0 <= t < copy.Length
  {
    ghost var start := copy[..];
    var n := copy.Length;
    swapped := {};
    swaps := [];
    var k: nat := 0;
    var i := n - 1;
    while i > 0
      invariant (if n > 0 then 0 <= i else i == -1) && i < n && k == n - 1 - i
      invariant Shuffled(start, copy[..], swapped, swaps, draws, k)
    {
      ShuffleStep(start, copy[..], swapped, swaps, draws, k);
      var j := Random(draws(k), (i + 1) as real).Floor;
      SwapCells(copy, i, j);
      swapped := swapped + {i, j};
      swaps := swaps + [(i, j)];
      k := k + 1;
      i := i - 1;
    }
  }

  /** The state of the repair pass before tile i: the tiles are the start with
      the swaps made so far applied, the marks are the initial ones plus the
      tiles those swaps touched, every tile below i is marked, and the swaps
      still to come are the RepairSwaps from i on. */
  predicate Repairing<C(==)>(start: seq<Tile<C>>, tiles: seq<Tile<C>>, swapped0: set<int>,
                             swapped: set<int>, swaps: seq<(int, int)>, i: nat)
  {
    var n := |start|;
    i <= n && swaps + RepairSwaps(swapped, n, i) == RepairSwaps(swapped0, n, 0) &&
    SwapsIn(swaps, n) && tiles == ApplySwaps(start, swaps) &&
    swapped == swapped0 + Touched(swaps) &&
    (forall t :: 0 <= t < i ==> t in swapped) &&
    (forall t :: t in swapped ==> 0 <= t < n)
  }

  /** A marked tile is skipped. */
  lemma RepairSkip<C>(start: seq<Tile<C>>, tiles: seq<Tile<C>>, swapped0: set<int>,
                      swapped: set<int>, swaps: seq<(int, int)>, i: nat)
    requires Repairing(start, tiles, swapped0, swapped, swaps, i) && i < |start|
    requires i in swapped
    ensures Repairing(start, tiles, swapped0, swapped, swaps, i + 1)
  {
  }

  /** An unmarked tile is swapped with the next one, and both are marked. */
  lemma RepairSwap<C>(start: seq<Tile<C>>, tiles: seq<Tile<C>>, swapped0: set<int>,
                      swapped: set<int>, swaps: seq<(int, int)>, i: nat)
    requires Repairing(start, tiles, swapped0, swapped, swaps, i) && i < |start|
    requires i !in swapped
    ensures var j := (i + 1) % |start|;
      Repairing(start, SwapColors(tiles, i, j), swapped0, swapped + {i, j}, swaps + [(i, j)], i + 1)
  {
    var n := |start|;
    var j := (i + 1) % n;
    SwapsSnoc(start, swaps, i, j);
    assert RepairSwaps(swapped, n, i) == [(i, j)] + RepairSwaps(swapped + {i, j}, n, i + 1);
    assert swaps + RepairSwaps(swapped, n, i) ==
           (swaps + [(i, j)]) + RepairSwaps(swapped + {i, j}, n, i + 1);
  }

  /** The loop over all tiles swapping every tile not yet in `swapped` with
      tile `(i + 1) % n`: the tiles end up as the RepairSwaps applied to them,
      `swapped` gains the tiles those swaps touched, and afterwards every tile
      is in `swapped`. The pass never redraws its partner (see
      RepairPartnerAsWritten). */
  method RepairPass<C(==)>(copy: array<Tile<C>>, swapped0: set<int>)
    returns (swapped: set<int>, ghost swaps: seq<(int, int)>)
    requires forall t :: t in swapped0 ==> 0 <= t < copy.Length
    modifies copy
    ensures swaps == RepairSwaps(swapped0, copy.Length, 0) && SwapsIn(swaps, copy.Length)
    ensures copy[..] == ApplySwaps(old(copy[..]), swaps)
    ensures swapped == swapped0 + Touched(swaps)
    ensures forall t :: 0 <= t < copy.Length ==> t in swapped
    ensures forall t :: t in swapped ==> 0 <= t < copy.Length
  {
    ghost var start := copy[..];
    var n := copy.Length;
    swapped := swapped0;
    swaps := [];
    var i: nat := 0;
    while i < n
      invariant Repairing(start, copy[..], swapped0, swapped, swaps, i)
    {
      if i in swapped {
        RepairSkip(start, copy[..], swapped0, swapped, swaps, i);
      } else {
        RepairSwap(start, copy[..], swapped0, swapped, swaps, i);
        var j := (i + 1) % n;
        SwapCells(copy, i, j);
        swapped := swapped + {i, j};
        swaps := swaps + [(i, j)];
      }
      i := i + 1;
    }
  }

  /** After the Fisher-Yates pass only tile 0 can be unmarked, so the repair
      pass makes at most the one swap of tile 0 with tile `1 % n`; with one
      tile that is tile 0 with itself, which changes nothing. */
  lemma RepairAfterShuffle(swapped: set<int>, n: nat)
    requires forall t :: 0 < t < n ==> t in swapped
    ensures RepairSwaps(swapped, n, 0) == (if n == 0 || 0 in swapped then [] else [(0, 1 % n)])
  {
    if n > 0 {
      if 0 in swapped {
        RepairSkipsMarked(swapped, n, 1);
      } else {
        RepairSkipsMarked(swapped + {0, 1 % n}, n, 1);
      }
    }
  }

  lemma {:induction false} RepairSkipsMarked(swapped: set<int>, n: nat, i: nat)
    requires forall t :: i <= t < n ==> t in swapped
    ensures RepairSwaps(swapped, n, i) == []
    decreases n - i
  {
    if i < n {
      RepairSkipsMarked(swapped, n, i + 1);
    }
  }

  // ---------------------------------------------------------------- the redraw loop as written

  /** The repair pass as written: `let j = (i + 1) % n; while (j === i) j =
      Math.floor(Math.random() * n);`, run for at most fuel redraws (None
      when the loop has not left by then). */
  function RepairPartnerAsWritten(i: int, n: nat, draws: nat -> real, k: nat, fuel: nat): Option<int>
    requires n > 0
  {
    Redraw(i, n, draws, k, (i + 1) % n, fuel)
  }

  function Redraw(i: int, n: nat, draws: nat -> real, k: nat, j: int, fuel: nat): Option<int>
    decreases fuel
  {
    if j != i then Some(j)
    else if fuel == 0 then None
    else Redraw(i, n, draws, k + 1, Random(draws(k), n as real).Floor, fuel - 1)
  }

  /** With two or more tiles the first partner `(i + 1) % n` already differs
      from i, so the loop body never runs. */
  lemma RepairPartnerWithoutRedraw(i: int, n: nat, draws: nat -> real, k: nat)
    requires n >= 2 && 0 <= i < n
    ensures RepairPartnerAsWritten(i, n, draws, k, 0) == Some((i + 1) % n)
    ensures (i + 1) % n != i
  {
    if i + 1 < n {
      assert (i + 1) % n == i + 1;
    } else {
      assert (i + 1) % n == 0;
    }
  }

  /** With one tile, nothing is swapped by the Fisher-Yates pass, the first
      partner `(0 + 1) % 1` is tile 0 itself, and every redraw
      `floor(u * 1)` is 0 again: the loop never leaves, however many draws it
      is given. */
  lemma {:induction false} OneTileRepairNeverLeaves(draws: nat -> real, k: nat, fuel: nat)
    requires UnitDraws(draws)
    ensures RepairPartnerAsWritten(0, 1, draws, k, fuel) == None
  {
    RedrawOfOneTile(draws, k, fuel);
  }

  lemma {:induction false} RedrawOfOneTile(draws: nat -> real, k: nat, fuel: nat)
    requires UnitDraws(draws)
    ensures Redraw(0, 1, draws, k, 0, fuel) == None
    decreases fuel
  {
    if fuel > 0 {
      RandomIndexInRange(draws(k), 1);
      RedrawOfOneTile(draws, k + 1, fuel - 1);
    }
  }
}
