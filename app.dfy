/** The game state of the single-page app (`dist/app.js`): the original and
    the scrambled tiles, the tile the player has selected, and whether the
    differences are highlighted. Clicking a tile selects it, clicking it again
    deselects it, and clicking another tile swaps the two colours and checks
    for the win. */
module App {
  import opened Geometry
  import Puzzle

  /** `checkIfSolved` of the app: every scrambled tile shows the original's
      colour at its index. There is no length check; `original[i]` is read for
      every index of `scrambled`, so the original must be at least as long. */
  method CheckIfSolved<C(==)>(scrambled: seq<Puzzle.Tile<C>>, original: seq<Puzzle.Tile<C>>) returns (solved: bool)
    requires |scrambled| <= |original|
    ensures solved <==> Puzzle.Colors(scrambled) == Puzzle.Colors(original)[..|scrambled|]
  {
    var i := 0;
    while i < |scrambled|
      invariant 0 <= i <= |scrambled|
      invariant Puzzle.Colors(scrambled)[..i] == Puzzle.Colors(original)[..i]
    {
      if scrambled[i].color != original[i].color {
        assert Puzzle.Colors(scrambled)[i] != Puzzle.Colors(original)[..|scrambled|][i];
        return false;
      }
      i := i + 1;
    }
    assert Puzzle.Colors(scrambled) == Puzzle.Colors(scrambled)[..i];
    return true;
  }

  /** The hint flags: empty while hints are hidden, otherwise one flag per
      scrambled tile telling whether its colour differs from the original's. */
  function HintDiff<C(==)>(scrambled: seq<Puzzle.Tile<C>>, original: seq<Puzzle.Tile<C>>, showHint: bool): (diff: seq<bool>)
    requires |scrambled| <= |original|
    ensures !showHint ==> diff == []
    ensures showHint ==> |diff| == |scrambled|
    ensures showHint ==>
      forall i :: 0 <= i < |scrambled| ==> (diff[i] <==> scrambled[i].color != original[i].color)
  {
    if showHint then seq(|scrambled|, i requires 0 <= i < |scrambled| => scrambled[i].color != original[i].color)
    else []
  }

  /** With hints shown, no tile is flagged exactly when the puzzle is solved. */
  lemma NoDifferenceIffSolved<C>(scrambled: seq<Puzzle.Tile<C>>, original: seq<Puzzle.Tile<C>>)
    requires |scrambled| == |original|
    ensures (forall i :: 0 <= i < |scrambled| ==> !HintDiff(scrambled, original, true)[i]) <==>
            Puzzle.Colors(scrambled) == Puzzle.Colors(original)
  {
    var diff := HintDiff(scrambled, original, true);
    if forall i :: 0 <= i < |scrambled| ==> !diff[i] {
      assert forall i :: 0 <= i < |scrambled| ==> Puzzle.Colors(scrambled)[i] == Puzzle.Colors(original)[i];
    } else {
      var i :| 0 <= i < |scrambled| && diff[i];
      assert Puzzle.Colors(scrambled)[i] != Puzzle.Colors(original)[i];
    }
  }

  /** The fields of `state` that the game logic reads and writes. */
  class GameState<C(==)> {
    var originalCells: seq<Puzzle.Tile<C>>
    var scrambledCells: seq<Puzzle.Tile<C>>
    var selectedIndex: Option<int>
    var showHint: bool

    ghost predicate Valid()
      reads this
    {
      |scrambledCells| == |originalCells| &&
      (selectedIndex.Some? ==> 0 <= selectedIndex.value < |scrambledCells|)
    }

    /** The state `startGame` sets up: nothing selected, hints hidden. */
    constructor(original: seq<Puzzle.Tile<C>>, scrambled: seq<Puzzle.Tile<C>>)
      requires |scrambled| == |original|
      ensures Valid()
      ensures originalCells == original && scrambledCells == scrambled
      ensures selectedIndex == None && !showHint
    {
      originalCells := original;
      scrambledCells := scrambled;
      selectedIndex := None;
      showHint := false;
    }

    /** `handleCellClick(index)`; won tells whether the win screen is scheduled. */
    method HandleCellClick(index: int) returns (won: bool)
      requires Valid() && 0 <= index < |scrambledCells|
      modifies this
      ensures Valid()
      ensures !showHint && originalCells == old(originalCells)
      ensures old(selectedIndex) == None ==>
        selectedIndex == Some(index) && scrambledCells == old(scrambledCells) && !won
      ensures old(selectedIndex) == Some(index) ==>
        selectedIndex == None && scrambledCells == old(scrambledCells) && !won
      ensures old(selectedIndex).Some? && old(selectedIndex).value != index ==>
        selectedIndex == None &&
        scrambledCells == Puzzle.SwapColors(old(scrambledCells), old(selectedIndex).value, index) &&
        (won <==> Puzzle.Colors(scrambledCells) == Puzzle.Colors(originalCells))
      ensures Puzzle.Rearranges(scrambledCells, old(scrambledCells))
    {
      showHint := false;
      won := false;
      if selectedIndex == None {
        selectedIndex := Some(index);
      } else if selectedIndex == Some(index) {
        selectedIndex := None;
      } else {
        var a, b := selectedIndex.value, index;
        Puzzle.SwapRearranges(scrambledCells, scrambledCells, a, b);
        scrambledCells := Puzzle.SwapColors(scrambledCells, a, b);
        selectedIndex := None;
        won := CheckIfSolved(scrambledCells, originalCells);
      }
    }

    /** `toggleHint`. */
    method ToggleHint()
      modifies this
      ensures showHint == !old(showHint)
      ensures originalCells == old(originalCells) && scrambledCells == old(scrambledCells)
      ensures selectedIndex == old(selectedIndex)
    {
      showHint := !showHint;
    }
  }
}
