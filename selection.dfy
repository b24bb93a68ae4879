/** The click-selection controller of `app/state/poyrender.ts`: a closure over
    the polygon list it was created with and the selected id. Each click hands
    a new polygon list to `setPolygons`, which HandleSelection returns. */
module Selection {
  import opened Geometry

  /** A rendered polygon. */
  datatype Polygon = Polygon(color: string, highlighted: bool, id: string, points: seq<Point>)

  /** Only the highlight flag may differ. */
  predicate SameShape(p: Polygon, q: Polygon)
  {
    p.id == q.id && p.color == q.color && p.points == q.points
  }

  /** The list shown after a first click: the polygon whose id is `clickedId`
      highlighted, every other polygon as it was. A null click matches none. */
  function Highlight(polygons: seq<Polygon>, clickedId: Option<string>): (r: seq<Polygon>)
    ensures |r| == |polygons|
    ensures forall i :: 0 <= i < |polygons| ==> SameShape(r[i], polygons[i])
    ensures forall i :: 0 <= i < |polygons| ==>
      if clickedId == Some(polygons[i].id) then r[i].highlighted else r[i] == polygons[i]
  {
    seq(|polygons|, i requires 0 <= i < |polygons| =>
      if clickedId == Some(polygons[i].id) then polygons[i].(highlighted := true) else polygons[i])
  }

  /** The list shown after a second click: nothing highlighted. */
  function ClearHighlights(polygons: seq<Polygon>): (r: seq<Polygon>)
    ensures |r| == |polygons|
    ensures forall i :: 0 <= i < |polygons| ==> SameShape(r[i], polygons[i]) && !r[i].highlighted
  {
    seq(|polygons|, i requires 0 <= i < |polygons| => polygons[i].(highlighted := false))
  }

  predicate DistinctIds(polygons: seq<Polygon>)
  {
    forall i, j :: 0 <= i < j < |polygons| ==> polygons[i].id != polygons[j].id
  }

  /** With distinct ids and nothing highlighted before, a first click
      highlights exactly the clicked polygon, and none if no polygon has that id. */
  lemma HighlightOnlyClicked(polygons: seq<Polygon>, clickedId: Option<string>)
    requires DistinctIds(polygons)
    requires forall i :: 0 <= i < |polygons| ==> !polygons[i].highlighted
    ensures forall i :: 0 <= i < |polygons| ==>
      (Highlight(polygons, clickedId)[i].highlighted <==> clickedId == Some(polygons[i].id))
    ensures forall i, j ::
      (0 <= i < |polygons| && 0 <= j < |polygons| &&
       Highlight(polygons, clickedId)[i].highlighted && Highlight(polygons, clickedId)[j].highlighted) ==> i == j
  {
  }

  /** Highlighting and clearing never change a polygon's colour: the comment
      "swap colors" in the third branch has no code behind it. */
  lemma SelectionKeepsColors(polygons: seq<Polygon>, clickedId: Option<string>)
    ensures forall i :: 0 <= i < |polygons| ==>
      Highlight(polygons, clickedId)[i].color == polygons[i].color &&
      ClearHighlights(polygons)[i].color == polygons[i].color
  {
  }

  /** `createSelectionController(polygons, setPolygons)`. */
  class SelectionController {
    const polygons: seq<Polygon>
    var selectedId: Option<string>

    constructor(polygons: seq<Polygon>)
      ensures this.polygons == polygons && selectedId == None
    {
      this.polygons := polygons;
      selectedId := None;
    }

    /** `handleSelection(clickedId)`; shown is the list passed to `setPolygons`. */
    method HandleSelection(clickedId: Option<string>) returns (shown: seq<Polygon>)
      modifies this
      ensures old(selectedId) == None ==>
        selectedId == clickedId && shown == Highlight(polygons, clickedId)
      ensures old(selectedId) != None ==>
        selectedId == None && shown == ClearHighlights(polygons)
    {
      if selectedId == None {
        selectedId := clickedId;
        shown := Highlight(polygons, clickedId);
        return;
      }
      if selectedId == clickedId {
        selectedId := None;
        shown := ClearHighlights(polygons);
        return;
      }
      shown := ClearHighlights(polygons);
      selectedId := None;
    }
  }
}
