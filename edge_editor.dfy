/**
 * The moveset authoring tool of the edge editor: the current edge name,
 * typed by the user, and the button that folds the editor selection into a
 * moveset (the ids of the selected puzzle pieces, closed into a cycle) and
 * appends it to the edge of that name.
 */
module EdgeEditor {
  import opened Wrappers

  /** A moveset: the piece ids an edge cycles through. */
  datatype EdgeMoveset = EdgeMoveset(order: seq<int>)

  /** A puzzle edge component; its behaviour's moveset list grows in place. */
  class PuzzleEdge {
    const edgeName: string
    var movesets: seq<EdgeMoveset>

    constructor(edgeName: string)
      ensures this.edgeName == edgeName && movesets == []
    {
      this.edgeName := edgeName;
      movesets := [];
    }

    method AddMoveset(moveset: EdgeMoveset)
      modifies this
      ensures movesets == old(movesets) + [moveset]
    {
      movesets := movesets + [moveset];
    }
  }

  /** An actor of the level: whether it is a puzzle, and its edge components. */
  class Actor {
    const isPuzzle: bool
    const edges: seq<PuzzleEdge>

    constructor(isPuzzle: bool, edges: seq<PuzzleEdge>)
      ensures this.isPuzzle == isPuzzle && this.edges == edges
    {
      this.isPuzzle := isPuzzle;
      this.edges := edges;
    }

    /** The puzzle's edge lookup: the first of its edges with that name. */
    function GetEdgeByName(name: string): (r: Option<PuzzleEdge>)
      ensures r.None? <==> forall k :: 0 <= k < |edges| ==> edges[k].edgeName != name
      ensures r.Some? ==> exists k :: 0 <= k < |edges| && edges[k] == r.value && r.value.edgeName == name
                                      && forall j :: 0 <= j < k ==> edges[j].edgeName != name
    {
      if FindEdge(edges, name).Some? then FindEdgeIsFirst(edges, name); FindEdge(edges, name)
      else None
    }
  }

  /** The first edge of `edges` named `name`, if any. */
  function FindEdge(edges: seq<PuzzleEdge>, name: string): (r: Option<PuzzleEdge>)
    ensures r.Some? ==> r.value in edges && r.value.edgeName == name
    ensures r.None? <==> forall k :: 0 <= k < |edges| ==> edges[k].edgeName != name
  {
    if edges == [] then None
    else if edges[0].edgeName == name then Some(edges[0])
    else FindEdge(edges[1..], name)
  }

  /** No edge before the one found has the name. */
  lemma {:induction false} FindEdgeIsFirst(edges: seq<PuzzleEdge>, name: string)
    requires FindEdge(edges, name).Some?
    ensures exists k :: 0 <= k < |edges| && edges[k] == FindEdge(edges, name).value
                        && forall j :: 0 <= j < k ==> edges[j].edgeName != name
  {
    if edges[0].edgeName != name {
      FindEdgeIsFirst(edges[1..], name);
      var k :| 0 <= k < |edges[1..]| && edges[1..][k] == FindEdge(edges[1..], name).value
               && forall j :: 0 <= j < k ==> edges[1..][j].edgeName != name;
      assert edges[k + 1] == edges[1..][k];
      forall j | 0 <= j < k + 1
        ensures edges[j].edgeName != name
      {
        if j > 0 {
          assert edges[j] == edges[1..][j - 1];
        }
      }
    }
  }

  /** An object of the editor selection: a puzzle piece component, or anything else. */
  datatype SelectedObject =
    | PieceComponent(id: int, owner: Option<Actor>, selectedInEditor: bool)
    | OtherObject

  /** The id a selection object contributes: one for a selected piece, none otherwise. */
  function PieceIds(o: SelectedObject): seq<int>
  {
    if o.PieceComponent? && o.selectedInEditor then [o.id] else []
  }

  /** The ids of the selected pieces, in selection order. */
  function SelectedIds(objects: seq<SelectedObject>): seq<int>
  {
    if objects == [] then []
    else SelectedIds(objects[..|objects| - 1]) + PieceIds(objects[|objects| - 1])
  }

  /** The owner recorded by the fold: that of the last piece, selected or not; None without pieces. */
  function LastOwner(objects: seq<SelectedObject>): Option<Actor>
  {
    if objects == [] then None
    else if objects[|objects| - 1].PieceComponent? then objects[|objects| - 1].owner
    else LastOwner(objects[..|objects| - 1])
  }

  /** The start id: the first id that differs from the sentinel -1, or -1 if there is none. */
  function FirstId(ids: seq<int>): int
  {
    if ids == [] then -1
    else if ids[0] != -1 then ids[0]
    else FirstId(ids[1..])
  }

  /** The moveset the button produces, or None when it aborts before looking for an edge. */
  function Moveset(objects: seq<SelectedObject>): Option<EdgeMoveset>
  {
    var ids := SelectedIds(objects);
    if FirstId(ids) == -1 || LastOwner(objects).None? then None
    else Some(EdgeMoveset(ids + [FirstId(ids)]))
  }

  /** The edges the button may append to: those of the recorded owner. */
  function OwnerEdges(objects: seq<SelectedObject>): set<PuzzleEdge>
  {
    var owner := LastOwner(objects);
    if owner.None? then {} else set e | e in owner.value.edges
  }

  /** The target of the button: the owner's edge with the given name, unless the button aborts first. */
  function TargetEdge(objects: seq<SelectedObject>, edgeName: string): Option<PuzzleEdge>
  {
    if Moveset(objects).None? then None else FindEdge(LastOwner(objects).value.edges, edgeName)
  }

  /** What the button appends to edge `e`: the moveset if `e` is the target, nothing otherwise. */
  function AddedTo(objects: seq<SelectedObject>, edgeName: string, e: PuzzleEdge): seq<EdgeMoveset>
  {
    if TargetEdge(objects, edgeName) == Some(e) then [Moveset(objects).value] else []
  }

  /**
   * The button adds exactly one moveset, to one edge of the owner carrying the
   * current edge name, and then only when it did not abort and such an edge exists.
   */
  lemma TargetEdgeMeaning(objects: seq<SelectedObject>, edgeName: string)
    ensures TargetEdge(objects, edgeName).Some? <==>
            Moveset(objects).Some? && exists e :: e in OwnerEdges(objects) && e.edgeName == edgeName
    ensures TargetEdge(objects, edgeName).Some? ==>
              var t := TargetEdge(objects, edgeName).value;
              t in OwnerEdges(objects) && t.edgeName == edgeName
              && AddedTo(objects, edgeName, t) == [Moveset(objects).value]
              && forall e :: e != t ==> AddedTo(objects, edgeName, e) == []
    ensures TargetEdge(objects, edgeName).None? ==> forall e :: AddedTo(objects, edgeName, e) == []
  {
    if Moveset(objects).Some? {
      var edges := LastOwner(objects).value.edges;
      if exists e :: e in OwnerEdges(objects) && e.edgeName == edgeName {
        var e :| e in OwnerEdges(objects) && e.edgeName == edgeName;
        var k :| 0 <= k < |edges| && edges[k] == e;
      }
    }
  }

  /** The start id is set once: a later id matters only while it is still the sentinel. */
  lemma {:induction false} FirstIdSnoc(ids: seq<int>, x: int)
    ensures FirstId(ids + [x]) == if FirstId(ids) == -1 then x else FirstId(ids)
  {
    if ids == [] {
      assert [x][1..] == [];
    } else {
      assert (ids + [x])[1..] == ids[1..] + [x];
      FirstIdSnoc(ids[1..], x);
    }
  }

  /** The start id stays the sentinel -1 exactly when every id is -1. */
  lemma {:induction false} FirstIdUnset(ids: seq<int>)
    ensures FirstId(ids) == -1 <==> forall k :: 0 <= k < |ids| ==> ids[k] == -1
  {
    if ids != [] && ids[0] == -1 {
      FirstIdUnset(ids[1..]);
      assert forall k :: 0 <= k < |ids[1..]| ==> ids[1..][k] == ids[k + 1];
    }
  }

  /** A start id other than -1 is an id of the sequence, and every id before it is -1. */
  lemma {:induction false} FirstIdFound(ids: seq<int>)
    requires FirstId(ids) != -1
    ensures exists k :: 0 <= k < |ids| && ids[k] == FirstId(ids) && forall j :: 0 <= j < k ==> ids[j] == -1
  {
    if ids[0] == -1 {
      FirstIdFound(ids[1..]);
      var k :| 0 <= k < |ids[1..]| && ids[1..][k] == FirstId(ids[1..])
               && forall j :: 0 <= j < k ==> ids[1..][j] == -1;
      assert ids[k + 1] == ids[1..][k];
      forall j | 0 <= j < k + 1
        ensures ids[j] == -1
      {
        if j > 0 {
          assert ids[j] == ids[1..][j - 1];
        }
      }
    }
  }

  /** Without the sentinel among the ids, the start id is the first id. */
  lemma FirstIdNoSentinel(ids: seq<int>)
    requires |ids| > 0 && forall k :: 0 <= k < |ids| ==> ids[k] != -1
    ensures FirstId(ids) == ids[0]
  {
  }

  /** The ids of a concatenated selection are the ids of its parts, in order. */
  lemma {:induction false} SelectedIdsConcat(a: seq<SelectedObject>, b: seq<SelectedObject>)
    ensures SelectedIds(a + b) == SelectedIds(a) + SelectedIds(b)
    decreases |b|
  {
    if b == [] {
      assert a + b == a;
    } else {
      var n := |b| - 1;
      assert (a + b)[..|a + b| - 1] == a + b[..n];
      SelectedIdsConcat(a, b[..n]);
    }
  }

  /** The ids are exactly those of the selected pieces. */
  lemma {:induction false} SelectedIdsMembers(objects: seq<SelectedObject>, x: int)
    ensures x in SelectedIds(objects) <==>
            exists k :: 0 <= k < |objects| && objects[k].PieceComponent? && objects[k].selectedInEditor
                        && objects[k].id == x
  {
    if objects != [] {
      var n := |objects| - 1;
      SelectedIdsMembers(objects[..n], x);
      if x in SelectedIds(objects[..n]) {
        var k :| 0 <= k < n && objects[..n][k].PieceComponent? && objects[..n][k].selectedInEditor
                 && objects[..n][k].id == x;
        assert objects[k] == objects[..n][k];
      }
      if exists k :: 0 <= k < |objects| && objects[k].PieceComponent? && objects[k].selectedInEditor
                     && objects[k].id == x {
        var k :| 0 <= k < |objects| && objects[k].PieceComponent? && objects[k].selectedInEditor
                 && objects[k].id == x;
        if k < n {
          assert objects[..n][k] == objects[k];
        }
      }
    }
  }

  /** An object that is not a piece changes nothing: not the ids, not the owner, not the moveset. */
  lemma OtherObjectIgnored(a: seq<SelectedObject>, b: seq<SelectedObject>)
    ensures SelectedIds(a + [OtherObject] + b) == SelectedIds(a + b)
    ensures LastOwner(a + [OtherObject] + b) == LastOwner(a + b)
    ensures Moveset(a + [OtherObject] + b) == Moveset(a + b)
  {
    assert [OtherObject][..0] == [];
    assert SelectedIds([OtherObject]) == [];
    SelectedIdsConcat(a, [OtherObject]);
    assert SelectedIds(a + [OtherObject]) == SelectedIds(a);
    SelectedIdsConcat(a + [OtherObject], b);
    SelectedIdsConcat(a, b);
    LastOwnerOtherObject(a, b);
  }

  lemma {:induction false} LastOwnerOtherObject(a: seq<SelectedObject>, b: seq<SelectedObject>)
    ensures LastOwner(a + [OtherObject] + b) == LastOwner(a + b)
    decreases |b|
  {
    if b == [] {
      assert (a + [OtherObject] + b)[..|a|] == a;
      assert a + b == a;
    } else {
      var n := |b| - 1;
      assert (a + [OtherObject] + b)[..|a| + 1 + n] == a + [OtherObject] + b[..n];
      assert (a + b)[..|a| + n] == a + b[..n];
      LastOwnerOtherObject(a, b[..n]);
    }
  }

  /** An unselected piece adds no id, yet it becomes the owner unless a later piece follows. */
  lemma UnselectedPieceAddsNoId(a: seq<SelectedObject>, p: SelectedObject, b: seq<SelectedObject>)
    requires p.PieceComponent? && !p.selectedInEditor
    ensures SelectedIds(a + [p] + b) == SelectedIds(a + b)
    ensures LastOwner(a + [p]) == p.owner
  {
    assert [p][..0] == [];
    assert SelectedIds([p]) == [];
    SelectedIdsConcat(a, [p]);
    assert SelectedIds(a + [p]) == SelectedIds(a);
    SelectedIdsConcat(a + [p], b);
    SelectedIdsConcat(a, b);
    assert (a + [p])[..|a|] == a;
  }

  /**
   * The owner is the owner of the last piece of the selection, selected or
   * not, and None when the selection holds no piece.
   */
  lemma {:induction false} LastOwnerIsLastPiece(objects: seq<SelectedObject>)
    ensures (forall k :: 0 <= k < |objects| ==> !objects[k].PieceComponent?) ==> LastOwner(objects).None?
    ensures forall k :: 0 <= k < |objects| && objects[k].PieceComponent?
                        && (forall j :: k < j < |objects| ==> !objects[j].PieceComponent?)
                        ==> LastOwner(objects) == objects[k].owner
  {
    if objects != [] {
      var n := |objects| - 1;
      LastOwnerIsLastPiece(objects[..n]);
      forall k | 0 <= k < n
        ensures objects[..n][k] == objects[k]
      {
      }
    }
  }

  /** A recorded owner is the owner of some piece of the selection. */
  lemma {:induction false} LastOwnerIsAPieceOwner(objects: seq<SelectedObject>)
    requires LastOwner(objects).Some?
    ensures exists k :: 0 <= k < |objects| && objects[k].PieceComponent? && objects[k].owner == LastOwner(objects)
  {
    var n := |objects| - 1;
    if !objects[n].PieceComponent? {
      LastOwnerIsAPieceOwner(objects[..n]);
      var k :| 0 <= k < n && objects[..n][k].PieceComponent? && objects[..n][k].owner == LastOwner(objects[..n]);
      assert objects[k] == objects[..n][k];
    }
  }

  /**
   * When the button does not abort, the moveset is the selected ids followed
   * by the start id, a selected id differing from -1: the cycle is closed.
   */
  lemma MovesetClosesCycle(objects: seq<SelectedObject>)
    requires Moveset(objects).Some?
    ensures var order := Moveset(objects).value.order;
            |order| >= 2 && order[..|order| - 1] == SelectedIds(objects)
            && order[|order| - 1] == FirstId(SelectedIds(objects)) != -1
            && order[|order| - 1] in SelectedIds(objects)
  {
    var ids := SelectedIds(objects);
    FirstIdFound(ids);
    var k :| 0 <= k < |ids| && ids[k] == FirstId(ids) && forall j :: 0 <= j < k ==> ids[j] == -1;
    assert (ids + [FirstId(ids)])[..|ids|] == ids;
  }

  /** The button produces a moveset exactly when an owner was recorded and some selected id differs from -1. */
  lemma {:induction false} MovesetPresent(objects: seq<SelectedObject>)
    ensures Moveset(objects).Some? <==>
            LastOwner(objects).Some?
            && exists k :: 0 <= k < |SelectedIds(objects)| && SelectedIds(objects)[k] != -1
  {
    FirstIdUnset(SelectedIds(objects));
    assert Moveset(objects).Some? <==> LastOwner(objects).Some? && FirstId(SelectedIds(objects)) != -1;
  }

  /** Without the sentinel among the ids, the moveset is the ids with the first one repeated. */
  lemma MovesetNoSentinel(objects: seq<SelectedObject>)
    requires LastOwner(objects).Some?
    requires |SelectedIds(objects)| > 0
    requires forall k :: 0 <= k < |SelectedIds(objects)| ==> SelectedIds(objects)[k] != -1
    ensures Moveset(objects) == Some(EdgeMoveset(SelectedIds(objects) + [SelectedIds(objects)[0]]))
  {
    FirstIdNoSentinel(SelectedIds(objects));
  }

  /** Selecting pieces 3, 1 and 2 of a puzzle, in that order, gives the moveset [3, 1, 2, 3]. */
  lemma MovesetExample(puzzle: Actor)
    ensures Moveset([PieceComponent(3, Some(puzzle), true), OtherObject, PieceComponent(1, Some(puzzle), true),
                     PieceComponent(2, Some(puzzle), true)])
            == Some(EdgeMoveset([3, 1, 2, 3]))
  {
    var p3, p1, p2 := PieceComponent(3, Some(puzzle), true), PieceComponent(1, Some(puzzle), true),
                      PieceComponent(2, Some(puzzle), true);
    var objects := [p3, OtherObject, p1, p2];
    assert [p3][..0] == [];
    assert SelectedIds([p3]) == [3];
    assert [p3, OtherObject][..1] == [p3];
    assert SelectedIds([p3, OtherObject]) == [3];
    assert [p3, OtherObject, p1][..2] == [p3, OtherObject];
    assert SelectedIds([p3, OtherObject, p1]) == [3, 1];
    assert objects[..3] == [p3, OtherObject, p1];
    assert SelectedIds(objects) == [3, 1, 2];
    assert FirstId([3, 1, 2]) == 3;
    assert [3, 1, 2] + [3] == [3, 1, 2, 3];
  }

  /** The edge editor module: the edge name typed by the user, and the moveset button. */
  class EdgeEditorModule {
    var edgeName: string

    constructor()
      ensures edgeName == ""
    {
      edgeName := "";
    }

    /** The edge-name text box: the typed text becomes the current edge name. */
    method SetEdgeName(text: string)
      modifies this`edgeName
      ensures edgeName == text
    {
      var edgeString := text;
      edgeName := edgeString;
    }

    /**
     * One step of the selection fold, on the three accumulators passed by
     * reference: a piece, selected or not, becomes the owner; a selected
     * piece appends its id, and becomes the start id while that is still -1;
     * any other object changes nothing.
     */
    method AddEdgeMovesetElement(obj: SelectedObject, puzzleActor: Option<Actor>, order: seq<int>,
                                 firstPieceId: int)
      returns (puzzleActor': Option<Actor>, order': seq<int>, firstPieceId': int)
      ensures puzzleActor' == (if obj.PieceComponent? then obj.owner else puzzleActor)
      ensures order' == order + PieceIds(obj)
      ensures obj.PieceComponent? && obj.selectedInEditor && firstPieceId == -1
              ==> firstPieceId' == obj.id
      ensures !(obj.PieceComponent? && obj.selectedInEditor && firstPieceId == -1)
              ==> firstPieceId' == firstPieceId
    {
      puzzleActor', order', firstPieceId' := puzzleActor, order, firstPieceId;
      if obj.PieceComponent? {
        puzzleActor' := obj.owner;
        if obj.selectedInEditor {
          order' := order' + [obj.id];
          if firstPieceId' == -1 {
            firstPieceId' := obj.id;
          }
        }
      }
    }

    /**
     * The moveset button: folds the selection, aborts when no start id or no
     * owner was found, and otherwise appends the closed moveset to the owner's
     * edge named by the current edge name, when there is one. No other edge changes.
     */
    method AddEdgeMoveset(objects: seq<SelectedObject>)
      requires Moveset(objects).Some? ==> LastOwner(objects).value.isPuzzle
      requires forall e :: e in OwnerEdges(objects) ==> allocated(e)
      modifies OwnerEdges(objects)
      ensures forall e :: e in OwnerEdges(objects) ==> e.movesets == old(e.movesets) + AddedTo(objects, edgeName, e)
    {
      var puzzleActor: Option<Actor> := None;
      var edgeMoveset := EdgeMoveset([]);
      var startElementId := -1;
      for i := 0 to |objects|
        modifies {}
        invariant puzzleActor == LastOwner(objects[..i])
        invariant edgeMoveset.order == SelectedIds(objects[..i])
        invariant startElementId == FirstId(edgeMoveset.order)
      {
        assert objects[..i + 1][..i] == objects[..i];
        if objects[i].PieceComponent? && objects[i].selectedInEditor {
          FirstIdSnoc(edgeMoveset.order, objects[i].id);
        } else {
          assert edgeMoveset.order + PieceIds(objects[i]) == edgeMoveset.order;
        }
        var order;
        puzzleActor, order, startElementId :=
          AddEdgeMovesetElement(objects[i], puzzleActor, edgeMoveset.order, startElementId);
        edgeMoveset := edgeMoveset.(order := order);
      }
      assert objects[..|objects|] == objects;

      if startElementId == -1 || puzzleActor.None? {
        assert Moveset(objects).None?;
        assert forall e :: AddedTo(objects, edgeName, e) == [];
        return;
      }
      edgeMoveset := edgeMoveset.(order := edgeMoveset.order + [startElementId]);
      assert Moveset(objects) == Some(edgeMoveset);

      var puzzle := puzzleActor.value;
      var edge := puzzle.GetEdgeByName(edgeName);
      assert edge == TargetEdge(objects, edgeName);
      if edge.None? {
        assert forall e :: AddedTo(objects, edgeName, e) == [];
        return;
      }
      edge.value.AddMoveset(edgeMoveset);
    }
  }

  /**
   * Typing "North" and pressing the button over pieces 3, 1 and 2 of a
   * puzzle whose only edge is "North" appends [3, 1, 2, 3] to that edge.
   */
  method AuthorNorthMoveset(editor: EdgeEditorModule, puzzle: Actor, north: PuzzleEdge)
    requires puzzle.isPuzzle && puzzle.edges == [north] && north.edgeName == "North"
    modifies editor, north
    ensures north.movesets == old(north.movesets) + [EdgeMoveset([3, 1, 2, 3])]
  {
    editor.SetEdgeName("North");
    var objects := [PieceComponent(3, Some(puzzle), true), OtherObject, PieceComponent(1, Some(puzzle), true),
                    PieceComponent(2, Some(puzzle), true)];
    MovesetExample(puzzle);
    assert LastOwner(objects) == Some(puzzle) by {
      assert objects[|objects| - 1].PieceComponent?;
    }
    assert OwnerEdges(objects) == {north};
    editor.AddEdgeMoveset(objects);
  }
}
