/** What a whole run of edits leaves alone: every node and edge that none of its edits names. */
module CanvasEditRuns {
  import opened Results
  import opened Text
  import opened CanvasModel
  import opened CanvasNormalForm
  import opened CanvasEdits

  /** The edit changes the node of that id. */
  predicate NamesNode(e: Edit, id: string) {
    match e
    case Move(nodeID, _, _) => Trim(nodeID) == id
    case SetFields(nodeID, _) => Trim(nodeID) == id
    case _ => false
  }

  /** The edit replaces or removes the edge of that id; a deletion also takes case variants. */
  predicate NamesEdge(e: Edit, id: string) {
    match e
    case Patch(edge) => Trim(edge.id) == id
    case Delete(edgeID) => EqualFold(id, Trim(edgeID))
    case _ => false
  }

  predicate NodeNamed(edits: seq<Edit>, id: string) {
    exists i :: 0 <= i < |edits| && NamesNode(edits[i], id)
  }

  predicate EdgeNamed(edits: seq<Edit>, id: string) {
    exists i :: 0 <= i < |edits| && NamesEdge(edits[i], id)
  }

  /** The edges that no edit names, in their order. */
  function Unnamed(edges: seq<CanvasEdge>, edits: seq<Edit>): seq<CanvasEdge> {
    if edges == [] then []
    else (if EdgeNamed(edits, edges[0].id) then [] else [edges[0]]) + Unnamed(edges[1..], edits)
  }

  lemma {:induction false} UnnamedConcat(a: seq<CanvasEdge>, b: seq<CanvasEdge>, edits: seq<Edit>)
    ensures Unnamed(a + b, edits) == Unnamed(a, edits) + Unnamed(b, edits)
  {
    hide EdgeNamed;
    if a == [] {
      assert a + b == b;
    } else {
      assert (a + b)[1..] == a[1..] + b;
      UnnamedConcat(a[1..], b, edits);
    }
  }

  lemma UnnamedReplaced(edges: seq<CanvasEdge>, k: nat, e: CanvasEdge, edits: seq<Edit>)
    requires k < |edges| && EdgeNamed(edits, edges[k].id) && EdgeNamed(edits, e.id)
    ensures Unnamed(edges[k := e], edits) == Unnamed(edges, edits)
  {
    hide EdgeNamed;
    var before, after := edges[..k], edges[k + 1..];
    assert edges == before + [edges[k]] + after;
    assert edges[k := e] == before + [e] + after;
    UnnamedConcat(before + [edges[k]], after, edits);
    UnnamedConcat(before, [edges[k]], edits);
    UnnamedConcat(before + [e], after, edits);
    UnnamedConcat(before, [e], edits);
    UnnamedOne(edges[k], edits);
    UnnamedOne(e, edits);
  }

  lemma UnnamedOne(e: CanvasEdge, edits: seq<Edit>)
    ensures Unnamed([e], edits) == if EdgeNamed(edits, e.id) then [] else [e]
  {
    hide EdgeNamed;
    assert [e][1..] == [];
  }

  lemma {:induction false} UnnamedWithout(edges: seq<CanvasEdge>, id: string, edits: seq<Edit>)
    requires forall e :: e in edges && EqualFold(e.id, id) ==> EdgeNamed(edits, e.id)
    ensures Unnamed(WithoutEdge(edges, id), edits) == Unnamed(edges, edits)
  {
    hide EdgeNamed, EqualFold;
    if edges != [] {
      UnnamedWithout(edges[1..], id, edits);
      if !EqualFold(edges[0].id, id) {
        assert ([edges[0]] + WithoutEdge(edges[1..], id))[1..] == WithoutEdge(edges[1..], id);
      }
    }
  }

  /** The nodes stay where they are, the unnamed ones as they are; the unnamed edges stay in front, in order. */
  predicate Leaves(s: CanvasSpec, t: CanvasSpec, edits: seq<Edit>) {
    && t.version == s.version && t.name == s.name
    && |s.nodes| <= |t.nodes|
    && (forall i :: 0 <= i < |s.nodes| ==>
          t.nodes[i].id == s.nodes[i].id && (!NodeNamed(edits, s.nodes[i].id) ==> t.nodes[i] == s.nodes[i]))
    && Unnamed(s.edges, edits) <= Unnamed(t.edges, edits)
  }

  lemma EditLeaves(s: CanvasSpec, edits: seq<Edit>, k: nat)
    requires WellFormed(s) && k < |edits| && ApplyEdit(s, edits[k]).Ok?
    ensures Leaves(s, ApplyEdit(s, edits[k]).value, edits)
  {
    hide WellFormed, MoveNode, SetNodeFields, AddNode, AddEdge, PatchEdge, DeleteEdge, NormalNode, SelectedOf, SelectedWF, EdgeWF,
         StoredEdge, Trim, EqualFold, Unnamed;
    match edits[k]
    case Move(id, x, y) =>
      MoveNodeMeaning(s, id, x, y);
      assert NodeNamed(edits, Trim(id)) by { assert NamesNode(edits[k], Trim(id)); }
    case SetFields(id, fields) =>
      SetNodeFieldsMeaning(s, id, fields);
      assert NodeNamed(edits, Trim(id)) by { assert NamesNode(edits[k], Trim(id)); }
    case NewNode(node) => AddNodeMeaning(s, node);
    case NewEdge(edge) =>
      AddEdgeMeaning(s, edge);
      UnnamedConcat(s.edges, [StoredEdge(edge)], edits);
    case Patch(edge) =>
      PatchEdgeMeaning(s, edge);
      StoredEdgeShape(edge);
      assert EdgeNamed(edits, Trim(edge.id)) by { assert NamesEdge(edits[k], Trim(edge.id)); }
      var j :| 0 <= j < |s.edges| && s.edges[j].id == Trim(edge.id)
               && PatchEdge(s, edge).value == s.(edges := s.edges[j := StoredEdge(edge)]);
      UnnamedReplaced(s.edges, j, StoredEdge(edge), edits);
    case Delete(id) =>
      DeleteEdgeMeaning(s, id);
      forall e | e in s.edges && EqualFold(e.id, Trim(id))
        ensures EdgeNamed(edits, e.id)
      {
        assert NamesEdge(edits[k], e.id);
      }
      UnnamedWithout(s.edges, Trim(id), edits);
  }

  lemma LeavesTransitive(s: CanvasSpec, t: CanvasSpec, u: CanvasSpec, edits: seq<Edit>)
    requires Leaves(s, t, edits) && Leaves(t, u, edits)
    ensures Leaves(s, u, edits)
  {
    hide NodeNamed, Unnamed;
  }

  lemma {:induction false} RunFromLeaves(s: CanvasSpec, edits: seq<Edit>, k: nat)
    requires WellFormed(s) && k <= |edits|
    ensures Leaves(s, RunEdits(s, edits[k..]), edits)
    decreases |edits| - k
  {
    hide WellFormed, ApplyEdit, Leaves;
    if k == |edits| {
      assert Leaves(s, s, edits) by { LeavesItself(s, edits); }
    } else {
      assert edits[k..][0] == edits[k] && edits[k..][1..] == edits[k + 1..];
      match ApplyEdit(s, edits[k])
      case Ok(next) =>
        EditLeaves(s, edits, k);
        EditGivesWellFormed(s, edits[k]);
        RunFromLeaves(next, edits, k + 1);
        LeavesTransitive(s, next, RunEdits(next, edits[k + 1..]), edits);
      case Err(_) => RunFromLeaves(s, edits, k + 1);
    }
  }

  lemma LeavesItself(s: CanvasSpec, edits: seq<Edit>)
    ensures Leaves(s, s, edits)
  {
    hide NodeNamed, Unnamed;
  }

  /**
    Every run of edits from a well-formed canvas ends in one, keeps every node at its
    place, and leaves alone each node and edge that no edit of the run names.
   */
  lemma RunEditsLeaves(s: CanvasSpec, edits: seq<Edit>)
    requires WellFormed(s)
    ensures WellFormed(RunEdits(s, edits)) && Leaves(s, RunEdits(s, edits), edits)
  {
    hide WellFormed, RunEdits, Leaves;
    assert edits[0..] == edits;
    RunEditsWellFormed(s, edits);
    RunFromLeaves(s, edits, 0);
  }
}
