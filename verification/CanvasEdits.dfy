/**
  What each canvas edit does to a well-formed spec, when it fails, and what any
  sequence of edits keeps.
 */
module CanvasEdits {
  import opened Results
  import opened Text
  import opened CanvasModel
  import opened CanvasNormalForm

  // ---------- Replacing or adding one element ----------

  lemma HasFieldSame(a: CanvasNode, b: CanvasNode, column: string)
    requires a.fields == b.fields
    ensures HasField(a, column) == HasField(b, column)
  {
  }

  lemma EdgeWFInLargerNodes(nodes: seq<CanvasNode>, nodes': seq<CanvasNode>, e: CanvasEdge)
    requires EdgeWF(nodes, e)
    requires |nodes| <= |nodes'|
    requires forall i :: 0 <= i < |nodes| ==> nodes'[i].id == nodes[i].id && nodes'[i].fields == nodes[i].fields
    ensures EdgeWF(nodes', e)
  {
    hide ParseJoinType, Upper, Trimmed;
    var i :| 0 <= i < |nodes| && nodes[i].id == e.fromNode && HasField(nodes[i], e.fromColumn);
    var j :| 0 <= j < |nodes| && nodes[j].id == e.toNode && HasField(nodes[j], e.toColumn);
    HasFieldSame(nodes[i], nodes'[i], e.fromColumn);
    HasFieldSame(nodes[j], nodes'[j], e.toColumn);
    hide HasField;
  }

  /** Edges stay resolved when nodes are added, or replaced without touching ids and fields. */
  lemma EdgesWFInLargerNodes(nodes: seq<CanvasNode>, nodes': seq<CanvasNode>, edges: seq<CanvasEdge>)
    requires EdgesWF(nodes, edges)
    requires |nodes| <= |nodes'|
    requires forall i :: 0 <= i < |nodes| ==> nodes'[i].id == nodes[i].id && nodes'[i].fields == nodes[i].fields
    ensures EdgesWF(nodes', edges)
  {
    hide EdgeWF;
    forall k | 0 <= k < |edges|
      ensures EdgeWF(nodes', edges[k])
    {
      EdgeWFInLargerNodes(nodes, nodes', edges[k]);
    }
  }

  lemma ReplaceNodeWF(s: CanvasSpec, k: nat, n: CanvasNode)
    requires WellFormed(s) && k < |s.nodes|
    requires NodeWF(n)
    requires n.id == s.nodes[k].id && n.alias == s.nodes[k].alias && n.fields == s.nodes[k].fields
    ensures WellFormed(s.(nodes := s.nodes[k := n]))
  {
    EdgesWFInLargerNodes(s.nodes, s.nodes[k := n], s.edges);
    hide NodeWF, EdgesWF, Lower, Trimmed;
    var nodes' := s.nodes[k := n];
    assert forall i :: 0 <= i < |nodes'| ==> nodes'[i].id == s.nodes[i].id && nodes'[i].alias == s.nodes[i].alias;
  }

  lemma NormalNodesOfWF(nodes: seq<CanvasNode>)
    requires NodesWF(nodes)
    ensures NormalNodes(nodes) == nodes
  {
    forall i | 0 <= i < |nodes|
      ensures NormalNodes(nodes)[i] == nodes[i]
    {
      NormalNodeFix(nodes[i]);
    }
  }

  lemma NormalEdgesOfWF(nodes: seq<CanvasNode>, edges: seq<CanvasEdge>)
    requires NodesWF(nodes) && EdgesWF(nodes, edges)
    ensures NormalEdges(edges) == edges
  {
    forall i | 0 <= i < |edges|
      ensures NormalEdges(edges)[i] == edges[i]
    {
      NormalEdgeFix(nodes, edges[i]);
    }
  }

  // ---------- One edit each ----------

  /** Moving fails only on an unknown id, and changes nothing but that node's position. */
  lemma MoveNodeMeaning(s: CanvasSpec, nodeID: string, x: real, y: real)
    requires WellFormed(s)
    ensures MoveNode(s, nodeID, x, y).Ok? <==> exists k :: 0 <= k < |s.nodes| && s.nodes[k].id == Trim(nodeID)
    ensures forall k :: 0 <= k < |s.nodes| && s.nodes[k].id == Trim(nodeID) ==>
              MoveNode(s, nodeID, x, y) == Ok(s.(nodes := s.nodes[k :=
                s.nodes[k].(x := if x < 0.0 then 0.0 else x, y := if y < 0.0 then 0.0 else y)]))
  {
    WellFormedIsFixpoint(s);
    hide NormalizeSpec, WellFormed;
    forall k | 0 <= k < |s.nodes| && s.nodes[k].id == Trim(nodeID)
      ensures MoveNode(s, nodeID, x, y) == Ok(s.(nodes := s.nodes[k :=
                s.nodes[k].(x := if x < 0.0 then 0.0 else x, y := if y < 0.0 then 0.0 else y)]))
    {
      OnlyIndex(s, k, Trim(nodeID));
      var n := s.nodes[k].(x := NormalCoordinate(x), y := NormalCoordinate(y));
      RepositionedWF(s, k, n);
      WellFormedIsFixpoint(s.(nodes := s.nodes[k := n]));
    }
  }

  lemma OnlyIndex(s: CanvasSpec, k: nat, id: string)
    requires WellFormed(s) && k < |s.nodes| && s.nodes[k].id == id
    ensures NodeIndex(s.nodes, id) == Some(k) && id != ""
  {
    assert NodeWF(s.nodes[k]);
    hide NodeWF, EdgesWF, Lower;
    assert forall i, j :: 0 <= i < j < |s.nodes| ==> s.nodes[i].id != s.nodes[j].id;
  }

  lemma RepositionedWF(s: CanvasSpec, k: nat, n: CanvasNode)
    requires WellFormed(s) && k < |s.nodes| && n.x >= 0.0 && n.y >= 0.0
    requires n == s.nodes[k].(x := n.x, y := n.y)
    ensures WellFormed(s.(nodes := s.nodes[k := n]))
  {
    assert NodeWF(n) by {
      assert NodeWF(s.nodes[k]);
      hide FieldsWF, SelectedWF, Trimmed;
    }
    ReplaceNodeWF(s, k, n);
  }

  /** Selecting fails only on an unknown id; the selection is the known, distinct part of the request. */
  lemma SetNodeFieldsMeaning(s: CanvasSpec, nodeID: string, fields: seq<string>)
    requires WellFormed(s)
    ensures SetNodeFields(s, nodeID, fields).Ok? <==> exists k :: 0 <= k < |s.nodes| && s.nodes[k].id == Trim(nodeID)
    ensures forall k :: 0 <= k < |s.nodes| && s.nodes[k].id == Trim(nodeID) ==>
              && SetNodeFields(s, nodeID, fields) == Ok(s.(nodes := s.nodes[k :=
                   s.nodes[k].(selectedFields := SelectedOf(fields, s.nodes[k].fields))]))
              && SelectedWF(SelectedOf(fields, s.nodes[k].fields), FieldKeys(s.nodes[k].fields))
  {
    WellFormedIsFixpoint(s);
    hide NormalizeSpec, WellFormed, SelectedOf, SelectedWF;
    forall k | 0 <= k < |s.nodes| && s.nodes[k].id == Trim(nodeID)
      ensures SetNodeFields(s, nodeID, fields) == Ok(s.(nodes := s.nodes[k :=
                s.nodes[k].(selectedFields := SelectedOf(fields, s.nodes[k].fields))]))
      ensures SelectedWF(SelectedOf(fields, s.nodes[k].fields), FieldKeys(s.nodes[k].fields))
    {
      OnlyIndex(s, k, Trim(nodeID));
      SelectedOfWF(fields, s.nodes[k].fields);
      var n := s.nodes[k].(selectedFields := SelectedOf(fields, s.nodes[k].fields));
      ReselectedWF(s, k, n);
      WellFormedIsFixpoint(s.(nodes := s.nodes[k := n]));
    }
  }

  lemma ReselectedWF(s: CanvasSpec, k: nat, n: CanvasNode)
    requires WellFormed(s) && k < |s.nodes|
    requires n == s.nodes[k].(selectedFields := n.selectedFields)
    requires SelectedWF(n.selectedFields, FieldKeys(n.fields))
    ensures WellFormed(s.(nodes := s.nodes[k := n]))
  {
    assert NodeWF(n) by {
      assert NodeWF(s.nodes[k]);
      hide FieldsWF, SelectedWF, Trimmed;
    }
    ReplaceNodeWF(s, k, n);
  }

  /** Adding a node succeeds exactly when its id and alias are unused case variants included, and it is a named table. */
  lemma AddNodeMeaning(s: CanvasSpec, node: CanvasNode)
    requires WellFormed(s)
    ensures var n := NormalNode(node);
            && (AddNode(s, node).Ok? <==>
                  && n.id != "" && n.kind == NODE_KIND_TABLE && n.table != ""
                  && (forall i :: 0 <= i < |s.nodes| ==> !EqualFold(s.nodes[i].id, n.id))
                  && (forall i :: 0 <= i < |s.nodes| ==> !EqualFold(s.nodes[i].alias, n.alias)))
            && (AddNode(s, node).Ok? ==> AddNode(s, node).value == s.(nodes := s.nodes + [n]))
  {
    hide NormalizeSpec, WellFormed, NormalNode, NodeWF, NormalNewNode, Lower;
    WellFormedIsFixpoint(s);
    NewNodeId(node);
    GrownNodesAccepted(s, node);
    NormalNodeWF(node);
    DifferentCaseDifferent();
  }

  lemma DifferentCaseDifferent()
    ensures forall a: string, b: string {:trigger EqualFold(a, b)} :: !EqualFold(a, b) ==> a != b
  {
  }

  lemma NewNodeId(node: CanvasNode)
    ensures NormalNewNode(node).id == NormalNode(node).id
  {
  }

  lemma GrownNodesAccepted(s: CanvasSpec, node: CanvasNode)
    requires WellFormed(s)
    ensures var r := NormalizeSpec(s.(nodes := s.nodes + [NormalNewNode(node)]));
            && (r.Ok? <==> NodeWF(NormalNode(node)) && FreshNode(s.nodes, NormalNode(node)))
            && (r.Ok? ==> r.value == s.(nodes := s.nodes + [NormalNode(node)]))
  {
    GrownNodesWF(s, NormalNode(node));
    NormalizeSpecAccepts(s.(nodes := s.nodes + [NormalNewNode(node)]));
    GrownNodesNormalForm(s, node);
    hide *;
  }

  lemma GrownNodesNormalForm(s: CanvasSpec, node: CanvasNode)
    requires WellFormed(s)
    ensures NormalForm(s.(nodes := s.nodes + [NormalNewNode(node)])) == s.(nodes := s.nodes + [NormalNode(node)])
  {
    NormalNodesOfWF(s.nodes);
    NormalEdgesOfWF(s.nodes, s.edges);
    NormalNewNodeIsAbsorbed(node);
    hide NodesWF, EdgesWF, NormalNode, NormalEdge, NormalNewNode;
    var grown := s.(nodes := s.nodes + [NormalNewNode(node)]);
    assert NormalNodes(grown.nodes) == NormalNodes(s.nodes) + [NormalNode(NormalNewNode(node))];
  }

  lemma GrownNodesWF(s: CanvasSpec, n: CanvasNode)
    requires WellFormed(s)
    ensures WellFormed(s.(nodes := s.nodes + [n])) <==> NodeWF(n) && FreshNode(s.nodes, n)
  {
    NodesGrow(s.nodes, n);
    EdgesWFInLargerNodes(s.nodes, s.nodes + [n], s.edges);
    hide NodesWF, EdgesWF, NodeWF, FreshNode, Trimmed;
  }

  // The form in which a new edge is stored.
  function StoredEdge(e: CanvasEdge): CanvasEdge {
    NormalEdge(NormalNewEdge(e))
  }

  lemma StoredEdgeShape(e: CanvasEdge)
    ensures StoredEdge(e).id == Trim(e.id) && NormalNewEdge(e).id == Trim(e.id)
    ensures NormalEdge(StoredEdge(e)) == StoredEdge(e)
  {
    NormalEdgeIdempotent(NormalNewEdge(e));
  }

  lemma NormalEdgesConcat(a: seq<CanvasEdge>, b: seq<CanvasEdge>)
    ensures NormalEdges(a + b) == NormalEdges(a) + NormalEdges(b)
  {
    hide NormalEdge;
  }

  lemma WithEdgesNormalForm(s: CanvasSpec, before: seq<CanvasEdge>, e: CanvasEdge, after: seq<CanvasEdge>)
    requires WellFormed(s) && EdgesWF(s.nodes, before) && EdgesWF(s.nodes, after)
    ensures NormalForm(s.(edges := before + [NormalNewEdge(e)] + after)) == s.(edges := before + [StoredEdge(e)] + after)
  {
    NormalNodesOfWF(s.nodes);
    NormalEdgesOfWF(s.nodes, before);
    NormalEdgesOfWF(s.nodes, after);
    hide NodesWF, EdgesWF, NormalNode, NormalEdge, NormalNewEdge;
    NormalEdgesConcat(before + [NormalNewEdge(e)], after);
    NormalEdgesConcat(before, [NormalNewEdge(e)]);
    assert NormalEdges([NormalNewEdge(e)]) == [StoredEdge(e)];
  }

  lemma GrownEdgesAccepted(s: CanvasSpec, edge: CanvasEdge)
    requires WellFormed(s)
    ensures var r := NormalizeSpec(s.(edges := s.edges + [NormalNewEdge(edge)]));
            && (r.Ok? <==> EdgeWF(s.nodes, StoredEdge(edge)) && FreshEdge(s.edges, StoredEdge(edge)))
            && (r.Ok? ==> r.value == s.(edges := s.edges + [StoredEdge(edge)]))
  {
    assert EdgesWF(s.nodes, []);
    WithEdgesNormalForm(s, s.edges, edge, []);
    assert s.edges + [NormalNewEdge(edge)] + [] == s.edges + [NormalNewEdge(edge)];
    assert s.edges + [StoredEdge(edge)] + [] == s.edges + [StoredEdge(edge)];
    NormalizeSpecAccepts(s.(edges := s.edges + [NormalNewEdge(edge)]));
    EdgesGrow(s.nodes, s.edges, StoredEdge(edge));
    hide NormalizeSpec, NormalForm, NodesWF, EdgesWF, EdgeWF, FreshEdge, StoredEdge, NormalNewEdge, Trimmed;
  }

  /** Adding an edge succeeds exactly when its id is new (case variants included) and it resolves; it goes last. */
  lemma AddEdgeMeaning(s: CanvasSpec, edge: CanvasEdge)
    requires WellFormed(s)
    ensures AddEdge(s, edge).Ok? <==>
              && Trim(edge.id) != ""
              && (forall i :: 0 <= i < |s.edges| ==> !EqualFold(s.edges[i].id, Trim(edge.id)))
              && EdgeWF(s.nodes, StoredEdge(edge))
    ensures AddEdge(s, edge).Ok? ==> AddEdge(s, edge).value == s.(edges := s.edges + [StoredEdge(edge)])
  {
    hide NormalizeSpec, WellFormed, StoredEdge, EdgeWF, NormalNewEdge, EqualFold, Trim;
    WellFormedIsFixpoint(s);
    StoredEdgeShape(edge);
    GrownEdgesAccepted(s, edge);
    DifferentCaseDifferent();
  }

  lemma {:induction false} WithoutEdgeConcat(a: seq<CanvasEdge>, b: seq<CanvasEdge>, id: string)
    ensures WithoutEdge(a + b, id) == WithoutEdge(a, id) + WithoutEdge(b, id)
  {
    if a == [] {
      assert a + b == b;
    } else {
      assert (a + b)[1..] == a[1..] + b;
      WithoutEdgeConcat(a[1..], b, id);
    }
  }

  /** Adding an edge and then deleting its id gives back the normalised spec it was added to. */
  lemma AddThenDeleteRestores(s: CanvasSpec, edge: CanvasEdge)
    requires AddEdge(s, edge).Ok?
    ensures DeleteEdge(AddEdge(s, edge).value, edge.id) == NormalizeSpec(s)
  {
    hide NormalizeSpec, WellFormed, StoredEdge, EdgeWF, NormalNewEdge, Lower, Trim;
    var n := NormalizeSpec(s).value;
    WellFormedIsFixpoint(s);
    WellFormedIsFixpoint(n);
    var added := AddEdge(s, edge).value;
    assert AddEdge(n, edge) == AddEdge(s, edge);
    AddEdgeMeaning(n, edge);
    StoredEdgeShape(edge);
    EditGivesWellFormed(s, NewEdge(edge));
    WellFormedIsFixpoint(added);
    var stored := StoredEdge(edge);
    WithoutEdgeConcat(n.edges, [stored], Trim(edge.id));
    assert EqualFold(stored.id, Trim(edge.id));
    assert WithoutEdge([stored], Trim(edge.id)) == [];
    assert WithoutEdge(added.edges, Trim(edge.id)) == n.edges;
    assert added.(edges := n.edges) == n;
  }

  /** After a successful patch, a second patch of the same edge acts as if the first had never happened. */
  lemma LastPatchWins(s: CanvasSpec, first: CanvasEdge, second: CanvasEdge)
    requires Trim(first.id) == Trim(second.id)
    requires PatchEdge(s, first).Ok?
    ensures PatchEdge(PatchEdge(s, first).value, second) == PatchEdge(s, second)
  {
    hide NormalizeSpec, WellFormed, StoredEdge, NormalNewEdge, EdgeIndex, Trim;
    WellFormedIsFixpoint(s);
    var n := NormalizeSpec(s).value;
    StoredEdgeShape(first);
    StoredEdgeShape(second);
    var k := EdgeIndex(n.edges, Trim(first.id)).value;
    PatchAccepted(n, k, first);
    SameEdgeIndex(n.edges, k, StoredEdge(first), Trim(first.id));
    var patched := PatchEdge(s, first).value;
    assert patched == n.(edges := n.edges[k := StoredEdge(first)]);
    assert NormalizeSpec(patched) == Ok(patched);
    assert patched.edges[k := NormalNewEdge(second)] == n.edges[k := NormalNewEdge(second)];
  }

  lemma PatchAccepted(n: CanvasSpec, k: nat, e: CanvasEdge)
    requires WellFormed(n) && k < |n.edges|
    ensures var r := NormalizeSpec(n.(edges := n.edges[k := NormalNewEdge(e)]));
            r.Ok? ==> r.value == n.(edges := n.edges[k := StoredEdge(e)]) && NormalizeSpec(r.value) == r
  {
    var raw := n.(edges := n.edges[k := NormalNewEdge(e)]);
    PatchedNormalForm(n, k, e);
    NormalizeSpecAccepts(raw);
    WellFormedIsFixpoint(NormalForm(raw));
    hide *;
  }

  lemma EdgesSuffix(nodes: seq<CanvasNode>, edges: seq<CanvasEdge>, k: nat)
    requires k <= |edges| && EdgesWF(nodes, edges)
    ensures EdgesWF(nodes, edges[k..])
  {
    hide EdgeWF;
  }

  lemma PatchedNormalForm(n: CanvasSpec, k: nat, e: CanvasEdge)
    requires WellFormed(n) && k < |n.edges|
    ensures NormalForm(n.(edges := n.edges[k := NormalNewEdge(e)])) == n.(edges := n.edges[k := StoredEdge(e)])
  {
    hide NodesWF, EdgesWF, Trimmed, NormalForm, NormalNewEdge, StoredEdge;
    EdgesPrefix(n.nodes, n.edges, k);
    EdgesSuffix(n.nodes, n.edges, k + 1);
    WithEdgesNormalForm(n, n.edges[..k], e, n.edges[k + 1..]);
    assert n.edges[k := NormalNewEdge(e)] == n.edges[..k] + [NormalNewEdge(e)] + n.edges[k + 1..];
    assert n.edges[k := StoredEdge(e)] == n.edges[..k] + [StoredEdge(e)] + n.edges[k + 1..];
  }

  lemma {:induction false} SameEdgeIndex(edges: seq<CanvasEdge>, k: nat, e: CanvasEdge, id: string)
    requires EdgeIndex(edges, id) == Some(k) && e.id == id
    ensures EdgeIndex(edges[k := e], id) == Some(k)
  {
    if edges[0].id != id {
      SameEdgeIndex(edges[1..], k - 1, e, id);
      assert edges[k := e][1..] == edges[1..][k - 1 := e];
    }
  }

  lemma ReplaceEdgeWF(nodes: seq<CanvasNode>, edges: seq<CanvasEdge>, k: nat, e: CanvasEdge)
    requires EdgesWF(nodes, edges) && k < |edges| && e.id == edges[k].id
    ensures EdgesWF(nodes, edges[k := e]) <==> EdgeWF(nodes, e)
  {
    hide EdgeWF;
    var patched := edges[k := e];
    assert patched[k] == e;
    assert forall i :: 0 <= i < |edges| ==> patched[i].id == edges[i].id && (i != k ==> patched[i] == edges[i]);
  }

  /** A patch succeeds exactly when the id is known and the new edge resolves; it replaces that edge only. */
  lemma PatchEdgeMeaning(s: CanvasSpec, edge: CanvasEdge)
    requires WellFormed(s)
    ensures PatchEdge(s, edge).Ok? <==>
              && Trim(edge.id) != ""
              && (exists k :: 0 <= k < |s.edges| && s.edges[k].id == Trim(edge.id))
              && EdgeWF(s.nodes, StoredEdge(edge))
    ensures PatchEdge(s, edge).Ok? ==>
              exists k :: 0 <= k < |s.edges| && s.edges[k].id == Trim(edge.id) &&
                PatchEdge(s, edge).value == s.(edges := s.edges[k := StoredEdge(edge)])
  {
    hide NormalizeSpec, WellFormed, StoredEdge, NormalNewEdge, EdgeWF, Trim;
    WellFormedIsFixpoint(s);
    StoredEdgeShape(edge);
    if EdgeIndex(s.edges, Trim(edge.id)).Some? {
      var k := EdgeIndex(s.edges, Trim(edge.id)).value;
      PatchAccepted(s, k, edge);
      PatchAcceptedIff(s, k, edge);
    }
  }

  lemma PatchAcceptedIff(s: CanvasSpec, k: nat, e: CanvasEdge)
    requires WellFormed(s) && k < |s.edges| && s.edges[k].id == StoredEdge(e).id
    ensures NormalizeSpec(s.(edges := s.edges[k := NormalNewEdge(e)])).Ok? <==> EdgeWF(s.nodes, StoredEdge(e))
  {
    hide NodesWF, EdgesWF, EdgeWF, StoredEdge, NormalNewEdge, NormalizeSpec, NormalForm;
    NormalizeSpecAccepts(s.(edges := s.edges[k := NormalNewEdge(e)]));
    PatchedNormalForm(s, k, e);
    ReplaceEdgeWF(s.nodes, s.edges, k, StoredEdge(e));
  }

  // ---------- Deleting ----------

  lemma {:induction false} WithoutEdgeMembers(edges: seq<CanvasEdge>, id: string, e: CanvasEdge)
    ensures e in WithoutEdge(edges, id) <==> e in edges && !EqualFold(e.id, id)
  {
    hide Lower;
    if edges != [] {
      WithoutEdgeMembers(edges[1..], id, e);
      assert e in edges <==> e == edges[0] || e in edges[1..];
    }
  }

  lemma {:induction false} WithoutEdgeWF(nodes: seq<CanvasNode>, edges: seq<CanvasEdge>, id: string)
    requires EdgesWF(nodes, edges)
    ensures EdgesWF(nodes, WithoutEdge(edges, id))
  {
    hide EdgeWF, EqualFold;
    if edges != [] {
      EdgesSuffix(nodes, edges, 1);
      WithoutEdgeWF(nodes, edges[1..], id);
      if !EqualFold(edges[0].id, id) {
        var rest := WithoutEdge(edges[1..], id);
        forall i | 0 <= i < |rest|
          ensures edges[0].id != "" ==> edges[0].id != rest[i].id
        {
          WithoutEdgeMembers(edges[1..], id, rest[i]);
          var j :| 0 <= j < |edges[1..]| && edges[1..][j] == rest[i];
          assert edges[j + 1] == rest[i];
        }
        ConsEdgesWF(nodes, edges[0], rest);
      }
    }
  }

  lemma ConsEdgesWF(nodes: seq<CanvasNode>, e: CanvasEdge, rest: seq<CanvasEdge>)
    requires EdgeWF(nodes, e) && EdgesWF(nodes, rest)
    requires e.id != "" ==> forall i :: 0 <= i < |rest| ==> e.id != rest[i].id
    ensures EdgesWF(nodes, [e] + rest)
  {
    hide EdgeWF;
    var all := [e] + rest;
    assert all[0] == e && forall i :: 0 < i < |all| ==> all[i] == rest[i - 1];
  }

  /** Deleting fails only when no edge id is a case variant of the given one; it removes all that are. */
  lemma DeleteEdgeMeaning(s: CanvasSpec, edgeID: string)
    requires WellFormed(s)
    ensures DeleteEdge(s, edgeID).Ok? <==>
              Trim(edgeID) != "" && exists i :: 0 <= i < |s.edges| && EqualFold(s.edges[i].id, Trim(edgeID))
    ensures DeleteEdge(s, edgeID).Ok? ==>
              DeleteEdge(s, edgeID).value == s.(edges := WithoutEdge(s.edges, Trim(edgeID)))
  {
    WellFormedIsFixpoint(s);
    WithoutEdgeWF(s.nodes, s.edges, Trim(edgeID));
    var shrunk := s.(edges := WithoutEdge(s.edges, Trim(edgeID)));
    WellFormedIsFixpoint(shrunk);
    hide NormalizeSpec, NodesWF, EdgesWF, EqualFold, Trim;
    assert WellFormed(shrunk);
  }

  const SAMPLE_A := CanvasNode("a", "table", "t", "a", 0.0, 0.0, 80.0, 80.0, [], [])
  const SAMPLE_B := CanvasNode("b", "table", "t", "b", 0.0, 0.0, 80.0, 80.0, [], [])
  const SAMPLE_EDGE := CanvasEdge("e", "join", "a", "b", "", "k", "k", "", "", [], "", false)
  const SAMPLE_NODES := [SAMPLE_A, SAMPLE_B]
  const SAMPLE := CanvasSpec("1", "", SAMPLE_NODES, [SAMPLE_EDGE, SAMPLE_EDGE.(id := "E")])

  lemma SampleNodesWF()
    ensures NodesWF(SAMPLE_NODES)
  {
    assert Lower("a") == "a" && Lower("b") == "b";
    assert NodeWF(SAMPLE_A) && NodeWF(SAMPLE_B);
    hide NodeWF;
    assert SAMPLE_NODES[0] == SAMPLE_A && SAMPLE_NODES[1] == SAMPLE_B;
  }

  lemma SampleEdgeWF(id: string)
    requires Trimmed(id)
    ensures EdgeWF(SAMPLE_NODES, SAMPLE_EDGE.(id := id))
  {
    assert Upper("") == "" && ParseJoinType("").Ok?;
    hide ParseJoinType;
    assert Trim("k") == "k";
    assert HasField(SAMPLE_A, "k") && HasField(SAMPLE_B, "k");
    assert SAMPLE_NODES[0] == SAMPLE_A && SAMPLE_NODES[1] == SAMPLE_B;
  }

  lemma SampleWF()
    ensures WellFormed(SAMPLE) && "e" != "E"
  {
    hide NodesWF, EdgeWF;
    SampleNodesWF();
    SampleEdgeWF("e");
    SampleEdgeWF("E");
    assert SAMPLE_EDGE.(id := "e") == SAMPLE_EDGE;
    assert "e"[0] != "E"[0];
    assert SAMPLE.edges[0].id == "e" && SAMPLE.edges[1].id == "E";
  }

  lemma SampleCaseVariants()
    ensures WithoutEdge(SAMPLE.edges, "e") == []
  {
    assert Lower("e") == "e" && Lower("E") == "e";
    assert EqualFold(SAMPLE.edges[0].id, "e") && EqualFold(SAMPLE.edges[1].id, "e");
    hide EqualFold;
    assert SAMPLE.edges == [SAMPLE.edges[0]] + [SAMPLE.edges[1]];
    WithoutEdgeConcat([SAMPLE.edges[0]], [SAMPLE.edges[1]], "e");
  }

  // Normalising treats "e" and "E" as two edges, but deleting either removes both.
  lemma DeleteRemovesCaseVariants()
    ensures WellFormed(SAMPLE) && SAMPLE.edges[0].id != SAMPLE.edges[1].id
    ensures DeleteEdge(SAMPLE, SAMPLE.edges[0].id) == Ok(SAMPLE.(edges := []))
  {
    hide WellFormed, DeleteEdge, EqualFold;
    SampleWF();
    SampleCaseVariants();
    assert Trim("e") == "e";
    assert |WithoutEdge(SAMPLE.edges, "e")| != |SAMPLE.edges|;
    DeleteEdgeMeaning(SAMPLE, "e");
  }

  lemma WithoutEdgeSplit(edges: seq<CanvasEdge>, k: nat, id: string)
    requires k < |edges| && EqualFold(edges[k].id, id)
    ensures WithoutEdge(edges, id) == WithoutEdge(edges[..k], id) + WithoutEdge(edges[k + 1..], id)
  {
    assert edges == edges[..k] + ([edges[k]] + edges[k + 1..]);
    WithoutEdgeConcat(edges[..k], [edges[k]] + edges[k + 1..], id);
    assert WithoutEdge([edges[k]] + edges[k + 1..], id) == WithoutEdge(edges[k + 1..], id);
  }

  /** Deleting the id of an edge removes that edge alone exactly when no other edge id is a case variant of it. */
  lemma DeleteRemovesOneEdgeIff(s: CanvasSpec, k: nat)
    requires WellFormed(s) && k < |s.edges| && s.edges[k].id != ""
    ensures DeleteEdge(s, s.edges[k].id) == Ok(s.(edges := s.edges[..k] + s.edges[k + 1..])) <==>
              forall i :: 0 <= i < |s.edges| && i != k ==> !EqualFold(s.edges[i].id, s.edges[k].id)
  {
    var id := s.edges[k].id;
    assert Trim(id) == id by {
      assert EdgeWF(s.nodes, s.edges[k]);
    }
    DeleteEdgeMeaning(s, id);
    assert EqualFold(s.edges[k].id, id);
    WithoutEdgeSplit(s.edges, k, id);
    hide WellFormed, DeleteEdge, EqualFold, WithoutEdge, Trim;
    OthersUntouchedIff(s.edges, k, id);
  }

  lemma OthersUntouchedIff(edges: seq<CanvasEdge>, k: nat, id: string)
    requires k < |edges|
    ensures WithoutEdge(edges[..k], id) + WithoutEdge(edges[k + 1..], id) == edges[..k] + edges[k + 1..] <==>
              forall i :: 0 <= i < |edges| && i != k ==> !EqualFold(edges[i].id, id)
  {
    hide EqualFold;
    var before, after := edges[..k], edges[k + 1..];
    if i :| 0 <= i < |edges| && i != k && EqualFold(edges[i].id, id) {
      if i < k {
        assert EqualFold(before[i].id, id);
      } else {
        assert EqualFold(after[i - k - 1].id, id);
      }
    } else {
      assert WithoutEdge(before, id) == before && WithoutEdge(after, id) == after;
    }
  }

  // ---------- Sequences of edits ----------

  datatype Edit =
    | Move(nodeID: string, x: real, y: real)
    | SetFields(nodeID: string, fields: seq<string>)
    | NewNode(node: CanvasNode)
    | NewEdge(edge: CanvasEdge)
    | Patch(edge: CanvasEdge)
    | Delete(edgeID: string)

  function ApplyEdit(s: CanvasSpec, e: Edit): Result<CanvasSpec, CanvasError> {
    match e
    case Move(id, x, y) => MoveNode(s, id, x, y)
    case SetFields(id, fields) => SetNodeFields(s, id, fields)
    case NewNode(node) => AddNode(s, node)
    case NewEdge(edge) => AddEdge(s, edge)
    case Patch(edge) => PatchEdge(s, edge)
    case Delete(id) => DeleteEdge(s, id)
  }

  /** A run of edits as the shell makes them: one that fails leaves the draft as it was. */
  function RunEdits(s: CanvasSpec, edits: seq<Edit>): CanvasSpec
    decreases |edits|
  {
    if edits == [] then s
    else
      match ApplyEdit(s, edits[0])
      case Ok(next) => RunEdits(next, edits[1..])
      case Err(_) => RunEdits(s, edits[1..])
  }

  lemma NormalizedIsWellFormed(s: CanvasSpec)
    ensures NormalizeSpec(s).Ok? ==> WellFormed(NormalizeSpec(s).value)
  {
    WellFormedIsFixpoint(s);
  }

  lemma EditGivesWellFormed(s: CanvasSpec, e: Edit)
    ensures ApplyEdit(s, e).Ok? ==> WellFormed(ApplyEdit(s, e).value)
  {
    hide NormalizeSpec, WellFormed, SelectedOf, NormalNewNode, NormalNewEdge, EqualFold, Trim, WithoutEdge;
    if ApplyEdit(s, e).Ok? {
      var n := NormalizeSpec(s).value;
      match e
      case Move(id, x, y) =>
        var k := NodeIndex(n.nodes, Trim(id)).value;
        NormalizedIsWellFormed(n.(nodes := n.nodes[k := n.nodes[k].(x := NormalCoordinate(x), y := NormalCoordinate(y))]));
      case SetFields(id, fields) =>
        var k := NodeIndex(n.nodes, Trim(id)).value;
        NormalizedIsWellFormed(
          n.(nodes := n.nodes[k := n.nodes[k].(selectedFields := SelectedOf(fields, n.nodes[k].fields))]));
      case NewNode(node) =>
        NormalizedIsWellFormed(n.(nodes := n.nodes + [NormalNewNode(node)]));
      case NewEdge(edge) =>
        NormalizedIsWellFormed(n.(edges := n.edges + [NormalNewEdge(edge)]));
      case Patch(edge) =>
        var k := EdgeIndex(n.edges, NormalNewEdge(edge).id).value;
        NormalizedIsWellFormed(n.(edges := n.edges[k := NormalNewEdge(edge)]));
      case Delete(id) =>
        NormalizedIsWellFormed(n.(edges := WithoutEdge(n.edges, Trim(id))));
    }
  }

  /** Every run of edits from a well-formed canvas ends in one. */
  lemma {:induction false} RunEditsWellFormed(s: CanvasSpec, edits: seq<Edit>)
    requires WellFormed(s)
    ensures WellFormed(RunEdits(s, edits))
    decreases |edits|
  {
    hide WellFormed, ApplyEdit;
    if edits != [] {
      EditGivesWellFormed(s, edits[0]);
      match ApplyEdit(s, edits[0])
      case Ok(next) => RunEditsWellFormed(next, edits[1..]);
      case Err(_) => RunEditsWellFormed(s, edits[1..]);
    }
  }
}
