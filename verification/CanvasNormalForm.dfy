/**
  NormalizeSpec returns exactly the well-formed specs: what it returns is well formed, and
  the well-formed specs are its fixpoints. It looks at a node or edge only through its
  normal form, so rewriting part of an argument in place never changes its outcome.
 */
module CanvasNormalForm {
  import opened Results
  import opened Text
  import opened CanvasModel

  // ---------- Fields and selections ----------

  lemma {:induction false} NormalFieldsWF(fields: seq<CanvasField>)
    ensures FieldsWF(NormalFields(fields))
  {
    if fields != [] {
      NormalFieldsWF(fields[1..]);
    }
  }

  lemma {:induction false} NormalFieldsFix(fields: seq<CanvasField>)
    requires FieldsWF(fields)
    ensures NormalFields(fields) == fields
  {
    if fields != [] {
      NormalFieldsFix(fields[1..]);
      assert fields == [fields[0]] + fields[1..];
    }
  }

  predicate Distinct(selected: seq<string>) {
    && (forall i :: 0 <= i < |selected| ==> selected[i] != "" && Trimmed(selected[i]))
    && (forall i, j :: 0 <= i < j < |selected| ==> Lower(selected[i]) != Lower(selected[j]))
  }

  lemma {:induction false} NormalSelectedDistinct(selected: seq<string>, seen: set<string>)
    ensures Distinct(NormalSelected(selected, seen))
    ensures forall i :: 0 <= i < |NormalSelected(selected, seen)| ==> Lower(NormalSelected(selected, seen)[i]) !in seen
  {
    if selected != [] {
      var t := Trim(selected[0]);
      NormalSelectedDistinct(selected[1..], seen);
      NormalSelectedDistinct(selected[1..], seen + {Lower(t)});
    }
  }

  lemma {:induction false} NormalSelectedFix(selected: seq<string>, seen: set<string>)
    requires Distinct(selected)
    requires forall i :: 0 <= i < |selected| ==> Lower(selected[i]) !in seen
    ensures NormalSelected(selected, seen) == selected
  {
    if selected != [] {
      NormalSelectedFix(selected[1..], seen + {Lower(selected[0])});
      assert selected == [selected[0]] + selected[1..];
    }
  }

  lemma {:induction false} FilterSelectedWF(selected: seq<string>, known: set<string>, seen: set<string>)
    ensures SelectedWF(FilterSelected(selected, known, seen), known)
    ensures forall i :: 0 <= i < |FilterSelected(selected, known, seen)| ==>
              Lower(FilterSelected(selected, known, seen)[i]) !in seen
  {
    if selected != [] {
      var key := Lower(Trim(selected[0]));
      FilterSelectedWF(selected[1..], known, seen);
      FilterSelectedWF(selected[1..], known, seen + {key});
    }
  }

  lemma {:induction false} FilterSelectedFix(selected: seq<string>, known: set<string>, seen: set<string>)
    requires SelectedWF(selected, known)
    requires forall i :: 0 <= i < |selected| ==> Lower(selected[i]) !in seen
    ensures FilterSelected(selected, known, seen) == selected
  {
    if selected != [] {
      FilterSelectedFix(selected[1..], known, seen + {Lower(selected[0])});
      assert selected == [selected[0]] + selected[1..];
    }
  }

  lemma SelectedOfWF(selected: seq<string>, fields: seq<CanvasField>)
    ensures SelectedWF(SelectedOf(selected, fields), FieldKeys(fields))
    ensures SelectedWF(selected, FieldKeys(fields)) ==> SelectedOf(selected, fields) == selected
  {
    FilterSelectedWF(NormalSelected(selected, {}), FieldKeys(fields), {});
    if SelectedWF(selected, FieldKeys(fields)) {
      NormalSelectedFix(selected, {});
      FilterSelectedFix(selected, FieldKeys(fields), {});
    }
  }

  // ---------- One node, one edge ----------

  lemma NormalNodeShape(n: CanvasNode)
    ensures Trimmed(NormalNode(n).id) && Trimmed(NormalNode(n).table) && Trimmed(NormalNode(n).alias)
    ensures NormalNode(n).x >= 0.0 && NormalNode(n).y >= 0.0
    ensures NormalNode(n).width >= NODE_MIN_SIZE && NormalNode(n).height >= NODE_MIN_SIZE
    ensures NormalNode(n).table != "" ==> NormalNode(n).alias != ""
    ensures FieldsWF(NormalNode(n).fields)
    ensures SelectedWF(NormalNode(n).selectedFields, FieldKeys(NormalNode(n).fields))
  {
    NormalFieldsWF(n.fields);
    SelectedOfWF(n.selectedFields, NormalFields(n.fields));
  }

  lemma KindIsNormal(kind: string, fallback: string)
    requires fallback == NODE_KIND_TABLE || fallback == EDGE_KIND_JOIN
    ensures OrDefault(Trim(Lower(OrDefault(Trim(Lower(kind)), fallback))), fallback) == OrDefault(Trim(Lower(kind)), fallback)
  {
    TrimLowerIsNormal(kind);
    assert Lower(NODE_KIND_TABLE) == NODE_KIND_TABLE;
    assert Lower(EDGE_KIND_JOIN) == EDGE_KIND_JOIN;
  }

  /** Normalising a node twice is normalising it once. */
  lemma NormalNodeIdempotent(n: CanvasNode)
    ensures NormalNode(NormalNode(n)) == NormalNode(n)
  {
    NormalNodeShape(n);
    KindIsNormal(n.kind, NODE_KIND_TABLE);
    NormalFieldsFix(NormalNode(n).fields);
    SelectedOfWF(NormalNode(n).selectedFields, NormalNode(n).fields);
  }

  lemma NormalNodeFix(n: CanvasNode)
    requires NodeWF(n)
    ensures NormalNode(n) == n
  {
    NormalFieldsFix(n.fields);
    SelectedOfWF(n.selectedFields, n.fields);
    assert Lower(NODE_KIND_TABLE) == NODE_KIND_TABLE;
  }

  lemma NormalEdgeIdempotent(e: CanvasEdge)
    ensures NormalEdge(NormalEdge(e)) == NormalEdge(e)
  {
    KindIsNormal(e.kind, EDGE_KIND_JOIN);
    TrimUpperIsNormal(e.joinType);
  }

  lemma NormalEdgeFix(nodes: seq<CanvasNode>, e: CanvasEdge)
    requires NodesWF(nodes) && EdgeWF(nodes, e)
    ensures NormalEdge(e) == e
  {
    hide HasField, ParseJoinType;
    assert Trimmed(e.fromNode) && Trimmed(e.toNode) by {
      var i :| 0 <= i < |nodes| && nodes[i].id == e.fromNode && HasField(nodes[i], e.fromColumn);
      var j :| 0 <= j < |nodes| && nodes[j].id == e.toNode && HasField(nodes[j], e.toColumn);
      assert NodeWF(nodes[i]) && NodeWF(nodes[j]);
    }
    assert Lower(EDGE_KIND_JOIN) == EDGE_KIND_JOIN;
  }

  // The descriptive texts and the unfiltered selection of a freshly added node or edge
  // vanish in the normal form.
  lemma NormalNewNodeIsAbsorbed(n: CanvasNode)
    ensures NormalNode(NormalNewNode(n)) == NormalNode(n)
  {
    NormalNodeIdempotent(n);
    NormalSelectedDistinct(n.selectedFields, {});
    NormalSelectedFix(NormalSelected(n.selectedFields, {}), {});
    NormalFieldsWF(n.fields);
    NormalFieldsFix(NormalFields(n.fields));
  }

  // ---------- Ids resolve to one node ----------

  lemma {:induction false} FindNodeAt(nodes: seq<CanvasNode>, k: nat)
    requires k < |nodes|
    requires forall i, j :: 0 <= i < j < |nodes| ==> nodes[i].id != nodes[j].id
    ensures FindNode(nodes, nodes[k].id) == Some(nodes[k])
  {
    if k > 0 {
      FindNodeAt(nodes[1..], k - 1);
    }
  }

  /** No accepted node shares its id, or a case variant of its alias, with n. */
  predicate FreshNode(done: seq<CanvasNode>, n: CanvasNode) {
    && (forall i :: 0 <= i < |done| ==> done[i].id != n.id)
    && (forall i :: 0 <= i < |done| ==> Lower(done[i].alias) != Lower(n.alias))
  }

  lemma NodesGrow(done: seq<CanvasNode>, n: CanvasNode)
    ensures NodesWF(done + [n]) <==> NodesWF(done) && NodeWF(n) && FreshNode(done, n)
  {
    hide NodeWF;
    var all := done + [n];
    assert all[|done|] == n;
    assert forall i :: 0 <= i < |done| ==> all[i] == done[i];
  }

  lemma NodesPrefix(nodes: seq<CanvasNode>, k: nat)
    requires k <= |nodes| && NodesWF(nodes)
    ensures NodesWF(nodes[..k])
  {
    hide NodeWF;
  }

  lemma NormalNodeWF(raw: CanvasNode)
    ensures NodeWF(NormalNode(raw)) <==>
              NormalNode(raw).id != "" && NormalNode(raw).kind == NODE_KIND_TABLE && NormalNode(raw).table != ""
  {
    NormalNodeShape(raw);
    hide FieldsWF, SelectedWF, Trimmed;
  }

  lemma NoNodeFaultMeansWF(done: seq<CanvasNode>, raw: CanvasNode)
    requires NodesWF(done)
    ensures NodeFault(done, NormalNode(raw)).None? <==> NodesWF(done + [NormalNode(raw)])
  {
    NormalNodeWF(raw);
    NodesGrow(done, NormalNode(raw));
    hide NodeWF, NodesWF, NormalNode;
  }

  predicate FreshEdge(done: seq<CanvasEdge>, e: CanvasEdge) {
    e.id != "" ==> forall i :: 0 <= i < |done| ==> done[i].id != e.id
  }

  lemma EdgesGrow(nodes: seq<CanvasNode>, done: seq<CanvasEdge>, e: CanvasEdge)
    ensures EdgesWF(nodes, done + [e]) <==> EdgesWF(nodes, done) && EdgeWF(nodes, e) && FreshEdge(done, e)
  {
    hide EdgeWF;
    var all := done + [e];
    assert all[|done|] == e;
    assert forall i :: 0 <= i < |done| ==> all[i] == done[i];
  }

  lemma EdgesPrefix(nodes: seq<CanvasNode>, edges: seq<CanvasEdge>, k: nat)
    requires k <= |edges| && EdgesWF(nodes, edges)
    ensures EdgesWF(nodes, edges[..k])
  {
    hide EdgeWF;
  }

  /** One end of an edge: the id names a node that has the column. */
  lemma EndResolves(nodes: seq<CanvasNode>, id: string, column: string)
    requires NodesWF(nodes)
    ensures (exists i :: 0 <= i < |nodes| && nodes[i].id == id && HasField(nodes[i], column)) <==>
              FindNode(nodes, id).Some? && HasField(FindNode(nodes, id).value, column)
  {
    hide NodeWF, HasField;
    forall i | 0 <= i < |nodes|
      ensures FindNode(nodes, nodes[i].id) == Some(nodes[i])
    {
      FindNodeAt(nodes, i);
    }
  }

  lemma EdgeFaultMeansUnresolved(nodes: seq<CanvasNode>, e: CanvasEdge)
    requires Trimmed(e.id) && Trimmed(e.fromColumn) && Trimmed(e.toColumn)
    requires Trimmed(e.joinType) && Upper(e.joinType) == e.joinType
    requires FindNode(nodes, "").None?
    requires (exists i :: 0 <= i < |nodes| && nodes[i].id == e.fromNode && HasField(nodes[i], e.fromColumn)) <==>
               FindNode(nodes, e.fromNode).Some? && HasField(FindNode(nodes, e.fromNode).value, e.fromColumn)
    requires (exists i :: 0 <= i < |nodes| && nodes[i].id == e.toNode && HasField(nodes[i], e.toColumn)) <==>
               FindNode(nodes, e.toNode).Some? && HasField(FindNode(nodes, e.toNode).value, e.toColumn)
    ensures EdgeWF(nodes, e) <==> EdgeFault(nodes, [], e).None?
  {
    hide HasField, ParseJoinType, Trimmed, Upper, FindNode;
  }

  lemma NormalEdgeWF(nodes: seq<CanvasNode>, raw: CanvasEdge)
    requires NodesWF(nodes)
    ensures EdgeWF(nodes, NormalEdge(raw)) <==> EdgeFault(nodes, [], NormalEdge(raw)).None?
  {
    var e := NormalEdge(raw);
    TrimUpperIsNormal(raw.joinType);
    EndResolves(nodes, e.fromNode, e.fromColumn);
    EndResolves(nodes, e.toNode, e.toColumn);
    assert FindNode(nodes, "").None? by {
      forall i | 0 <= i < |nodes|
        ensures nodes[i].id != ""
      {
        assert NodeWF(nodes[i]);
      }
    }
    hide *;
    EdgeFaultMeansUnresolved(nodes, e);
  }

  lemma NoEdgeFaultMeansWF(nodes: seq<CanvasNode>, done: seq<CanvasEdge>, raw: CanvasEdge)
    requires NodesWF(nodes) && EdgesWF(nodes, done)
    ensures EdgeFault(nodes, done, NormalEdge(raw)).None? <==> EdgesWF(nodes, done + [NormalEdge(raw)])
  {
    EdgesGrow(nodes, done, NormalEdge(raw));
    NormalEdgeWF(nodes, raw);
    hide NodesWF, EdgesWF, EdgeWF, NormalEdge, HasField, ParseJoinType;
  }

  // ---------- Whole lists ----------

  function NormalNodes(nodes: seq<CanvasNode>): (r: seq<CanvasNode>)
    ensures |r| == |nodes|
    ensures forall i :: 0 <= i < |nodes| ==> r[i] == NormalNode(nodes[i])
  {
    seq(|nodes|, i requires 0 <= i < |nodes| => NormalNode(nodes[i]))
  }

  function NormalEdges(edges: seq<CanvasEdge>): (r: seq<CanvasEdge>)
    ensures |r| == |edges|
    ensures forall i :: 0 <= i < |edges| ==> r[i] == NormalEdge(edges[i])
  {
    seq(|edges|, i requires 0 <= i < |edges| => NormalEdge(edges[i]))
  }

  /** A node list is accepted exactly when its normal form is well formed, and then returned in that form. */
  lemma {:induction false} NodesAccepted(done: seq<CanvasNode>, rest: seq<CanvasNode>)
    requires NodesWF(done)
    ensures NormalizeNodes(done, rest).Ok? <==> NodesWF(done + NormalNodes(rest))
    ensures NormalizeNodes(done, rest).Ok? ==> NormalizeNodes(done, rest).value == done + NormalNodes(rest)
    decreases |rest|
  {
    hide NodesWF, NormalNode, NodeFault;
    if rest == [] {
      assert done + NormalNodes(rest) == done;
    } else {
      var n := NormalNode(rest[0]);
      NoNodeFaultMeansWF(done, rest[0]);
      assert NormalNodes(rest) == [n] + NormalNodes(rest[1..]);
      assert done + NormalNodes(rest) == done + [n] + NormalNodes(rest[1..]);
      if NodesWF(done + NormalNodes(rest)) {
        NodesPrefix(done + NormalNodes(rest), |done| + 1);
        assert (done + NormalNodes(rest))[..|done| + 1] == done + [n];
      }
      if NodeFault(done, n).None? {
        NodesAccepted(done + [n], rest[1..]);
      }
    }
  }

  lemma {:induction false} EdgesAccepted(nodes: seq<CanvasNode>, done: seq<CanvasEdge>, rest: seq<CanvasEdge>)
    requires NodesWF(nodes) && EdgesWF(nodes, done)
    ensures NormalizeEdges(nodes, done, rest).Ok? <==> EdgesWF(nodes, done + NormalEdges(rest))
    ensures NormalizeEdges(nodes, done, rest).Ok? ==> NormalizeEdges(nodes, done, rest).value == done + NormalEdges(rest)
    decreases |rest|
  {
    hide NodesWF, EdgesWF, NormalEdge, EdgeFault;
    if rest == [] {
      assert done + NormalEdges(rest) == done;
    } else {
      var e := NormalEdge(rest[0]);
      NoEdgeFaultMeansWF(nodes, done, rest[0]);
      assert NormalEdges(rest) == [e] + NormalEdges(rest[1..]);
      assert done + NormalEdges(rest) == done + [e] + NormalEdges(rest[1..]);
      if EdgesWF(nodes, done + NormalEdges(rest)) {
        EdgesPrefix(nodes, done + NormalEdges(rest), |done| + 1);
        assert (done + NormalEdges(rest))[..|done| + 1] == done + [e];
      }
      if EdgeFault(nodes, done, e).None? {
        EdgesAccepted(nodes, done + [e], rest[1..]);
      }
    }
  }

  function NormalForm(s: CanvasSpec): CanvasSpec {
    CanvasSpec(OrDefault(Trim(s.version), SPEC_VERSION), Trim(s.name), NormalNodes(s.nodes), NormalEdges(s.edges))
  }

  /** A spec is accepted exactly when its normal form is well formed, and the normal form is what comes back. */
  lemma NormalizeSpecAccepts(s: CanvasSpec)
    ensures NormalizeSpec(s).Ok? <==> WellFormed(NormalForm(s))
    ensures NormalizeSpec(s).Ok? ==> NormalizeSpec(s).value == NormalForm(s)
  {
    if s.nodes != [] {
      NodesAccepted([], s.nodes);
      assert [] + NormalNodes(s.nodes) == NormalNodes(s.nodes);
      if NormalizeNodes([], s.nodes).Ok? {
        EdgesAccepted(NormalNodes(s.nodes), [], s.edges);
        assert [] + NormalEdges(s.edges) == NormalEdges(s.edges);
      }
    }
  }

  lemma NormalFormOfWellFormed(s: CanvasSpec)
    requires WellFormed(s)
    ensures NormalForm(s) == s
  {
    forall i | 0 <= i < |s.nodes|
      ensures NormalNodes(s.nodes)[i] == s.nodes[i]
    {
      NormalNodeFix(s.nodes[i]);
    }
    forall i | 0 <= i < |s.edges|
      ensures NormalEdges(s.edges)[i] == s.edges[i]
    {
      NormalEdgeFix(s.nodes, s.edges[i]);
    }
  }

  /** What normalising returns is well formed, and the well-formed specs are exactly its fixpoints. */
  lemma WellFormedIsFixpoint(s: CanvasSpec)
    ensures NormalizeSpec(s).Ok? ==> WellFormed(NormalizeSpec(s).value)
    ensures WellFormed(s) <==> NormalizeSpec(s) == Ok(s)
  {
    NormalizeSpecAccepts(s);
    if WellFormed(s) {
      NormalFormOfWellFormed(s);
    }
  }

  // ---------- Only normal forms matter ----------

  lemma {:induction false} NodesSeenThroughNormalForm(done: seq<CanvasNode>, a: seq<CanvasNode>, b: seq<CanvasNode>)
    requires |a| == |b|
    requires forall i :: 0 <= i < |a| ==> NormalNode(a[i]) == NormalNode(b[i])
    ensures NormalizeNodes(done, a) == NormalizeNodes(done, b)
    decreases |a|
  {
    if a != [] {
      var n := NormalNode(a[0]);
      assert NormalNode(b[0]) == n;
      NodesSeenThroughNormalForm(done + [n], a[1..], b[1..]);
    }
  }

  lemma {:induction false} EdgesSeenThroughNormalForm(
    nodes: seq<CanvasNode>, done: seq<CanvasEdge>, a: seq<CanvasEdge>, b: seq<CanvasEdge>)
    requires |a| == |b|
    requires forall i :: 0 <= i < |a| ==> NormalEdge(a[i]) == NormalEdge(b[i])
    ensures NormalizeEdges(nodes, done, a) == NormalizeEdges(nodes, done, b)
    decreases |a|
  {
    if a != [] {
      var e := NormalEdge(a[0]);
      assert NormalEdge(b[0]) == e;
      EdgesSeenThroughNormalForm(nodes, done + [e], a[1..], b[1..]);
    }
  }

  /** Every element is either untouched or already in normal form. */
  predicate PartlyRewritten(before: CanvasSpec, after: CanvasSpec) {
    && after.version == before.version && after.name == before.name
    && |after.nodes| == |before.nodes| && |after.edges| == |before.edges|
    && (forall i :: 0 <= i < |before.nodes| ==>
          after.nodes[i] == before.nodes[i] || after.nodes[i] == NormalNode(before.nodes[i]))
    && (forall i :: 0 <= i < |before.edges| ==>
          after.edges[i] == before.edges[i] || after.edges[i] == NormalEdge(before.edges[i]))
  }

  /** A partly rewritten argument still normalises to the same result or the same error. */
  lemma RewritingKeepsOutcome(before: CanvasSpec, after: CanvasSpec)
    requires PartlyRewritten(before, after)
    ensures NormalizeSpec(after) == NormalizeSpec(before)
  {
    forall i | 0 <= i < |before.nodes|
      ensures NormalNode(after.nodes[i]) == NormalNode(before.nodes[i])
    {
      NormalNodeIdempotent(before.nodes[i]);
    }
    forall i | 0 <= i < |before.edges|
      ensures NormalEdge(after.edges[i]) == NormalEdge(before.edges[i])
    {
      NormalEdgeIdempotent(before.edges[i]);
    }
    NodesSeenThroughNormalForm([], after.nodes, before.nodes);
    if before.nodes != [] && NormalizeNodes([], before.nodes).Ok? {
      EdgesSeenThroughNormalForm(NormalizeNodes([], before.nodes).value, [], after.edges, before.edges);
    }
  }
}
