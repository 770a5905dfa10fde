/** Exactly which specs are accepted, said on the spec as it is given. */
module CanvasAcceptance {
  import opened Results
  import opened Text
  import opened Picking
  import opened CanvasModel
  import opened CanvasNormalForm
  import opened CanvasRewriting

  function AliasFor(n: CanvasNode): string {
    if Trim(n.alias) == "" then Trim(n.table) else Trim(n.alias)
  }

  /** A table node with an id and a table, neither id nor alias taken by an earlier node; aliases count up to case. */
  predicate NodeAccepted(nodes: seq<CanvasNode>, i: nat)
    requires i < |nodes|
  {
    && Trim(nodes[i].id) != "" && Trim(nodes[i].table) != ""
    && (Trim(nodes[i].kind) == "" || Lower(Trim(nodes[i].kind)) == "table")
    && (forall m :: 0 <= m < i ==> Trim(nodes[m].id) != Trim(nodes[i].id))
    && (forall m :: 0 <= m < i ==> Lower(AliasFor(nodes[m])) != Lower(AliasFor(nodes[i])))
  }

  /** The node has the column: it names no fields at all, or one that is a case variant of it. */
  predicate HasColumn(n: CanvasNode, column: string) {
    && Trim(column) != ""
    && ((forall k :: 0 <= k < |n.fields| ==> Trim(n.fields[k].name) == "") ||
        (exists k :: 0 <= k < |n.fields| && Trim(n.fields[k].name) != "" && EqualFold(Trim(n.fields[k].name), Trim(column))))
  }

  predicate JoinSpelled(joinType: string) {
    var t := Upper(Trim(joinType));
    || t == "" || t == "INNER" || t == "INNER JOIN" || t == "LEFT" || t == "LEFT JOIN" || t == "RIGHT" || t == "RIGHT JOIN"
    || t == "FULL" || t == "FULL JOIN" || t == "FULL OUTER" || t == "FULL OUTER JOIN"
  }

  predicate EndAccepted(nodes: seq<CanvasNode>, id: string, column: string) {
    exists i :: 0 <= i < |nodes| && Trim(nodes[i].id) == Trim(id) && HasColumn(nodes[i], column)
  }

  /** A join edge of a known type whose ends are nodes with the columns, its id not taken by an earlier edge if it has one. */
  predicate EdgeAccepted(nodes: seq<CanvasNode>, edges: seq<CanvasEdge>, i: nat)
    requires i < |edges|
  {
    && (Trim(edges[i].kind) == "" || Lower(Trim(edges[i].kind)) == "join")
    && JoinSpelled(edges[i].joinType)
    && EndAccepted(nodes, edges[i].fromNode, edges[i].fromColumn)
    && EndAccepted(nodes, edges[i].toNode, edges[i].toColumn)
    && (Trim(edges[i].id) != "" ==> forall m :: 0 <= m < i ==> Trim(edges[m].id) != Trim(edges[i].id))
  }

  // ---------- Nodes ----------

  lemma KindAccepted(kind: string, fallback: string, rewritten: string)
    requires fallback == "table" || fallback == "join"
    requires rewritten == (if Trim(kind) == "" then fallback else Lower(Trim(kind)))
    ensures rewritten == fallback <==> Trim(kind) == "" || Lower(Trim(kind)) == fallback
  {
  }

  lemma NodeIsWF(raw: CanvasNode)
    ensures NodeWF(NormalNode(raw)) <==>
              Trim(raw.id) != "" && Trim(raw.table) != "" && (Trim(raw.kind) == "" || Lower(Trim(raw.kind)) == "table")
    ensures NormalNode(raw).id == Trim(raw.id) && NormalNode(raw).alias == AliasFor(raw)
  {
    hide Trim, Lower, NormalNode, NodeWF, KeepsFields, KeepsSelection;
    NormalNodeWF(raw);
    NormalNodeRewrites(raw);
  }

  lemma NodesAcceptedIff(nodes: seq<CanvasNode>)
    ensures NodesWF(NormalNodes(nodes)) <==> forall i :: 0 <= i < |nodes| ==> NodeAccepted(nodes, i)
  {
    hide Trim, Lower, NormalNode, NodeWF, AliasFor;
    var ns := NormalNodes(nodes);
    forall i | 0 <= i < |nodes|
      ensures NodeWF(ns[i]) <==>
                Trim(nodes[i].id) != "" && Trim(nodes[i].table) != "" && (Trim(nodes[i].kind) == "" || Lower(Trim(nodes[i].kind)) == "table")
      ensures ns[i].id == Trim(nodes[i].id) && ns[i].alias == AliasFor(nodes[i])
    {
      NodeIsWF(nodes[i]);
    }
    if NodesWF(ns) {
      forall i | 0 <= i < |nodes|
        ensures NodeAccepted(nodes, i)
      {
        forall m | 0 <= m < i
          ensures Trim(nodes[m].id) != Trim(nodes[i].id) && Lower(AliasFor(nodes[m])) != Lower(AliasFor(nodes[i]))
        {
          assert ns[m].id != ns[i].id && Lower(ns[m].alias) != Lower(ns[i].alias);
        }
      }
    }
    if forall i :: 0 <= i < |nodes| ==> NodeAccepted(nodes, i) {
      forall i, j | 0 <= i < j < |ns|
        ensures ns[i].id != ns[j].id && Lower(ns[i].alias) != Lower(ns[j].alias)
      {
        assert NodeAccepted(nodes, j);
      }
      forall i | 0 <= i < |ns|
        ensures NodeWF(ns[i])
      {
        assert NodeAccepted(nodes, i);
      }
    }
  }

  // ---------- Edges ----------

  lemma JoinTypeAccepted(joinType: string)
    ensures ParseJoinType(joinType).Ok? <==> JoinSpelled(joinType)
  {
    hide Trim, Upper;
  }

  lemma NormalHasColumn(raw: CanvasNode, column: string)
    ensures HasField(NormalNode(raw), Trim(column)) <==> HasColumn(raw, column)
  {
    hide TrimLeft, TrimRight, Lower, NormalNode;
    assert NormalNode(raw).fields == NormalFields(raw.fields) by { FieldsOfNormal(raw); }
    var places := NormalFieldsKeep(raw.fields);
    ColumnAmongKept(raw.fields, NormalFields(raw.fields), places, Trim(column));
  }

  lemma FieldsOfNormal(raw: CanvasNode)
    ensures NormalNode(raw).fields == NormalFields(raw.fields)
  {
  }

  lemma ColumnAmongKept(raw: seq<CanvasField>, kept: seq<CanvasField>, places: seq<nat>, column: string)
    requires KeepsFields(raw, kept, places)
    ensures kept == [] <==> forall k :: 0 <= k < |raw| ==> Trim(raw[k].name) == ""
    ensures (exists i :: 0 <= i < |kept| && EqualFold(kept[i].name, column)) <==>
              exists k :: 0 <= k < |raw| && Trim(raw[k].name) != "" && EqualFold(Trim(raw[k].name), column)
  {
    hide Trim, Lower;
    if kept != [] {
      assert places[0] in places;
    }
    forall k | 0 <= k < |raw| && Trim(raw[k].name) != ""
      ensures exists i :: 0 <= i < |kept| && kept[i].name == Trim(raw[k].name)
    {
      var i :| 0 <= i < |places| && places[i] == k;
      assert kept[i].name == Trim(raw[k].name);
    }
    forall i | 0 <= i < |kept|
      ensures Trim(raw[places[i]].name) != "" && kept[i].name == Trim(raw[places[i]].name)
    {
      assert places[i] in places;
    }
  }

  lemma EndIff(nodes: seq<CanvasNode>, id: string, column: string)
    ensures (exists i :: 0 <= i < |nodes| && NormalNodes(nodes)[i].id == Trim(id) && HasField(NormalNodes(nodes)[i], Trim(column))) <==>
              EndAccepted(nodes, id, column)
  {
    hide Trim, HasField, HasColumn, NormalNode;
    forall i | 0 <= i < |nodes|
      ensures NormalNodes(nodes)[i].id == Trim(nodes[i].id)
      ensures HasField(NormalNodes(nodes)[i], Trim(column)) <==> HasColumn(nodes[i], column)
    {
      NodeIsWF(nodes[i]);
      NormalHasColumn(nodes[i], column);
    }
  }

  lemma EdgeIsWF(nodes: seq<CanvasNode>, raw: CanvasEdge)
    ensures EdgeWF(NormalNodes(nodes), NormalEdge(raw)) <==>
              && (Trim(raw.kind) == "" || Lower(Trim(raw.kind)) == "join")
              && JoinSpelled(raw.joinType)
              && EndAccepted(nodes, raw.fromNode, raw.fromColumn)
              && EndAccepted(nodes, raw.toNode, raw.toColumn)
  {
    hide TrimLeft, TrimRight, Lower, Upper, HasField, HasColumn, NormalNode, NormalEdge, ParseJoinType, JoinSpelled;
    NormalEdgeRewrites(raw);
    KindAccepted(raw.kind, "join", NormalEdge(raw).kind);
    JoinTypeAccepted(NormalEdge(raw).joinType);
    SpelledAsGiven(raw.joinType);
    EndIff(nodes, raw.fromNode, raw.fromColumn);
    EndIff(nodes, raw.toNode, raw.toColumn);
    EndNamesColumn(nodes, raw.fromNode, raw.fromColumn);
    EndNamesColumn(nodes, raw.toNode, raw.toColumn);
    TrimUpperIsNormal(raw.joinType);
    TrimCommutesWithCase(raw.joinType);
  }

  lemma EndNamesColumn(nodes: seq<CanvasNode>, id: string, column: string)
    ensures EndAccepted(nodes, id, column) ==> Trim(column) != ""
  {
    hide Trim;
  }

  lemma SpelledAsGiven(joinType: string)
    ensures JoinSpelled(Upper(Trim(joinType))) <==> JoinSpelled(joinType)
  {
    hide TrimLeft, TrimRight, Upper;
    TrimCommutesWithCase(joinType);
    TrimUpperIsNormal(joinType);
    TrimmedUpper(joinType);
  }

  lemma TrimmedUpper(joinType: string)
    ensures Trim(Upper(Trim(joinType))) == Upper(Trim(joinType))
  {
    hide TrimLeft, TrimRight, Upper;
    TrimCommutesWithCase(joinType);
  }

  lemma EdgesAcceptedIff(nodes: seq<CanvasNode>, edges: seq<CanvasEdge>)
    ensures EdgesWF(NormalNodes(nodes), NormalEdges(edges)) <==> forall i :: 0 <= i < |edges| ==> EdgeAccepted(nodes, edges, i)
  {
    hide Trim, Lower, NormalNode, NormalEdge, EdgeWF, EndAccepted, JoinSpelled;
    var es := NormalEdges(edges);
    forall i | 0 <= i < |edges|
      ensures es[i].id == Trim(edges[i].id)
      ensures EdgeWF(NormalNodes(nodes), es[i]) <==>
                && (Trim(edges[i].kind) == "" || Lower(Trim(edges[i].kind)) == "join") && JoinSpelled(edges[i].joinType)
                && EndAccepted(nodes, edges[i].fromNode, edges[i].fromColumn)
                && EndAccepted(nodes, edges[i].toNode, edges[i].toColumn)
    {
      EdgeIsWF(nodes, edges[i]);
      NormalEdgeRewrites(edges[i]);
    }
    if EdgesWF(NormalNodes(nodes), es) {
      forall i | 0 <= i < |edges|
        ensures EdgeAccepted(nodes, edges, i)
      {
        forall m | 0 <= m < i && Trim(edges[i].id) != ""
          ensures Trim(edges[m].id) != Trim(edges[i].id)
        {
          assert es[m].id != "" ==> es[m].id != es[i].id;
        }
      }
    }
    if forall i :: 0 <= i < |edges| ==> EdgeAccepted(nodes, edges, i) {
      forall i, j | 0 <= i < j < |es| && es[i].id != ""
        ensures es[i].id != es[j].id
      {
        assert EdgeAccepted(nodes, edges, j);
      }
      forall i | 0 <= i < |es|
        ensures EdgeWF(NormalNodes(nodes), es[i])
      {
        assert EdgeAccepted(nodes, edges, i);
      }
    }
  }

  // ---------- The whole spec ----------

  /** A spec is accepted exactly when it has nodes and every node and every edge is accepted. */
  lemma NormalizeAcceptsIff(s: CanvasSpec)
    ensures NormalizeSpec(s).Ok? <==>
              && s.nodes != []
              && (forall i :: 0 <= i < |s.nodes| ==> NodeAccepted(s.nodes, i))
              && (forall i :: 0 <= i < |s.edges| ==> EdgeAccepted(s.nodes, s.edges, i))
  {
    hide NormalizeSpec, NodesWF, EdgesWF, NodeAccepted, EdgeAccepted, NormalNode, NormalEdge, TrimLeft, TrimRight;
    NormalizeSpecAccepts(s);
    NodesAcceptedIff(s.nodes);
    EdgesAcceptedIff(s.nodes, s.edges);
  }
}
