/**
  What the query of a canvas means. Its SQL text reads back as the graph of the canvas;
  and when all edges are INNER, its rows are exactly the choices of one row per joined
  node that satisfy every edge, so drawing the edges in another order that still
  compiles changes nothing.
 */
module CanvasMeaning {
  import opened Results
  import opened Text
  import opened Values
  import opened CanvasModel
  import opened CanvasNormalForm
  import opened CanvasBridge
  import opened CanvasCompile
  import QG = QueryGraph
  import Sql
  import SqlReader
  import Predicates
  import J = JoinSemantics

  // ---------- The graph of a canvas is already normalised ----------

  lemma {:induction false} EdgeJoinsAt(nodes: seq<CanvasNode>, edges: seq<CanvasEdge>, i: nat)
    requires EdgeJoins(nodes, edges).Ok? && i < |edges|
    ensures |EdgeJoins(nodes, edges).value| == |edges|
    ensures EdgeJoin(nodes, edges[i]) == Ok(EdgeJoins(nodes, edges).value[i])
    decreases |edges|
  {
    hide EdgeJoin;
    if |edges| > 1 {
      EdgeJoinsAt(nodes, edges[1..], if i > 0 then i - 1 else 0);
    }
  }

  lemma CanvasGraphIsNormal(s: CanvasSpec, limit: int)
    requires WellFormed(s) && Compile(s, limit).Ok?
    ensures CanvasGraph(s) == GraphOf(s) && GraphOf(s).Ok?
    ensures forall l: int :: QG.Normalize(GraphOf(s).value.(limit := l)) == Ok(GraphOf(s).value.(limit := l))
  {
    hide WellFormed, Compile, QG.Normalize, Attaches, FieldsReached;
    CompilesIff(s, limit);
    CanvasGraphNormalizes(s, 0);
    forall l: int
      ensures QG.Normalize(GraphOf(s).value.(limit := l)) == Ok(GraphOf(s).value.(limit := l))
    {
      CanvasGraphNormalizes(s, l);
      NormalizedCanvasGraph(s, l);
    }
  }

  lemma NormalizedCanvasGraph(s: CanvasSpec, limit: int)
    requires WellFormed(s) && GraphOf(s).Ok?
    requires QG.Normalize(GraphOf(s).value.(limit := limit)).Ok?
    ensures QG.Normalize(GraphOf(s).value.(limit := limit)).value == GraphOf(s).value.(limit := limit)
  {
    hide NodesWF, EdgeWF, QueryFields, QG.FieldsFault, QG.PredicatesFault, QG.NormalizeJoins, EdgeJoins, EdgeJoin,
         QG.NormalizeJoin, QG.DeclaredBy, QG.JoinsScoped;
    var g := GraphOf(s).value.(limit := limit);
    NamedAlias(FirstNode(s));
    assert QG.SourceAlias(g) == s.nodes[0].alias;
    QG.NormalizeJoinsShape({QG.SourceAlias(g)}, g.joins);
    var n := QG.Normalize(g).value;
    forall i | 0 <= i < |g.joins|
      ensures n.joins[i] == g.joins[i]
    {
      JoinCount(s);
      EdgeJoinsAt(s.nodes, s.edges, i);
      var from, to := EdgeJoinMeaning(s.nodes, s.edges[i]);
    }
    assert n.joins == g.joins;
  }

  lemma JoinCount(s: CanvasSpec)
    requires s.nodes != [] && GraphOf(s).Ok?
    ensures |GraphOf(s).value.joins| == |s.edges|
  {
    EdgeJoinsLength(s.nodes, s.edges);
  }

  lemma {:induction false} EdgeJoinsLength(nodes: seq<CanvasNode>, edges: seq<CanvasEdge>)
    requires EdgeJoins(nodes, edges).Ok?
    ensures |EdgeJoins(nodes, edges).value| == |edges|
  {
    hide EdgeJoin;
    if edges != [] {
      EdgeJoinsLength(nodes, edges[1..]);
    }
  }

  // ---------- The text reads back ----------

  lemma QueryFieldIsPlain(nodes: seq<CanvasNode>, f: QG.FieldRef)
    requires nodes != [] && NodesWF(nodes) && f in QueryFields(nodes) && f.column != "*"
    ensures SqlReader.PlainField(f)
  {
    hide FieldsOfNodes, Dedupe, NodeFields, NodeWF;
    DedupeIsPart(FieldsOfNodes(nodes), {}, f);
    FieldsOfNodesMembers(nodes, f);
    var i, k :| 0 <= i < |nodes| && 0 <= k < |NodeFields(nodes[i])| &&
      f == QG.FieldRef("", NodeFields(nodes[i])[k].alias, nodes[i].alias, NodeFields(nodes[i])[k].name);
    NodeFieldTrimmed(nodes[i], NodeFields(nodes[i])[k]);
  }

  lemma NodeFieldTrimmed(n: CanvasNode, f: CanvasField)
    requires NodeWF(n) && f in NodeFields(n)
    ensures Trimmed(f.alias)
  {
    hide SelectedWF, FieldKeys, Trimmed;
    SelectedFieldsAreFields(n.fields, n.selectedFields, f);
  }

  lemma CanvasGraphIsPlain(s: CanvasSpec, limit: int)
    requires WellFormed(s) && GraphOf(s).Ok?
    requires forall f :: f in QueryFields(s.nodes) ==> f.column != "*"
    ensures SqlReader.Plain(GraphOf(s).value.(limit := limit))
  {
    hide NodesWF, EdgeWF, QueryFields, EdgeJoins, EdgeJoin, QG.NormalizeJoin, SqlReader.PlainField;
    var g := GraphOf(s).value.(limit := limit);
    assert QG.Blank("");
    forall i | 0 <= i < |g.fields|
      ensures SqlReader.PlainField(g.fields[i])
    {
      QueryFieldIsPlain(s.nodes, g.fields[i]);
    }
    forall i | 0 <= i < |g.joins|
      ensures SqlReader.PlainJoin(g.joins[i])
    {
      JoinCount(s);
      EdgeJoinsAt(s.nodes, s.edges, i);
      JoinIsPlain(s.nodes, s.edges[i]);
    }
  }

  lemma JoinIsPlain(nodes: seq<CanvasNode>, e: CanvasEdge)
    requires NodesWF(nodes) && EdgeWF(nodes, e)
    ensures EdgeJoin(nodes, e).Ok? && SqlReader.PlainJoin(EdgeJoin(nodes, e).value)
  {
    hide EdgeJoin, QG.NormalizeJoin, NodeWF, Lower, HasField, ParseJoinType;
    var from, to := EdgeJoinMeaning(nodes, e);
    assert NodeWF(nodes[to]);
    NamedAlias(nodes[to]);
    JoinTextIsKind(ParseJoinType(e.joinType).value);
    TrimmedOfTrim(nodes[to].alias);
  }

  lemma TrimmedOfTrim(s: string)
    requires Trim(s) == s
    ensures Trimmed(s)
  {
  }

  /**
    The SQL of a canvas without "*" fields reads back as that canvas: its first node, the
    join of every edge in order, the distinct fields, and the limit.
   */
  lemma CanvasSqlReadsBack(s: CanvasSpec, limit: int)
    requires WellFormed(s) && Compile(s, limit).Ok?
    requires forall f :: f in QueryFields(s.nodes) ==> f.column != "*"
    ensures EdgeJoins(s.nodes, s.edges).Ok?
    ensures SqlReader.ReadQuery(Compile(s, limit).value.sql) == Some(SqlReader.Skeleton(
              QG.QuerySource(s.nodes[0].table, s.nodes[0].alias), EdgeJoins(s.nodes, s.edges).value,
              QueryFields(s.nodes), [], [], if limit > 0 then limit else 0))
  {
    hide WellFormed, QG.Normalize, SqlReader.ReadQuery, EdgeJoins, QueryFields, SqlReader.Plain, Sql.Generate;
    CanvasGraphIsNormal(s, limit);
    var g := GraphOf(s).value;
    var g' := g.(limit := if limit > 0 then limit else 0);
    assert (if limit > 0 then g.(limit := limit) else g) == g';
    CanvasGraphIsPlain(s, g'.limit);
    SqlReader.PrintedGraphReadsBack(g');
  }

  // ---------- The rows of a canvas of INNER edges ----------

  predicate InnerEdges(edges: seq<CanvasEdge>) {
    forall i :: 0 <= i < |edges| ==> ParseJoinType(edges[i].joinType) == Ok(Inner)
  }

  function AliasOf(nodes: seq<CanvasNode>, id: string): string {
    match FindNode(nodes, id)
    case Some(n) => n.alias
    case None => ""
  }

  /** The columns of an edge hold equal values, neither of them NULL. */
  predicate EdgeHolds(db: J.Database, nodes: seq<CanvasNode>, b: J.Binding, e: CanvasEdge) {
    Predicates.Compare(QG.Eq, J.Cell(db, b, AliasOf(nodes, e.fromNode), e.fromColumn),
                       J.Cell(db, b, AliasOf(nodes, e.toNode), e.toColumn)) == Predicates.True
  }

  predicate HasRow(db: J.Database, b: J.Binding, n: CanvasNode) {
    && n.alias in b && b[n.alias].At? && b[n.alias].table == n.table
    && b[n.alias].index < |J.RowsOf(db, n.table)|
  }

  /** One row for every joined node and for nothing else, such that every edge holds. */
  predicate CanvasSatisfies(db: J.Database, s: CanvasSpec, b: J.Binding)
    requires s.nodes != []
  {
    && (forall a :: a in b ==> exists i :: 0 <= i < |s.nodes| && s.nodes[i].alias == a)
    && (forall i :: 0 <= i < |s.nodes| ==> (s.nodes[i].alias in b <==> s.nodes[i].id in Reached(s)))
    && (forall i :: 0 <= i < |s.nodes| && s.nodes[i].id in Reached(s) ==> HasRow(db, b, s.nodes[i]))
    && (forall i :: 0 <= i < |s.edges| ==> EdgeHolds(db, s.nodes, b, s.edges[i]))
  }

  /** The rows a compiled canvas selects from, before projection. */
  function CanvasRows(db: J.Database, s: CanvasSpec): seq<J.Binding>
    requires s.nodes != [] && GraphOf(s).Ok?
  {
    J.Evaluate(db, GraphOf(s).value)
  }

  lemma JoinHoldsIsEdge(db: J.Database, s: CanvasSpec, b: J.Binding, i: nat) returns (to: nat)
    requires WellFormed(s) && GraphOf(s).Ok? && i < |s.edges|
    ensures |GraphOf(s).value.joins| == |s.edges|
    ensures to < |s.nodes| && s.nodes[to].id == s.edges[i].toNode
    ensures GraphOf(s).value.joins[i].rightAlias == s.nodes[to].alias
    ensures J.JoinHolds(db, b, GraphOf(s).value.joins[i]) <==>
              HasRow(db, b, s.nodes[to]) && EdgeHolds(db, s.nodes, b, s.edges[i])
    ensures InnerEdges(s.edges) ==> GraphOf(s).value.joins[i].kind == QG.JOIN_INNER
  {
    hide NodesWF, EdgeWF, EdgeJoins, EdgeJoin, QG.NormalizeJoin, J.Cell, J.RowsOf, ParseJoinType, QueryFields;
    JoinCount(s);
    EdgeJoinsAt(s.nodes, s.edges, i);
    var from;
    from, to := EdgeJoinMeaning(s.nodes, s.edges[i]);
    AliasOfId(s.nodes, from);
    AliasOfId(s.nodes, to);
  }

  lemma AliasOfId(nodes: seq<CanvasNode>, k: nat)
    requires NodesWF(nodes) && k < |nodes|
    ensures AliasOf(nodes, nodes[k].id) == nodes[k].alias
  {
    hide NodeWF, Lower;
    FindNodeAt(nodes, k);
  }

  /** The aliases of the joins are those of the reached nodes. */
  lemma DeclaredAreReached(s: CanvasSpec, a: string)
    requires WellFormed(s) && GraphOf(s).Ok?
    ensures a in {s.nodes[0].alias} + QG.DeclaredBy(GraphOf(s).value.joins) <==>
              exists i :: 0 <= i < |s.nodes| && s.nodes[i].alias == a && s.nodes[i].id in Reached(s)
  {
    hide NodesWF, EdgesWF, QG.DeclaredBy, EdgeJoins, QueryFields, Matches, Reached, QG.NormalizeJoins, Attaches, Targets;
    RootMatches(s);
    JoinsAttach(s.nodes, s.edges, {s.nodes[0].id}, {s.nodes[0].alias});
    ReachedIs(s);
    var declared := {s.nodes[0].alias} + QG.DeclaredBy(GraphOf(s).value.joins);
    if a in declared {
      if a != s.nodes[0].alias {
        JoinAliasesAreNodes(s.nodes, s.edges, a);
      }
      var i :| 0 <= i < |s.nodes| && s.nodes[i].alias == a;
      MatchesAt(s.nodes, Reached(s), declared, i);
    }
    if i :| 0 <= i < |s.nodes| && s.nodes[i].alias == a && s.nodes[i].id in Reached(s) {
      MatchesAt(s.nodes, Reached(s), declared, i);
    }
  }

  lemma ReachedByEdge(s: CanvasSpec, i: nat) returns (k: nat)
    requires WellFormed(s) && i < |s.nodes| && s.nodes[i].id in Reached(s) && i != 0
    ensures k < |s.edges| && s.edges[k].toNode == s.nodes[i].id
  {
    hide NodeWF, EdgesWF, Lower, Trimmed;
    assert s.nodes[i].id != s.nodes[0].id;
    k :| 0 <= k < |s.edges| && s.edges[k].toNode == s.nodes[i].id;
  }

  lemma SatisfiesIsCanvas(db: J.Database, s: CanvasSpec, b: J.Binding)
    requires WellFormed(s) && GraphOf(s).Ok?
    ensures J.Satisfies(db, GraphOf(s).value, b) ==> CanvasSatisfies(db, s, b)
  {
    hide NodesWF, EdgesWF, EdgeJoins, QueryFields, Reached, EdgeHolds, HasRow, J.JoinHolds, QG.DeclaredBy;
    if J.Satisfies(db, GraphOf(s).value, b) {
      var declared := {s.nodes[0].alias} + QG.DeclaredBy(GraphOf(s).value.joins);
      forall a | a in b
        ensures exists i :: 0 <= i < |s.nodes| && s.nodes[i].alias == a
      {
        DeclaredAreReached(s, a);
      }
      forall i | 0 <= i < |s.nodes|
        ensures s.nodes[i].alias in b <==> s.nodes[i].id in Reached(s)
      {
        AliasInBindingIffReached(s, b, i);
      }
      forall i | 0 <= i < |s.edges|
        ensures EdgeHolds(db, s.nodes, b, s.edges[i])
      {
        var to := JoinHoldsIsEdge(db, s, b, i);
      }
      forall i | 0 <= i < |s.nodes| && s.nodes[i].id in Reached(s)
        ensures HasRow(db, b, s.nodes[i])
      {
        ReachedHasRow(db, s, b, i);
      }
    }
  }

  lemma AliasInBindingIffReached(s: CanvasSpec, b: J.Binding, i: nat)
    requires WellFormed(s) && GraphOf(s).Ok? && i < |s.nodes|
    requires b.Keys == {s.nodes[0].alias} + QG.DeclaredBy(GraphOf(s).value.joins)
    ensures s.nodes[i].alias in b <==> s.nodes[i].id in Reached(s)
  {
    hide NodesWF, EdgesWF, EdgeJoins, QueryFields, Reached, QG.DeclaredBy;
    DeclaredAreReached(s, s.nodes[i].alias);
    if s.nodes[i].alias in b {
      var k :| 0 <= k < |s.nodes| && s.nodes[k].alias == s.nodes[i].alias && s.nodes[k].id in Reached(s);
      SameAliasSameNode(s.nodes, i, k);
    }
  }

  lemma ReachedHasRow(db: J.Database, s: CanvasSpec, b: J.Binding, i: nat)
    requires WellFormed(s) && GraphOf(s).Ok? && i < |s.nodes| && s.nodes[i].id in Reached(s)
    requires J.Satisfies(db, GraphOf(s).value, b)
    ensures HasRow(db, b, s.nodes[i])
  {
    hide NodesWF, EdgesWF, EdgeJoins, QueryFields, Reached, EdgeHolds, J.JoinHolds, QG.DeclaredBy, J.RowsOf;
    if i != 0 {
      var k := ReachedByEdge(s, i);
      var to := JoinHoldsIsEdge(db, s, b, k);
      SameIdSameNode(s.nodes, i, to);
    }
  }

  lemma SameIdSameNode(nodes: seq<CanvasNode>, i: nat, j: nat)
    requires NodesWF(nodes) && i < |nodes| && j < |nodes| && nodes[i].id == nodes[j].id
    ensures i == j
  {
    hide NodeWF, Lower;
  }

  lemma CanvasIsSatisfies(db: J.Database, s: CanvasSpec, b: J.Binding)
    requires WellFormed(s) && GraphOf(s).Ok?
    ensures CanvasSatisfies(db, s, b) ==> J.Satisfies(db, GraphOf(s).value, b)
  {
    hide NodesWF, EdgesWF, EdgeJoins, QueryFields, EdgeHolds, J.JoinHolds, QG.DeclaredBy, J.RowsOf, Targets;
    if CanvasSatisfies(db, s, b) {
      var g := GraphOf(s).value;
      var declared := {s.nodes[0].alias} + QG.DeclaredBy(g.joins);
      forall a
        ensures a in b <==> a in declared
      {
        DeclaredAreReached(s, a);
      }
      assert b.Keys == declared;
      assert s.nodes[0].id in Reached(s);
      assert HasRow(db, b, s.nodes[0]);
      forall i | 0 <= i < |g.joins|
        ensures J.JoinHolds(db, b, g.joins[i])
      {
        JoinCount(s);
        var to := JoinHoldsIsEdge(db, s, b, i);
        EdgeTargetReached(s, i);
      }
    }
  }

  lemma EdgeTargetReached(s: CanvasSpec, i: nat)
    requires s.nodes != [] && i < |s.edges|
    ensures s.edges[i].toNode in Reached(s)
  {
  }

  lemma CanvasJoinsScoped(s: CanvasSpec, limit: int)
    requires WellFormed(s) && Compile(s, limit).Ok?
    ensures GraphOf(s).Ok? && QG.JoinsScoped({s.nodes[0].alias}, GraphOf(s).value.joins)
  {
    hide WellFormed, Compile, QG.Normalize, EdgeJoins, QueryFields;
    CanvasGraphIsNormal(s, limit);
    var g := GraphOf(s).value;
    assert g.(limit := g.limit) == g;
    assert QG.Normalize(g) == Ok(g);
    QG.NormalizedIsScoped(g);
  }

  /**
    The rows of a canvas whose edges are all INNER are exactly the choices of one row
    per joined node under which every edge equates two values that are not NULL; each
    choice is produced once.
   */
  lemma CanvasRowsMeaning(db: J.Database, s: CanvasSpec, limit: int)
    requires WellFormed(s) && Compile(s, limit).Ok? && InnerEdges(s.edges)
    ensures GraphOf(s).Ok?
    ensures forall b :: b in CanvasRows(db, s) <==> CanvasSatisfies(db, s, b)
    ensures J.NoDuplicates(CanvasRows(db, s))
  {
    hide WellFormed, Compile, EdgeJoins, QueryFields, J.Evaluate, J.Satisfies, CanvasSatisfies, InnerEdges, QG.JoinsScoped;
    HasNodes(s);
    CanvasJoinsScoped(s, limit);
    var g := GraphOf(s).value;
    JoinCount(s);
    forall i | 0 <= i < |g.joins|
      ensures g.joins[i].kind == QG.JOIN_INNER
    {
      var to := JoinHoldsIsEdge(db, s, map[], i);
    }
    forall b
      ensures b in CanvasRows(db, s) <==> CanvasSatisfies(db, s, b)
    {
      J.InnerChainMeaning(db, g, b);
      SatisfiesIsCanvas(db, s, b);
      CanvasIsSatisfies(db, s, b);
    }
    J.EvaluateNoDuplicates(db, g);
  }

  // ---------- The order of the edges is free ----------

  lemma SameTargets(a: seq<CanvasEdge>, b: seq<CanvasEdge>)
    requires multiset(a) == multiset(b)
    ensures Targets(a) <= Targets(b)
  {
    forall x | x in Targets(a)
      ensures x in Targets(b)
    {
      var i :| 0 <= i < |a| && a[i].toNode == x;
      assert a[i] in multiset(b);
      var k :| 0 <= k < |b| && b[k] == a[i];
    }
  }

  lemma SatisfiesAnyOrder(db: J.Database, s: CanvasSpec, t: CanvasSpec, b: J.Binding)
    requires s.nodes != [] && s.nodes == t.nodes && multiset(s.edges) == multiset(t.edges)
    requires CanvasSatisfies(db, s, b)
    ensures CanvasSatisfies(db, t, b)
  {
    hide EdgeHolds, HasRow, Targets;
    SameTargets(s.edges, t.edges);
    SameTargets(t.edges, s.edges);
    assert Reached(s) == Reached(t);
    forall i | 0 <= i < |t.edges|
      ensures EdgeHolds(db, t.nodes, b, t.edges[i])
    {
      assert t.edges[i] in multiset(s.edges);
      var k :| 0 <= k < |s.edges| && s.edges[k] == t.edges[i];
    }
  }

  /** Two canvases with the same nodes and the same INNER edges in orders that both compile give the same rows. */
  lemma EdgeOrderIsFree(db: J.Database, s: CanvasSpec, t: CanvasSpec, limit: int)
    requires WellFormed(s) && WellFormed(t)
    requires s.nodes == t.nodes && multiset(s.edges) == multiset(t.edges)
    requires Compile(s, limit).Ok? && Compile(t, limit).Ok?
    requires InnerEdges(s.edges)
    ensures GraphOf(s).Ok? && GraphOf(t).Ok?
    ensures multiset(CanvasRows(db, s)) == multiset(CanvasRows(db, t))
  {
    hide WellFormed, Compile, CanvasRows, CanvasSatisfies, J.NoDuplicates, ParseJoinType, GraphOf;
    assert InnerEdges(t.edges) by {
      forall i | 0 <= i < |t.edges|
        ensures ParseJoinType(t.edges[i].joinType) == Ok(Inner)
      {
        assert t.edges[i] in multiset(s.edges);
        var k :| 0 <= k < |s.edges| && s.edges[k] == t.edges[i];
      }
    }
    HasNodes(s);
    CanvasRowsMeaning(db, s, limit);
    CanvasRowsMeaning(db, t, limit);
    forall b
      ensures b in CanvasRows(db, s) <==> b in CanvasRows(db, t)
    {
      if CanvasSatisfies(db, s, b) {
        SatisfiesAnyOrder(db, s, t, b);
      }
      if CanvasSatisfies(db, t, b) {
        SatisfiesAnyOrder(db, t, s, b);
      }
    }
    J.SameMembersSameBag(CanvasRows(db, s), CanvasRows(db, t));
  }

  lemma HasNodes(s: CanvasSpec)
    requires WellFormed(s)
    ensures s.nodes != []
  {
  }
}
