/**
  When a well-formed canvas compiles to SQL: the edges, in list order, must grow a tree
  from the first node, and every node that puts a named field into the query must be
  in that tree.
 */
module CanvasCompile {
  import opened Results
  import opened Text
  import opened CanvasModel
  import opened CanvasNormalForm
  import opened CanvasBridge
  import QG = QueryGraph
  import Sql

  datatype CompileError = Canvas(canvas: CanvasError) | Query(query: Sql.SqlError)

  /** GenerateSQLFromCanvasWithLimit; a limit that is not positive leaves the query unlimited. */
  function Compile(raw: CanvasSpec, limit: int): Result<Sql.QuerySQL, CompileError> {
    match CanvasGraph(raw)
    case Err(e) => Err(Canvas(e))
    case Ok(g) =>
      match Sql.Generate(if limit > 0 then g.(limit := limit) else g)
      case Err(e) => Err(Query(e))
      case Ok(q) => Ok(q)
  }

  /** Each edge, in turn, attaches a fresh node to the part already reached. */
  predicate Attaches(reached: set<string>, edges: seq<CanvasEdge>)
    decreases |edges|
  {
    edges != [] ==>
      && edges[0].fromNode in reached
      && edges[0].toNode !in reached
      && Attaches(reached + {edges[0].toNode}, edges[1..])
  }

  function Targets(edges: seq<CanvasEdge>): set<string> {
    set i | 0 <= i < |edges| :: edges[i].toNode
  }

  /** The ids of the nodes that take part in the query. */
  function Reached(s: CanvasSpec): set<string>
    requires s.nodes != []
  {
    {s.nodes[0].id} + Targets(s.edges)
  }

  lemma TargetsCons(edges: seq<CanvasEdge>)
    requires edges != []
    ensures Targets(edges) == {edges[0].toNode} + Targets(edges[1..])
  {
    var rest := edges[1..];
    forall x | x in Targets(edges)
      ensures x == edges[0].toNode || x in Targets(rest)
    {
      var i :| 0 <= i < |edges| && edges[i].toNode == x;
      if i > 0 {
        assert rest[i - 1].toNode == x;
      }
    }
    forall x | x in Targets(rest)
      ensures x in Targets(edges)
    {
      var i :| 0 <= i < |rest| && rest[i].toNode == x;
      assert edges[i + 1].toNode == x;
    }
  }

  // ---------- Edges become joins ----------

  predicate JoinKindText(t: string) {
    t == QG.JOIN_INNER || t == QG.JOIN_LEFT || t == QG.JOIN_RIGHT || t == QG.JOIN_FULL
  }

  lemma JoinTextIsKind(kind: JoinKind)
    ensures JoinKindText(JoinText(kind)) && Trim(JoinText(kind)) == JoinText(kind) && JoinText(kind) != ""
  {
  }

  lemma EndOfEdge(nodes: seq<CanvasNode>, id: string, column: string) returns (k: nat)
    requires NodesWF(nodes)
    requires exists i :: 0 <= i < |nodes| && nodes[i].id == id && HasField(nodes[i], column)
    ensures k < |nodes| && nodes[k].id == id && FindNode(nodes, id) == Some(nodes[k]) && NodeWF(nodes[k])
  {
    hide NodeWF, HasField;
    k :| 0 <= k < |nodes| && nodes[k].id == id && HasField(nodes[k], column);
    FindNodeAt(nodes, k);
  }

  /** A resolved edge joins the alias of its to-node onto the alias of its from-node. */
  lemma EdgeJoinMeaning(nodes: seq<CanvasNode>, e: CanvasEdge) returns (from: nat, to: nat)
    requires NodesWF(nodes) && EdgeWF(nodes, e)
    ensures from < |nodes| && to < |nodes| && nodes[from].id == e.fromNode && nodes[to].id == e.toNode
    ensures EdgeJoin(nodes, e) == Ok(QG.Join(
              JoinText(ParseJoinType(e.joinType).value), nodes[from].alias, e.fromColumn,
              nodes[to].table, nodes[to].alias, e.toColumn))
    ensures QG.NormalizeJoin(EdgeJoin(nodes, e).value) == Ok(EdgeJoin(nodes, e).value)
  {
    hide NodesWF, ParseJoinType, HasField, FieldsWF, SelectedWF, Upper, Trim;
    from := EndOfEdge(nodes, e.fromNode, e.fromColumn);
    to := EndOfEdge(nodes, e.toNode, e.toColumn);
    var kind := ParseJoinType(e.joinType).value;
    JoinTextIsKind(kind);
    hide JoinText;
  }

  /** The declared aliases are exactly the aliases of the reached nodes. */
  predicate Matches(nodes: seq<CanvasNode>, reached: set<string>, declared: set<string>) {
    forall i :: 0 <= i < |nodes| ==> (nodes[i].alias in declared <==> nodes[i].id in reached)
  }

  lemma MatchesGrows(nodes: seq<CanvasNode>, reached: set<string>, declared: set<string>, k: nat)
    requires NodesWF(nodes) && Matches(nodes, reached, declared) && k < |nodes|
    ensures Matches(nodes, reached + {nodes[k].id}, declared + {nodes[k].alias})
  {
    hide NodeWF, Lower;
    forall i | 0 <= i < |nodes|
      ensures (nodes[i].alias == nodes[k].alias <==> nodes[i].id == nodes[k].id)
    {
      if i < k {
        assert Lower(nodes[i].alias) != Lower(nodes[k].alias);
      } else if k < i {
        assert Lower(nodes[k].alias) != Lower(nodes[i].alias);
      }
    }
  }

  lemma {:induction false} JoinsAttach(
    nodes: seq<CanvasNode>, edges: seq<CanvasEdge>, reached: set<string>, declared: set<string>)
    requires NodesWF(nodes) && EdgesWF(nodes, edges) && Matches(nodes, reached, declared)
    ensures EdgeJoins(nodes, edges).Ok? && |EdgeJoins(nodes, edges).value| == |edges|
    ensures QG.NormalizeJoins(declared, EdgeJoins(nodes, edges).value).Ok? <==> Attaches(reached, edges)
    ensures Matches(nodes, reached + Targets(edges), declared + QG.DeclaredBy(EdgeJoins(nodes, edges).value))
    decreases |edges|
  {
    hide NodesWF, EdgeWF, Matches, EdgeJoin, QG.NormalizeJoin, ParseJoinType, Targets, QG.DeclaredBy;
    if edges == [] {
      NoTargets();
      QG.NothingDeclared();
      assert reached + Targets(edges) == reached && declared + QG.DeclaredBy([]) == declared;
    } else {
      var e := edges[0];
      var from, to := EdgeJoinMeaning(nodes, e);
      var j := EdgeJoin(nodes, e).value;
      MatchesAt(nodes, reached, declared, from);
      MatchesAt(nodes, reached, declared, to);
      MatchesGrows(nodes, reached, declared, to);
      EdgesSuffix(nodes, edges);
      JoinsAttach(nodes, edges[1..], reached + {e.toNode}, declared + {j.rightAlias});
      var rest := EdgeJoins(nodes, edges[1..]).value;
      assert EdgeJoins(nodes, edges) == Ok([j] + rest);
      assert ([j] + rest)[1..] == rest;
      TargetsCons(edges);
      QG.DeclaredByCons([j] + rest);
      assert reached + Targets(edges) == reached + {e.toNode} + Targets(edges[1..]);
      assert declared + QG.DeclaredBy([j] + rest) == declared + {j.rightAlias} + QG.DeclaredBy(rest);
    }
  }

  lemma NoTargets()
    ensures Targets([]) == {}
  {
  }

  lemma MatchesAt(nodes: seq<CanvasNode>, reached: set<string>, declared: set<string>, k: nat)
    requires Matches(nodes, reached, declared) && k < |nodes|
    ensures nodes[k].alias in declared <==> nodes[k].id in reached
  {
  }

  lemma EdgesSuffix(nodes: seq<CanvasNode>, edges: seq<CanvasEdge>)
    requires EdgesWF(nodes, edges) && edges != []
    ensures EdgeWF(nodes, edges[0]) && EdgesWF(nodes, edges[1..])
  {
    hide EdgeWF;
  }

  // ---------- Fields of the query ----------

  lemma {:induction false} LastFieldIsField(fields: seq<CanvasField>, key: string)
    ensures LastField(fields, key).Some? ==> LastField(fields, key).value in fields
  {
    hide Trim, Lower;
    if fields != [] {
      LastFieldIsField(fields[..|fields| - 1], key);
    }
  }

  lemma {:induction false} SelectedFieldsAreFields(fields: seq<CanvasField>, selected: seq<string>, f: CanvasField)
    ensures f in SelectedFields(fields, selected) ==> f in fields
  {
    hide Trim, Lower;
    if selected != [] {
      LastFieldIsField(fields, Lower(Trim(selected[0])));
      SelectedFieldsAreFields(fields, selected[1..], f);
    }
  }

  lemma NodeFieldsNamed(n: CanvasNode, f: CanvasField)
    requires NodeWF(n) && f in NodeFields(n)
    ensures f.name != ""
  {
    hide SelectedWF, FieldKeys, Trimmed;
    SelectedFieldsAreFields(n.fields, n.selectedFields, f);
  }

  /** A reference comes from a field of one node. */
  predicate Contributed(nodes: seq<CanvasNode>, f: QG.FieldRef) {
    exists i, k :: 0 <= i < |nodes| && 0 <= k < |NodeFields(nodes[i])| &&
                   f == QG.FieldRef("", NodeFields(nodes[i])[k].alias, nodes[i].alias, NodeFields(nodes[i])[k].name)
  }

  lemma {:induction false} FieldsOfNodesMembers(nodes: seq<CanvasNode>, f: QG.FieldRef)
    ensures f in FieldsOfNodes(nodes) <==> Contributed(nodes, f)
  {
    hide NodeFields;
    if nodes != [] {
      var rest := nodes[1..];
      FieldsOfNodesMembers(rest, f);
      var refs := Refs(nodes[0].alias, NodeFields(nodes[0]));
      assert f in FieldsOfNodes(nodes) <==> f in refs || f in FieldsOfNodes(rest);
      if f in refs {
        var k :| 0 <= k < |refs| && refs[k] == f;
      } else if Contributed(rest, f) {
        var i, k :| 0 <= i < |rest| && 0 <= k < |NodeFields(rest[i])| &&
          f == QG.FieldRef("", NodeFields(rest[i])[k].alias, rest[i].alias, NodeFields(rest[i])[k].name);
        assert nodes[i + 1] == rest[i];
      }
      if Contributed(nodes, f) {
        var i, k :| 0 <= i < |nodes| && 0 <= k < |NodeFields(nodes[i])| &&
          f == QG.FieldRef("", NodeFields(nodes[i])[k].alias, nodes[i].alias, NodeFields(nodes[i])[k].name);
        if i == 0 {
          assert refs[k] == f;
        } else {
          assert rest[i - 1] == nodes[i];
        }
      }
    }
  }

  lemma {:induction false} DedupeIsPart(fields: seq<QG.FieldRef>, seen: set<string>, f: QG.FieldRef)
    ensures f in Dedupe(fields, seen) ==> f in fields
    decreases |fields|
  {
    hide RefKey;
    if fields != [] {
      DedupeIsPart(fields[1..], seen, f);
      DedupeIsPart(fields[1..], seen + {RefKey(fields[0])}, f);
    }
  }

  lemma QueryFieldsAreInScopeIff(nodes: seq<CanvasNode>, declared: set<string>, f: QG.FieldRef)
    requires nodes != [] && NodesWF(nodes) && f in QueryFields(nodes)
    ensures QG.FieldFault(declared, f).None? <==> f.column == "*" || f.source in declared
    ensures f.column == "*" || exists i :: 0 <= i < |nodes| && nodes[i].alias == f.source
  {
    hide FieldsOfNodes, Dedupe, NodeFields, NodeWF;
    if f.column != "*" {
      DedupeIsPart(FieldsOfNodes(nodes), {}, f);
      FieldsOfNodesMembers(nodes, f);
      var i, k :| 0 <= i < |nodes| && 0 <= k < |NodeFields(nodes[i])| &&
        f == QG.FieldRef("", NodeFields(nodes[i])[k].alias, nodes[i].alias, NodeFields(nodes[i])[k].name);
      assert NodeWF(nodes[i]);
      NodeFieldsNamed(nodes[i], NodeFields(nodes[i])[k]);
      NamedAlias(nodes[i]);
      assert QG.Blank("");
    }
  }

  lemma NamedAlias(n: CanvasNode)
    requires NodeWF(n)
    ensures n.alias != "" && Trim(n.alias) == n.alias && n.table != "" && Trim(n.table) == n.table
  {
    hide FieldsWF, SelectedWF;
  }

  // ---------- The main results ----------

  /** Every field of the query, "*" aside, comes from a reached node. */
  predicate FieldsReached(s: CanvasSpec)
    requires s.nodes != []
  {
    forall f :: f in QueryFields(s.nodes) ==>
      f.column == "*" || exists i :: 0 <= i < |s.nodes| && s.nodes[i].alias == f.source && s.nodes[i].id in Reached(s)
  }

  lemma RootMatches(s: CanvasSpec)
    requires s.nodes != [] && NodesWF(s.nodes)
    ensures Matches(s.nodes, {s.nodes[0].id}, {s.nodes[0].alias})
  {
    assert Matches(s.nodes, {}, {});
    MatchesGrows(s.nodes, {}, {}, 0);
    assert {} + {s.nodes[0].id} == {s.nodes[0].id} && {} + {s.nodes[0].alias} == {s.nodes[0].alias};
  }

  /** The query fields are in the scope of the joins exactly when they come from reached nodes. */
  lemma FieldsInScopeIff(s: CanvasSpec, declared: set<string>)
    requires s.nodes != [] && NodesWF(s.nodes)
    requires Matches(s.nodes, Reached(s), declared)
    ensures QG.FieldsFault(declared, QueryFields(s.nodes)).None? <==> FieldsReached(s)
  {
    hide NodesWF, QueryFields, Reached, QG.FieldFault;
    var fs := QueryFields(s.nodes);
    forall f | f in fs
      ensures QG.FieldFault(declared, f).None? <==>
                f.column == "*" || exists i :: 0 <= i < |s.nodes| && s.nodes[i].alias == f.source && s.nodes[i].id in Reached(s)
    {
      QueryFieldsAreInScopeIff(s.nodes, declared, f);
    }
  }

  /** A well-formed canvas always gives a graph, whose joins and fields decide whether it normalises. */
  lemma CanvasGraphNormalizes(s: CanvasSpec, limit: int)
    requires WellFormed(s)
    ensures CanvasGraph(s).Ok? && CanvasGraph(s) == GraphOf(s)
    ensures var g := CanvasGraph(s).value.(limit := limit);
            QG.Normalize(g).Ok? <==> Attaches({s.nodes[0].id}, s.edges) && FieldsReached(s)
  {
    hide NodesWF, EdgesWF, Matches, QueryFields, Reached, FieldsReached, QG.FieldsFault, EdgeJoins, NormalizeSpec,
         QG.NormalizeJoins, QG.DeclaredBy, Attaches, Targets;
    WellFormedIsFixpoint(s);
    RootMatches(s);
    JoinsAttach(s.nodes, s.edges, {s.nodes[0].id}, {s.nodes[0].alias});
    NamedAlias(FirstNode(s));
    var g := CanvasGraph(s).value.(limit := limit);
    assert QG.SourceAlias(g) == s.nodes[0].alias;
    ReachedIs(s);
    FieldsInScopeIff(s, QG.Declared(g));
    assert QG.References(g) == g.fields;
    assert QG.Blank("");
  }

  lemma ReachedIs(s: CanvasSpec)
    requires s.nodes != []
    ensures Reached(s) == {s.nodes[0].id} + Targets(s.edges)
  {
  }

  function FirstNode(s: CanvasSpec): (n: CanvasNode)
    requires WellFormed(s)
    ensures NodeWF(n)
  {
    s.nodes[0]
  }

  /**
    A well-formed canvas compiles exactly when its edges, in list order, each attach a
    fresh node to the part reached from the first node, and every named field left after
    removing duplicates comes from a reached node.
   */
  lemma CompilesIff(s: CanvasSpec, limit: int)
    requires WellFormed(s)
    ensures Compile(s, limit).Ok? <==> Attaches({s.nodes[0].id}, s.edges) && FieldsReached(s)
  {
    hide WellFormed, QG.Normalize, FieldsReached, Attaches, Sql.SelectText, Sql.FromText, Sql.TailText, CanvasGraph;
    CanvasGraphNormalizes(s, if limit > 0 then limit else 0);
    GraphHasNoConditions(s);
    var g := CanvasGraph(s).value;
    var g' := if limit > 0 then g.(limit := limit) else g;
    assert g' == g.(limit := if limit > 0 then limit else 0);
    if QG.Normalize(g').Ok? {
      NormalizeKeepsConditions(g');
      assert Sql.WhereText(QG.Normalize(g').value).Ok?;
    }
  }

  lemma GraphHasNoConditions(s: CanvasSpec)
    requires CanvasGraph(s).Ok?
    ensures CanvasGraph(s).value.predicates == [] && CanvasGraph(s).value.condition == "" && CanvasGraph(s).value.limit == 0
  {
    hide NormalizeSpec, EdgeJoins, QueryFields;
  }

  lemma NormalizeKeepsConditions(g: QG.Graph)
    requires QG.Normalize(g).Ok?
    ensures QG.Normalize(g).value.predicates == g.predicates && QG.Normalize(g).value.condition == g.condition
  {
    hide QG.NormalizeJoins, QG.PredicatesFault, QG.FieldsFault;
  }

  lemma SameAliasSameNode(nodes: seq<CanvasNode>, i: nat, j: nat)
    requires NodesWF(nodes) && i < |nodes| && j < |nodes| && nodes[i].alias == nodes[j].alias
    ensures i == j
  {
    hide NodeWF, Lower;
    assert Lower(nodes[i].alias) == Lower(nodes[j].alias);
  }

  lemma {:induction false} AliasesCount(nodes: seq<CanvasNode>, aliases: set<string>)
    requires forall a :: a in aliases ==> exists i :: 0 <= i < |nodes| && nodes[i].alias == a
    ensures |aliases| <= |nodes|
  {
    if nodes == [] {
      assert aliases == {};
    } else {
      var rest := aliases - {nodes[0].alias};
      forall a | a in rest
        ensures exists i :: 0 <= i < |nodes[1..]| && nodes[1..][i].alias == a
      {
        var i :| 0 <= i < |nodes| && nodes[i].alias == a;
        assert nodes[1..][i - 1].alias == a;
      }
      AliasesCount(nodes[1..], rest);
      assert aliases <= rest + {nodes[0].alias};
    }
  }

  lemma {:induction false} JoinAliasesAreNodes(nodes: seq<CanvasNode>, edges: seq<CanvasEdge>, a: string)
    requires NodesWF(nodes) && EdgesWF(nodes, edges) && EdgeJoins(nodes, edges).Ok?
    requires a in QG.DeclaredBy(EdgeJoins(nodes, edges).value)
    ensures exists i :: 0 <= i < |nodes| && nodes[i].alias == a
  {
    hide NodesWF, EdgeWF, EdgeJoin, QG.DeclaredBy, QG.NormalizeJoin;
    if edges == [] {
      QG.NothingDeclared();
    } else {
      EdgesSuffix(nodes, edges);
      var from, to := EdgeJoinMeaning(nodes, edges[0]);
      var joins := EdgeJoins(nodes, edges).value;
      QG.DeclaredByCons(joins);
      assert joins[1..] == EdgeJoins(nodes, edges[1..]).value;
      if a != nodes[to].alias {
        JoinAliasesAreNodes(nodes, edges[1..], a);
      }
    }
  }

  /**
    A canvas that compiles gives a scoped graph: each alias is declared once, before every
    ON and SELECT that uses it; its joins form a tree, one join fewer than declared
    aliases, so there are fewer edges than nodes.
   */
  lemma CompiledIsTree(s: CanvasSpec)
    requires WellFormed(s) && Compile(s, 0).Ok?
    ensures QG.Normalize(CanvasGraph(s).value).Ok?
    ensures var n := QG.Normalize(CanvasGraph(s).value).value;
            && QG.Scoped(n)
            && |n.joins| == |s.edges|
            && |{n.from.alias} + QG.DeclaredBy(n.joins)| == |s.edges| + 1
            && |s.edges| < |s.nodes|
  {
    hide NodesWF, EdgesWF, QG.Scoped, QG.DeclaredBy, QG.NormalizeJoins, NormalizeSpec, EdgeJoins, QueryFields,
         QG.FieldsFault, QG.PredicatesFault, QG.JoinsScoped;
    var g := CanvasGraph(s).value;
    var n := QG.Normalize(g).value;
    CanvasGraphNormalizes(s, 0);
    QG.NormalizedIsScoped(g);
    RootMatches(s);
    JoinsAttach(s.nodes, s.edges, {s.nodes[0].id}, {s.nodes[0].alias});
    NamedAlias(FirstNode(s));
    assert QG.SourceAlias(g) == s.nodes[0].alias;
    QG.NormalizeJoinsShape({s.nodes[0].alias}, g.joins);
    QG.SameDeclared(g.joins, n.joins);
    QG.ScopedJoinsCount({n.from.alias}, n.joins);
    DeclaredAreNodes(s);
    AliasesCount(s.nodes, {n.from.alias} + QG.DeclaredBy(n.joins));
  }

  lemma DeclaredAreNodes(s: CanvasSpec)
    requires WellFormed(s) && EdgeJoins(s.nodes, s.edges).Ok?
    ensures forall a :: a in {s.nodes[0].alias} + QG.DeclaredBy(EdgeJoins(s.nodes, s.edges).value) ==>
              exists i :: 0 <= i < |s.nodes| && s.nodes[i].alias == a
  {
    hide NodesWF, EdgesWF, QG.DeclaredBy, EdgeJoins;
    forall a | a in {s.nodes[0].alias} + QG.DeclaredBy(EdgeJoins(s.nodes, s.edges).value)
      ensures exists i :: 0 <= i < |s.nodes| && s.nodes[i].alias == a
    {
      if a != s.nodes[0].alias {
        JoinAliasesAreNodes(s.nodes, s.edges, a);
      }
    }
  }
}
