/**
  The joins, fields and rows of a canvas, said from what was drawn: how each spelling of a
  join type is printed, which fields of a node are selected, and which rows outer joins keep.
 */
module CanvasJoins {
  import opened Results
  import opened Text
  import opened CanvasModel
  import opened CanvasNormalForm
  import opened CanvasBridge
  import opened CanvasCompile
  import opened CanvasCoverage
  import opened CanvasMeaning
  import QG = QueryGraph
  import Sql
  import SqlReader
  import J = JoinSemantics
  import O = OuterJoins

  // ---------- The kind of join ----------

  predicate SaysInner(joinType: string) {
    var t := Upper(Trim(joinType));
    t == "" || t == "INNER" || t == "INNER JOIN"
  }

  predicate SaysLeft(joinType: string) {
    var t := Upper(Trim(joinType));
    t == "LEFT" || t == "LEFT JOIN"
  }

  predicate SaysRight(joinType: string) {
    var t := Upper(Trim(joinType));
    t == "RIGHT" || t == "RIGHT JOIN"
  }

  predicate SaysFull(joinType: string) {
    var t := Upper(Trim(joinType));
    t == "FULL" || t == "FULL JOIN" || t == "FULL OUTER" || t == "FULL OUTER JOIN"
  }

  /** The printed kind of join is the one the edge spells, whatever its case and the space around it. */
  predicate KindAsSpelled(joinType: string, kind: string) {
    && (kind == "INNER JOIN" <==> SaysInner(joinType))
    && (kind == "LEFT JOIN" <==> SaysLeft(joinType))
    && (kind == "RIGHT JOIN" <==> SaysRight(joinType))
    && (kind == "FULL OUTER JOIN" <==> SaysFull(joinType))
    && (SaysInner(joinType) || SaysLeft(joinType) || SaysRight(joinType) || SaysFull(joinType))
  }

  lemma SpellingsDiffer(t: string)
    ensures t == "" || t == "INNER" || t == "INNER JOIN" ==> t == "" || t[0] == 'I'
    ensures t == "LEFT" || t == "LEFT JOIN" ==> t != "" && t[0] == 'L'
    ensures t == "RIGHT" || t == "RIGHT JOIN" ==> t != "" && t[0] == 'R'
    ensures t == "FULL" || t == "FULL JOIN" || t == "FULL OUTER" || t == "FULL OUTER JOIN" ==> t != "" && t[0] == 'F'
  {
  }

  lemma KindIsSpelled(joinType: string)
    requires ParseJoinType(joinType).Ok?
    ensures KindAsSpelled(joinType, JoinText(ParseJoinType(joinType).value))
  {
    hide Upper, Trim;
    O.KindsDiffer();
    SpellingsDiffer(Upper(Trim(joinType)));
  }

  lemma SpelledOnce(joinType: string)
    ensures Upper(Trim(Upper(Trim(joinType)))) == Upper(Trim(joinType))
  {
    hide TrimLeft, TrimRight, Upper;
    TrimCommutesWithCase(joinType);
    TrimUpperIsNormal(joinType);
  }

  /** " left Join " says LEFT. */
  lemma CaseAndSpaceDoNotMatter()
    ensures SaysLeft(" left Join ")
  {
    assert " left Join "[1..] == "left Join ";
    assert "left Join "[..9] == "left Join";
    assert Trim(" left Join ") == "left Join";
    assert Upper("left Join") == "LEFT JOIN";
  }

  // ---------- Edges as joins ----------

  /** The join hangs the table and alias of the to-node onto the alias of the from-node, on the columns of the edge. */
  predicate JoinOfEdge(nodes: seq<CanvasNode>, e: CanvasEdge, j: QG.Join) {
    && (exists from :: 0 <= from < |nodes| && nodes[from].id == e.fromNode && j.leftAlias == nodes[from].alias)
    && (exists to :: 0 <= to < |nodes| && nodes[to].id == e.toNode && j.rightTable == nodes[to].table && j.rightAlias == nodes[to].alias)
    && j.leftColumn == e.fromColumn && j.rightColumn == e.toColumn
    && KindAsSpelled(e.joinType, j.kind)
  }

  lemma EdgeBecomesJoin(nodes: seq<CanvasNode>, e: CanvasEdge)
    requires NodesWF(nodes) && EdgeWF(nodes, e)
    ensures EdgeJoin(nodes, e).Ok? && JoinOfEdge(nodes, e, EdgeJoin(nodes, e).value)
  {
    hide NodesWF, EdgeJoin, ParseJoinType, JoinText, HasField, KindAsSpelled, Upper, Trim;
    var from, to := EdgeJoinMeaning(nodes, e);
    KindIsSpelled(e.joinType);
  }

  // ---------- The fields of a node ----------

  /** The last of the fields whose name is a case variant of the given one. */
  predicate LastOfName(fields: seq<CanvasField>, name: string, f: CanvasField) {
    exists k :: 0 <= k < |fields| && fields[k] == f && Lower(f.name) == Lower(name) &&
                forall m :: k < m < |fields| ==> Lower(fields[m].name) != Lower(name)
  }

  lemma {:induction false} LastFieldIsLast(fields: seq<CanvasField>, name: string)
    requires FieldsWF(fields) && exists i :: 0 <= i < |fields| && Lower(fields[i].name) == Lower(name)
    ensures LastField(fields, Lower(name)).Some? && LastOfName(fields, name, LastField(fields, Lower(name)).value)
  {
    hide Lower;
    var n := |fields| - 1;
    assert Trim(fields[n].name) == fields[n].name;
    if Lower(fields[n].name) != Lower(name) {
      LastFieldIsLast(fields[..n], name);
      var f := LastField(fields[..n], Lower(name)).value;
      var k :| 0 <= k < n && fields[..n][k] == f && Lower(f.name) == Lower(name) &&
               forall m :: k < m < n ==> Lower(fields[..n][m].name) != Lower(name);
      assert forall m :: k < m < n ==> fields[..n][m] == fields[m];
      assert fields[k] == f;
    }
  }

  lemma KeyIsField(fields: seq<CanvasField>, name: string)
    requires FieldsWF(fields) && Lower(name) in FieldKeys(fields)
    ensures exists i :: 0 <= i < |fields| && Lower(fields[i].name) == Lower(name)
  {
    hide Lower;
    var i :| 0 <= i < |fields| && Lower(Trim(fields[i].name)) == Lower(name);
    assert Trim(fields[i].name) == fields[i].name;
  }

  predicate OneEach(fields: seq<CanvasField>, selected: seq<string>, out: seq<CanvasField>) {
    |out| == |selected| && forall i :: 0 <= i < |selected| ==> LastOfName(fields, selected[i], out[i])
  }

  lemma {:induction false} SelectedOneEach(fields: seq<CanvasField>, selected: seq<string>)
    requires FieldsWF(fields) && SelectedWF(selected, FieldKeys(fields))
    ensures OneEach(fields, selected, SelectedFields(fields, selected))
  {
    hide Lower, LastField, LastOfName, FieldKeys;
    if selected != [] {
      assert SelectedWF(selected[1..], FieldKeys(fields)) by { SelectedTail(selected, FieldKeys(fields)); }
      SelectedOneEach(fields, selected[1..]);
      assert Trim(selected[0]) == selected[0];
      KeyIsField(fields, selected[0]);
      LastFieldIsLast(fields, selected[0]);
      LastFieldIsField(fields, Lower(selected[0]));
      hide Trim;
    }
  }

  lemma SelectedTail(selected: seq<string>, known: set<string>)
    requires SelectedWF(selected, known) && selected != []
    ensures SelectedWF(selected[1..], known)
  {
    hide Lower;
  }

  /** A node without a selection puts all its fields into the query, one with a selection exactly one field for each selected name, in order. */
  lemma NodeFieldsMeaning(n: CanvasNode)
    requires NodeWF(n)
    ensures if n.selectedFields == [] then NodeFields(n) == n.fields else OneEach(n.fields, n.selectedFields, NodeFields(n))
  {
    hide LastOfName, SelectedFields, FieldsWF, SelectedWF, FieldKeys;
    if n.selectedFields != [] {
      SelectedOneEach(n.fields, n.selectedFields);
    }
  }

  /** The node offers the field to the query. */
  predicate Offers(n: CanvasNode, f: CanvasField) {
    if n.selectedFields == [] then f in n.fields
    else exists i :: 0 <= i < |n.selectedFields| && LastOfName(n.fields, n.selectedFields[i], f)
  }

  lemma LastIsOne(fields: seq<CanvasField>, name: string, f: CanvasField, g: CanvasField)
    requires LastOfName(fields, name, f) && LastOfName(fields, name, g)
    ensures f == g
  {
    hide Lower;
    var k :| 0 <= k < |fields| && fields[k] == f && Lower(f.name) == Lower(name) &&
             forall m :: k < m < |fields| ==> Lower(fields[m].name) != Lower(name);
    var l :| 0 <= l < |fields| && fields[l] == g && Lower(g.name) == Lower(name) &&
             forall m :: l < m < |fields| ==> Lower(fields[m].name) != Lower(name);
  }

  lemma OffersIff(n: CanvasNode, f: CanvasField)
    requires NodeWF(n)
    ensures f in NodeFields(n) <==> Offers(n, f)
  {
    hide NodeWF, NodeFields, LastOfName;
    NodeFieldsMeaning(n);
    if n.selectedFields != [] {
      if i :| 0 <= i < |n.selectedFields| && LastOfName(n.fields, n.selectedFields[i], f) {
        LastIsOne(n.fields, n.selectedFields[i], f, NodeFields(n)[i]);
      }
      if f in NodeFields(n) {
        var i :| 0 <= i < |NodeFields(n)| && NodeFields(n)[i] == f;
      }
    }
  }

  /** A reference to a field that some node offers. */
  predicate OfferedRef(nodes: seq<CanvasNode>, f: QG.FieldRef) {
    f.expression == "" && exists i :: 0 <= i < |nodes| && nodes[i].alias == f.source && Offers(nodes[i], CanvasField(f.column, f.alias))
  }

  lemma OfferedIsContributed(nodes: seq<CanvasNode>, f: QG.FieldRef)
    requires NodesWF(nodes)
    ensures OfferedRef(nodes, f) <==> f in FieldsOfNodes(nodes)
  {
    hide NodeWF, NodeFields, Offers, Lower, FieldsOfNodes;
    FieldsOfNodesMembers(nodes, f);
    forall i | 0 <= i < |nodes|
      ensures CanvasField(f.column, f.alias) in NodeFields(nodes[i]) <==> Offers(nodes[i], CanvasField(f.column, f.alias))
    {
      OffersIff(nodes[i], CanvasField(f.column, f.alias));
    }
    if f in FieldsOfNodes(nodes) {
      var i, k :| 0 <= i < |nodes| && 0 <= k < |NodeFields(nodes[i])| &&
        f == QG.FieldRef("", NodeFields(nodes[i])[k].alias, nodes[i].alias, NodeFields(nodes[i])[k].name);
      assert NodeFields(nodes[i])[k] == CanvasField(f.column, f.alias);
    }
    if OfferedRef(nodes, f) {
      var i :| 0 <= i < |nodes| && nodes[i].alias == f.source && Offers(nodes[i], CanvasField(f.column, f.alias));
      var k :| 0 <= k < |NodeFields(nodes[i])| && NodeFields(nodes[i])[k] == CanvasField(f.column, f.alias);
    }
  }

  /** The query selects offered fields only, each key once, and no key of an offered field is missing; without any it selects everything. */
  predicate SelectsOffered(nodes: seq<CanvasNode>, fields: seq<QG.FieldRef>)
    requires nodes != []
  {
    if forall i, k :: 0 <= i < |nodes| && 0 <= k < |nodes[i].fields| ==> !Offers(nodes[i], nodes[i].fields[k]) then
      fields == [QG.FieldRef("", "", nodes[0].alias, "*")]
    else
      && (forall k :: 0 <= k < |fields| ==> OfferedRef(nodes, fields[k]))
      && KeysApart(fields)
      && (forall i, k :: 0 <= i < |nodes| && 0 <= k < |nodes[i].fields| && Offers(nodes[i], nodes[i].fields[k]) ==>
            exists l :: 0 <= l < |fields| &&
              RefKey(fields[l]) == nodes[i].alias + "." + nodes[i].fields[k].name + "@" + nodes[i].fields[k].alias)
  }

  predicate KeysApart(fields: seq<QG.FieldRef>) {
    forall k, l :: 0 <= k < l < |fields| ==> RefKey(fields[k]) != RefKey(fields[l])
  }

  predicate KeysNew(fields: seq<QG.FieldRef>, seen: set<string>) {
    forall k :: 0 <= k < |fields| ==> RefKey(fields[k]) !in seen
  }

  lemma ApartCons(f: QG.FieldRef, rest: seq<QG.FieldRef>, seen: set<string>)
    requires KeysApart(rest) && KeysNew(rest, seen + {RefKey(f)}) && RefKey(f) !in seen
    ensures KeysApart([f] + rest) && KeysNew([f] + rest, seen)
  {
    hide RefKey;
    forall k | 0 <= k < |rest|
      ensures RefKey(rest[k]) != RefKey(f) && RefKey(rest[k]) !in seen
    {
      assert RefKey(rest[k]) !in seen + {RefKey(f)};
    }
  }

  lemma {:induction false} DedupeKeysDiffer(fields: seq<QG.FieldRef>, seen: set<string>)
    ensures KeysApart(Dedupe(fields, seen)) && KeysNew(Dedupe(fields, seen), seen)
    decreases |fields|
  {
    hide RefKey, KeysApart, KeysNew;
    if fields == [] {
      NoKeys(seen);
    } else if RefKey(fields[0]) in seen {
      DedupeKeysDiffer(fields[1..], seen);
    } else {
      DedupeKeysDiffer(fields[1..], seen + {RefKey(fields[0])});
      ApartCons(fields[0], Dedupe(fields[1..], seen + {RefKey(fields[0])}), seen);
    }
  }

  lemma NoKeys(seen: set<string>)
    ensures KeysApart([]) && KeysNew([], seen)
  {
  }

  lemma OffersAField(n: CanvasNode, f: CanvasField)
    requires Offers(n, f)
    ensures exists k :: 0 <= k < |n.fields| && n.fields[k] == f
  {
    hide Lower;
    if n.selectedFields != [] {
      var i :| 0 <= i < |n.selectedFields| && LastOfName(n.fields, n.selectedFields[i], f);
    }
  }

  lemma QueryFieldsSelectOffered(nodes: seq<CanvasNode>)
    requires nodes != [] && NodesWF(nodes)
    ensures SelectsOffered(nodes, QueryFields(nodes))
  {
    hide NodesWF, FieldsOfNodes, Dedupe, RefKey, Offers, OfferedRef;
    var all := FieldsOfNodes(nodes);
    var kept := Dedupe(all, {});
    DedupeKeysDiffer(all, {});
    forall k | 0 <= k < |kept|
      ensures OfferedRef(nodes, kept[k])
    {
      DedupeIsPart(all, {}, kept[k]);
      OfferedIsContributed(nodes, kept[k]);
    }
    forall i, k | 0 <= i < |nodes| && 0 <= k < |nodes[i].fields| && Offers(nodes[i], nodes[i].fields[k])
      ensures exists l :: 0 <= l < |kept| &&
                RefKey(kept[l]) == nodes[i].alias + "." + nodes[i].fields[k].name + "@" + nodes[i].fields[k].alias
    {
      var l := OfferedKeyKept(nodes, i, nodes[i].fields[k]);
    }
    var none := forall i, k :: 0 <= i < |nodes| && 0 <= k < |nodes[i].fields| ==> !Offers(nodes[i], nodes[i].fields[k]);
    if kept != [] {
      SomeFieldOffered(nodes, kept[0]);
      assert !none;
    } else {
      assert none;
    }
  }

  lemma OfferedKeyKept(nodes: seq<CanvasNode>, i: nat, f: CanvasField) returns (l: nat)
    requires NodesWF(nodes) && i < |nodes| && Offers(nodes[i], f)
    ensures l < |Dedupe(FieldsOfNodes(nodes), {})|
    ensures RefKey(Dedupe(FieldsOfNodes(nodes), {})[l]) == nodes[i].alias + "." + f.name + "@" + f.alias
  {
    hide NodesWF, FieldsOfNodes, Dedupe, Offers;
    var ref := QG.FieldRef("", f.alias, nodes[i].alias, f.name);
    var all := FieldsOfNodes(nodes);
    assert CanvasField(ref.column, ref.alias) == f;
    OfferedIsContributed(nodes, ref);
    var p :| 0 <= p < |all| && all[p] == ref;
    var q := FirstOfKey(all, p);
    DedupeKeepsFirst(all, {}, all[q]);
    l :| 0 <= l < |Dedupe(all, {})| && Dedupe(all, {})[l] == all[q];
  }

  lemma SomeFieldOffered(nodes: seq<CanvasNode>, f: QG.FieldRef)
    requires OfferedRef(nodes, f)
    ensures exists i, k :: 0 <= i < |nodes| && 0 <= k < |nodes[i].fields| && Offers(nodes[i], nodes[i].fields[k])
  {
    hide Offers;
    var i :| 0 <= i < |nodes| && nodes[i].alias == f.source && Offers(nodes[i], CanvasField(f.column, f.alias));
    OffersAField(nodes[i], CanvasField(f.column, f.alias));
    var k :| 0 <= k < |nodes[i].fields| && nodes[i].fields[k] == CanvasField(f.column, f.alias);
  }

  // ---------- The query of a canvas ----------

  /**
    What the SQL of a well-formed canvas says, where no node offers a field "*": its first
    node as source, in list order one join for every edge, of the kind the edge spells, the
    offered fields, and the limit.
   */
  lemma CanvasQueryMeaning(s: CanvasSpec, limit: int) returns (q: SqlReader.Skeleton)
    requires WellFormed(s) && Compile(s, limit).Ok?
    requires forall i, k :: 0 <= i < |s.nodes| && 0 <= k < |s.nodes[i].fields| ==> s.nodes[i].fields[k].name != "*"
    requires exists i, k :: 0 <= i < |s.nodes| && 0 <= k < |s.nodes[i].fields| && Offers(s.nodes[i], s.nodes[i].fields[k])
    ensures SqlReader.ReadQuery(Compile(s, limit).value.sql) == Some(q)
    ensures q.from == QG.QuerySource(s.nodes[0].table, s.nodes[0].alias)
    ensures |q.joins| == |s.edges| && forall i :: 0 <= i < |s.edges| ==> JoinOfEdge(s.nodes, s.edges[i], q.joins[i])
    ensures SelectsOffered(s.nodes, q.fields)
    ensures q.groupBy == [] && q.orderBy == [] && q.limit == if limit > 0 then limit else 0
  {
    hide NodesWF, EdgeWF, Compile, EdgeJoins, QueryFields, SqlReader.ReadQuery, Offers, OfferedRef, JoinOfEdge, RefKey;
    QueryFieldsSelectOffered(s.nodes);
    forall f | f in QueryFields(s.nodes)
      ensures f.column != "*"
    {
      NamedColumn(s.nodes, f);
    }
    hide SelectsOffered;
    CanvasSqlReadsBack(s, limit);
    q := SqlReader.ReadQuery(Compile(s, limit).value.sql).value;
    EdgeJoinsLength(s.nodes, s.edges);
    forall i | 0 <= i < |s.edges|
      ensures JoinOfEdge(s.nodes, s.edges[i], q.joins[i])
    {
      EdgeJoinsAt(s.nodes, s.edges, i);
      EdgeBecomesJoin(s.nodes, s.edges[i]);
    }
  }

  lemma NamedColumn(nodes: seq<CanvasNode>, f: QG.FieldRef)
    requires OfferedRef(nodes, f)
    requires forall i, k :: 0 <= i < |nodes| && 0 <= k < |nodes[i].fields| ==> nodes[i].fields[k].name != "*"
    ensures f.column != "*"
  {
    hide Offers;
    var i :| 0 <= i < |nodes| && nodes[i].alias == f.source && Offers(nodes[i], CanvasField(f.column, f.alias));
    OffersAField(nodes[i], CanvasField(f.column, f.alias));
  }

  /** Drawing the join type in another spelling of the same kind changes nothing: what is compiled is the normalised canvas. */
  lemma RawJoinKinds(raw: CanvasSpec, i: nat, kind: string)
    requires NormalizeSpec(raw).Ok? && i < |raw.edges|
    ensures |NormalizeSpec(raw).value.edges| == |raw.edges|
    ensures KindAsSpelled(NormalizeSpec(raw).value.edges[i].joinType, kind) <==> KindAsSpelled(raw.edges[i].joinType, kind)
    ensures forall limit :: Compile(raw, limit) == Compile(NormalizeSpec(raw).value, limit)
  {
    hide NormalizeSpec, WellFormed, NormalNode, GraphOf, Upper, Trim, Sql.Generate;
    NormalizeSpecAccepts(raw);
    WellFormedIsFixpoint(raw);
    var n := NormalizeSpec(raw).value;
    WellFormedIsFixpoint(n);
    TrimCommutesWithCase(raw.edges[i].joinType);
    assert n.edges[i].joinType == Trim(Upper(raw.edges[i].joinType));
    SpelledOnce(raw.edges[i].joinType);
  }

  // ---------- Rows that outer joins keep ----------

  predicate EdgeKeepsSoFar(e: CanvasEdge) {
    SaysLeft(e.joinType) || SaysFull(e.joinType)
  }

  predicate EdgeKeepsJoined(e: CanvasEdge) {
    SaysRight(e.joinType) || SaysFull(e.joinType)
  }

  lemma JoinKeepsAsSpelled(nodes: seq<CanvasNode>, e: CanvasEdge, j: QG.Join)
    requires JoinOfEdge(nodes, e, j)
    ensures EdgeKeepsSoFar(e) ==> O.KeepsSoFar(j)
    ensures EdgeKeepsJoined(e) ==> O.KeepsJoined(j)
  {
    hide Upper, SaysInner;
    assert Trimmed("LEFT JOIN") && Trimmed("RIGHT JOIN") && Trimmed("FULL OUTER JOIN");
    assert Trim("LEFT JOIN") == "LEFT JOIN" && Trim("RIGHT JOIN") == "RIGHT JOIN" && Trim("FULL OUTER JOIN") == "FULL OUTER JOIN";
    hide Trim;
  }

  lemma JoinAtIsOfEdge(s: CanvasSpec, i: nat)
    requires WellFormed(s) && GraphOf(s).Ok? && i < |s.edges|
    ensures |GraphOf(s).value.joins| == |s.edges| && JoinOfEdge(s.nodes, s.edges[i], GraphOf(s).value.joins[i])
  {
    hide NodesWF, EdgeWF, EdgeJoins, EdgeJoin, QueryFields, JoinOfEdge;
    JoinCount(s);
    EdgeJoinsAt(s.nodes, s.edges, i);
    EdgeBecomesJoin(s.nodes, s.edges[i]);
  }

  /** A compiled canvas of LEFT and FULL edges shows every row of its first node. */
  lemma FirstNodeSurvives(db: J.Database, s: CanvasSpec, limit: int, row: nat)
    requires WellFormed(s) && Compile(s, limit).Ok?
    requires forall i :: 0 <= i < |s.edges| ==> EdgeKeepsSoFar(s.edges[i])
    requires row < |J.RowsOf(db, s.nodes[0].table)|
    ensures GraphOf(s).Ok? && O.Shows(CanvasRows(db, s), s.nodes[0].alias, s.nodes[0].table, row)
  {
    hide WellFormed, Compile, J.Evaluate, QG.JoinsScoped, JoinOfEdge, EdgeKeepsSoFar, O.KeepsSoFar, EdgeJoins, QueryFields, O.Shows;
    HasNodes(s);
    CanvasJoinsScoped(s, limit);
    JoinCount(s);
    var g := GraphOf(s).value;
    forall i | 0 <= i < |g.joins|
      ensures O.KeepsSoFar(g.joins[i])
    {
      JoinAtIsOfEdge(s, i);
      JoinKeepsAsSpelled(s.nodes, s.edges[i], g.joins[i]);
    }
    O.SourceSurvives(db, g, row);
  }

  /** A RIGHT or FULL edge shows every row of its to-node, when only LEFT and FULL edges come after it. */
  lemma ToNodeSurvives(db: J.Database, s: CanvasSpec, limit: int, k: nat, to: nat, row: nat)
    requires WellFormed(s) && Compile(s, limit).Ok? && k < |s.edges| && EdgeKeepsJoined(s.edges[k])
    requires forall i :: k < i < |s.edges| ==> EdgeKeepsSoFar(s.edges[i])
    requires to < |s.nodes| && s.nodes[to].id == s.edges[k].toNode && row < |J.RowsOf(db, s.nodes[to].table)|
    ensures GraphOf(s).Ok? && O.Shows(CanvasRows(db, s), s.nodes[to].alias, s.nodes[to].table, row)
  {
    hide Compile, J.Evaluate, QG.JoinsScoped, EdgeKeepsSoFar, EdgeKeepsJoined, O.KeepsSoFar, O.KeepsJoined, EdgeJoins, QueryFields,
         O.Shows, NodesWF, EdgesWF, KindAsSpelled, J.RowsOf;
    HasNodes(s);
    CanvasJoinsScoped(s, limit);
    JoinCount(s);
    var g := GraphOf(s).value;
    forall i | k <= i < |g.joins|
      ensures EdgeKeepsSoFar(s.edges[i]) ==> O.KeepsSoFar(g.joins[i])
      ensures EdgeKeepsJoined(s.edges[i]) ==> O.KeepsJoined(g.joins[i])
    {
      JoinAtIsOfEdge(s, i);
      JoinKeepsAsSpelled(s.nodes, s.edges[i], g.joins[i]);
    }
    JoinAtIsOfEdge(s, k);
    var to' :| 0 <= to' < |s.nodes| && s.nodes[to'].id == s.edges[k].toNode
               && g.joins[k].rightTable == s.nodes[to'].table && g.joins[k].rightAlias == s.nodes[to'].alias;
    SameIdSameNode(s.nodes, to, to');
    O.JoinedSurvives(db, g, k, row);
  }
}
