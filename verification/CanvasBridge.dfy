/**
  From a drawn canvas to a query graph: the first node is the source, every edge a join in
  list order, and the selected fields of every node the fields of the query.
 */
module CanvasBridge {
  import opened Results
  import opened Text
  import opened CanvasModel
  import opened CanvasNormalForm
  import QG = QueryGraph

  /** The last field whose name is a case variant of the key: a later field overrides an earlier one. */
  function LastField(fields: seq<CanvasField>, key: string): Option<CanvasField> {
    if fields == [] then None
    else if Lower(Trim(fields[|fields| - 1].name)) == key then Some(fields[|fields| - 1])
    else LastField(fields[..|fields| - 1], key)
  }

  function SelectedFields(fields: seq<CanvasField>, selected: seq<string>): seq<CanvasField> {
    if selected == [] then []
    else
      var field := LastField(fields, Lower(Trim(selected[0])));
      (if field.None? || field.value.name == "" then [] else [field.value]) + SelectedFields(fields, selected[1..])
  }

  /** The fields a node puts into the query: its selection, or all its fields if nothing is selected. */
  function NodeFields(n: CanvasNode): seq<CanvasField> {
    if |n.selectedFields| > 0 then SelectedFields(n.fields, n.selectedFields) else n.fields
  }

  function Refs(alias: string, fields: seq<CanvasField>): (r: seq<QG.FieldRef>)
    ensures |r| == |fields|
    ensures forall i :: 0 <= i < |fields| ==> r[i] == QG.FieldRef("", fields[i].alias, alias, fields[i].name)
  {
    seq(|fields|, i requires 0 <= i < |fields| => QG.FieldRef("", fields[i].alias, alias, fields[i].name))
  }

  function FieldsOfNodes(nodes: seq<CanvasNode>): seq<QG.FieldRef> {
    if nodes == [] then [] else Refs(nodes[0].alias, NodeFields(nodes[0])) + FieldsOfNodes(nodes[1..])
  }

  function RefKey(f: QG.FieldRef): string {
    f.source + "." + f.column + "@" + f.alias
  }

  /** The references whose key was not seen before. */
  function Dedupe(fields: seq<QG.FieldRef>, seen: set<string>): seq<QG.FieldRef> {
    if fields == [] then []
    else if RefKey(fields[0]) in seen then Dedupe(fields[1..], seen)
    else [fields[0]] + Dedupe(fields[1..], seen + {RefKey(fields[0])})
  }

  function JoinText(kind: JoinKind): string {
    match kind
    case Inner => QG.JOIN_INNER
    case Left => QG.JOIN_LEFT
    case Right => QG.JOIN_RIGHT
    case Full => QG.JOIN_FULL
  }

  /** The join an edge stands for; None when an end or the join type does not resolve. */
  function EdgeJoin(nodes: seq<CanvasNode>, e: CanvasEdge): Result<QG.Join, CanvasError> {
    if e.kind != EDGE_KIND_JOIN then Err(UnsupportedEdgeKind(e.kind))
    else
      match (FindNode(nodes, e.fromNode), FindNode(nodes, e.toNode))
      case (Some(left), Some(right)) =>
        if left.id == "" || right.id == "" then Err(MissingNode(e.fromNode))
        else
          (match ParseJoinType(e.joinType)
           case Err(err) => Err(err)
           case Ok(kind) =>
             Ok(QG.Join(JoinText(kind), left.alias, e.fromColumn, right.table, right.alias, e.toColumn)))
      case _ => Err(MissingNode(e.fromNode))
  }

  function EdgeJoins(nodes: seq<CanvasNode>, edges: seq<CanvasEdge>): Result<seq<QG.Join>, CanvasError> {
    if edges == [] then Ok([])
    else
      match EdgeJoin(nodes, edges[0])
      case Err(e) => Err(e)
      case Ok(j) => Prepend(j, EdgeJoins(nodes, edges[1..]))
  }

  function Prepend(j: QG.Join, r: Result<seq<QG.Join>, CanvasError>): Result<seq<QG.Join>, CanvasError> {
    match r
    case Err(e) => Err(e)
    case Ok(rest) => Ok([j] + rest)
  }

  /** The fields of the query: the distinct fields of all nodes, or everything if there are none. */
  function QueryFields(nodes: seq<CanvasNode>): seq<QG.FieldRef>
    requires nodes != []
  {
    var fields := Dedupe(FieldsOfNodes(nodes), {});
    if fields == [] then [QG.FieldRef("", "", nodes[0].alias, "*")] else fields
  }

  /** The graph of a canvas that is already normalised. */
  function GraphOf(n: CanvasSpec): Result<QG.Graph, CanvasError>
    requires n.nodes != []
  {
    match EdgeJoins(n.nodes, n.edges)
    case Err(e) => Err(e)
    case Ok(joins) =>
      Ok(QG.Graph(
           QG.QuerySource(n.nodes[0].table, n.nodes[0].alias), joins, QueryFields(n.nodes), "", [], [], [], 0))
  }

  /** QueryGraphFromCanvas */
  function CanvasGraph(raw: CanvasSpec): Result<QG.Graph, CanvasError> {
    match NormalizeSpec(raw)
    case Err(e) => Err(e)
    case Ok(n) => if n.nodes == [] then Err(NoNodes) else GraphOf(n)
  }

  // ---------- Collecting fields and joins step by step ----------

  method SelectFieldsForCanvasNode(n: CanvasNode) returns (out: seq<CanvasField>)
    ensures out == SelectedFields(n.fields, n.selectedFields)
  {
    hide Trim, Lower;
    var fieldSet: map<string, CanvasField> := map[];
    var i := 0;
    while i < |n.fields|
      invariant 0 <= i <= |n.fields|
      invariant forall key :: (key in fieldSet <==> LastField(n.fields[..i], key).Some?)
      invariant forall key :: key in fieldSet ==> LastField(n.fields[..i], key) == Some(fieldSet[key])
    {
      assert n.fields[..i + 1][..i] == n.fields[..i];
      fieldSet := fieldSet[Lower(Trim(n.fields[i].name)) := n.fields[i]];
      i := i + 1;
    }
    assert n.fields[..i] == n.fields;
    out := [];
    var k := 0;
    while k < |n.selectedFields|
      invariant 0 <= k <= |n.selectedFields|
      invariant SelectedFields(n.fields, n.selectedFields) == out + SelectedFields(n.fields, n.selectedFields[k..])
    {
      assert n.selectedFields[k..][1..] == n.selectedFields[k + 1..];
      var key := Lower(Trim(n.selectedFields[k]));
      if key in fieldSet && fieldSet[key].name != "" {
        out := out + [fieldSet[key]];
      }
      k := k + 1;
    }
  }

  method RefsOfFields(alias: string, fields: seq<CanvasField>) returns (refs: seq<QG.FieldRef>)
    ensures refs == Refs(alias, fields)
  {
    refs := [];
    var k := 0;
    while k < |fields|
      invariant 0 <= k <= |fields|
      invariant |refs| == k
      invariant forall i :: 0 <= i < k ==> refs[i] == QG.FieldRef("", fields[i].alias, alias, fields[i].name)
    {
      refs := refs + [QG.FieldRef("", fields[k].alias, alias, fields[k].name)];
      k := k + 1;
    }
  }

  method FieldsFromCanvasNode(node: CanvasNode) returns (refs: seq<QG.FieldRef>)
    ensures refs == Refs(node.alias, NodeFields(node))
  {
    hide SelectedFields, Refs;
    var nodeFields := node.fields;
    if |node.selectedFields| > 0 {
      nodeFields := SelectFieldsForCanvasNode(node);
    }
    refs := RefsOfFields(node.alias, nodeFields);
  }

  method FieldsFromCanvasNodes(nodes: seq<CanvasNode>) returns (out: seq<QG.FieldRef>)
    ensures out == FieldsOfNodes(nodes)
  {
    hide NodeFields, Refs;
    out := [];
    var i := 0;
    while i < |nodes|
      invariant 0 <= i <= |nodes|
      invariant FieldsOfNodes(nodes) == out + FieldsOfNodes(nodes[i..])
    {
      var rest := nodes[i..];
      assert rest[1..] == nodes[i + 1..];
      var refs := FieldsFromCanvasNode(rest[0]);
      assert FieldsOfNodes(rest) == refs + FieldsOfNodes(rest[1..]);
      assert out + (refs + FieldsOfNodes(rest[1..])) == (out + refs) + FieldsOfNodes(rest[1..]);
      out := out + refs;
      i := i + 1;
    }
  }

  method DedupeFieldRefs(fields: seq<QG.FieldRef>) returns (out: seq<QG.FieldRef>)
    ensures out == Dedupe(fields, {})
  {
    hide RefKey;
    out := [];
    var seen: set<string> := {};
    var i := 0;
    while i < |fields|
      invariant 0 <= i <= |fields|
      invariant Dedupe(fields, {}) == out + Dedupe(fields[i..], seen)
    {
      assert fields[i..][1..] == fields[i + 1..];
      var key := RefKey(fields[i]);
      if key !in seen {
        seen := seen + {key};
        out := out + [fields[i]];
      }
      i := i + 1;
    }
  }

  method QueryGraphFromCanvas(raw: CanvasSpec) returns (r: Result<QG.Graph, CanvasError>)
    ensures r == CanvasGraph(raw)
  {
    hide NormalizeSpec, EdgeJoin, FieldsOfNodes, Dedupe;
    var normalized := NormalizeSpec(raw);
    if normalized.Err? {
      return Err(normalized.error);
    }
    var spec := normalized.value;
    if spec.nodes == [] {
      return Err(NoNodes);
    }
    var fields := FieldsFromCanvasNodes(spec.nodes);
    fields := DedupeFieldRefs(fields);
    if |fields| == 0 {
      fields := [QG.FieldRef("", "", spec.nodes[0].alias, "*")];
    }
    var joins: seq<QG.Join> := [];
    var i := 0;
    assert spec.edges[0..] == spec.edges;
    JoinedNothing(EdgeJoins(spec.nodes, spec.edges));
    while i < |spec.edges|
      invariant 0 <= i <= |spec.edges|
      invariant EdgeJoins(spec.nodes, spec.edges) == Joined(joins, EdgeJoins(spec.nodes, spec.edges[i..]))
    {
      assert spec.edges[i..][1..] == spec.edges[i + 1..];
      var join := EdgeJoin(spec.nodes, spec.edges[i]);
      if join.Err? {
        return Err(join.error);
      }
      JoinedOne(joins, join.value, EdgeJoins(spec.nodes, spec.edges[i + 1..]));
      joins := joins + [join.value];
      i := i + 1;
    }
    assert joins + [] == joins;
    return Ok(QG.Graph(QG.QuerySource(spec.nodes[0].table, spec.nodes[0].alias), joins, fields, "", [], [], [], 0));
  }

  function Joined(joins: seq<QG.Join>, r: Result<seq<QG.Join>, CanvasError>): Result<seq<QG.Join>, CanvasError> {
    match r
    case Err(e) => Err(e)
    case Ok(rest) => Ok(joins + rest)
  }

  lemma JoinedNothing(r: Result<seq<QG.Join>, CanvasError>)
    ensures Joined([], r) == r
  {
    if r.Ok? {
      assert [] + r.value == r.value;
    }
  }

  lemma JoinedOne(joins: seq<QG.Join>, j: QG.Join, r: Result<seq<QG.Join>, CanvasError>)
    ensures Joined(joins + [j], r) == Joined(joins, Prepend(j, r))
  {
    if r.Ok? {
      assert joins + [j] + r.value == joins + ([j] + r.value);
    }
  }
}
