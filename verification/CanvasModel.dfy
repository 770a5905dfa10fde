/**
  The canvas a user draws: table nodes joined by edges. NormalizeSpec trims, fills
  defaults and validates; every edit normalises, changes one thing and normalises again.
 */
module CanvasModel {
  import opened Results
  import opened Text

  const SPEC_VERSION := "1.0.0"
  const NODE_MIN_SIZE := 80.0
  const NODE_DEFAULT_WIDTH := 240.0
  const NODE_DEFAULT_HEIGHT := 140.0
  const NODE_KIND_TABLE := "table"
  const EDGE_KIND_JOIN := "join"

  datatype CanvasField = CanvasField(name: string, alias: string)

  datatype CanvasNode = CanvasNode(
    id: string,
    kind: string,
    table: string,
    alias: string,
    x: real,
    y: real,
    width: real,
    height: real,
    fields: seq<CanvasField>,
    selectedFields: seq<string>)

  datatype CanvasEdge = CanvasEdge(
    id: string,
    kind: string,
    fromNode: string,
    toNode: string,
    joinType: string,
    fromColumn: string,
    toColumn: string,
    description: string,
    labelText: string,
    tags: seq<string>,
    cardinality: string,
    directedHint: bool)

  datatype CanvasSpec = CanvasSpec(version: string, name: string, nodes: seq<CanvasNode>, edges: seq<CanvasEdge>)

  datatype CanvasError =
    | NoNodes
    | NodeIdRequired
    | DuplicateNodeId(id: string)
    | UnsupportedNodeKind(kind: string)
    | TableRequired
    | DuplicateNodeAlias(alias: string)
    | DuplicateEdgeId(id: string)
    | UnsupportedEdgeKind(kind: string)
    | EdgeNodesRequired
    | MissingNode(id: string)
    | EdgeColumnsRequired
    | UnsupportedJoinType(joinType: string)
    | MissingFromColumn(column: string)
    | MissingToColumn(column: string)
    | NodeNotFound(id: string)
    | NodeIdExists(id: string)
    | EdgeIdRequired
    | EdgeIdExists(id: string)
    | EdgeNotFound(id: string)

  datatype JoinKind = Inner | Left | Right | Full

  /** ParseJoinType: the ten accepted spellings of four joins. */
  function ParseJoinType(raw: string): Result<JoinKind, CanvasError> {
    var t := Upper(Trim(raw));
    if t == "" || t == "INNER" || t == "INNER JOIN" then Ok(Inner)
    else if t == "LEFT" || t == "LEFT JOIN" then Ok(Left)
    else if t == "RIGHT" || t == "RIGHT JOIN" then Ok(Right)
    else if t == "FULL" || t == "FULL JOIN" || t == "FULL OUTER" || t == "FULL OUTER JOIN" then Ok(Full)
    else Err(UnsupportedJoinType(t))
  }

  function NormalCoordinate(value: real): real {
    if value < 0.0 then 0.0 else value
  }

  function NormalDimension(value: real, fallback: real): real {
    if value <= 0.0 then fallback
    else if value < NODE_MIN_SIZE then NODE_MIN_SIZE
    else value
  }

  /** The fields that keep a name after trimming, in order. */
  function NormalFields(fields: seq<CanvasField>): seq<CanvasField> {
    if fields == [] then []
    else
      var f := CanvasField(Trim(fields[0].name), Trim(fields[0].alias));
      (if f.name == "" then [] else [f]) + NormalFields(fields[1..])
  }

  /** Trimmed non-blank selections, each case-insensitive spelling once, the first one kept. */
  function NormalSelected(selected: seq<string>, seen: set<string>): seq<string> {
    if selected == [] then []
    else
      var t := Trim(selected[0]);
      if t == "" || Lower(t) in seen then NormalSelected(selected[1..], seen)
      else [t] + NormalSelected(selected[1..], seen + {Lower(t)})
  }

  function FieldKeys(fields: seq<CanvasField>): set<string> {
    set i | 0 <= i < |fields| :: Lower(Trim(fields[i].name))
  }

  /** The selections naming a known field, each once. */
  function FilterSelected(selected: seq<string>, known: set<string>, seen: set<string>): seq<string> {
    if selected == [] then []
    else
      var key := Lower(Trim(selected[0]));
      if key == "" || key !in known || key in seen then FilterSelected(selected[1..], known, seen)
      else [Trim(selected[0])] + FilterSelected(selected[1..], known, seen + {key})
  }

  function SelectedOf(selected: seq<string>, fields: seq<CanvasField>): seq<string> {
    FilterSelected(NormalSelected(selected, {}), FieldKeys(fields), {})
  }

  function OrDefault(s: string, fallback: string): string {
    if s == "" then fallback else s
  }

  /** A node as NormalizeCanvasSpec rewrites it, before it is validated. */
  function NormalNode(n: CanvasNode): CanvasNode {
    var table := Trim(n.table);
    var fields := NormalFields(n.fields);
    CanvasNode(
      Trim(n.id),
      OrDefault(Trim(Lower(n.kind)), NODE_KIND_TABLE),
      table,
      OrDefault(Trim(n.alias), table),
      NormalCoordinate(n.x),
      NormalCoordinate(n.y),
      NormalDimension(n.width, NODE_DEFAULT_WIDTH),
      NormalDimension(n.height, NODE_DEFAULT_HEIGHT),
      fields,
      SelectedOf(n.selectedFields, fields))
  }

  /** The first complaint about a rewritten node, given the nodes accepted before it. */
  function NodeFault(done: seq<CanvasNode>, n: CanvasNode): Option<CanvasError> {
    if n.id == "" then Some(NodeIdRequired)
    else if exists i :: 0 <= i < |done| && done[i].id == n.id then Some(DuplicateNodeId(n.id))
    else if n.kind != NODE_KIND_TABLE then Some(UnsupportedNodeKind(n.kind))
    else if n.table == "" then Some(TableRequired)
    else if exists i :: 0 <= i < |done| && Lower(done[i].alias) == Lower(n.alias) then Some(DuplicateNodeAlias(n.alias))
    else None
  }

  function NormalizeNodes(done: seq<CanvasNode>, rest: seq<CanvasNode>): Result<seq<CanvasNode>, CanvasError>
    decreases |rest|
  {
    if rest == [] then Ok(done)
    else
      var n := NormalNode(rest[0]);
      match NodeFault(done, n)
      case Some(e) => Err(e)
      case None => NormalizeNodes(done + [n], rest[1..])
  }

  /** canvasNodeHasField: a node that lists no fields accepts any column. */
  predicate HasField(n: CanvasNode, column: string) {
    Trim(column) != "" &&
    (n.fields == [] || exists i :: 0 <= i < |n.fields| && EqualFold(n.fields[i].name, Trim(column)))
  }

  function FindNode(nodes: seq<CanvasNode>, id: string): (r: Option<CanvasNode>)
    ensures r.Some? <==> exists i :: 0 <= i < |nodes| && nodes[i].id == id
    ensures r.Some? ==> r.value in nodes && r.value.id == id
  {
    if nodes == [] then None
    else if nodes[0].id == id then Some(nodes[0])
    else FindNode(nodes[1..], id)
  }

  function NormalEdge(e: CanvasEdge): CanvasEdge {
    e.(id := Trim(e.id),
       kind := OrDefault(Trim(Lower(e.kind)), EDGE_KIND_JOIN),
       fromNode := Trim(e.fromNode),
       toNode := Trim(e.toNode),
       fromColumn := Trim(e.fromColumn),
       toColumn := Trim(e.toColumn),
       joinType := Trim(Upper(e.joinType)))
  }

  function EdgeFault(nodes: seq<CanvasNode>, done: seq<CanvasEdge>, e: CanvasEdge): Option<CanvasError> {
    if e.id != "" && exists i :: 0 <= i < |done| && done[i].id == e.id then Some(DuplicateEdgeId(e.id))
    else if e.kind != EDGE_KIND_JOIN then Some(UnsupportedEdgeKind(e.kind))
    else if e.fromNode == "" || e.toNode == "" then Some(EdgeNodesRequired)
    else if FindNode(nodes, e.fromNode).None? then Some(MissingNode(e.fromNode))
    else if FindNode(nodes, e.toNode).None? then Some(MissingNode(e.toNode))
    else if e.fromColumn == "" || e.toColumn == "" then Some(EdgeColumnsRequired)
    else if ParseJoinType(e.joinType).Err? then Some(ParseJoinType(e.joinType).error)
    else if !HasField(FindNode(nodes, e.fromNode).value, e.fromColumn) then Some(MissingFromColumn(e.fromColumn))
    else if !HasField(FindNode(nodes, e.toNode).value, e.toColumn) then Some(MissingToColumn(e.toColumn))
    else None
  }

  function NormalizeEdges(nodes: seq<CanvasNode>, done: seq<CanvasEdge>, rest: seq<CanvasEdge>)
    : Result<seq<CanvasEdge>, CanvasError>
    decreases |rest|
  {
    if rest == [] then Ok(done)
    else
      var e := NormalEdge(rest[0]);
      match EdgeFault(nodes, done, e)
      case Some(err) => Err(err)
      case None => NormalizeEdges(nodes, done + [e], rest[1..])
  }

  /** NormalizeCanvasSpec as a function of the value it is given. */
  function NormalizeSpec(s: CanvasSpec): Result<CanvasSpec, CanvasError> {
    if s.nodes == [] then Err(NoNodes)
    else
      match NormalizeNodes([], s.nodes)
      case Err(e) => Err(e)
      case Ok(nodes) =>
        match NormalizeEdges(nodes, [], s.edges)
        case Err(e) => Err(e)
        case Ok(edges) => Ok(CanvasSpec(OrDefault(Trim(s.version), SPEC_VERSION), Trim(s.name), nodes, edges))
  }

  // ---------- What a well-formed canvas is, said without the normaliser ----------

  predicate FieldsWF(fields: seq<CanvasField>) {
    forall i :: 0 <= i < |fields| ==>
      fields[i].name != "" && Trimmed(fields[i].name) && Trimmed(fields[i].alias)
  }

  /** Trimmed, case-insensitively distinct, each the name of a known field. */
  predicate SelectedWF(selected: seq<string>, known: set<string>) {
    && (forall i :: 0 <= i < |selected| ==>
          selected[i] != "" && Trimmed(selected[i]) && Lower(selected[i]) in known)
    && (forall i, j :: 0 <= i < j < |selected| ==> Lower(selected[i]) != Lower(selected[j]))
  }

  predicate NodeWF(n: CanvasNode) {
    && n.id != "" && Trimmed(n.id)
    && n.kind == NODE_KIND_TABLE
    && n.table != "" && Trimmed(n.table)
    && n.alias != "" && Trimmed(n.alias)
    && n.x >= 0.0 && n.y >= 0.0
    && n.width >= NODE_MIN_SIZE && n.height >= NODE_MIN_SIZE
    && FieldsWF(n.fields)
    && SelectedWF(n.selectedFields, FieldKeys(n.fields))
  }

  predicate NodesWF(nodes: seq<CanvasNode>) {
    && (forall i :: 0 <= i < |nodes| ==> NodeWF(nodes[i]))
    && (forall i, j :: 0 <= i < j < |nodes| ==> nodes[i].id != nodes[j].id)
    && (forall i, j :: 0 <= i < j < |nodes| ==> Lower(nodes[i].alias) != Lower(nodes[j].alias))
  }

  /** An edge resolves: both ends are nodes, both columns are among the fields of their ends. */
  predicate EdgeWF(nodes: seq<CanvasNode>, e: CanvasEdge) {
    && Trimmed(e.id)
    && e.kind == EDGE_KIND_JOIN
    && e.fromColumn != "" && Trimmed(e.fromColumn)
    && e.toColumn != "" && Trimmed(e.toColumn)
    && Trimmed(e.joinType) && Upper(e.joinType) == e.joinType && ParseJoinType(e.joinType).Ok?
    && (exists i :: 0 <= i < |nodes| && nodes[i].id == e.fromNode && HasField(nodes[i], e.fromColumn))
    && (exists i :: 0 <= i < |nodes| && nodes[i].id == e.toNode && HasField(nodes[i], e.toColumn))
  }

  predicate EdgesWF(nodes: seq<CanvasNode>, edges: seq<CanvasEdge>) {
    && (forall i :: 0 <= i < |edges| ==> EdgeWF(nodes, edges[i]))
    && (forall i, j :: 0 <= i < j < |edges| && edges[i].id != "" ==> edges[i].id != edges[j].id)
  }

  predicate WellFormed(s: CanvasSpec) {
    && s.version != "" && Trimmed(s.version)
    && Trimmed(s.name)
    && s.nodes != []
    && NodesWF(s.nodes)
    && EdgesWF(s.nodes, s.edges)
  }

  // ---------- Edits ----------

  /** The first node with this exact id, if any. */
  function NodeIndex(nodes: seq<CanvasNode>, id: string): (r: Option<nat>)
    ensures r.Some? ==> r.value < |nodes| && nodes[r.value].id == id
    ensures r.Some? ==> forall i :: 0 <= i < r.value ==> nodes[i].id != id
    ensures r.None? ==> forall i :: 0 <= i < |nodes| ==> nodes[i].id != id
  {
    if nodes == [] then None
    else if nodes[0].id == id then Some(0)
    else match NodeIndex(nodes[1..], id) case None => None case Some(k) => Some(k + 1)
  }

  function EdgeIndex(edges: seq<CanvasEdge>, id: string): (r: Option<nat>)
    ensures r.Some? ==> r.value < |edges| && edges[r.value].id == id
    ensures r.Some? ==> forall i :: 0 <= i < r.value ==> edges[i].id != id
    ensures r.None? ==> forall i :: 0 <= i < |edges| ==> edges[i].id != id
  {
    if edges == [] then None
    else if edges[0].id == id then Some(0)
    else match EdgeIndex(edges[1..], id) case None => None case Some(k) => Some(k + 1)
  }

  function MoveNode(s: CanvasSpec, nodeID: string, x: real, y: real): Result<CanvasSpec, CanvasError> {
    match NormalizeSpec(s)
    case Err(e) => Err(e)
    case Ok(n) =>
      var id := Trim(nodeID);
      if id == "" then Err(NodeIdRequired)
      else
        match NodeIndex(n.nodes, id)
        case None => Err(NodeNotFound(id))
        case Some(k) =>
          NormalizeSpec(n.(nodes := n.nodes[k := n.nodes[k].(x := NormalCoordinate(x), y := NormalCoordinate(y))]))
  }

  function SetNodeFields(s: CanvasSpec, nodeID: string, fields: seq<string>): Result<CanvasSpec, CanvasError> {
    match NormalizeSpec(s)
    case Err(e) => Err(e)
    case Ok(n) =>
      var id := Trim(nodeID);
      if id == "" then Err(NodeIdRequired)
      else
        match NodeIndex(n.nodes, id)
        case None => Err(NodeNotFound(id))
        case Some(k) =>
          NormalizeSpec(n.(nodes := n.nodes[k := n.nodes[k].(selectedFields := SelectedOf(fields, n.nodes[k].fields))]))
  }

  /** normalizeCanvasNode: like NormalNode, but the selection is not yet filtered by the fields. */
  function NormalNewNode(n: CanvasNode): CanvasNode {
    NormalNode(n).(selectedFields := NormalSelected(n.selectedFields, {}))
  }

  function AddNode(s: CanvasSpec, node: CanvasNode): Result<CanvasSpec, CanvasError> {
    match NormalizeSpec(s)
    case Err(e) => Err(e)
    case Ok(n) =>
      var node' := NormalNewNode(node);
      if node'.id == "" then Err(NodeIdRequired)
      else if exists i :: 0 <= i < |n.nodes| && EqualFold(n.nodes[i].id, node'.id) then Err(NodeIdExists(node'.id))
      else NormalizeSpec(n.(nodes := n.nodes + [node']))
  }

  /** normalizeCanvasEdge: trims the descriptive texts too, but leaves an empty kind empty. */
  function NormalNewEdge(e: CanvasEdge): CanvasEdge {
    NormalEdge(e).(
      kind := Trim(Lower(e.kind)),
      labelText := Trim(e.labelText),
      description := Trim(e.description),
      cardinality := Trim(e.cardinality))
  }

  function AddEdge(s: CanvasSpec, edge: CanvasEdge): Result<CanvasSpec, CanvasError> {
    match NormalizeSpec(s)
    case Err(e) => Err(e)
    case Ok(n) =>
      var edge' := NormalNewEdge(edge);
      if edge'.id == "" then Err(EdgeIdRequired)
      else if exists i :: 0 <= i < |n.edges| && EqualFold(n.edges[i].id, edge'.id) then Err(EdgeIdExists(edge'.id))
      else NormalizeSpec(n.(edges := n.edges + [edge']))
  }

  function PatchEdge(s: CanvasSpec, edge: CanvasEdge): Result<CanvasSpec, CanvasError> {
    match NormalizeSpec(s)
    case Err(e) => Err(e)
    case Ok(n) =>
      var edge' := NormalNewEdge(edge);
      if edge'.id == "" then Err(EdgeIdRequired)
      else
        match EdgeIndex(n.edges, edge'.id)
        case None => Err(EdgeNotFound(edge'.id))
        case Some(k) => NormalizeSpec(n.(edges := n.edges[k := edge']))
  }

  /** Every edge except those whose id is a case variant of the given one. */
  function WithoutEdge(edges: seq<CanvasEdge>, id: string): (r: seq<CanvasEdge>)
    ensures |r| <= |edges|
    ensures |r| == |edges| <==> forall i :: 0 <= i < |edges| ==> !EqualFold(edges[i].id, id)
    ensures |r| == |edges| ==> r == edges
  {
    if edges == [] then []
    else if EqualFold(edges[0].id, id) then WithoutEdge(edges[1..], id)
    else [edges[0]] + WithoutEdge(edges[1..], id)
  }

  function DeleteEdge(s: CanvasSpec, edgeID: string): Result<CanvasSpec, CanvasError> {
    match NormalizeSpec(s)
    case Err(e) => Err(e)
    case Ok(n) =>
      var id := Trim(edgeID);
      if id == "" then Err(EdgeIdRequired)
      else if |WithoutEdge(n.edges, id)| == |n.edges| then Err(EdgeNotFound(id))
      else NormalizeSpec(n.(edges := WithoutEdge(n.edges, id)))
  }
}
