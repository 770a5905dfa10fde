/**
  The canvas operations as the program runs them: a spec holds slices, so normalising
  and editing write into the arrays of the caller. Each method is tied to the
  corresponding function on values, and says what the caller's arrays hold afterwards.
 */
module CanvasBuffers {
  import opened Results
  import opened Text
  import opened CanvasModel
  import opened CanvasNormalForm

  datatype CanvasBuffer = CanvasBuffer(
    version: string, name: string, nodes: array<CanvasNode>, edges: array<CanvasEdge>)

  function View(b: CanvasBuffer): CanvasSpec
    reads b.nodes, b.edges
  {
    CanvasSpec(b.version, b.name, b.nodes[..], b.edges[..])
  }

  ghost function Arrays(r: Result<CanvasBuffer, CanvasError>): set<object> {
    if r.Ok? then {r.value.nodes, r.value.edges} else {}
  }

  /** A buffer result carries the value result: same success, same contents, same error. */
  ghost predicate Agrees(r: Result<CanvasBuffer, CanvasError>, spec: Result<CanvasSpec, CanvasError>)
    reads Arrays(r)
  {
    match r
    case Ok(b) => spec == Ok(View(b))
    case Err(e) => spec == Err(e)
  }

  // ---------- Loops over fields and selections ----------

  method NormalizeCanvasFields(fields: seq<CanvasField>) returns (normalized: seq<CanvasField>)
    ensures normalized == NormalFields(fields)
  {
    hide Trim;
    normalized := [];
    var i := 0;
    while i < |fields|
      invariant 0 <= i <= |fields|
      invariant NormalFields(fields) == normalized + NormalFields(fields[i..])
    {
      var field := CanvasField(Trim(fields[i].name), Trim(fields[i].alias));
      assert fields[i..][1..] == fields[i + 1..];
      if field.name != "" {
        normalized := normalized + [field];
      }
      i := i + 1;
    }
  }

  method NormalizeSelectedFields(fields: seq<string>) returns (normalized: seq<string>)
    ensures normalized == NormalSelected(fields, {})
  {
    hide Trim, Lower;
    normalized := [];
    var seen: set<string> := {};
    var i := 0;
    while i < |fields|
      invariant 0 <= i <= |fields|
      invariant NormalSelected(fields, {}) == normalized + NormalSelected(fields[i..], seen)
    {
      var field := Trim(fields[i]);
      assert fields[i..][1..] == fields[i + 1..];
      if field != "" && Lower(field) !in seen {
        seen := seen + {Lower(field)};
        normalized := normalized + [field];
      }
      i := i + 1;
    }
  }

  method FilterSelectedFields(selected: seq<string>, fields: seq<CanvasField>) returns (filtered: seq<string>)
    ensures filtered == FilterSelected(selected, FieldKeys(fields), {})
  {
    filtered := [];
    hide Trim, Lower, FieldKeys;
    if |selected| == 0 || |fields| == 0 {
      NothingKnown(selected, fields);
      return;
    }
    NoFieldKeys();
    var known: set<string> := {};
    var i := 0;
    while i < |fields|
      invariant 0 <= i <= |fields|
      invariant known == FieldKeys(fields[..i])
    {
      MoreFieldKeys(fields, i);
      known := known + {Lower(Trim(fields[i].name))};
      i := i + 1;
    }
    assert fields[..i] == fields;
    var seen: set<string> := {};
    i := 0;
    while i < |selected|
      invariant 0 <= i <= |selected|
      invariant FilterSelected(selected, known, {}) == filtered + FilterSelected(selected[i..], known, seen)
    {
      var key := Lower(Trim(selected[i]));
      assert selected[i..][1..] == selected[i + 1..];
      if key != "" && key in known && key !in seen {
        seen := seen + {key};
        filtered := filtered + [Trim(selected[i])];
      }
      i := i + 1;
    }
  }

  lemma MoreFieldKeys(fields: seq<CanvasField>, i: nat)
    requires i < |fields|
    ensures FieldKeys(fields[..i + 1]) == FieldKeys(fields[..i]) + {Lower(Trim(fields[i].name))}
  {
    hide Lower, Trim;
    var more, fewer := fields[..i + 1], fields[..i];
    assert forall j :: 0 <= j < i ==> more[j] == fewer[j];
    assert more[i] == fields[i];
    forall k | k in FieldKeys(fewer)
      ensures k in FieldKeys(more)
    {
      var j :| 0 <= j < |fewer| && Lower(Trim(fewer[j].name)) == k;
      assert Lower(Trim(more[j].name)) == k;
    }
    assert Lower(Trim(more[i].name)) in FieldKeys(more);
  }

  lemma NoFieldKeys()
    ensures FieldKeys([]) == {}
  {
  }

  lemma {:induction false} NothingKnown(selected: seq<string>, fields: seq<CanvasField>)
    requires selected == [] || fields == []
    ensures FilterSelected(selected, FieldKeys(fields), {}) == []
  {
    hide Trim, Lower;
    if selected != [] {
      NoFieldKeys();
      NothingKnown(selected[1..], fields);
    }
  }

  method CanvasNodeHasField(node: CanvasNode, fieldName: string) returns (found: bool)
    ensures found == HasField(node, fieldName)
  {
    if Trim(fieldName) == "" {
      return false;
    }
    if |node.fields| == 0 {
      return true;
    }
    var i := 0;
    while i < |node.fields|
      invariant 0 <= i <= |node.fields|
      invariant forall j :: 0 <= j < i ==> !EqualFold(node.fields[j].name, Trim(fieldName))
    {
      if EqualFold(node.fields[i].name, Trim(fieldName)) {
        return true;
      }
      i := i + 1;
    }
    return false;
  }

  method NormalizedNode(node: CanvasNode) returns (n: CanvasNode)
    ensures n == NormalNode(node)
  {
    var fields := NormalizeCanvasFields(node.fields);
    var selected := NormalizeSelectedFields(node.selectedFields);
    selected := FilterSelectedFields(selected, fields);
    n := CanvasNode(
      Trim(node.id), Trim(Lower(node.kind)), Trim(node.table), Trim(node.alias),
      NormalCoordinate(node.x), NormalCoordinate(node.y),
      NormalDimension(node.width, NODE_DEFAULT_WIDTH), NormalDimension(node.height, NODE_DEFAULT_HEIGHT),
      fields, selected);
    if n.kind == "" {
      n := n.(kind := NODE_KIND_TABLE);
    }
    if n.alias == "" {
      n := n.(alias := n.table);
    }
  }

  // ---------- Normalising in place ----------

  /** The ids seen so far, each with its node. */
  ghost predicate Indexes(nodeByID: map<string, CanvasNode>, nodes: seq<CanvasNode>) {
    && (forall id :: id in nodeByID ==> exists i :: 0 <= i < |nodes| && nodes[i].id == id)
    && (forall i :: 0 <= i < |nodes| ==> nodes[i].id in nodeByID && nodeByID[nodes[i].id] == nodes[i])
  }

  ghost predicate IndexesAliases(aliases: set<string>, nodes: seq<CanvasNode>) {
    && (forall a :: a in aliases ==> exists i :: 0 <= i < |nodes| && Lower(nodes[i].alias) == a)
    && (forall i :: 0 <= i < |nodes| ==> Lower(nodes[i].alias) in aliases)
  }

  lemma {:induction false} IndexFinds(nodeByID: map<string, CanvasNode>, nodes: seq<CanvasNode>, id: string)
    requires Indexes(nodeByID, nodes)
    ensures FindNode(nodes, id) == if id in nodeByID then Some(nodeByID[id]) else None
  {
  }

  // NodeFault as the loop computes it, by looking ids and aliases up.
  function FaultByIndex(nodeByID: map<string, CanvasNode>, aliases: set<string>, n: CanvasNode): Option<CanvasError> {
    if n.id == "" then Some(NodeIdRequired)
    else if n.id in nodeByID then Some(DuplicateNodeId(n.id))
    else if n.kind != NODE_KIND_TABLE then Some(UnsupportedNodeKind(n.kind))
    else if n.table == "" then Some(TableRequired)
    else if Lower(n.alias) in aliases then Some(DuplicateNodeAlias(n.alias))
    else None
  }

  lemma FaultByIndexIsFault(nodeByID: map<string, CanvasNode>, aliases: set<string>, done: seq<CanvasNode>, n: CanvasNode)
    requires Indexes(nodeByID, done) && IndexesAliases(aliases, done)
    ensures FaultByIndex(nodeByID, aliases, n) == NodeFault(done, n)
  {
    hide Lower;
  }

  lemma IndexGrows(nodeByID: map<string, CanvasNode>, done: seq<CanvasNode>, n: CanvasNode)
    requires Indexes(nodeByID, done) && n.id !in nodeByID
    ensures Indexes(nodeByID[n.id := n], done + [n])
  {
    var all, grown := done + [n], nodeByID[n.id := n];
    forall id | id in grown
      ensures exists i :: 0 <= i < |all| && all[i].id == id
    {
      if id == n.id {
        assert all[|done|].id == id;
      } else {
        var i :| 0 <= i < |done| && done[i].id == id;
        assert all[i].id == id;
      }
    }
  }

  lemma AliasesGrow(aliases: set<string>, done: seq<CanvasNode>, n: CanvasNode)
    requires IndexesAliases(aliases, done)
    ensures IndexesAliases(aliases + {Lower(n.alias)}, done + [n])
  {
    hide Lower;
    var all := done + [n];
    forall a | a in aliases + {Lower(n.alias)}
      ensures exists i :: 0 <= i < |all| && Lower(all[i].alias) == a
    {
      if a == Lower(n.alias) {
        assert Lower(all[|done|].alias) == a;
      } else {
        var i :| 0 <= i < |done| && Lower(done[i].alias) == a;
        assert Lower(all[i].alias) == a;
      }
    }
  }

  /** What the node loop leaves in the array: a normalised front, an untouched back. */
  ghost predicate Progress(before: seq<CanvasNode>, now: seq<CanvasNode>, i: nat) {
    && |now| == |before| && i <= |now|
    && (forall j :: 0 <= j < i ==> now[j] == NormalNode(before[j]))
    && now[i..] == before[i..]
  }

  lemma ProgressStep(before: seq<CanvasNode>, now: seq<CanvasNode>, i: nat)
    requires Progress(before, now, i) && i < |before|
    ensures now[i] == before[i] == before[i..][0]
    ensures Progress(before, now[i := NormalNode(before[i])], i + 1)
    ensures now[i := NormalNode(before[i])][..i + 1] == now[..i] + [NormalNode(before[i])]
    ensures before[i..][1..] == before[i + 1..]
  {
    hide NormalNode;
    assert now[i] == now[i..][0];
  }

  ghost predicate EdgeProgress(before: seq<CanvasEdge>, now: seq<CanvasEdge>, i: nat) {
    && |now| == |before| && i <= |now|
    && (forall j :: 0 <= j < i ==> now[j] == NormalEdge(before[j]))
    && now[i..] == before[i..]
  }

  lemma EdgeProgressStep(before: seq<CanvasEdge>, now: seq<CanvasEdge>, i: nat)
    requires EdgeProgress(before, now, i) && i < |before|
    ensures now[i] == before[i] == before[i..][0]
    ensures EdgeProgress(before, now[i := NormalEdge(before[i])], i + 1)
    ensures now[i := NormalEdge(before[i])][..i + 1] == now[..i] + [NormalEdge(before[i])]
    ensures before[i..][1..] == before[i + 1..]
  {
    hide NormalEdge;
    assert now[i] == now[i..][0];
  }

  method NormalizeNodesInPlace(nodes: array<CanvasNode>)
    returns (fault: Option<CanvasError>, nodeByID: map<string, CanvasNode>)
    modifies nodes
    ensures match fault
            case None => && NormalizeNodes([], old(nodes[..])) == Ok(nodes[..]) && Indexes(nodeByID, nodes[..])
                         && Progress(old(nodes[..]), nodes[..], nodes.Length)
            case Some(e) => NormalizeNodes([], old(nodes[..])) == Err(e)
    ensures exists k: nat :: Progress(old(nodes[..]), nodes[..], k)
  {
    hide NormalNode, Lower, NodeFault, Indexes, IndexesAliases, Progress;
    ghost var before := nodes[..];
    nodeByID := map[];
    var aliases: set<string> := {};
    NothingIndexed(before);
    var i := 0;
    assert nodes[..0] == [] && before[0..] == before;
    while i < nodes.Length
      invariant 0 <= i <= nodes.Length
      invariant Progress(before, nodes[..], i)
      invariant NormalizeNodes([], before) == NormalizeNodes(nodes[..i], before[i..])
      invariant Indexes(nodeByID, nodes[..i])
      invariant IndexesAliases(aliases, nodes[..i])
    {
      ghost var now := nodes[..];
      ghost var done, rest := now[..i], before[i..];
      ProgressStep(before, now, i);
      var node := NormalizedNode(nodes[i]);
      FaultByIndexIsFault(nodeByID, aliases, done, node);
      IndexGrows'(nodeByID, done, node);
      AliasesGrow(aliases, done, node);
      assert Progress(old(nodes[..]), nodes[..], i);
      if node.id == "" {
        return Some(NodeIdRequired), nodeByID;
      }
      if node.id in nodeByID {
        return Some(DuplicateNodeId(node.id)), nodeByID;
      }
      if node.kind != NODE_KIND_TABLE {
        return Some(UnsupportedNodeKind(node.kind)), nodeByID;
      }
      if node.table == "" {
        return Some(TableRequired), nodeByID;
      }
      nodes[i] := node;
      assert nodes[..] == now[i := node];
      assert Progress(old(nodes[..]), nodes[..], i + 1);
      nodeByID := nodeByID[node.id := node];
      if Lower(node.alias) in aliases {
        return Some(DuplicateNodeAlias(node.alias)), nodeByID;
      }
      aliases := aliases + {Lower(node.alias)};
      i := i + 1;
    }
    assert nodes[..i] == nodes[..];
    assert before[i..] == [];
    return None, nodeByID;
  }

  lemma NothingIndexed(before: seq<CanvasNode>)
    ensures Indexes(map[], []) && IndexesAliases({}, []) && Progress(before, before, 0)
  {
  }

  lemma IndexGrows'(nodeByID: map<string, CanvasNode>, done: seq<CanvasNode>, n: CanvasNode)
    requires Indexes(nodeByID, done)
    ensures n.id !in nodeByID ==> Indexes(nodeByID[n.id := n], done + [n])
  {
    hide Indexes;
    if n.id !in nodeByID {
      IndexGrows(nodeByID, done, n);
    }
  }

  ghost predicate IndexesEdges(ids: set<string>, edges: seq<CanvasEdge>) {
    && (forall id :: id in ids ==> exists i :: 0 <= i < |edges| && edges[i].id == id)
    && (forall i :: 0 <= i < |edges| && edges[i].id != "" ==> edges[i].id in ids)
  }

  lemma EdgeIndexGrows(ids: set<string>, done: seq<CanvasEdge>, e: CanvasEdge)
    requires IndexesEdges(ids, done)
    ensures IndexesEdges(if e.id == "" then ids else ids + {e.id}, done + [e])
  {
    var all := done + [e];
    forall id | id in ids || (id == e.id && id != "")
      ensures exists i :: 0 <= i < |all| && all[i].id == id
    {
      if id == e.id {
        assert all[|done|].id == id;
      } else {
        var i :| 0 <= i < |done| && done[i].id == id;
        assert all[i].id == id;
      }
    }
  }

  // EdgeFault as the loop computes it.
  function EdgeFaultByIndex(ids: set<string>, nodeByID: map<string, CanvasNode>, e: CanvasEdge): Option<CanvasError> {
    if e.id != "" && e.id in ids then Some(DuplicateEdgeId(e.id))
    else if e.kind != EDGE_KIND_JOIN then Some(UnsupportedEdgeKind(e.kind))
    else if e.fromNode == "" || e.toNode == "" then Some(EdgeNodesRequired)
    else if e.fromNode !in nodeByID then Some(MissingNode(e.fromNode))
    else if e.toNode !in nodeByID then Some(MissingNode(e.toNode))
    else if e.fromColumn == "" || e.toColumn == "" then Some(EdgeColumnsRequired)
    else if ParseJoinType(e.joinType).Err? then Some(ParseJoinType(e.joinType).error)
    else if !HasField(nodeByID[e.fromNode], e.fromColumn) then Some(MissingFromColumn(e.fromColumn))
    else if !HasField(nodeByID[e.toNode], e.toColumn) then Some(MissingToColumn(e.toColumn))
    else None
  }

  lemma EdgeFaultByIndexIsFault(
    ids: set<string>, nodeByID: map<string, CanvasNode>, nodes: seq<CanvasNode>, done: seq<CanvasEdge>, e: CanvasEdge)
    requires IndexesEdges(ids, done) && Indexes(nodeByID, nodes)
    ensures EdgeFaultByIndex(ids, nodeByID, e) == EdgeFault(nodes, done, e)
  {
    hide Indexes, ParseJoinType, HasField;
    IndexFinds(nodeByID, nodes, e.fromNode);
    IndexFinds(nodeByID, nodes, e.toNode);
  }

  lemma NoEdgeProgress(before: seq<CanvasEdge>)
    ensures EdgeProgress(before, before, 0)
  {
  }

  method NormalizeEdgesInPlace(ghost nodes: seq<CanvasNode>, nodeByID: map<string, CanvasNode>, edges: array<CanvasEdge>)
    returns (fault: Option<CanvasError>)
    requires Indexes(nodeByID, nodes)
    modifies edges
    ensures match fault
            case None => NormalizeEdges(nodes, [], old(edges[..])) == Ok(edges[..])
            case Some(e) => NormalizeEdges(nodes, [], old(edges[..])) == Err(e)
    ensures exists k: nat :: EdgeProgress(old(edges[..]), edges[..], k)
  {
    hide NormalEdge, ParseJoinType, HasField, Indexes, EdgeProgress, EdgeFault;
    ghost var before := edges[..];
    NoEdgeProgress(before);
    assert edges[..0] == [] && before[0..] == before;
    var edgeIDs: set<string> := {};
    var i := 0;
    while i < edges.Length
      invariant 0 <= i <= edges.Length
      invariant EdgeProgress(before, edges[..], i)
      invariant NormalizeEdges(nodes, [], before) == NormalizeEdges(nodes, edges[..i], before[i..])
      invariant IndexesEdges(edgeIDs, edges[..i])
    {
      ghost var now := edges[..];
      ghost var done, rest := now[..i], before[i..];
      EdgeProgressStep(before, now, i);
      var edge := NormalEdge(edges[i]);
      EdgeFaultByIndexIsFault(edgeIDs, nodeByID, nodes, done, edge);
      EdgeIndexGrows(edgeIDs, done, edge);
      assert EdgeProgress(old(edges[..]), edges[..], i);
      if edge.id != "" {
        if edge.id in edgeIDs {
          return Some(DuplicateEdgeId(edge.id));
        }
        edgeIDs := edgeIDs + {edge.id};
      }
      if edge.kind != EDGE_KIND_JOIN {
        return Some(UnsupportedEdgeKind(edge.kind));
      }
      if edge.fromNode == "" || edge.toNode == "" {
        return Some(EdgeNodesRequired);
      }
      if edge.fromNode !in nodeByID {
        return Some(MissingNode(edge.fromNode));
      }
      if edge.toNode !in nodeByID {
        return Some(MissingNode(edge.toNode));
      }
      if edge.fromColumn == "" || edge.toColumn == "" {
        return Some(EdgeColumnsRequired);
      }
      var joinType := ParseJoinType(edge.joinType);
      if joinType.Err? {
        return Some(joinType.error);
      }
      var hasFrom := CanvasNodeHasField(nodeByID[edge.fromNode], edge.fromColumn);
      assert EdgeProgress(old(edges[..]), edges[..], i);
      if !hasFrom {
        return Some(MissingFromColumn(edge.fromColumn));
      }
      var hasTo := CanvasNodeHasField(nodeByID[edge.toNode], edge.toColumn);
      if !hasTo {
        return Some(MissingToColumn(edge.toColumn));
      }
      edges[i] := edge;
      assert edges[..] == now[i := edge];
      i := i + 1;
    }
    assert edges[..i] == edges[..];
    assert before[i..] == [];
    return None;
  }

  /**
    Normalises into the arrays it was given. On failure they are left partly rewritten,
    and normalising them again gives the same error.
   */
  method NormalizeCanvasSpec(raw: CanvasBuffer) returns (r: Result<CanvasBuffer, CanvasError>)
    modifies raw.nodes, raw.edges
    ensures r.Ok? ==> r.value.nodes == raw.nodes && r.value.edges == raw.edges
    ensures Agrees(r, NormalizeSpec(old(View(raw))))
    ensures PartlyRewritten(old(View(raw)), View(raw))
    ensures NormalizeSpec(View(raw)) == NormalizeSpec(old(View(raw)))
  {
    hide NormalNode, NormalEdge;
    ghost var before := View(raw);
    if raw.nodes.Length == 0 {
      return Err(NoNodes);
    }
    var fault, nodeByID := NormalizeNodesInPlace(raw.nodes);
    assert raw.edges[..] == before.edges;
    assert PartlyRewritten(before, View(raw));
    RewritingKeepsOutcome(before, View(raw));
    if fault.Some? {
      return Err(fault.value);
    }
    ghost var nodes := raw.nodes[..];
    fault := NormalizeEdgesInPlace(nodes, nodeByID, raw.edges);
    assert raw.nodes[..] == nodes;
    assert PartlyRewritten(before, View(raw));
    RewritingKeepsOutcome(before, View(raw));
    if fault.Some? {
      return Err(fault.value);
    }
    var version := Trim(raw.version);
    if version == "" {
      version := SPEC_VERSION;
    }
    return Ok(CanvasBuffer(version, Trim(raw.name), raw.nodes, raw.edges));
  }

  // ---------- Edits in place ----------

  method IndexOfNode(nodes: array<CanvasNode>, id: string) returns (r: Option<nat>)
    ensures r == NodeIndex(nodes[..], id)
  {
    var i := 0;
    while i < nodes.Length
      invariant 0 <= i <= nodes.Length
      invariant forall j :: 0 <= j < i ==> nodes[j].id != id
    {
      if nodes[i].id == id {
        return Some(i);
      }
      i := i + 1;
    }
    return None;
  }

  method IndexOfEdge(edges: array<CanvasEdge>, id: string) returns (r: Option<nat>)
    ensures r == EdgeIndex(edges[..], id)
  {
    var i := 0;
    while i < edges.Length
      invariant 0 <= i <= edges.Length
      invariant forall j :: 0 <= j < i ==> edges[j].id != id
    {
      if edges[i].id == id {
        return Some(i);
      }
      i := i + 1;
    }
    return None;
  }

  method MoveCanvasNode(raw: CanvasBuffer, nodeID: string, x: real, y: real)
    returns (r: Result<CanvasBuffer, CanvasError>)
    modifies raw.nodes, raw.edges
    ensures Agrees(r, MoveNode(old(View(raw)), nodeID, x, y))
    ensures r.Ok? ==> r.value.nodes == raw.nodes && r.value.edges == raw.edges
  {
    hide NormalizeSpec, PartlyRewritten;
    var normalized := NormalizeCanvasSpec(raw);
    if normalized.Err? {
      return normalized;
    }
    var id := Trim(nodeID);
    if id == "" {
      return Err(NodeIdRequired);
    }
    var k := IndexOfNode(raw.nodes, id);
    if k.None? {
      return Err(NodeNotFound(id));
    }
    ghost var n := View(normalized.value);
    raw.nodes[k.value] := raw.nodes[k.value].(x := NormalCoordinate(x), y := NormalCoordinate(y));
    assert View(normalized.value) == n.(nodes := n.nodes[k.value :=
      n.nodes[k.value].(x := NormalCoordinate(x), y := NormalCoordinate(y))]);
    r := NormalizeCanvasSpec(normalized.value);
  }

  method SetCanvasNodeSelectedFields(raw: CanvasBuffer, nodeID: string, fields: seq<string>)
    returns (r: Result<CanvasBuffer, CanvasError>)
    modifies raw.nodes, raw.edges
    ensures Agrees(r, SetNodeFields(old(View(raw)), nodeID, fields))
    ensures r.Ok? ==> r.value.nodes == raw.nodes && r.value.edges == raw.edges
  {
    hide NormalizeSpec, PartlyRewritten;
    var normalized := NormalizeCanvasSpec(raw);
    if normalized.Err? {
      return normalized;
    }
    var id := Trim(nodeID);
    if id == "" {
      return Err(NodeIdRequired);
    }
    var k := IndexOfNode(raw.nodes, id);
    if k.None? {
      return Err(NodeNotFound(id));
    }
    ghost var n := View(normalized.value);
    var selected := NormalizeSelectedFields(fields);
    selected := FilterSelectedFields(selected, raw.nodes[k.value].fields);
    raw.nodes[k.value] := raw.nodes[k.value].(selectedFields := selected);
    assert View(normalized.value) == n.(nodes := n.nodes[k.value :=
      n.nodes[k.value].(selectedFields := SelectedOf(fields, n.nodes[k.value].fields))]);
    r := NormalizeCanvasSpec(normalized.value);
  }

  method AddCanvasNode(raw: CanvasBuffer, node: CanvasNode) returns (r: Result<CanvasBuffer, CanvasError>)
    modifies raw.nodes, raw.edges
    ensures Agrees(r, AddNode(old(View(raw)), node))
    ensures r.Ok? ==> fresh(r.value.nodes) && r.value.edges == raw.edges
  {
    hide NormalizeSpec, PartlyRewritten, NormalNewNode, EqualFold;
    var normalized := NormalizeCanvasSpec(raw);
    if normalized.Err? {
      return normalized;
    }
    var added := NormalNewNode(node);
    if added.id == "" {
      return Err(NodeIdRequired);
    }
    ghost var n := View(normalized.value);
    var i := 0;
    while i < raw.nodes.Length
      invariant 0 <= i <= raw.nodes.Length
      invariant forall j :: 0 <= j < i ==> !EqualFold(n.nodes[j].id, added.id)
    {
      if EqualFold(raw.nodes[i].id, added.id) {
        assert EqualFold(n.nodes[i].id, added.id);
        return Err(NodeIdExists(added.id));
      }
      i := i + 1;
    }
    var old_nodes := raw.nodes[..];
    var nodes := new CanvasNode[raw.nodes.Length + 1](
      i requires 0 <= i <= |old_nodes| => if i < |old_nodes| then old_nodes[i] else added);
    var grown := normalized.value.(nodes := nodes);
    assert View(grown) == n.(nodes := n.nodes + [added]);
    r := NormalizeCanvasSpec(grown);
  }

  method AddCanvasEdge(raw: CanvasBuffer, edge: CanvasEdge) returns (r: Result<CanvasBuffer, CanvasError>)
    modifies raw.nodes, raw.edges
    ensures Agrees(r, AddEdge(old(View(raw)), edge))
    ensures r.Ok? ==> r.value.nodes == raw.nodes && fresh(r.value.edges)
  {
    hide NormalizeSpec, PartlyRewritten, NormalNewEdge, EqualFold;
    var normalized := NormalizeCanvasSpec(raw);
    if normalized.Err? {
      return normalized;
    }
    var added := NormalNewEdge(edge);
    if added.id == "" {
      return Err(EdgeIdRequired);
    }
    ghost var n := View(normalized.value);
    var i := 0;
    while i < raw.edges.Length
      invariant 0 <= i <= raw.edges.Length
      invariant forall j :: 0 <= j < i ==> !EqualFold(n.edges[j].id, added.id)
    {
      if EqualFold(raw.edges[i].id, added.id) {
        assert EqualFold(n.edges[i].id, added.id);
        return Err(EdgeIdExists(added.id));
      }
      i := i + 1;
    }
    var old_edges := raw.edges[..];
    var edges := new CanvasEdge[raw.edges.Length + 1](
      i requires 0 <= i <= |old_edges| => if i < |old_edges| then old_edges[i] else added);
    var grown := normalized.value.(edges := edges);
    assert View(grown) == n.(edges := n.edges + [added]);
    r := NormalizeCanvasSpec(grown);
  }

  method PatchCanvasEdge(raw: CanvasBuffer, edge: CanvasEdge) returns (r: Result<CanvasBuffer, CanvasError>)
    modifies raw.nodes, raw.edges
    ensures Agrees(r, PatchEdge(old(View(raw)), edge))
    ensures r.Ok? ==> r.value.nodes == raw.nodes && r.value.edges == raw.edges
  {
    hide NormalizeSpec, PartlyRewritten, NormalNewEdge;
    var normalized := NormalizeCanvasSpec(raw);
    if normalized.Err? {
      return normalized;
    }
    var patch := NormalNewEdge(edge);
    if patch.id == "" {
      return Err(EdgeIdRequired);
    }
    var k := IndexOfEdge(raw.edges, patch.id);
    if k.None? {
      return Err(EdgeNotFound(patch.id));
    }
    ghost var n := View(normalized.value);
    raw.edges[k.value] := patch;
    assert View(normalized.value) == n.(edges := n.edges[k.value := patch]);
    r := NormalizeCanvasSpec(normalized.value);
  }

  // The edges whose id is no case variant of the given one, and whether any was passed over.
  method EdgesExcept(all: seq<CanvasEdge>, id: string) returns (next: seq<CanvasEdge>, deleted: bool)
    ensures next == WithoutEdge(all, id)
    ensures deleted <==> |next| < |all|
  {
    hide EqualFold, WithoutEdge;
    next, deleted := [], false;
    for i := 0 to |all|
      invariant WithoutEdge(all, id) == next + WithoutEdge(all[i..], id)
      invariant |next| <= i && (deleted <==> |next| < i)
    {
      WithoutEdgeAt(all, i, id);
      if EqualFold(all[i].id, id) {
        deleted := true;
      } else {
        next := next + [all[i]];
      }
    }
    WithoutNoEdge(all, id);
  }

  lemma WithoutEdgeAt(all: seq<CanvasEdge>, i: nat, id: string)
    requires i < |all|
    ensures WithoutEdge(all[i..], id) == (if EqualFold(all[i].id, id) then [] else [all[i]]) + WithoutEdge(all[i + 1..], id)
  {
    hide EqualFold;
    assert all[i..][1..] == all[i + 1..];
  }

  lemma WithoutNoEdge(all: seq<CanvasEdge>, id: string)
    ensures WithoutEdge(all[|all|..], id) == []
  {
  }

  method DeleteCanvasEdge(raw: CanvasBuffer, edgeID: string) returns (r: Result<CanvasBuffer, CanvasError>)
    modifies raw.nodes, raw.edges
    ensures Agrees(r, DeleteEdge(old(View(raw)), edgeID))
    ensures r.Ok? ==> r.value.nodes == raw.nodes && fresh(r.value.edges)
  {
    hide NormalizeSpec, PartlyRewritten, EqualFold;
    var normalized := NormalizeCanvasSpec(raw);
    if normalized.Err? {
      return normalized;
    }
    var id := Trim(edgeID);
    if id == "" {
      return Err(EdgeIdRequired);
    }
    ghost var n := View(normalized.value);
    var next, deleted := EdgesExcept(raw.edges[..], id);
    if !deleted {
      return Err(EdgeNotFound(id));
    }
    var edges := new CanvasEdge[|next|](i requires 0 <= i < |next| => next[i]);
    var shrunk := normalized.value.(edges := edges);
    assert View(shrunk) == n.(edges := next);
    r := NormalizeCanvasSpec(shrunk);
  }
}
