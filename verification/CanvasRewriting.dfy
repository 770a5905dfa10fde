/**
  What normalising makes of a node, an edge and a whole spec, said field by field on the
  text that was given.
 */
module CanvasRewriting {
  import opened Results
  import opened Text
  import opened Picking
  import opened CanvasModel
  import opened CanvasNormalForm
  import opened CanvasEdits

  // ---------- Fields ----------

  /** The fields with a name, trimmed, in their order. */
  predicate KeepsFields(raw: seq<CanvasField>, kept: seq<CanvasField>, places: seq<nat>) {
    && Places(places, |raw|) && |kept| == |places|
    && (forall k :: 0 <= k < |raw| ==> (k in places <==> Trim(raw[k].name) != ""))
    && (forall j :: 0 <= j < |kept| ==> kept[j] == CanvasField(Trim(raw[places[j]].name), Trim(raw[places[j]].alias)))
  }

  function TrimmedFields(raw: seq<CanvasField>): (r: seq<CanvasField>)
    ensures |r| == |raw|
    ensures forall k :: 0 <= k < |raw| ==> r[k] == CanvasField(Trim(raw[k].name), Trim(raw[k].alias))
  {
    seq(|raw|, k requires 0 <= k < |raw| => CanvasField(Trim(raw[k].name), Trim(raw[k].alias)))
  }

  lemma {:induction false} NormalFieldsKeep(raw: seq<CanvasField>) returns (places: seq<nat>)
    ensures KeepsFields(raw, NormalFields(raw), places)
  {
    hide Trim, Behind, Places, TrimmedFields;
    if raw == [] {
      places := [];
      NoPlaces();
    } else {
      var rest := NormalFieldsKeep(raw[1..]);
      var list := TrimmedFields(raw);
      var named := list[0].name != "";
      places := Behind(named, rest);
      assert list[1..] == TrimmedFields(raw[1..]);
      FieldPlaces(raw[1..], NormalFields(raw[1..]), rest);
      PickedBehind(list, named, rest, NormalFields(raw[1..]));
      PlacesAreBelow(places, |raw|);
      forall k | 0 <= k < |raw|
        ensures k in places <==> Trim(raw[k].name) != ""
      {
        BehindHas(named, rest, k);
        assert k > 0 ==> raw[1..][k - 1] == raw[k];
      }
    }
  }

  lemma FieldPlaces(raw: seq<CanvasField>, kept: seq<CanvasField>, places: seq<nat>)
    requires KeepsFields(raw, kept, places)
    ensures forall j :: 0 <= j < |places| ==> places[j] < |raw| && kept[j] == TrimmedFields(raw)[places[j]]
  {
    hide Trim;
  }

  lemma PlacesAreBelow(places: seq<nat>, bound: nat)
    requires Places(places, bound)
    ensures forall j :: 0 <= j < |places| ==> places[j] < bound
  {
  }

  lemma NoPlaces()
    ensures Places([], 0)
  {
  }

  // ---------- Selections ----------

  predicate Requests(request: seq<string>, k: nat)
    requires k < |request|
  {
    Trim(request[k]) != "" && forall m :: 0 <= m < k ==> Lower(Trim(request[m])) != Lower(Trim(request[k]))
  }

  predicate Known(fields: seq<CanvasField>, name: string) {
    exists i :: 0 <= i < |fields| && Lower(Trim(fields[i].name)) == Lower(Trim(name))
  }

  /** Every requested name of a field, trimmed, at its first occurrence up to case, in order. */
  predicate KeepsSelection(request: seq<string>, fields: seq<CanvasField>, kept: seq<string>, places: seq<nat>) {
    && Places(places, |request|) && |kept| == |places|
    && (forall k :: 0 <= k < |request| ==> (k in places <==> Requests(request, k) && Known(fields, request[k])))
    && (forall j :: 0 <= j < |kept| ==> kept[j] == Trim(request[places[j]]))
  }

  predicate Distincts(request: seq<string>, seen: set<string>, kept: seq<string>, places: seq<nat>) {
    && Places(places, |request|) && |kept| == |places|
    && (forall k :: 0 <= k < |request| ==> (k in places <==> Requests(request, k) && Lower(Trim(request[k])) !in seen))
    && (forall j :: 0 <= j < |kept| ==> kept[j] == Trim(request[places[j]]))
  }

  lemma RequestsTail(request: seq<string>, k: nat)
    requires 0 < k < |request|
    ensures Requests(request, k) <==> Requests(request[1..], k - 1) && Lower(Trim(request[0])) != Lower(Trim(request[k]))
  {
    hide Lower, Trim;
    assert forall m :: 0 <= m < k - 1 ==> request[1..][m] == request[m + 1];
    if Requests(request[1..], k - 1) && Lower(Trim(request[0])) != Lower(Trim(request[k])) {
      forall m | 0 <= m < k
        ensures Lower(Trim(request[m])) != Lower(Trim(request[k]))
      {
        assert m > 0 ==> request[1..][m - 1] == request[m];
      }
    }
    if Requests(request, k) {
      forall m | 0 <= m < k - 1
        ensures Lower(Trim(request[1..][m])) != Lower(Trim(request[k]))
      {
        assert request[1..][m] == request[m + 1];
      }
    }
  }

  lemma NotEmptyLowered(s: string)
    ensures s == "" <==> Lower(s) == ""
  {
  }

  lemma {:induction false} NormalSelectedKeeps(request: seq<string>, seen: set<string>) returns (places: seq<nat>)
    ensures Distincts(request, seen, NormalSelected(request, seen), places)
    decreases |request|
  {
    hide Lower, Trim, Requests, Behind, Places, TrimmedNames;
    if request == [] {
      places := [];
      assert Places(places, 0) by { NoPlaces(); }
    } else {
      var t := Trim(request[0]);
      var taken := t != "" && Lower(t) !in seen;
      var seen' := if taken then seen + {Lower(t)} else seen;
      var rest := NormalSelectedKeeps(request[1..], seen');
      places := Behind(taken, rest);
      forall k | 0 <= k < |request|
        ensures k in places <==> Requests(request, k) && Lower(Trim(request[k])) !in seen
      {
        BehindHas(taken, rest, k);
        if k > 0 {
          assert request[1..][k - 1] == request[k];
          LaterRequest(request, seen, k);
        } else {
          FirstRequest(request);
        }
      }
      var list := TrimmedNames(request);
      assert list[1..] == TrimmedNames(request[1..]);
      NamePlaces(request[1..], seen', NormalSelected(request[1..], seen'), rest);
      PickedBehind(list, taken, rest, NormalSelected(request[1..], seen'));
      PlacesAreBelow(places, |request|);
    }
  }

  function TrimmedNames(request: seq<string>): (r: seq<string>)
    ensures |r| == |request|
    ensures forall k :: 0 <= k < |request| ==> r[k] == Trim(request[k])
  {
    seq(|request|, k requires 0 <= k < |request| => Trim(request[k]))
  }

  lemma NamePlaces(request: seq<string>, seen: set<string>, kept: seq<string>, places: seq<nat>)
    requires Distincts(request, seen, kept, places)
    ensures Places(places, |request|) && |kept| == |places|
    ensures forall j :: 0 <= j < |places| ==> places[j] < |request| && kept[j] == TrimmedNames(request)[places[j]]
  {
    hide Trim, Requests;
  }

  // A later place is requested as it is among the others, once the first name is taken into account.
  lemma LaterRequest(request: seq<string>, seen: set<string>, k: nat)
    requires 0 < k < |request|
    ensures var t := Trim(request[0]);
            var seen' := if t != "" && Lower(t) !in seen then seen + {Lower(t)} else seen;
            (Requests(request[1..], k - 1) && Lower(Trim(request[1..][k - 1])) !in seen') <==>
              (Requests(request, k) && Lower(Trim(request[k])) !in seen)
  {
    hide Lower, Trim, Requests;
    RequestsTail(request, k);
    NamedRequest(request, k);
    NamedRequest(request[1..], k - 1);
    NotEmptyLowered(Trim(request[0]));
    NotEmptyLowered(Trim(request[k]));
    assert request[1..][k - 1] == request[k];
  }

  lemma NamedRequest(request: seq<string>, k: nat)
    requires k < |request|
    ensures Requests(request, k) ==> Trim(request[k]) != ""
  {
  }

  lemma FirstRequest(request: seq<string>)
    requires request != []
    ensures Requests(request, 0) <==> Trim(request[0]) != ""
  {
  }

  predicate Filters(names: seq<string>, known: set<string>, kept: seq<string>, places: seq<nat>) {
    && Places(places, |names|) && |kept| == |places|
    && (forall k :: 0 <= k < |names| ==> (k in places <==> Lower(names[k]) in known))
    && (forall j :: 0 <= j < |kept| ==> kept[j] == names[places[j]])
  }

  // On names that are trimmed and distinct up to case only the known ones are kept.
  lemma {:induction false} FilterSelectedKeeps(names: seq<string>, known: set<string>, seen: set<string>) returns (places: seq<nat>)
    requires Distinct(names) && forall i :: 0 <= i < |names| ==> Lower(names[i]) !in seen
    ensures Filters(names, known, FilterSelected(names, known, seen), places)
    decreases |names|
  {
    hide Lower, Behind, Places;
    if names == [] {
      places := [];
      assert Places(places, 0) by { NoPlaces(); }
    } else {
      var key := Lower(names[0]);
      assert Trim(names[0]) == names[0];
      NotEmptyLowered(names[0]);
      hide Trim;
      var taken := key in known;
      var seen' := if taken then seen + {key} else seen;
      var rest := FilterSelectedKeeps(names[1..], known, seen');
      places := Behind(taken, rest);
      forall k | 0 <= k < |names|
        ensures k in places <==> Lower(names[k]) in known
      {
        BehindHas(taken, rest, k);
        assert k > 0 ==> names[1..][k - 1] == names[k];
      }
      PickedBehind(names, taken, rest, FilterSelected(names[1..], known, seen'));
      PlacesAreBelow(places, |names|);
    }
  }

  lemma KnownIsKey(fields: seq<CanvasField>, name: string)
    ensures Known(fields, name) <==> Lower(Trim(name)) in FieldKeys(fields)
  {
    hide Lower, Trim;
  }

  lemma SelectedOfKeeps(request: seq<string>, fields: seq<CanvasField>) returns (places: seq<nat>)
    ensures KeepsSelection(request, fields, SelectedOf(request, fields), places)
  {
    hide Lower, Trim, Requests, Known, FieldKeys;
    var names := NormalSelected(request, {});
    var outer := NormalSelectedKeeps(request, {});
    NormalSelectedDistinct(request, {});
    var inner := FilterSelectedKeeps(names, FieldKeys(fields), {});
    places := Through(outer, inner);
    ThroughPlaces(outer, inner, |request|);
    forall k | 0 <= k < |request|
      ensures k in places <==> Requests(request, k) && Known(fields, request[k])
    {
      KnownIsKey(fields, request[k]);
      ThroughIsPart(outer, inner, k);
      if k in outer {
        var j :| 0 <= j < |outer| && outer[j] == k;
        ThroughHas(outer, inner, |request|, j);
        assert names[j] == Trim(request[k]);
      }
    }
  }

  // ---------- Nodes ----------

  function ClampedSize(given: real, fallback: real): real {
    if given <= 0.0 then fallback else if given < 80.0 then 80.0 else given
  }

  /** A node as normalising makes it from the given one. */
  predicate Rewrites(raw: CanvasNode, n: CanvasNode) {
    && n.id == Trim(raw.id)
    && n.kind == (if Trim(raw.kind) == "" then "table" else Lower(Trim(raw.kind)))
    && n.table == Trim(raw.table)
    && n.alias == (if Trim(raw.alias) == "" then Trim(raw.table) else Trim(raw.alias))
    && n.x == (if raw.x < 0.0 then 0.0 else raw.x)
    && n.y == (if raw.y < 0.0 then 0.0 else raw.y)
    && n.width == ClampedSize(raw.width, 240.0)
    && n.height == ClampedSize(raw.height, 140.0)
  }

  ghost predicate RewrittenNode(raw: CanvasNode, n: CanvasNode) {
    && Rewrites(raw, n)
    && (exists places :: KeepsFields(raw.fields, n.fields, places))
    && (exists places :: KeepsSelection(raw.selectedFields, n.fields, n.selectedFields, places))
  }

  lemma NormalNodeRewrites(raw: CanvasNode)
    ensures RewrittenNode(raw, NormalNode(raw))
  {
    hide TrimLeft, TrimRight, Lower, KeepsFields, KeepsSelection, NormalFields, SelectedOf;
    var places := NormalFieldsKeep(raw.fields);
    var chosen := SelectedOfKeeps(raw.selectedFields, NormalFields(raw.fields));
    TrimCommutesWithCase(raw.kind);
    NotEmptyLowered(Trim(raw.kind));
  }

  lemma KeptFieldsUnique(raw: seq<CanvasField>, a: seq<CanvasField>, b: seq<CanvasField>, p: seq<nat>, q: seq<nat>)
    requires KeepsFields(raw, a, p) && KeepsFields(raw, b, q)
    ensures a == b
  {
    hide Trim;
    forall k
      ensures k in p <==> k in q
    {
    }
    SamePlaces(p, q, |raw|);
  }

  lemma KeptSelectionUnique(request: seq<string>, fields: seq<CanvasField>, a: seq<string>, b: seq<string>, p: seq<nat>, q: seq<nat>)
    requires KeepsSelection(request, fields, a, p) && KeepsSelection(request, fields, b, q)
    ensures a == b
  {
    hide Trim, Lower, Requests, Known;
    forall k
      ensures k in p <==> k in q
    {
    }
    SamePlaces(p, q, |request|);
  }

  /** A given node is rewritten to one node only. */
  lemma RewritingIsUnique(raw: CanvasNode, a: CanvasNode, b: CanvasNode)
    requires RewrittenNode(raw, a) && RewrittenNode(raw, b)
    ensures a == b
  {
    hide Trim, Lower, KeepsFields, KeepsSelection;
    var p :| KeepsFields(raw.fields, a.fields, p);
    var q :| KeepsFields(raw.fields, b.fields, q);
    KeptFieldsUnique(raw.fields, a.fields, b.fields, p, q);
    var c :| KeepsSelection(raw.selectedFields, a.fields, a.selectedFields, c);
    var d :| KeepsSelection(raw.selectedFields, b.fields, b.selectedFields, d);
    KeptSelectionUnique(raw.selectedFields, a.fields, a.selectedFields, b.selectedFields, c, d);
  }

  // ---------- Edges ----------

  /** An edge as normalising makes it: names trimmed, kind and join type in one case, the descriptive texts untouched. */
  predicate RewrittenEdge(raw: CanvasEdge, e: CanvasEdge) {
    && e.id == Trim(raw.id)
    && e.kind == (if Trim(raw.kind) == "" then "join" else Lower(Trim(raw.kind)))
    && e.fromNode == Trim(raw.fromNode) && e.toNode == Trim(raw.toNode)
    && e.fromColumn == Trim(raw.fromColumn) && e.toColumn == Trim(raw.toColumn)
    && e.joinType == Upper(Trim(raw.joinType))
    && e.description == raw.description && e.labelText == raw.labelText && e.cardinality == raw.cardinality
    && e.tags == raw.tags && e.directedHint == raw.directedHint
  }

  lemma NormalEdgeRewrites(raw: CanvasEdge)
    ensures RewrittenEdge(raw, NormalEdge(raw))
  {
    hide TrimLeft, TrimRight, Lower, Upper;
    TrimCommutesWithCase(raw.kind);
    TrimCommutesWithCase(raw.joinType);
    NotEmptyLowered(Trim(raw.kind));
  }

  /** An edge as adding or patching stores it: the descriptive texts are trimmed too. */
  predicate StoredAs(raw: CanvasEdge, e: CanvasEdge) {
    RewrittenEdge(raw.(description := Trim(raw.description), labelText := Trim(raw.labelText), cardinality := Trim(raw.cardinality)), e)
  }

  lemma StoredEdgeRewrites(raw: CanvasEdge)
    ensures StoredAs(raw, StoredEdge(raw))
  {
    hide TrimLeft, TrimRight, Lower, Upper;
    NormalEdgeRewrites(raw);
    TrimCommutesWithCase(raw.kind);
    NotEmptyLowered(Trim(raw.kind));
    KindIsNormal(raw.kind, EDGE_KIND_JOIN);
    TrimUpperIsNormal(raw.joinType);
    TrimLowerIsNormal(raw.kind);
  }

  // ---------- Whole specs and additions ----------

  /**
    What a spec is turned into: every node and edge rewritten, at its place; the version
    filled in, the name trimmed.
   */
  lemma NormalizeSpecMeaning(s: CanvasSpec)
    requires NormalizeSpec(s).Ok?
    ensures var n := NormalizeSpec(s).value;
            && n.version == (if Trim(s.version) == "" then "1.0.0" else Trim(s.version)) && n.name == Trim(s.name)
            && |n.nodes| == |s.nodes| && |n.edges| == |s.edges|
            && (forall i :: 0 <= i < |s.nodes| ==> RewrittenNode(s.nodes[i], n.nodes[i]))
            && (forall i :: 0 <= i < |s.edges| ==> RewrittenEdge(s.edges[i], n.edges[i]))
  {
    hide NormalizeSpec, WellFormed, NormalNode, NormalEdge, RewrittenNode, RewrittenEdge, Trim;
    NormalizeSpecAccepts(s);
    var n := NormalizeSpec(s).value;
    forall i | 0 <= i < |s.nodes|
      ensures RewrittenNode(s.nodes[i], n.nodes[i])
    {
      NormalNodeRewrites(s.nodes[i]);
    }
    forall i | 0 <= i < |s.edges|
      ensures RewrittenEdge(s.edges[i], n.edges[i])
    {
      NormalEdgeRewrites(s.edges[i]);
    }
  }

  /**
    A node is added exactly when it names an id and a table, is of no other kind, and
    neither its id nor its alias is in use up to case; it goes last, rewritten.
   */
  lemma AddedNodeMeaning(s: CanvasSpec, node: CanvasNode)
    requires WellFormed(s)
    ensures var alias := if Trim(node.alias) == "" then Trim(node.table) else Trim(node.alias);
            AddNode(s, node).Ok? <==>
              && Trim(node.id) != "" && Trim(node.table) != ""
              && (Trim(node.kind) == "" || Lower(Trim(node.kind)) == "table")
              && (forall i :: 0 <= i < |s.nodes| ==> !EqualFold(s.nodes[i].id, Trim(node.id)))
              && (forall i :: 0 <= i < |s.nodes| ==> !EqualFold(s.nodes[i].alias, alias))
    ensures AddNode(s, node).Ok? ==>
              exists added :: RewrittenNode(node, added) && AddNode(s, node) == Ok(s.(nodes := s.nodes + [added]))
  {
    hide WellFormed, AddNode, NormalNode, Trim, Lower, EqualFold, KeepsFields, KeepsSelection;
    AddNodeMeaning(s, node);
    NormalNodeRewrites(node);
    assert RewrittenNode(node, NormalNode(node));
  }

  /** An edge that is added goes last, one that is patched replaces the edge of its id; both are stored rewritten. */
  lemma AddedEdgeMeaning(s: CanvasSpec, edge: CanvasEdge)
    requires WellFormed(s)
    ensures AddEdge(s, edge).Ok? ==>
              exists e :: StoredAs(edge, e) && AddEdge(s, edge) == Ok(s.(edges := s.edges + [e]))
    ensures PatchEdge(s, edge).Ok? ==>
              exists k, e :: 0 <= k < |s.edges| && s.edges[k].id == Trim(edge.id) && StoredAs(edge, e)
                             && PatchEdge(s, edge) == Ok(s.(edges := s.edges[k := e]))
  {
    hide WellFormed, AddEdge, PatchEdge, StoredEdge, StoredAs, EdgeWF, Trim, EqualFold;
    AddEdgeMeaning(s, edge);
    PatchEdgeMeaning(s, edge);
    StoredEdgeRewrites(edge);
  }
}
