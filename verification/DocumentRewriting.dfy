/** What normalising makes of a document: which tags and which selected ids it keeps, and where. */
module DocumentRewriting {
  import opened Results
  import opened Text
  import opened Picking
  import opened CanvasModel
  import opened CanvasNormalForm
  import opened CanvasRewriting
  import opened CanvasDocuments

  /** A text that is not empty and, where there is a choice to make, among the valid ones. */
  predicate Allowed(valid: Option<set<string>>, t: string) {
    t != "" && (valid.Some? ==> t in valid.value)
  }

  /** The allowed texts at their first occurrence, in order. */
  predicate KeepsFirsts(list: seq<string>, valid: Option<set<string>>, kept: seq<string>, places: seq<nat>) {
    && Places(places, |list|) && |kept| == |places|
    && (forall k :: 0 <= k < |list| ==> (k in places <==> Allowed(valid, list[k]) && list[k] !in list[..k]))
    && (forall j :: 0 <= j < |kept| ==> kept[j] == list[places[j]])
  }

  // The same, but for texts seen before.
  predicate KeepsNew(list: seq<string>, valid: Option<set<string>>, seen: set<string>, kept: seq<string>, places: seq<nat>) {
    && Places(places, |list|) && |kept| == |places|
    && (forall k :: 0 <= k < |list| ==> (k in places <==> Allowed(valid, list[k]) && list[k] !in seen && list[k] !in list[..k]))
    && (forall j :: 0 <= j < |kept| ==> kept[j] == list[places[j]])
  }

  function Firsts(list: seq<string>, valid: Option<set<string>>, seen: set<string>): seq<string>
    decreases |list|
  {
    if list == [] then []
    else if !Allowed(valid, list[0]) || list[0] in seen then Firsts(list[1..], valid, seen)
    else [list[0]] + Firsts(list[1..], valid, seen + {list[0]})
  }

  lemma BeforeLater(list: seq<string>, k: nat)
    requires 0 < k < |list|
    ensures list[k] in list[..k] <==> list[k] == list[0] || list[1..][k - 1] in list[1..][..k - 1]
  {
    assert list[..k] == [list[0]] + list[1..][..k - 1];
  }

  lemma LaterFirst(list: seq<string>, valid: Option<set<string>>, seen: set<string>, k: nat)
    requires 0 < k < |list|
    ensures var seen' := if Allowed(valid, list[0]) && list[0] !in seen then seen + {list[0]} else seen;
            Allowed(valid, list[1..][k - 1]) && list[1..][k - 1] !in seen' && list[1..][k - 1] !in list[1..][..k - 1] <==>
              Allowed(valid, list[k]) && list[k] !in seen && list[k] !in list[..k]
  {
    hide Allowed;
    BeforeLater(list, k);
    assert list[1..][k - 1] == list[k];
  }

  lemma {:induction false} FirstsKeep(list: seq<string>, valid: Option<set<string>>, seen: set<string>) returns (places: seq<nat>)
    ensures KeepsNew(list, valid, seen, Firsts(list, valid, seen), places)
    decreases |list|
  {
    hide Behind, Places, Allowed;
    if list == [] {
      places := [];
      NoPlaces();
    } else {
      var taken := Allowed(valid, list[0]) && list[0] !in seen;
      var seen' := if taken then seen + {list[0]} else seen;
      var rest := FirstsKeep(list[1..], valid, seen');
      places := Behind(taken, rest);
      PlacesAreBelow(rest, |list| - 1);
      PickedBehind(list, taken, rest, Firsts(list[1..], valid, seen'));
      PlacesAreBelow(places, |list|);
      forall k | 0 <= k < |list|
        ensures k in places <==> Allowed(valid, list[k]) && list[k] !in seen && list[k] !in list[..k]
      {
        BehindHas(taken, rest, k);
        if k > 0 {
          LaterFirst(list, valid, seen, k);
        }
      }
    }
  }

  function LoweredNames(tags: seq<string>): (r: seq<string>)
    ensures |r| == |tags|
    ensures forall k :: 0 <= k < |tags| ==> r[k] == Lower(Trim(tags[k]))
  {
    seq(|tags|, k requires 0 <= k < |tags| => Lower(Trim(tags[k])))
  }

  lemma {:induction false} TagsAreFirsts(tags: seq<string>, seen: set<string>)
    ensures NormalTags(tags, seen) == Firsts(LoweredNames(tags), None, seen)
    decreases |tags|
  {
    hide Lower, Trim;
    if tags != [] {
      TrimCommutesWithCase(tags[0]);
      var tag := Trim(Lower(tags[0]));
      assert LoweredNames(tags)[1..] == LoweredNames(tags[1..]);
      TagsAreFirsts(tags[1..], seen);
      TagsAreFirsts(tags[1..], seen + {tag});
    }
  }

  lemma {:induction false} IDsAreFirsts(values: seq<string>, valid: set<string>, seen: set<string>)
    ensures FilterIDs(values, valid, seen) == Firsts(TrimmedNames(values), Some(valid), seen)
    decreases |values|
  {
    hide Trim;
    if values != [] {
      assert TrimmedNames(values)[1..] == TrimmedNames(values[1..]);
      IDsAreFirsts(values[1..], valid, seen);
      IDsAreFirsts(values[1..], valid, seen + {Trim(values[0])});
    }
  }

  predicate NodeThere(s: CanvasSpec, id: string) {
    exists i :: 0 <= i < |s.nodes| && s.nodes[i].id == id
  }

  predicate EdgeThere(s: CanvasSpec, id: string) {
    exists i :: 0 <= i < |s.edges| && s.edges[i].id == id
  }

  lemma KeptIDs(values: seq<string>, valid: set<string>) returns (places: seq<nat>)
    ensures KeepsFirsts(TrimmedNames(values), Some(valid), FilterIDs(values, valid, {}), places)
  {
    hide TrimmedNames, Places;
    IDsAreFirsts(values, valid, {});
    places := FirstsKeep(TrimmedNames(values), Some(valid), {});
  }

  ghost predicate KeepsThere(values: seq<string>, valid: set<string>, kept: seq<string>) {
    exists places :: KeepsFirsts(TrimmedNames(values), Some(valid), kept, places)
  }

  ghost predicate KeepsTags(tags: seq<string>, kept: seq<string>) {
    exists places :: KeepsFirsts(LoweredNames(tags), None, kept, places)
  }

  /**
    What a document is turned into: texts trimmed; every tag in lower case, once, at its
    first place; the selection cut down to the existing elements, each once, in order.
   */
  lemma NormalizeDocumentMeaning(d: Document)
    requires NormalizeDocument(d).Ok?
    ensures var n := NormalizeDocument(d).value;
            && n.id == Trim(d.id) && n.name == Trim(d.name) && n.kind == Trim(d.kind) && n.title == Trim(d.title)
            && n.description == Trim(d.description)
            && n.version == (if Trim(d.version) == "" then "1.0.0" else Trim(d.version))
            && NormalizeSpec(d.spec) == Ok(n.spec)
            && KeepsTags(d.tags, n.tags)
            && n.selection.activeNodeID == (if NodeThere(n.spec, d.selection.activeNodeID) then d.selection.activeNodeID else "")
            && n.selection.activeEdgeID == (if EdgeThere(n.spec, d.selection.activeEdgeID) then d.selection.activeEdgeID else "")
            && KeepsThere(d.selection.selectedNodeIDs, set i | 0 <= i < |n.spec.nodes| :: n.spec.nodes[i].id, n.selection.selectedNodeIDs)
            && KeepsThere(d.selection.selectedEdgeIDs, set i | 0 <= i < |n.spec.edges| :: n.spec.edges[i].id, n.selection.selectedEdgeIDs)
  {
    hide NormalizeSpec, Trim, Lower, FilterIDs, NormalTags, KeepsFirsts, TrimmedNames, LoweredNames;
    var n := NormalizeDocument(d).value;
    KeptTags(d.tags);
    var nodes := KeptIDs(d.selection.selectedNodeIDs, NodeIDs(n.spec));
    var edges := KeptIDs(d.selection.selectedEdgeIDs, EdgeIDs(n.spec));
  }

  lemma KeptTags(tags: seq<string>)
    ensures KeepsTags(tags, NormalTags(tags, {}))
  {
    hide LoweredNames, Places;
    TagsAreFirsts(tags, {});
    var places := FirstsKeep(LoweredNames(tags), None, {});
    assert KeepsFirsts(LoweredNames(tags), None, NormalTags(tags, {}), places);
  }
}
