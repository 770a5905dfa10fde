/** A canvas document: a canvas with descriptive texts, tags and a selection. */
module CanvasDocuments {
  import opened Results
  import opened Text
  import opened CanvasModel
  import opened CanvasNormalForm

  datatype Selection = Selection(
    activeNodeID: string, activeEdgeID: string, selectedNodeIDs: seq<string>, selectedEdgeIDs: seq<string>)

  datatype Document = Document(
    id: string, name: string, kind: string, title: string, description: string, tags: seq<string>,
    version: string, spec: CanvasSpec, selection: Selection)

  /** filterSelectionIDs: trimmed ids of existing elements, each once. */
  function FilterIDs(values: seq<string>, valid: set<string>, seen: set<string>): seq<string>
    decreases |values|
  {
    if values == [] then []
    else
      var id := Trim(values[0]);
      if id == "" || id !in valid || id in seen then FilterIDs(values[1..], valid, seen)
      else [id] + FilterIDs(values[1..], valid, seen + {id})
  }

  /** normalizeCanvasDocumentTags: lower case, trimmed, each once. */
  function NormalTags(tags: seq<string>, seen: set<string>): seq<string>
    decreases |tags|
  {
    if tags == [] then []
    else
      var tag := Trim(Lower(tags[0]));
      if tag == "" || tag in seen then NormalTags(tags[1..], seen)
      else [tag] + NormalTags(tags[1..], seen + {tag})
  }

  function NodeIDs(s: CanvasSpec): set<string> {
    set i | 0 <= i < |s.nodes| :: s.nodes[i].id
  }

  function EdgeIDs(s: CanvasSpec): set<string> {
    set i | 0 <= i < |s.edges| :: s.edges[i].id
  }

  /** normalizeCanvasSelection */
  function NormalSelection(sel: Selection, s: CanvasSpec): Selection {
    Selection(
      if sel.activeNodeID in NodeIDs(s) then sel.activeNodeID else "",
      if sel.activeEdgeID in EdgeIDs(s) then sel.activeEdgeID else "",
      FilterIDs(sel.selectedNodeIDs, NodeIDs(s), {}),
      FilterIDs(sel.selectedEdgeIDs, EdgeIDs(s), {}))
  }

  /** NormalizeCanvasDocument */
  function NormalizeDocument(d: Document): Result<Document, CanvasError> {
    match NormalizeSpec(d.spec)
    case Err(e) => Err(e)
    case Ok(spec) => Ok(Document(
      Trim(d.id), Trim(d.name), Trim(d.kind), Trim(d.title), Trim(d.description), NormalTags(d.tags, {}),
      OrDefault(Trim(d.version), SPEC_VERSION), spec, NormalSelection(d.selection, spec)))
  }

  // ---------- The same with loops ----------

  method FilterSelectionIDs(values: seq<string>, valid: set<string>) returns (filtered: seq<string>)
    ensures filtered == FilterIDs(values, valid, {})
  {
    hide Trim;
    var seen: set<string> := {};
    filtered := [];
    for i := 0 to |values|
      invariant FilterIDs(values, valid, {}) == filtered + FilterIDs(values[i..], valid, seen)
    {
      assert values[i..][1..] == values[i + 1..];
      var id := Trim(values[i]);
      if id == "" || id !in valid || id in seen {
        continue;
      }
      seen := seen + {id};
      filtered := filtered + [id];
    }
  }

  method NormalizeTags(tags: seq<string>) returns (normalized: seq<string>)
    ensures normalized == NormalTags(tags, {})
  {
    hide Trim, Lower;
    var seen: set<string> := {};
    normalized := [];
    for i := 0 to |tags|
      invariant NormalTags(tags, {}) == normalized + NormalTags(tags[i..], seen)
    {
      assert tags[i..][1..] == tags[i + 1..];
      var tag := Trim(Lower(tags[i]));
      if tag == "" || tag in seen {
        continue;
      }
      seen := seen + {tag};
      normalized := normalized + [tag];
    }
  }

  // ---------- Well-formed documents ----------

  predicate Repeatless(values: seq<string>) {
    forall i, j :: 0 <= i < j < |values| ==> values[i] != values[j]
  }

  /** Trimmed ids of existing elements without repetition. */
  predicate Picks(values: seq<string>, valid: set<string>) {
    (forall i :: 0 <= i < |values| ==> values[i] != "" && Trimmed(values[i]) && values[i] in valid) && Repeatless(values)
  }

  predicate TagsWF(tags: seq<string>) {
    (forall i :: 0 <= i < |tags| ==> tags[i] != "" && Trimmed(tags[i]) && Lower(tags[i]) == tags[i]) && Repeatless(tags)
  }

  /** A selection that points at existing elements only. */
  predicate SelectionWF(sel: Selection, s: CanvasSpec) {
    && (sel.activeNodeID == "" || sel.activeNodeID in NodeIDs(s))
    && (sel.activeEdgeID == "" || sel.activeEdgeID in EdgeIDs(s))
    && Picks(sel.selectedNodeIDs, NodeIDs(s))
    && Picks(sel.selectedEdgeIDs, EdgeIDs(s))
  }

  predicate DocumentWF(d: Document) {
    && Trimmed(d.id) && Trimmed(d.name) && Trimmed(d.kind) && Trimmed(d.title) && Trimmed(d.description)
    && Trimmed(d.version) && d.version != ""
    && TagsWF(d.tags)
    && WellFormed(d.spec)
    && SelectionWF(d.selection, d.spec)
  }

  lemma {:induction false} FilterIDsPicks(values: seq<string>, valid: set<string>, seen: set<string>)
    ensures Picks(FilterIDs(values, valid, seen), valid)
    ensures forall i :: 0 <= i < |FilterIDs(values, valid, seen)| ==> FilterIDs(values, valid, seen)[i] !in seen
    decreases |values|
  {
    if values != [] {
      FilterIDsPicks(values[1..], valid, seen);
      FilterIDsPicks(values[1..], valid, seen + {Trim(values[0])});
    }
  }

  lemma {:induction false} FilterIDsFix(values: seq<string>, valid: set<string>, seen: set<string>)
    requires Picks(values, valid) && forall i :: 0 <= i < |values| ==> values[i] !in seen
    ensures FilterIDs(values, valid, seen) == values
    decreases |values|
  {
    if values != [] {
      FilterIDsFix(values[1..], valid, seen + {values[0]});
      assert values == [values[0]] + values[1..];
    }
  }

  lemma {:induction false} NormalTagsWF(tags: seq<string>, seen: set<string>)
    ensures TagsWF(NormalTags(tags, seen))
    ensures forall i :: 0 <= i < |NormalTags(tags, seen)| ==> NormalTags(tags, seen)[i] !in seen
    decreases |tags|
  {
    hide Lower, TrimLeft, TrimRight, TagsWF;
    if tags == [] {
      assert TagsWF([]) by { NoTagsWF(); }
    } else {
      var tag := Trim(Lower(tags[0]));
      TrimLowerIsNormal(tags[0]);
      NormalTagsWF(tags[1..], seen);
      NormalTagsWF(tags[1..], seen + {tag});
      var rest := NormalTags(tags[1..], seen + {tag});
      forall i | 0 <= i < |rest|
        ensures rest[i] != tag
      {
        assert rest[i] !in seen + {tag};
      }
      TagsCons(tag, rest);
    }
  }

  lemma NoTagsWF()
    ensures TagsWF([])
  {
  }

  lemma TagsCons(tag: string, rest: seq<string>)
    requires TagsWF(rest) && forall i :: 0 <= i < |rest| ==> rest[i] != tag
    requires Trimmed(tag) && Lower(tag) == tag
    ensures tag != "" ==> TagsWF([tag] + rest)
  {
    hide Lower, Trimmed;
  }

  lemma {:induction false} NormalTagsFix(tags: seq<string>, seen: set<string>)
    requires TagsWF(tags) && forall i :: 0 <= i < |tags| ==> tags[i] !in seen
    ensures NormalTags(tags, seen) == tags
    decreases |tags|
  {
    hide Lower;
    if tags != [] {
      NormalTagsFix(tags[1..], seen + {tags[0]});
      assert tags == [tags[0]] + tags[1..];
    }
  }

  lemma SelectionIsNormal(sel: Selection, s: CanvasSpec)
    ensures SelectionWF(NormalSelection(sel, s), s)
    ensures SelectionWF(sel, s) ==> NormalSelection(sel, s) == sel
  {
    hide Picks, FilterIDs;
    FilterIDsPicks(sel.selectedNodeIDs, NodeIDs(s), {});
    FilterIDsPicks(sel.selectedEdgeIDs, EdgeIDs(s), {});
    if SelectionWF(sel, s) {
      FilterIDsFix(sel.selectedNodeIDs, NodeIDs(s), {});
      FilterIDsFix(sel.selectedEdgeIDs, EdgeIDs(s), {});
    }
  }

  /** Normalising gives a well-formed document, whose selection points at existing elements; those are its fixpoints. */
  lemma DocumentsAreFixpoints(d: Document)
    ensures NormalizeDocument(d).Ok? <==> NormalizeSpec(d.spec).Ok?
    ensures NormalizeDocument(d).Ok? ==> DocumentWF(NormalizeDocument(d).value)
    ensures DocumentWF(d) <==> NormalizeDocument(d) == Ok(d)
  {
    hide NormalizeSpec, WellFormed, SelectionWF, NormalSelection, TagsWF, NormalTags;
    WellFormedIsFixpoint(d.spec);
    NormalTagsWF(d.tags, {});
    if NormalizeSpec(d.spec).Ok? {
      SelectionIsNormal(d.selection, NormalizeSpec(d.spec).value);
    }
    if TagsWF(d.tags) {
      NormalTagsFix(d.tags, {});
    }
  }
}
