/** A project file: what Create writes, what the index reads back, and how one artifact is put in. */
module ProjectArchive {
  import opened Results
  import opened Text
  import opened Paths
  import opened Sorting
  import opened Archive

  // ---------- Reading ----------

  /** ReadArtifact: the first entry of that name. */
  function Lookup(entries: seq<Entry>, name: string): Option<Bytes> {
    if entries == [] then None
    else if entries[0].name == name then Some(entries[0].payload)
    else Lookup(entries[1..], name)
  }

  /** An entry the index looks at: a path under the root whose last element is manifest.json. */
  predicate Candidate(root: string, name: string) {
    Normalize(root, name).Ok? && Base(PathOf(root, name)) == MANIFEST
  }

  /** The payloads by canonical path; of several entries for one path the last counts. */
  function Payloads(root: string, entries: seq<Entry>): map<string, Bytes> {
    if entries == [] then map[]
    else
      var before, e := Payloads(root, entries[..|entries| - 1]), entries[|entries| - 1];
      if Candidate(root, e.name) then before[PathOf(root, e.name) := e.payload] else before
  }

  lemma PayloadsSnoc(root: string, entries: seq<Entry>, e: Entry)
    ensures Payloads(root, entries + [e]) ==
              if Candidate(root, e.name) then Payloads(root, entries)[PathOf(root, e.name) := e.payload] else Payloads(root, entries)
  {
    assert (entries + [e])[..|entries|] == entries;
  }

  // ---------- Writing ----------

  /** The entry of an artifact: its canonical path with the payload of the one input that has it. */
  predicate Stored(root: string, artifacts: map<string, Bytes>, e: Entry) {
    exists p :: p in artifacts && PathOf(root, p) == e.name && artifacts[p] == e.payload
  }

  function Names(entries: seq<Entry>): (r: seq<string>)
    ensures |r| == |entries|
  {
    seq(|entries|, i requires 0 <= i < |entries| => entries[i].name)
  }

  /** A freshly written archive: the manifest, the data file, then the artifacts in the order of their paths. */
  predicate IsArchive(root: string, artifacts: map<string, Bytes>, manifest: Bytes, dataFile: string, db: Bytes, entries: seq<Entry>) {
    && |entries| >= 2
    && entries[0] == Entry(MANIFEST, manifest)
    && entries[1] == Entry(dataFile, db)
    && Ascending(Names(entries[2..]))
    && (forall i :: 2 <= i < |entries| ==> Stored(root, artifacts, entries[i]))
    && (forall p :: p in artifacts ==> PathOf(root, p) in Names(entries[2..]))
  }

  // Some input has this canonical path.
  predicate Named(root: string, artifacts: map<string, Bytes>, path: string) {
    exists p :: p in artifacts && PathOf(root, p) == path
  }

  // What is written for a path: the input of that very name if there is one, else the input with that canonical path.
  predicate Written(root: string, artifacts: map<string, Bytes>, e: Entry) {
    if e.name in artifacts then e.payload == artifacts[e.name] else Stored(root, artifacts, e)
  }

  method PayloadFor(root: string, artifacts: map<string, Bytes>, path: string) returns (r: Option<Bytes>)
    requires Named(root, artifacts, path)
    ensures r.Some? && Written(root, artifacts, Entry(path, r.value))
  {
    hide PathOf;
    if path in artifacts {
      return Some(artifacts[path]);
    }
    var rest := artifacts.Keys;
    while rest != {}
      invariant rest <= artifacts.Keys
      invariant exists p :: p in rest && PathOf(root, p) == path
    {
      var input :| input in rest;
      if PathOf(root, input) == path {
        assert artifacts[input] == Entry(path, artifacts[input]).payload;
        return Some(artifacts[input]);
      }
      rest := rest - {input};
    }
    return None;
  }

  /** No canonical path of an artifact is the name of an input with another payload. */
  predicate Steady(root: string, artifacts: map<string, Bytes>) {
    forall p :: p in artifacts && PathOf(root, p) in artifacts ==> artifacts[PathOf(root, p)] == artifacts[p]
  }

  lemma SteadyIsStored(root: string, artifacts: map<string, Bytes>, e: Entry)
    requires Steady(root, artifacts) && Written(root, artifacts, e)
    requires Named(root, artifacts, e.name)
    ensures Stored(root, artifacts, e)
  {
    hide PathOf;
    var p :| p in artifacts && PathOf(root, p) == e.name;
    if e.name in artifacts {
      assert artifacts[PathOf(root, p)] == artifacts[p];
    }
  }

  lemma StoredIsSteady(decode: Decoder, root: string, artifacts: map<string, Bytes>, p: string, e: Entry)
    requires Indexable(decode, root, artifacts) && Stored(root, artifacts, e) && Written(root, artifacts, e)
    requires p in artifacts && PathOf(root, p) == e.name && e.name in artifacts
    ensures artifacts[e.name] == artifacts[p]
  {
    hide PathOf, Sound, SpecOf;
    var q :| q in artifacts && PathOf(root, q) == e.name && artifacts[q] == e.payload;
  }

  /** A written archive, before asking whose payload stands at a path. */
  predicate IsWritten(root: string, artifacts: map<string, Bytes>, manifest: Bytes, dataFile: string, db: Bytes, entries: seq<Entry>) {
    && |entries| >= 2
    && entries[0] == Entry(MANIFEST, manifest)
    && entries[1] == Entry(dataFile, db)
    && Ascending(Names(entries[2..]))
    && (forall i :: 2 <= i < |entries| ==>
          Written(root, artifacts, entries[i]) && Named(root, artifacts, entries[i].name))
    && (forall p :: p in artifacts ==> PathOf(root, p) in Names(entries[2..]))
  }

  /**
    Create, after the manifest has been completed: refuses exactly the artifacts that cannot
    be indexed; otherwise writes one entry per canonical path, in order. Each holds the
    payload of the artifact with that path exactly when names are steady.
   */
  method Create(decode: Decoder, manifest: Bytes, dataFile: string, db: Bytes, root: string, artifacts: map<string, Bytes>)
    returns (r: Result<seq<Entry>, ArchiveError>)
    requires root != ""
    ensures r.Ok? <==> Indexable(decode, root, artifacts)
    ensures r.Ok? ==> IsWritten(root, artifacts, manifest, dataFile, db, r.value)
    ensures r.Ok? ==> (IsArchive(root, artifacts, manifest, dataFile, db, r.value) <==> Steady(root, artifacts))
  {
    hide Sound, PathOf, SpecOf, Ascending, Stored, Written, Steady, Named, IsWritten, Indexable, IsArchive, IsIndex;
    var index := BuildArtifactIndex(decode, root, artifacts);
    if index.Err? {
      return Err(index.error);
    }
    IndexNames(decode, root, artifacts, index.value);
    var paths := SortedKeys(index.value.Keys);
    var written := ArtifactEntries(root, artifacts, paths);
    if written.None? {
      return Err(NotFound);
    }
    var entries := [Entry(MANIFEST, manifest), Entry(dataFile, db)] + written.value;
    EntriesAreWritten(root, artifacts, manifest, dataFile, db, paths, written.value);
    WrittenIsArchiveIff(decode, root, artifacts, manifest, dataFile, db, entries);
    return Ok(entries);
  }

  // The loop that writes the artifacts.
  method ArtifactEntries(root: string, artifacts: map<string, Bytes>, paths: seq<string>) returns (r: Option<seq<Entry>>)
    requires forall i :: 0 <= i < |paths| ==> Named(root, artifacts, paths[i])
    ensures r.Some? && Names(r.value) == paths
    ensures forall k :: 0 <= k < |r.value| ==> Written(root, artifacts, r.value[k])
  {
    hide Written, Named;
    var written: seq<Entry> := [];
    for i := 0 to |paths|
      invariant Names(written) == paths[..i]
      invariant forall k :: 0 <= k < |written| ==> Written(root, artifacts, written[k])
    {
      var payload := PayloadFor(root, artifacts, paths[i]);
      if payload.None? {
        return None;
      }
      written := written + [Entry(paths[i], payload.value)];
    }
    return Some(written);
  }

  lemma IndexNames(decode: Decoder, root: string, artifacts: map<string, Bytes>, index: map<string, IndexEntry>)
    requires Indexable(decode, root, artifacts) && IsIndex(decode, root, artifacts, index)
    ensures forall c :: c in index ==> Named(root, artifacts, c)
    ensures forall p :: p in artifacts ==> PathOf(root, p) in index
  {
    hide Sound, PathOf, SpecOf;
  }

  lemma EntriesAreWritten(root: string, artifacts: map<string, Bytes>, manifest: Bytes, dataFile: string, db: Bytes,
                          paths: seq<string>, written: seq<Entry>)
    requires Names(written) == paths && Ascending(paths)
    requires forall k :: 0 <= k < |written| ==> Written(root, artifacts, written[k])
    requires forall i :: 0 <= i < |paths| ==> Named(root, artifacts, paths[i])
    requires forall p :: p in artifacts ==> PathOf(root, p) in paths
    ensures IsWritten(root, artifacts, manifest, dataFile, db, [Entry(MANIFEST, manifest), Entry(dataFile, db)] + written)
  {
    hide PathOf, Ascending, Written, Named;
    var entries := [Entry(MANIFEST, manifest), Entry(dataFile, db)] + written;
    assert entries[2..] == written;
    forall i | 2 <= i < |entries|
      ensures Written(root, artifacts, entries[i]) && Named(root, artifacts, entries[i].name)
    {
      assert entries[i] == written[i - 2] && entries[i].name == paths[i - 2];
    }
  }

  lemma WrittenIsArchiveIff(
    decode: Decoder, root: string, artifacts: map<string, Bytes>, manifest: Bytes, dataFile: string, db: Bytes, entries: seq<Entry>)
    requires Indexable(decode, root, artifacts) && IsWritten(root, artifacts, manifest, dataFile, db, entries)
    ensures IsArchive(root, artifacts, manifest, dataFile, db, entries) <==> Steady(root, artifacts)
  {
    hide PathOf, Ascending, Stored, Written, Named, Indexable;
    if Steady(root, artifacts) {
      forall i | 2 <= i < |entries|
        ensures Stored(root, artifacts, entries[i])
      {
        SteadyIsStored(root, artifacts, entries[i]);
      }
    }
    if IsArchive(root, artifacts, manifest, dataFile, db, entries) {
      forall p | p in artifacts && PathOf(root, p) in artifacts
        ensures artifacts[PathOf(root, p)] == artifacts[p]
      {
        var i :| 0 <= i < |entries| - 2 && Names(entries[2..])[i] == PathOf(root, p);
        assert entries[2..][i] == entries[i + 2];
        StoredIsSteady(decode, root, artifacts, p, entries[i + 2]);
      }
    }
  }

  // ---------- Putting one artifact in ----------

  function Replaced(entries: seq<Entry>, path: string, raw: Bytes): seq<Entry> {
    seq(|entries|, i requires 0 <= i < |entries| => if entries[i].name == path then Entry(path, raw) else entries[i])
  }

  /** The list after an upsert: entries of that name replaced where they stand, else a new one at the end. */
  function Upserted(entries: seq<Entry>, path: string, raw: Bytes): seq<Entry> {
    if path in Names(entries) then Replaced(entries, path, raw) else Replaced(entries, path, raw) + [Entry(path, raw)]
  }

  /** Where an artifact goes, if it may be stored at all. */
  function Target(decode: Decoder, root: string, raw: Bytes): Result<string, ArchiveError> {
    if raw == "" then Err(PayloadRequired)
    else
      match ParseSpec(decode(raw))
      case Err(e) => Err(e)
      case Ok(spec) =>
        var path := ManifestPath(root, spec.kind, spec.id);
        match Normalize(root, path)
        case Err(e) => Err(e)
        case Ok(clean) => if clean == "" then Err(PathRequired) else Ok(path)
  }

  class Project {
    const root: string
    var entries: seq<Entry>

    constructor (root: string, entries: seq<Entry>)
      ensures this.root == root && this.entries == entries
    {
      this.root, this.entries := root, entries;
    }

    method ReadArtifact(name: string) returns (r: Option<Bytes>)
      ensures r == Lookup(entries, name)
    {
      var i := 0;
      while i < |entries|
        invariant 0 <= i <= |entries|
        invariant Lookup(entries, name) == Lookup(entries[i..], name)
      {
        if entries[i].name == name {
          return Some(entries[i].payload);
        }
        i := i + 1;
      }
      return None;
    }

    /** Copies the archive entry by entry, replacing on the way; appends if nothing was replaced. */
    method UpsertArtifact(decode: Decoder, raw: Bytes) returns (fault: Option<ArchiveError>)
      modifies this`entries
      ensures match Target(decode, root, raw)
              case Err(e) => fault == Some(e) && entries == old(entries)
              case Ok(path) => fault == None && entries == Upserted(old(entries), path, raw)
    {
      hide ParseSpec, ManifestPath, Normalize;
      if |raw| == 0 {
        return Some(PayloadRequired);
      }
      var spec := ParseSpec(decode(raw));
      if spec.Err? {
        return Some(spec.error);
      }
      var path := ManifestPath(root, spec.value.kind, spec.value.id);
      var clean := Normalize(root, path);
      if clean.Err? {
        return Some(clean.error);
      }
      if clean.value == "" {
        return Some(PathRequired);
      }
      var written: seq<Entry> := [];
      var replaced := false;
      for i := 0 to |entries|
        invariant entries == old(entries)
        invariant written == Replaced(entries[..i], path, raw)
        invariant replaced <==> path in Names(entries[..i])
      {
        var e := entries[i];
        assert entries[..i + 1] == entries[..i] + [e];
        assert Names(entries[..i + 1]) == Names(entries[..i]) + [e.name];
        if e.name == path {
          written := written + [Entry(path, raw)];
          replaced := true;
        } else {
          written := written + [e];
        }
      }
      assert entries[..|entries|] == entries;
      if !replaced {
        written := written + [Entry(path, raw)];
      }
      entries := written;
      return None;
    }

    /** ArtifactIndex: collect the candidate entries, then index them. */
    method ArtifactIndex(decode: Decoder) returns (r: Result<map<string, IndexEntry>, ArchiveError>)
      ensures r.Ok? <==> Indexable(decode, RootOrDefault(root), Payloads(root, entries))
      ensures r.Ok? ==> IsIndex(decode, RootOrDefault(root), Payloads(root, entries), r.value)
    {
      hide Normalize, PathOf, Base, Indexable, IsIndex;
      var payloads: map<string, Bytes> := map[];
      for i := 0 to |entries|
        invariant payloads == Payloads(root, entries[..i])
      {
        var e := entries[i];
        assert entries[..i + 1] == entries[..i] + [e];
        PayloadsSnoc(root, entries[..i], e);
        if Normalize(root, e.name).Ok? {
          var path := PathOf(root, e.name);
          if Base(path) == MANIFEST {
            payloads := payloads[path := e.payload];
          }
        }
      }
      assert entries[..|entries|] == entries;
      r := BuildArtifactIndex(decode, root, payloads);
    }
  }

  // ---------- An upsert is a map update ----------

  lemma {:induction false} LookupReplaced(entries: seq<Entry>, path: string, raw: Bytes, name: string)
    ensures Lookup(Replaced(entries, path, raw), name) ==
              if name == path && path in Names(entries) then Some(raw) else Lookup(entries, name)
  {
    if entries != [] {
      LookupReplaced(entries[1..], path, raw, name);
      assert Replaced(entries, path, raw)[1..] == Replaced(entries[1..], path, raw);
      assert Names(entries) == [entries[0].name] + Names(entries[1..]);
    }
  }

  lemma {:induction false} LookupAppended(entries: seq<Entry>, e: Entry, name: string)
    ensures Lookup(entries + [e], name) ==
              if name !in Names(entries) && name == e.name then Some(e.payload) else Lookup(entries, name)
  {
    if entries != [] {
      assert (entries + [e])[1..] == entries[1..] + [e];
      LookupAppended(entries[1..], e, name);
      assert Names(entries) == [entries[0].name] + Names(entries[1..]);
    } else {
      assert (entries + [e])[1..] == [];
    }
  }

  lemma ReplacedNames(entries: seq<Entry>, path: string, raw: Bytes)
    ensures Names(Replaced(entries, path, raw)) == Names(entries)
    ensures Replaced(Replaced(entries, path, raw), path, raw) == Replaced(entries, path, raw)
  {
  }

  /**
    On the entry list an upsert is a map update: the payload reads back, every other name
    reads as before, names keep their order, at most one is added, and a second upsert of
    the same artifact changes nothing.
   */
  lemma UpsertIsMapUpdate(entries: seq<Entry>, path: string, raw: Bytes)
    ensures var after := Upserted(entries, path, raw);
            && (forall name :: Lookup(after, name) == if name == path then Some(raw) else Lookup(entries, name))
            && Names(after) == Names(entries) + (if path in Names(entries) then [] else [path])
            && |after| <= |entries| + 1
            && (forall i :: 0 <= i < |entries| && entries[i].name != path ==> after[i] == entries[i])
            && Upserted(after, path, raw) == after
  {
    var after := Upserted(entries, path, raw);
    ReplacedNames(entries, path, raw);
    assert path !in Names(entries) ==> Names(after) == Names(entries) + [path];
    assert path in Names(after);
    forall name
      ensures Lookup(after, name) == if name == path then Some(raw) else Lookup(entries, name)
    {
      LookupReplaced(entries, path, raw, name);
      LookupAppended(Replaced(entries, path, raw), Entry(path, raw), name);
    }
    assert Upserted(after, path, raw) == after;
  }
}
