/**
  Project archives as lists of entries: artifact manifests are stored under paths made from
  their kind and id, indexed when the archive is written, and indexed again from what was
  written.
 */
module Archive {
  import opened Results
  import opened Text
  import opened Paths
  import opened Sorting

  const MANIFEST := "manifest.json"
  const DEFAULT_ROOT := "artifacts/"
  const DEFAULT_DATA := "database.duckdb"
  const VERSION_1 := "1.0.0"
  const VERSION_0 := "0.9.0"
  const KINDS := ["canvas", "query", "chart", "report", "procedure", "vector_operation"]

  type Bytes = string

  datatype Entry = Entry(name: string, payload: Bytes)

  // ---------- Artifact specs ----------

  datatype SchemaField = Absent | NotText | Version(text: string)

  /** An artifact manifest after JSON decoding; kind is the current field, artifactType the legacy one. */
  datatype Decoded =
    | NotJson
    | Json(schemaVersion: SchemaField, id: string, kind: string, artifactType: string, title: string, description: string)

  datatype Spec = Spec(id: string, kind: string, schemaVersion: string, title: string, description: string)

  datatype ArchiveError =
    | InvalidJson
    | SchemaNotText
    | UnsupportedSchema(version: string)
    | KindRequired
    | UnsupportedKind(kind: string)
    | IdRequired
    | PathRequired
    | InvalidPath(path: string)
    | PathMismatch(id: string, path: string)
    | PathCollision(path: string)
    | DuplicateId(id: string)
    | PayloadRequired
    | NotFound

  /** NewArtifactKind */
  function NewKind(raw: string): Result<string, ArchiveError> {
    var kind := Trim(raw);
    if kind == "" then Err(KindRequired)
    else if kind !in KINDS then Err(UnsupportedKind(raw))
    else Ok(kind)
  }

  /** ValidateArtifactSpecV1 */
  function Validated(spec: Spec): Result<Spec, ArchiveError> {
    match NewKind(spec.kind)
    case Err(e) => Err(e)
    case Ok(_) =>
      if Trim(spec.id) == "" then Err(IdRequired)
      else if Trim(spec.schemaVersion) == "" then Err(UnsupportedSchema(spec.schemaVersion))
      else Ok(spec)
  }

  /** ParseArtifactSpec: a missing or 0.9.0 version is migrated, its artifactType becoming the kind. */
  function ParseSpec(d: Decoded): Result<Spec, ArchiveError> {
    if d.NotJson? then Err(InvalidJson)
    else if d.schemaVersion.NotText? then Err(SchemaNotText)
    else
      var version := if d.schemaVersion.Absent? then VERSION_0 else Trim(d.schemaVersion.text);
      if version == "" || version == VERSION_0 then
        match NewKind(d.artifactType)
        case Err(e) => Err(e)
        case Ok(kind) => Validated(Spec(d.id, kind, VERSION_1, d.title, d.description))
      else if version == VERSION_1 then
        Validated(Spec(d.id, d.kind, d.schemaVersion.text, d.title, d.description))
      else Err(UnsupportedSchema(version))
  }

  // ---------- Paths of artifacts ----------

  function WithoutSlash(s: string): string {
    if HasSuffix(s, "/") then s[..|s| - 1] else s
  }

  function CleanRoot(root: string): string {
    var r := Trim(root);
    var named := if r == "" then DEFAULT_ROOT else r;
    var c := Clean(if HasSuffix(named, "/") then named else named + "/");
    if c == "." then "" else c
  }

  /** normalizedArtifactPath */
  function Normalize(root: string, raw: string): Result<string, ArchiveError> {
    var p := Trim(raw);
    if p == "" then Err(PathRequired)
    else if HasDots(p) || Rooted(p) then Err(InvalidPath(p))
    else
      var cleanRoot := CleanRoot(root);
      var cleanPath := Clean(p);
      if cleanRoot != "" && !HasPrefix(cleanPath + "/", cleanRoot) && cleanPath != WithoutSlash(cleanRoot) then Err(InvalidPath(p))
      else if cleanPath == WithoutSlash(cleanRoot) then Err(InvalidPath(p))
      else Ok(cleanPath)
  }

  function NonEmpty(parts: seq<string>): seq<string> {
    if parts == [] then []
    else (if parts[0] == "" then [] else [parts[0]]) + NonEmpty(parts[1..])
  }

  /** ArtifactManifestPath */
  function ManifestPath(root: string, kind: string, id: string): string {
    Clean(Join(NonEmpty([root, kind, id, MANIFEST])))
  }

  // ---------- The index ----------

  datatype IndexEntry = IndexEntry(path: string, spec: Spec)

  type Decoder = Bytes -> Decoded

  function RootOrDefault(root: string): string {
    if root == "" then DEFAULT_ROOT else root
  }

  /** An artifact that may be indexed: readable, and stored where its kind and id say. */
  predicate Sound(decode: Decoder, root: string, name: string, payload: Bytes) {
    && Normalize(root, name).Ok?
    && ParseSpec(decode(payload)).Ok?
    && ManifestPath(root, ParseSpec(decode(payload)).value.kind, ParseSpec(decode(payload)).value.id) == Normalize(root, name).value
  }

  // The canonical path of a name, where it has one.
  function PathOf(root: string, name: string): string {
    match Normalize(root, name)
    case Ok(path) => path
    case Err(_) => ""
  }

  // The spec of a payload, where it is one.
  function SpecOf(decode: Decoder, payload: Bytes): Spec {
    match ParseSpec(decode(payload))
    case Ok(spec) => spec
    case Err(_) => Spec("", "", "", "", "")
  }

  /** Every artifact is sound, and no two share a path or an id. */
  predicate Indexable(decode: Decoder, root: string, artifacts: map<string, Bytes>) {
    && (forall p :: p in artifacts ==> Sound(decode, root, p, artifacts[p]))
    && (forall p, q :: p in artifacts && q in artifacts && p != q ==>
          PathOf(root, p) != PathOf(root, q) && SpecOf(decode, artifacts[p]).id != SpecOf(decode, artifacts[q]).id)
  }

  /** The index maps the path of each artifact to its spec, and nothing else. */
  predicate IsIndex(decode: Decoder, root: string, artifacts: map<string, Bytes>, index: map<string, IndexEntry>)
    requires Indexable(decode, root, artifacts)
  {
    && (forall p :: p in artifacts ==>
          PathOf(root, p) in index && index[PathOf(root, p)] == IndexEntry(PathOf(root, p), SpecOf(decode, artifacts[p])))
    && (forall c :: c in index ==> exists p :: p in artifacts && PathOf(root, p) == c)
  }

  /** There is one index only. */
  lemma IndexIsUnique(decode: Decoder, root: string, artifacts: map<string, Bytes>, a: map<string, IndexEntry>, b: map<string, IndexEntry>)
    requires Indexable(decode, root, artifacts)
    requires IsIndex(decode, root, artifacts, a) && IsIndex(decode, root, artifacts, b)
    ensures a == b
  {
    hide Sound, PathOf, SpecOf, Indexable;
    forall c
      ensures c in a <==> c in b
    {
    }
    forall c | c in a
      ensures a[c] == b[c]
    {
      var p :| p in artifacts && PathOf(root, p) == c;
    }
  }

  // What the loop has recorded after the artifacts named in done.
  predicate Recorded(decode: Decoder, root: string, artifacts: map<string, Bytes>, done: seq<string>,
                     seen: set<string>, index: map<string, IndexEntry>)
  {
    && (forall p :: p in done ==> p in artifacts && Sound(decode, root, p, artifacts[p]))
    && (forall p :: p in done ==>
          PathOf(root, p) in index && index[PathOf(root, p)] == IndexEntry(PathOf(root, p), SpecOf(decode, artifacts[p])))
    && (forall p :: p in done ==> SpecOf(decode, artifacts[p]).id in seen)
    && (forall c :: c in index ==> exists p :: p in done && PathOf(root, p) == c)
    && (forall id :: id in seen ==> exists p :: p in done && SpecOf(decode, artifacts[p]).id == id)
    && (forall i, j :: 0 <= i < j < |done| ==>
          PathOf(root, done[i]) != PathOf(root, done[j]) && SpecOf(decode, artifacts[done[i]]).id != SpecOf(decode, artifacts[done[j]]).id)
  }

  lemma RecordedOneMore(decode: Decoder, root: string, artifacts: map<string, Bytes>, done: seq<string>, seen: set<string>,
                        index: map<string, IndexEntry>, p: string)
    requires Recorded(decode, root, artifacts, done, seen, index)
    requires p in artifacts && Sound(decode, root, p, artifacts[p])
    requires PathOf(root, p) !in index && SpecOf(decode, artifacts[p]).id !in seen
    ensures var spec := SpecOf(decode, artifacts[p]);
            Recorded(decode, root, artifacts, done + [p], seen + {spec.id}, index[PathOf(root, p) := IndexEntry(PathOf(root, p), spec)])
  {
    hide Sound, PathOf, SpecOf;
    forall q
      ensures q in done + [p] <==> q in done || q == p
    {
    }
  }

  // A refusal is justified by two artifacts or one.
  lemma ClashBlocksIndex(decode: Decoder, root: string, artifacts: map<string, Bytes>, done: seq<string>, seen: set<string>,
                         index: map<string, IndexEntry>, p: string)
    requires Recorded(decode, root, artifacts, done, seen, index)
    requires p in artifacts && p !in done && Sound(decode, root, p, artifacts[p])
    requires PathOf(root, p) in index || SpecOf(decode, artifacts[p]).id in seen
    ensures !Indexable(decode, root, artifacts)
  {
    hide Sound, PathOf, SpecOf;
    if PathOf(root, p) in index {
      var q :| q in done && PathOf(root, q) == PathOf(root, p);
    } else {
      var q :| q in done && SpecOf(decode, artifacts[q]).id == SpecOf(decode, artifacts[p]).id;
    }
  }

  lemma RecordedAll(decode: Decoder, root: string, artifacts: map<string, Bytes>, done: seq<string>, seen: set<string>,
                    index: map<string, IndexEntry>)
    requires Recorded(decode, root, artifacts, done, seen, index)
    requires forall p :: p in done <==> p in artifacts
    ensures Indexable(decode, root, artifacts) && IsIndex(decode, root, artifacts, index)
  {
    hide Sound, PathOf, SpecOf;
    forall p, q | p in artifacts && q in artifacts && p != q
      ensures PathOf(root, p) != PathOf(root, q) && SpecOf(decode, artifacts[p]).id != SpecOf(decode, artifacts[q]).id
    {
      assert p in done && q in done;
      var i :| 0 <= i < |done| && done[i] == p;
      var j :| 0 <= j < |done| && done[j] == q;
    }
  }

  /** BuildArtifactIndex: succeeds exactly on indexable artifacts, and then returns their one index. */
  method BuildArtifactIndex(decode: Decoder, rawRoot: string, artifacts: map<string, Bytes>)
    returns (r: Result<map<string, IndexEntry>, ArchiveError>)
    ensures r.Ok? <==> Indexable(decode, RootOrDefault(rawRoot), artifacts)
    ensures r.Ok? ==> IsIndex(decode, RootOrDefault(rawRoot), artifacts, r.value)
  {
    hide Recorded, IsIndex, Normalize, ParseSpec, ManifestPath, Ascending;
    var root := RootOrDefault(rawRoot);
    var names := SortedKeys(artifacts.Keys);
    var seen: set<string> := {};
    var index: map<string, IndexEntry> := map[];
    NothingRecorded(decode, root, artifacts);
    for i := 0 to |names|
      invariant Recorded(decode, root, artifacts, names[..i], seen, index)
    {
      var name := names[i];
      assert name in names;
      var canonical := Normalize(root, name);
      if canonical.Err? {
        assert !Sound(decode, root, name, artifacts[name]);
        return Err(canonical.error);
      }
      var spec := ParseSpec(decode(artifacts[name]));
      if spec.Err? {
        assert !Sound(decode, root, name, artifacts[name]);
        return Err(spec.error);
      }
      if ManifestPath(root, spec.value.kind, spec.value.id) != canonical.value {
        assert !Sound(decode, root, name, artifacts[name]);
        return Err(PathMismatch(spec.value.id, canonical.value));
      }
      NameIsNew(names, i);
      if canonical.value in index {
        ClashBlocksIndex(decode, root, artifacts, names[..i], seen, index, name);
        return Err(PathCollision(canonical.value));
      }
      if spec.value.id in seen {
        ClashBlocksIndex(decode, root, artifacts, names[..i], seen, index, name);
        return Err(DuplicateId(spec.value.id));
      }
      RecordedOneMore(decode, root, artifacts, names[..i], seen, index, name);
      assert names[..i + 1] == names[..i] + [name];
      seen := seen + {spec.value.id};
      index := index[canonical.value := IndexEntry(canonical.value, spec.value)];
    }
    assert names[..|names|] == names;
    RecordedAll(decode, root, artifacts, names, seen, index);
    return Ok(index);
  }

  lemma NothingRecorded(decode: Decoder, root: string, artifacts: map<string, Bytes>)
    ensures Recorded(decode, root, artifacts, [], {}, map[])
  {
  }

  lemma NameIsNew(names: seq<string>, i: nat)
    requires Ascending(names) && i < |names|
    ensures names[i] !in names[..i]
  {
    hide Less;
    LessIrreflexive(names[i]);
    forall j | 0 <= j < i
      ensures names[j] != names[i]
    {
      assert Less(names[j], names[i]);
    }
  }
}
