/** When what is written can be indexed again. */
module ArchiveLaws {
  import opened Results
  import opened Text
  import opened Paths
  import opened Sorting
  import opened Archive
  import opened ArchivePaths
  import opened ProjectArchive

  // ---------- Specs ----------

  /** A spec as a manifest of the current version would carry it. */
  function AsJson(spec: Spec): Decoded {
    Json(Version(spec.schemaVersion), spec.id, spec.kind, "", spec.title, spec.description)
  }

  /**
    Whatever version a manifest has, the spec read from it names a known kind and an id, and
    written as a manifest of the current version it reads back as itself.
   */
  lemma ParsedSpecReparses(d: Decoded)
    requires ParseSpec(d).Ok?
    ensures var spec := ParseSpec(d).value;
            && Trim(spec.kind) in KINDS && Trim(spec.id) != "" && Trim(spec.schemaVersion) == VERSION_1
            && ParseSpec(AsJson(spec)) == Ok(spec)
  {
    hide TrimLeft, TrimRight;
    assert Trimmed(VERSION_1) && Trim(VERSION_1) == VERSION_1;
    assert VERSION_1 != VERSION_0;
  }

  // ---------- The default root ----------

  lemma DefaultCleanRoot()
    ensures CleanRoot(DEFAULT_ROOT) == "artifacts"
  {
    hide Split, Resolve, Trim;
    assert DEFAULT_ROOT == "artifacts" + "/" + "";
    assert SlashFree("artifacts") && SlashFree("");
    assert Trimmed(DEFAULT_ROOT) && Trim(DEFAULT_ROOT) == DEFAULT_ROOT;
    SplitAtSlash("artifacts", "");
    SplitOfElement("artifacts");
    SplitOfElement("");
    ArtifactsResolve();
    assert Joined(["artifacts"]) == "artifacts";
  }

  lemma ArtifactsResolve()
    ensures Resolve(["artifacts"] + [""], false) == ["artifacts"]
  {
    assert (["artifacts"] + [""])[..1] == ["artifacts"];
    assert ["artifacts"][..0] == [];
    assert Resolve(["artifacts"], false) == ["artifacts"];
  }

  // A path under the default root starts with its name.
  lemma StartsWithArtifacts(c: string)
    requires HasPrefix(c + "/", "artifacts")
    ensures c != "" && c[0] == 'a'
  {
    var s := c + "/";
    assert |s| == |c| + 1 && |s| >= 9;
    assert s[..9][0] == 'a';
    assert s[0] == c[0];
  }

  /** Under the default root the canonical path of a sound artifact is trimmed. */
  lemma DefaultRootIsTidy(decode: Decoder, name: string, payload: Bytes)
    requires Sound(decode, DEFAULT_ROOT, name, payload)
    ensures Trim(PathOf(DEFAULT_ROOT, name)) == PathOf(DEFAULT_ROOT, name)
  {
    hide Clean, Base, ManifestPath, ParseSpec, Trim, HasDots, CleanRoot;
    var c := PathOf(DEFAULT_ROOT, name);
    var spec := SpecOf(decode, payload);
    var above := ManifestPathEnds(DEFAULT_ROOT, spec.kind, spec.id);
    EndingMeaning(above);
    DefaultCleanRoot();
    assert WithoutSlash("artifacts") == "artifacts";
    assert HasPrefix(c + "/", "artifacts");
    StartsWithArtifacts(c);
    assert Trimmed(c);
  }

  lemma OutsideDefaultRoot(name: string)
    requires SlashFree(name) && Trimmed(name) && name != "" && name != "." && name != ".." && name[0] != 'a'
    ensures !Candidate(DEFAULT_ROOT, name)
  {
    hide Split, Resolve, Trim, HasDots, CleanRoot;
    DefaultCleanRoot();
    SplitOfElement(name);
    ResolveOne(name, Rooted(name));
    assert (name + "/")[0] == name[0];
    assert WithoutSlash("artifacts") == "artifacts";
  }

  /** Under the default root neither the manifest nor the default data file looks like an artifact. */
  lemma DefaultsAreNoCandidates()
    ensures !Candidate(DEFAULT_ROOT, MANIFEST) && !Candidate(DEFAULT_ROOT, DEFAULT_DATA)
  {
    OutsideDefaultRoot(MANIFEST);
    OutsideDefaultRoot(DEFAULT_DATA);
  }

  // ---------- Indexing what was written ----------

  /** Every canonical path is free of white space at its ends. */
  predicate TidyPaths(root: string, artifacts: map<string, Bytes>) {
    forall p :: p in artifacts ==> Trim(PathOf(root, p)) == PathOf(root, p)
  }

  /** Where the manifest of the project or its data file looks like an artifact, an artifact of that path hides it. */
  predicate FrontHidden(root: string, artifacts: map<string, Bytes>, dataFile: string) {
    && (Candidate(root, MANIFEST) ==> Named(root, artifacts, MANIFEST))
    && (Candidate(root, dataFile) ==> Named(root, artifacts, PathOf(root, dataFile)))
  }

  /** Where they look like artifacts, they are none. */
  predicate FrontIsNoSpec(decode: Decoder, root: string, manifest: Bytes, dataFile: string, db: Bytes) {
    && (Candidate(root, MANIFEST) ==> ParseSpec(decode(manifest)).Err?)
    && (Candidate(root, dataFile) ==> ParseSpec(decode(db)).Err?)
  }

  // Each artifact entry is a candidate under its own name.
  lemma StoredIsCandidate(decode: Decoder, root: string, artifacts: map<string, Bytes>, e: Entry)
    requires root != "" && Indexable(decode, root, artifacts) && TidyPaths(root, artifacts) && Stored(root, artifacts, e)
    ensures Candidate(root, e.name) && PathOf(root, e.name) == e.name
    ensures Sound(decode, root, e.name, e.payload)
  {
    hide Normalize, ManifestPath, ParseSpec, Base;
    var p :| p in artifacts && PathOf(root, p) == e.name && artifacts[p] == e.payload;
    SoundPath(decode, root, p, artifacts[p]);
  }

  // Of two stretches of entries the second counts.
  lemma {:induction false} PayloadsConcat(root: string, front: seq<Entry>, rest: seq<Entry>)
    ensures Payloads(root, front + rest) == Payloads(root, front) + Payloads(root, rest)
    decreases |rest|
  {
    hide Candidate, PathOf;
    if rest == [] {
      assert front + rest == front;
    } else {
      var n := |rest| - 1;
      assert rest == rest[..n] + [rest[n]];
      assert front + rest == front + rest[..n] + [rest[n]];
      PayloadsSnoc(root, front + rest[..n], rest[n]);
      PayloadsSnoc(root, rest[..n], rest[n]);
      PayloadsConcat(root, front, rest[..n]);
    }
  }

  // Candidates under their own names give their payloads; of one name the last.
  lemma {:induction false} PayloadsOfStable(root: string, entries: seq<Entry>)
    requires StableEntries(root, entries)
    ensures var m := Payloads(root, entries);
            && (forall i :: 0 <= i < |entries| ==> entries[i].name in m)
            && (forall c :: c in m ==> Entry(c, m[c]) in entries)
  {
    hide Candidate, PathOf;
    if entries != [] {
      var n := |entries| - 1;
      assert entries == entries[..n] + [entries[n]];
      PayloadsSnoc(root, entries[..n], entries[n]);
      PayloadsOfStable(root, entries[..n]);
    }
  }

  predicate StableEntries(root: string, entries: seq<Entry>) {
    forall i :: 0 <= i < |entries| ==> Candidate(root, entries[i].name) && PathOf(root, entries[i].name) == entries[i].name
  }

  lemma ArtifactEntriesStable(
    decode: Decoder, root: string, artifacts: map<string, Bytes>, manifest: Bytes, dataFile: string, db: Bytes, entries: seq<Entry>)
    requires root != "" && Indexable(decode, root, artifacts) && TidyPaths(root, artifacts)
    requires IsArchive(root, artifacts, manifest, dataFile, db, entries)
    ensures StableEntries(root, entries[2..])
  {
    hide Indexable, Candidate, PathOf, Stored, Ascending, TidyPaths;
    forall i | 2 <= i < |entries|
      ensures Candidate(root, entries[i].name) && PathOf(root, entries[i].name) == entries[i].name
    {
      StoredIsCandidate(decode, root, artifacts, entries[i]);
    }
  }

  // The payloads read back are the artifacts, each under its canonical path.
  predicate ReadBack(root: string, artifacts: map<string, Bytes>, payloads: map<string, Bytes>) {
    && (forall p :: p in artifacts ==> PathOf(root, p) in payloads)
    && (forall c :: c in payloads ==> Stored(root, artifacts, Entry(c, payloads[c])))
  }

  lemma ArchiveReadsBack(
    decode: Decoder, root: string, artifacts: map<string, Bytes>, manifest: Bytes, dataFile: string, db: Bytes, entries: seq<Entry>)
    requires root != "" && Indexable(decode, root, artifacts) && TidyPaths(root, artifacts)
    requires IsArchive(root, artifacts, manifest, dataFile, db, entries)
    ensures ReadBack(root, artifacts, Payloads(root, entries[2..]))
  {
    hide Indexable, Candidate, PathOf, Stored, Ascending, Payloads, TidyPaths;
    ArtifactEntriesStable(decode, root, artifacts, manifest, dataFile, db, entries);
    PayloadsOfStable(root, entries[2..]);
    var m := Payloads(root, entries[2..]);
    forall p | p in artifacts
      ensures PathOf(root, p) in m
    {
      var i :| 0 <= i < |entries| - 2 && Names(entries[2..])[i] == PathOf(root, p);
    }
    forall c | c in m
      ensures Stored(root, artifacts, Entry(c, m[c]))
    {
      var i :| 0 <= i < |entries| - 2 && entries[2..][i] == Entry(c, m[c]);
      assert entries[i + 2] == Entry(c, m[c]);
    }
  }

  lemma ReadBackIndexable(decode: Decoder, root: string, artifacts: map<string, Bytes>, payloads: map<string, Bytes>)
    requires root != "" && Indexable(decode, root, artifacts) && TidyPaths(root, artifacts) && ReadBack(root, artifacts, payloads)
    ensures Indexable(decode, root, payloads)
  {
    hide Sound, PathOf, SpecOf, Candidate, TidyPaths;
    forall c | c in payloads
      ensures Sound(decode, root, c, payloads[c]) && PathOf(root, c) == c
    {
      StoredIsCandidate(decode, root, artifacts, Entry(c, payloads[c]));
    }
    forall c, d | c in payloads && d in payloads && c != d
      ensures SpecOf(decode, payloads[c]).id != SpecOf(decode, payloads[d]).id
    {
      assert Stored(root, artifacts, Entry(c, payloads[c])) && Stored(root, artifacts, Entry(d, payloads[d]));
      var p :| p in artifacts && PathOf(root, p) == c && artifacts[p] == payloads[c];
      var q :| q in artifacts && PathOf(root, q) == d && artifacts[q] == payloads[d];
    }
  }

  lemma ReadBackSameIndex(decode: Decoder, root: string, artifacts: map<string, Bytes>, payloads: map<string, Bytes>,
                          index: map<string, IndexEntry>)
    requires root != "" && Indexable(decode, root, artifacts) && TidyPaths(root, artifacts) && ReadBack(root, artifacts, payloads)
    requires Indexable(decode, root, payloads) && IsIndex(decode, root, artifacts, index)
    ensures IsIndex(decode, root, payloads, index)
  {
    hide Sound, PathOf, SpecOf, Candidate, Indexable, TidyPaths;
    forall c | c in payloads
      ensures PathOf(root, c) == c && c in index && index[c] == IndexEntry(c, SpecOf(decode, payloads[c]))
    {
      StoredIsCandidate(decode, root, artifacts, Entry(c, payloads[c]));
      assert Stored(root, artifacts, Entry(c, payloads[c]));
      var p :| p in artifacts && PathOf(root, p) == c && artifacts[p] == payloads[c];
    }
    forall c | c in index
      ensures exists d :: d in payloads && PathOf(root, d) == c
    {
      var p :| p in artifacts && PathOf(root, p) == c;
      assert c in payloads && PathOf(root, c) == c;
    }
  }

  /** Tidy paths are steady names: what Create writes is the archive the laws speak of. */
  lemma TidyIsSteady(decode: Decoder, root: string, artifacts: map<string, Bytes>)
    requires root != "" && Indexable(decode, root, artifacts) && TidyPaths(root, artifacts)
    ensures Steady(root, artifacts)
  {
    hide Normalize, ManifestPath, ParseSpec, Base, PathOf;
    forall p | p in artifacts && PathOf(root, p) in artifacts
      ensures artifacts[PathOf(root, p)] == artifacts[p]
    {
      SoundPath(decode, root, p, artifacts[p]);
      StablePath(root, PathOf(root, p));
    }
  }

  lemma StablePath(root: string, c: string)
    requires Normalize(root, c) == Ok(c)
    ensures PathOf(root, c) == c
  {
    hide Normalize;
  }

  // ---------- Where payloads come from ----------

  lemma {:induction false} PayloadKey(root: string, entries: seq<Entry>, d: string) returns (i: nat)
    requires d in Payloads(root, entries)
    ensures i < |entries| && Candidate(root, entries[i].name) && PathOf(root, entries[i].name) == d
    ensures Payloads(root, entries)[d] == entries[i].payload
  {
    hide Candidate, PathOf;
    var n := |entries| - 1;
    if Candidate(root, entries[n].name) && PathOf(root, entries[n].name) == d {
      i := n;
    } else {
      i := PayloadKey(root, entries[..n], d);
    }
  }

  lemma {:induction false} PayloadThere(root: string, entries: seq<Entry>, i: nat)
    requires i < |entries| && Candidate(root, entries[i].name)
    ensures PathOf(root, entries[i].name) in Payloads(root, entries)
  {
    hide Candidate, PathOf;
    if i < |entries| - 1 {
      PayloadThere(root, entries[..|entries| - 1], i);
    }
  }

  // In what can be indexed, every payload comes from an artifact entry.
  lemma ArtifactKey(
    decode: Decoder, root: string, artifacts: map<string, Bytes>, manifest: Bytes, dataFile: string, db: Bytes, entries: seq<Entry>,
    d: string) returns (q: string)
    requires IsWritten(root, artifacts, manifest, dataFile, db, entries) && FrontIsNoSpec(decode, root, manifest, dataFile, db)
    requires Indexable(decode, root, Payloads(root, entries)) && d in Payloads(root, entries)
    ensures q in artifacts && PathOf(root, PathOf(root, q)) == d
  {
    hide PathOf, Candidate, ParseSpec, ManifestPath, Normalize, Payloads, Written, Ascending;
    var i := PayloadKey(root, entries, d);
    assert Sound(decode, root, d, Payloads(root, entries)[d]);
    assert i >= 2;
    q :| q in artifacts && PathOf(root, q) == entries[i].name;
  }

  lemma ManifestIsItself(root: string)
    requires Candidate(root, MANIFEST)
    ensures PathOf(root, MANIFEST) == MANIFEST
  {
    hide Clean, Trim, HasDots, CleanRoot;
    ManifestIsClean();
  }

  // ---------- Archives that index again ----------

  // The payloads in front are hidden by those of the artifacts.
  lemma FrontIsPassedOver(root: string, artifacts: map<string, Bytes>, manifest: Bytes, dataFile: string, db: Bytes, entries: seq<Entry>)
    requires IsWritten(root, artifacts, manifest, dataFile, db, entries) && FrontHidden(root, artifacts, dataFile)
    requires ReadBack(root, artifacts, Payloads(root, entries[2..]))
    ensures Payloads(root, entries) == Payloads(root, entries[2..])
  {
    hide PathOf, Candidate, Written, Ascending, Payloads, Stored;
    assert entries == entries[..2] + entries[2..];
    PayloadsConcat(root, entries[..2], entries[2..]);
    var front, rest := Payloads(root, entries[..2]), Payloads(root, entries[2..]);
    forall d | d in front
      ensures d in rest
    {
      var i := PayloadKey(root, entries[..2], d);
      if i == 0 {
        ManifestIsItself(root);
      }
      var p :| p in artifacts && PathOf(root, p) == d;
    }
    assert front + rest == rest;
  }

  lemma TidyReindexes(
    decode: Decoder, root: string, artifacts: map<string, Bytes>, manifest: Bytes, dataFile: string, db: Bytes, entries: seq<Entry>,
    index: map<string, IndexEntry>)
    requires root != "" && Indexable(decode, root, artifacts) && IsIndex(decode, root, artifacts, index)
    requires IsWritten(root, artifacts, manifest, dataFile, db, entries)
    requires TidyPaths(root, artifacts) && FrontHidden(root, artifacts, dataFile)
    ensures Indexable(decode, root, Payloads(root, entries)) && IsIndex(decode, root, Payloads(root, entries), index)
  {
    hide Indexable, IsIndex, IsArchive, IsWritten, Payloads, ReadBack, FrontHidden, TidyPaths, Steady;
    TidyIsSteady(decode, root, artifacts);
    WrittenIsArchiveIff(decode, root, artifacts, manifest, dataFile, db, entries);
    ArchiveReadsBack(decode, root, artifacts, manifest, dataFile, db, entries);
    FrontIsPassedOver(root, artifacts, manifest, dataFile, db, entries);
    ReadBackIndexable(decode, root, artifacts, Payloads(root, entries));
    ReadBackSameIndex(decode, root, artifacts, Payloads(root, entries), index);
  }

  // ---------- Archives that do not ----------

  lemma {:induction false} Longest(paths: set<string>) returns (m: string)
    requires paths != {}
    ensures m in paths && forall x :: x in paths ==> |x| <= |m|
    decreases |paths|
  {
    m :| m in paths;
    if paths != {m} {
      var rest := Longest(paths - {m});
      m := if |rest| > |m| then rest else m;
    }
  }

  // A longest path with white space at its ends is the canonical path of no payload that is read.
  lemma LongestIsLost(
    decode: Decoder, root: string, artifacts: map<string, Bytes>, manifest: Bytes, dataFile: string, db: Bytes, entries: seq<Entry>,
    c: string, d: string)
    requires root != "" && Indexable(decode, root, artifacts)
    requires IsWritten(root, artifacts, manifest, dataFile, db, entries) && FrontIsNoSpec(decode, root, manifest, dataFile, db)
    requires Indexable(decode, root, Payloads(root, entries))
    requires Trim(c) != c
    requires forall p :: p in artifacts && Trim(PathOf(root, p)) != PathOf(root, p) ==> |PathOf(root, p)| <= |c|
    requires d in Payloads(root, entries)
    ensures PathOf(root, d) != c
  {
    hide PathOf, Candidate, Sound, Payloads, IsWritten, FrontIsNoSpec, Trim;
    var q := ArtifactKey(decode, root, artifacts, manifest, dataFile, db, entries, d);
    var name := PathOf(root, q);
    SoundPath(decode, root, q, artifacts[q]);
    PathOfShortens(root, name);
    PathOfShortens(root, d);
    if Trim(name) == name {
      StablePath(root, name);
    }
  }

  lemma ReindexedIsTidy(
    decode: Decoder, root: string, artifacts: map<string, Bytes>, manifest: Bytes, dataFile: string, db: Bytes, entries: seq<Entry>,
    index: map<string, IndexEntry>)
    requires root != "" && Indexable(decode, root, artifacts) && IsIndex(decode, root, artifacts, index)
    requires IsWritten(root, artifacts, manifest, dataFile, db, entries) && FrontIsNoSpec(decode, root, manifest, dataFile, db)
    requires Indexable(decode, root, Payloads(root, entries)) && IsIndex(decode, root, Payloads(root, entries), index)
    ensures TidyPaths(root, artifacts)
  {
    hide Indexable, IsWritten, Payloads, FrontIsNoSpec, PathOf, Trim;
    if !TidyPaths(root, artifacts) {
      var untidy := set p | p in artifacts && Trim(PathOf(root, p)) != PathOf(root, p) :: PathOf(root, p);
      var p :| p in artifacts && Trim(PathOf(root, p)) != PathOf(root, p);
      assert PathOf(root, p) in untidy;
      var c := Longest(untidy);
      assert c in index;
      forall d | d in Payloads(root, entries)
        ensures PathOf(root, d) != c
      {
        LongestIsLost(decode, root, artifacts, manifest, dataFile, db, entries, c, d);
      }
    }
  }

  lemma ReindexedIsHidden(
    decode: Decoder, root: string, artifacts: map<string, Bytes>, manifest: Bytes, dataFile: string, db: Bytes, entries: seq<Entry>)
    requires root != "" && Indexable(decode, root, artifacts) && TidyPaths(root, artifacts)
    requires IsWritten(root, artifacts, manifest, dataFile, db, entries) && FrontIsNoSpec(decode, root, manifest, dataFile, db)
    requires Indexable(decode, root, Payloads(root, entries))
    ensures FrontHidden(root, artifacts, dataFile)
  {
    hide Indexable, Payloads, FrontIsNoSpec, PathOf, Trim, Candidate, Written, Ascending;
    if Candidate(root, MANIFEST) {
      PayloadThere(root, entries, 0);
      ManifestIsItself(root);
      KeyIsNamed(decode, root, artifacts, manifest, dataFile, db, entries, MANIFEST);
    }
    if Candidate(root, dataFile) {
      PayloadThere(root, entries, 1);
      KeyIsNamed(decode, root, artifacts, manifest, dataFile, db, entries, PathOf(root, dataFile));
    }
  }

  lemma KeyIsNamed(
    decode: Decoder, root: string, artifacts: map<string, Bytes>, manifest: Bytes, dataFile: string, db: Bytes, entries: seq<Entry>,
    d: string)
    requires root != "" && Indexable(decode, root, artifacts) && TidyPaths(root, artifacts)
    requires IsWritten(root, artifacts, manifest, dataFile, db, entries) && FrontIsNoSpec(decode, root, manifest, dataFile, db)
    requires Indexable(decode, root, Payloads(root, entries)) && d in Payloads(root, entries)
    ensures Named(root, artifacts, d)
  {
    hide PathOf, Candidate, Sound, Payloads, IsWritten, FrontIsNoSpec, Trim;
    var q := ArtifactKey(decode, root, artifacts, manifest, dataFile, db, entries, d);
    SoundPath(decode, root, q, artifacts[q]);
    StablePath(root, PathOf(root, q));
  }

  /**
    Under any root: what Create writes indexes again, to the very index of the inputs,
    exactly when no canonical path has white space at its ends and an artifact hides the
    manifest and the data file wherever these look like artifacts.
   */
  lemma ArchiveReindexesIff(
    decode: Decoder, root: string, artifacts: map<string, Bytes>, manifest: Bytes, dataFile: string, db: Bytes, entries: seq<Entry>,
    index: map<string, IndexEntry>)
    requires root != "" && Indexable(decode, root, artifacts) && IsIndex(decode, root, artifacts, index)
    requires IsWritten(root, artifacts, manifest, dataFile, db, entries) && FrontIsNoSpec(decode, root, manifest, dataFile, db)
    ensures Indexable(decode, root, Payloads(root, entries)) && IsIndex(decode, root, Payloads(root, entries), index)
       <==> TidyPaths(root, artifacts) && FrontHidden(root, artifacts, dataFile)
  {
    hide Indexable, IsWritten, Payloads, FrontIsNoSpec, FrontHidden, IsIndex, TidyPaths;
    if TidyPaths(root, artifacts) && FrontHidden(root, artifacts, dataFile) {
      TidyReindexes(decode, root, artifacts, manifest, dataFile, db, entries, index);
    }
    if Indexable(decode, root, Payloads(root, entries)) && IsIndex(decode, root, Payloads(root, entries), index) {
      ReindexedIsTidy(decode, root, artifacts, manifest, dataFile, db, entries, index);
      ReindexedIsHidden(decode, root, artifacts, manifest, dataFile, db, entries);
    }
  }

  /** Under the default root every archive with an ordinary data file indexes again, to the one index of the inputs. */
  lemma ArchiveReindexes(
    decode: Decoder, artifacts: map<string, Bytes>, manifest: Bytes, dataFile: string, db: Bytes, entries: seq<Entry>,
    index: map<string, IndexEntry>)
    requires Indexable(decode, DEFAULT_ROOT, artifacts) && IsIndex(decode, DEFAULT_ROOT, artifacts, index)
    requires IsWritten(DEFAULT_ROOT, artifacts, manifest, dataFile, db, entries) && !Candidate(DEFAULT_ROOT, dataFile)
    ensures Indexable(decode, DEFAULT_ROOT, Payloads(DEFAULT_ROOT, entries))
    ensures forall again :: IsIndex(decode, DEFAULT_ROOT, Payloads(DEFAULT_ROOT, entries), again) <==> again == index
  {
    hide Indexable, IsIndex, IsWritten, Payloads, Candidate, TidyPaths;
    var payloads := Payloads(DEFAULT_ROOT, entries);
    AllDefaultPathsTidy(decode, artifacts);
    DefaultsAreNoCandidates();
    ArchiveReindexesIff(decode, DEFAULT_ROOT, artifacts, manifest, dataFile, db, entries, index);
    forall again | IsIndex(decode, DEFAULT_ROOT, payloads, again)
      ensures again == index
    {
      IndexIsUnique(decode, DEFAULT_ROOT, payloads, again, index);
    }
  }

  lemma AllDefaultPathsTidy(decode: Decoder, artifacts: map<string, Bytes>)
    requires Indexable(decode, DEFAULT_ROOT, artifacts)
    ensures TidyPaths(DEFAULT_ROOT, artifacts)
  {
    hide PathOf, Sound, Trim;
    forall p | p in artifacts
      ensures Trim(PathOf(DEFAULT_ROOT, p)) == PathOf(DEFAULT_ROOT, p)
    {
      DefaultRootIsTidy(decode, p, artifacts[p]);
    }
  }

  /** Under the default root Create gives every path the payload of the artifact that has it. */
  lemma DefaultRootIsSteady(decode: Decoder, artifacts: map<string, Bytes>)
    requires Indexable(decode, DEFAULT_ROOT, artifacts)
    ensures Steady(DEFAULT_ROOT, artifacts)
  {
    hide Indexable, TidyPaths, Steady;
    AllDefaultPathsTidy(decode, artifacts);
    TidyIsSteady(decode, DEFAULT_ROOT, artifacts);
  }
}
