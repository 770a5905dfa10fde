/** When an archive can still be indexed after artifacts were put in, one by one. */
module ArchiveUpserts {
  import opened Results
  import opened Text
  import opened Paths
  import opened Sorting
  import opened Archive
  import opened ArchivePaths
  import opened ProjectArchive
  import opened ArchiveLaws

  // ---------- The payloads after an upsert ----------

  /** The name of the entry that counts for a canonical path: the last one the index looks at. */
  function LastFor(root: string, entries: seq<Entry>, path: string): Option<string> {
    if entries == [] then None
    else
      var e := entries[|entries| - 1];
      if Candidate(root, e.name) && PathOf(root, e.name) == path then Some(e.name)
      else LastFor(root, entries[..|entries| - 1], path)
  }

  /** An entry of that name is there, and one of another name behind it counts instead. */
  predicate Shadowed(root: string, entries: seq<Entry>, path: string) {
    path in Names(entries) && LastFor(root, entries, PathOf(root, path)) != Some(path)
  }

  lemma {:induction false} PayloadsOfReplaced(root: string, entries: seq<Entry>, path: string, raw: Bytes)
    requires Candidate(root, path)
    ensures Payloads(root, Replaced(entries, path, raw)) ==
              if LastFor(root, entries, PathOf(root, path)) == Some(path) then Payloads(root, entries)[PathOf(root, path) := raw]
              else Payloads(root, entries)
    ensures LastFor(root, entries, PathOf(root, path)) == Some(path) ==> path in Names(entries)
  {
    hide Candidate, PathOf;
    if entries != [] {
      var n := |entries| - 1;
      var e := entries[n];
      PayloadsOfReplaced(root, entries[..n], path, raw);
      assert entries == entries[..n] + [e];
      assert Replaced(entries, path, raw) ==
             Replaced(entries[..n], path, raw) + [if e.name == path then Entry(path, raw) else e];
      PayloadsSnoc(root, entries[..n], e);
      PayloadsSnoc(root, Replaced(entries[..n], path, raw), if e.name == path then Entry(path, raw) else e);
      assert Names(entries) == Names(entries[..n]) + [e.name];
    }
  }

  /** An upsert puts the payload under the canonical path of its target, unless the entry is shadowed; then nothing changes. */
  lemma PayloadsOfUpserted(root: string, entries: seq<Entry>, path: string, raw: Bytes)
    requires Candidate(root, path)
    ensures Payloads(root, Upserted(entries, path, raw)) ==
              if Shadowed(root, entries, path) then Payloads(root, entries)
              else Payloads(root, entries)[PathOf(root, path) := raw]
  {
    hide Candidate, PathOf, Payloads, LastFor;
    PayloadsOfReplaced(root, entries, path, raw);
    PayloadsSnoc(root, Replaced(entries, path, raw), Entry(path, raw));
  }

  // ---------- One upsert ----------

  /** The id of the new artifact is used by no artifact stored elsewhere. */
  predicate IdFree(decode: Decoder, payloads: map<string, Bytes>, path: string, raw: Bytes) {
    forall q :: q in payloads && q != path ==> SpecOf(decode, payloads[q]).id != SpecOf(decode, raw).id
  }

  /** No artifact stored elsewhere has the path for its canonical path. */
  predicate PathFree(root: string, payloads: map<string, Bytes>, path: string) {
    forall q :: q in payloads && q != path ==> PathOf(root, q) != path
  }

  /** An artifact that fits an archive: its target has no white space at its ends, and its id is free. */
  predicate Fits(decode: Decoder, root: string, entries: seq<Entry>, path: string, raw: Bytes) {
    Trim(path) == path && IdFree(decode, Payloads(root, entries), path, raw)
  }

  /** What any archive asks of an upsert: that its entry is shadowed, or that the artifact fits and its path is free. */
  predicate Admits(decode: Decoder, root: string, entries: seq<Entry>, path: string, raw: Bytes) {
    || Shadowed(root, entries, path)
    || (Fits(decode, root, entries, path, raw) && PathFree(root, Payloads(root, entries), path))
  }

  lemma TargetMeaning(decode: Decoder, root: string, raw: Bytes)
    requires root != "" && Target(decode, root, raw).Ok?
    ensures var path := Target(decode, root, raw).value;
            && Candidate(root, path)
            && (PathOf(root, path) == path <==> Trim(path) == path)
            && (Sound(decode, root, PathOf(root, path), raw) ==> Trim(path) == path)
            && (Trim(path) == path ==> Sound(decode, root, path, raw))
  {
    hide ManifestPath, Trim, Base, ParseSpec, Normalize;
    var spec := SpecOf(decode, raw);
    AcceptedManifestPath(root, spec.kind, spec.id);
  }

  /** An archive that can be indexed stays so after an accepted upsert exactly when it admits it. */
  lemma UpsertKeepsIndexIff(decode: Decoder, root: string, entries: seq<Entry>, raw: Bytes)
    requires root != "" && Indexable(decode, root, Payloads(root, entries))
    requires Target(decode, root, raw).Ok?
    ensures var path := Target(decode, root, raw).value;
            Indexable(decode, root, Payloads(root, Upserted(entries, path, raw))) <==> Admits(decode, root, entries, path, raw)
  {
    hide Target, Candidate, PathOf, Payloads, IdFree, PathFree, Upserted, Trim, Sound, Shadowed;
    var path := Target(decode, root, raw).value;
    var payloads := Payloads(root, entries);
    TargetMeaning(decode, root, raw);
    PayloadsOfUpserted(root, entries, path, raw);
    if Trim(path) == path {
      OneMoreIndexableIff(decode, root, payloads, path, raw);
    } else {
      var c := PathOf(root, path);
      var after := payloads[c := raw];
      assert c in after && after[c] == raw;
    }
  }

  /** A shadowed upsert leaves the index as it is; any other that is admitted changes it at its target only. */
  lemma UpsertChangesIndex(decode: Decoder, root: string, entries: seq<Entry>, raw: Bytes, index: map<string, IndexEntry>)
    requires root != "" && Indexable(decode, root, Payloads(root, entries))
    requires IsIndex(decode, root, Payloads(root, entries), index)
    requires Target(decode, root, raw).Ok?
    requires Admits(decode, root, entries, Target(decode, root, raw).value, raw)
    ensures var path := Target(decode, root, raw).value;
            var after := Payloads(root, Upserted(entries, path, raw));
            && Indexable(decode, root, after)
            && IsIndex(decode, root, after,
                       if Shadowed(root, entries, path) then index else index[path := IndexEntry(path, SpecOf(decode, raw))])
  {
    hide Target, Candidate, PathOf, Payloads, IdFree, PathFree, Upserted, Trim, Sound, Indexable, IsIndex, Shadowed;
    var path := Target(decode, root, raw).value;
    TargetMeaning(decode, root, raw);
    UpsertKeepsIndexIff(decode, root, entries, raw);
    PayloadsOfUpserted(root, entries, path, raw);
    if !Shadowed(root, entries, path) {
      OneMoreIndexed(decode, root, Payloads(root, entries), path, raw, index);
    }
  }

  lemma OneMoreIndexableIff(decode: Decoder, root: string, payloads: map<string, Bytes>, path: string, raw: Bytes)
    requires Indexable(decode, root, payloads) && Sound(decode, root, path, raw) && PathOf(root, path) == path
    ensures Indexable(decode, root, payloads[path := raw]) <==>
              IdFree(decode, payloads, path, raw) && PathFree(root, payloads, path)
  {
    hide Sound, PathOf, SpecOf;
    var after := payloads[path := raw];
    if Indexable(decode, root, after) {
      forall q | q in payloads && q != path
        ensures SpecOf(decode, payloads[q]).id != SpecOf(decode, raw).id && PathOf(root, q) != path
      {
        assert q in after && path in after && after[q] == payloads[q];
      }
    }
  }

  lemma OneMoreIndexed(decode: Decoder, root: string, payloads: map<string, Bytes>, path: string, raw: Bytes, index: map<string, IndexEntry>)
    requires Indexable(decode, root, payloads) && IsIndex(decode, root, payloads, index)
    requires PathOf(root, path) == path && PathFree(root, payloads, path)
    requires Indexable(decode, root, payloads[path := raw])
    ensures IsIndex(decode, root, payloads[path := raw], index[path := IndexEntry(path, SpecOf(decode, raw))])
  {
    hide Sound, PathOf, SpecOf, Indexable;
    var after, index' := payloads[path := raw], index[path := IndexEntry(path, SpecOf(decode, raw))];
    forall c | c in index'
      ensures exists p :: p in after && PathOf(root, p) == c
    {
      if c == path {
        assert path in after;
      } else {
        var p :| p in payloads && PathOf(root, p) == c;
        assert p in after;
      }
    }
  }

  // ---------- Runs of upserts ----------

  /** One upsert; one that is refused leaves the archive as it was. */
  function UpsertOne(decode: Decoder, root: string, entries: seq<Entry>, raw: Bytes): seq<Entry> {
    match Target(decode, root, raw)
    case Err(_) => entries
    case Ok(path) => Upserted(entries, path, raw)
  }

  /** The archive can be indexed now and after every upsert of the run. */
  predicate IndexableThroughout(decode: Decoder, root: string, entries: seq<Entry>, raws: seq<Bytes>)
    decreases |raws|
  {
    && Indexable(decode, root, Payloads(root, entries))
    && (raws != [] ==> IndexableThroughout(decode, root, UpsertOne(decode, root, entries, raws[0]), raws[1..]))
  }

  /** Every artifact that is accepted is admitted at that moment. */
  predicate AllAdmitted(decode: Decoder, root: string, entries: seq<Entry>, raws: seq<Bytes>)
    decreases |raws|
  {
    raws != [] ==>
      && (Target(decode, root, raws[0]).Ok? ==> Admits(decode, root, entries, Target(decode, root, raws[0]).value, raws[0]))
      && AllAdmitted(decode, root, UpsertOne(decode, root, entries, raws[0]), raws[1..])
  }

  /** Over every run of upserts the archive can always be indexed exactly when it admits every artifact it accepts. */
  lemma {:induction false} UpsertsStayIndexableIff(decode: Decoder, root: string, entries: seq<Entry>, raws: seq<Bytes>)
    requires root != "" && Indexable(decode, root, Payloads(root, entries))
    ensures IndexableThroughout(decode, root, entries, raws) <==> AllAdmitted(decode, root, entries, raws)
    decreases |raws|
  {
    hide Target, Indexable, Admits, Payloads, Upserted;
    if raws != [] {
      if Target(decode, root, raws[0]).Err? {
        UpsertsStayIndexableIff(decode, root, entries, raws[1..]);
      } else {
        var path := Target(decode, root, raws[0]).value;
        UpsertKeepsIndexIff(decode, root, entries, raws[0]);
        if Admits(decode, root, entries, path, raws[0]) {
          UpsertsStayIndexableIff(decode, root, Upserted(entries, path, raws[0]), raws[1..]);
        } else {
          FailsAtOnce(decode, root, Upserted(entries, path, raws[0]), raws[1..]);
        }
      }
    }
  }

  lemma FailsAtOnce(decode: Decoder, root: string, entries: seq<Entry>, raws: seq<Bytes>)
    requires !Indexable(decode, root, Payloads(root, entries))
    ensures !IndexableThroughout(decode, root, entries, raws)
  {
  }

  // ---------- Archives whose entries stand under their canonical paths ----------

  /** Every entry the index looks at is stored under its canonical path. */
  predicate TidyNames(root: string, entries: seq<Entry>) {
    forall i :: 0 <= i < |entries| && Candidate(root, entries[i].name) ==> PathOf(root, entries[i].name) == entries[i].name
  }

  lemma {:induction false} PayloadKeysAreStable(root: string, entries: seq<Entry>, c: string)
    requires TidyNames(root, entries) && c in Payloads(root, entries)
    ensures PathOf(root, c) == c
  {
    hide Candidate, PathOf;
    var n := |entries| - 1;
    if c in Payloads(root, entries[..n]) {
      PayloadKeysAreStable(root, entries[..n], c);
    }
  }

  lemma {:induction false} NothingShadowed(root: string, entries: seq<Entry>, path: string)
    requires TidyNames(root, entries) && Candidate(root, path)
    ensures !Shadowed(root, entries, path)
  {
    hide Candidate, PathOf;
    if entries != [] {
      var n := |entries| - 1;
      NothingShadowed(root, entries[..n], path);
      assert entries == entries[..n] + [entries[n]];
      assert Names(entries) == Names(entries[..n]) + [entries[n].name];
      if path in Names(entries) {
        var i :| 0 <= i < |entries| && Names(entries)[i] == path;
        assert entries[i].name == path;
      }
    }
  }

  /** In such an archive an artifact is admitted exactly when it fits. */
  lemma TidyAdmitsIff(decode: Decoder, root: string, entries: seq<Entry>, path: string, raw: Bytes)
    requires TidyNames(root, entries) && Candidate(root, path)
    ensures Admits(decode, root, entries, path, raw) <==> Fits(decode, root, entries, path, raw)
  {
    hide Candidate, PathOf, Payloads, TidyNames, Trim, IdFree, Shadowed;
    NothingShadowed(root, entries, path);
    forall q | q in Payloads(root, entries)
      ensures PathOf(root, q) == q
    {
      PayloadKeysAreStable(root, entries, q);
    }
  }

  lemma UpsertKeepsTidy(root: string, entries: seq<Entry>, path: string, raw: Bytes)
    requires TidyNames(root, entries) && PathOf(root, path) == path
    ensures TidyNames(root, Upserted(entries, path, raw))
  {
    hide Candidate, PathOf;
    var after := Upserted(entries, path, raw);
    forall i | 0 <= i < |after| && Candidate(root, after[i].name)
      ensures PathOf(root, after[i].name) == after[i].name
    {
      assert i < |entries| ==> after[i].name == entries[i].name;
    }
  }

  /** Every artifact that is accepted fits at that moment. */
  predicate AllFit(decode: Decoder, root: string, entries: seq<Entry>, raws: seq<Bytes>)
    decreases |raws|
  {
    raws != [] ==>
      && (Target(decode, root, raws[0]).Ok? ==> Fits(decode, root, entries, Target(decode, root, raws[0]).value, raws[0]))
      && AllFit(decode, root, UpsertOne(decode, root, entries, raws[0]), raws[1..])
  }

  lemma {:induction false} TidyRunsAdmitIff(decode: Decoder, root: string, entries: seq<Entry>, raws: seq<Bytes>)
    requires root != "" && TidyNames(root, entries)
    ensures AllAdmitted(decode, root, entries, raws) <==> AllFit(decode, root, entries, raws)
    decreases |raws|
  {
    hide Target, PathOf, TidyNames, IdFree, Payloads, Upserted, Trim, Candidate, Admits;
    if raws != [] {
      if Target(decode, root, raws[0]).Err? {
        TidyRunsAdmitIff(decode, root, entries, raws[1..]);
      } else {
        var path := Target(decode, root, raws[0]).value;
        TargetMeaning(decode, root, raws[0]);
        TidyAdmitsIff(decode, root, entries, path, raws[0]);
        if Fits(decode, root, entries, path, raws[0]) {
          UpsertKeepsTidy(root, entries, path, raws[0]);
          TidyRunsAdmitIff(decode, root, Upserted(entries, path, raws[0]), raws[1..]);
        }
      }
    }
  }

  lemma ArchiveIsTidy(
    decode: Decoder, artifacts: map<string, Bytes>, manifest: Bytes, dataFile: string, db: Bytes, entries: seq<Entry>)
    requires Indexable(decode, DEFAULT_ROOT, artifacts)
    requires IsWritten(DEFAULT_ROOT, artifacts, manifest, dataFile, db, entries) && !Candidate(DEFAULT_ROOT, dataFile)
    ensures TidyNames(DEFAULT_ROOT, entries)
  {
    hide Candidate, PathOf, Sound, Written, Ascending, Trim;
    DefaultsAreNoCandidates();
    forall i | 0 <= i < |entries| && Candidate(DEFAULT_ROOT, entries[i].name)
      ensures PathOf(DEFAULT_ROOT, entries[i].name) == entries[i].name
    {
      if i >= 2 {
        var p :| p in artifacts && PathOf(DEFAULT_ROOT, p) == entries[i].name;
        DefaultRootIsTidy(decode, p, artifacts[p]);
        SoundPath(decode, DEFAULT_ROOT, p, artifacts[p]);
        StablePath(DEFAULT_ROOT, entries[i].name);
      }
    }
  }

  /** What Create writes under the default root can be indexed throughout exactly the runs in which every accepted artifact fits. */
  lemma CreatedArchiveStaysIndexableIff(
    decode: Decoder, artifacts: map<string, Bytes>, manifest: Bytes, dataFile: string, db: Bytes, entries: seq<Entry>,
    index: map<string, IndexEntry>, raws: seq<Bytes>)
    requires Indexable(decode, DEFAULT_ROOT, artifacts) && IsIndex(decode, DEFAULT_ROOT, artifacts, index)
    requires IsWritten(DEFAULT_ROOT, artifacts, manifest, dataFile, db, entries) && !Candidate(DEFAULT_ROOT, dataFile)
    ensures IndexableThroughout(decode, DEFAULT_ROOT, entries, raws) <==> AllFit(decode, DEFAULT_ROOT, entries, raws)
  {
    hide Indexable, IsIndex, IsWritten, Payloads, Candidate, AllFit, AllAdmitted, IndexableThroughout, TidyNames;
    ArchiveReindexes(decode, artifacts, manifest, dataFile, db, entries, index);
    ArchiveIsTidy(decode, artifacts, manifest, dataFile, db, entries);
    UpsertsStayIndexableIff(decode, DEFAULT_ROOT, entries, raws);
    TidyRunsAdmitIff(decode, DEFAULT_ROOT, entries, raws);
  }
}
