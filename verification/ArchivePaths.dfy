/** The paths that artifacts are stored under: how they end, and when they are their own canonical paths. */
module ArchivePaths {
  import opened Results
  import opened Text
  import opened Paths
  import opened Archive

  // ---------- Paths that end in manifest.json ----------

  /** The manifest itself, or a manifest below some directory. */
  function Ending(above: Option<string>): string {
    match above
    case None => MANIFEST
    case Some(dir) => dir + "/" + MANIFEST
  }

  lemma ManifestIsElement()
    ensures SlashFree(MANIFEST) && MANIFEST != "." && MANIFEST != ".."
  {
  }

  lemma ManifestIsClean()
    ensures Clean(MANIFEST) == MANIFEST && Base(MANIFEST) == MANIFEST && Trim(MANIFEST) == MANIFEST
    ensures Clean(DEFAULT_DATA) == DEFAULT_DATA && Base(DEFAULT_DATA) == DEFAULT_DATA && Trim(DEFAULT_DATA) == DEFAULT_DATA
  {
    hide Split, Resolve, Trim;
    ManifestIsElement();
    SplitOfElement(MANIFEST);
    ResolveOne(MANIFEST, false);
    assert Trimmed(MANIFEST) && Trimmed(DEFAULT_DATA);
    assert SlashFree(DEFAULT_DATA);
    SplitOfElement(DEFAULT_DATA);
    ResolveOne(DEFAULT_DATA, false);
  }

  lemma EndingMeaning(above: Option<string>)
    ensures var c := Ending(above);
            Base(c) == MANIFEST && c != "" && c[|c| - 1] == 'n'
  {
    hide Split, SlashFree;
    ManifestIsElement();
    SplitOfElement(MANIFEST);
    if above.Some? {
      SplitAtSlash(above.value, MANIFEST);
    }
  }

  // Cleaning a path that ends in the element manifest.json leaves such a path.
  lemma CleanEnding(above: Option<string>) returns (left: Option<string>)
    ensures Clean(Ending(above)) == Ending(left)
  {
    hide Split, Resolve, Joined, SlashFree;
    var s := Ending(above);
    var front := if above.None? then [] else Split(above.value);
    ManifestIsElement();
    SplitOfElement(MANIFEST);
    if above.Some? {
      SplitAtSlash(above.value, MANIFEST);
    }
    assert Split(s) == front + [MANIFEST];
    ResolveSnoc(front, MANIFEST, Rooted(s));
    var q := Resolve(front, Rooted(s));
    if q == [] {
      assert Joined(q + [MANIFEST]) == MANIFEST by { JoinedOne(MANIFEST); }
      left := if Rooted(s) then Some("") else None;
    } else {
      JoinedSnoc(q, MANIFEST);
      left := Some(if Rooted(s) then "/" + Joined(q) else Joined(q));
    }
  }

  lemma JoinedOne(x: string)
    ensures Joined([] + [x]) == x
  {
    assert [] + [x] == [x];
  }

  lemma {:induction false} TrimLeftAtSlash(a: string, b: string)
    ensures TrimLeft(a + "/" + b) == TrimLeft(a) + "/" + b
  {
    var s := a + "/" + b;
    if a != "" && IsSpace(a[0]) {
      assert s[1..] == a[1..] + "/" + b;
      TrimLeftAtSlash(a[1..], b);
    }
  }

  // Trimming such a path cuts at its front only.
  lemma TrimEnding(above: Option<string>)
    ensures Trim(Ending(above)) == Ending(match above case None => None case Some(dir) => Some(TrimLeft(dir)))
  {
    hide TrimLeft, Base;
    EndingMeaning(above);
    match above
    case None =>
      assert Trimmed(MANIFEST);
    case Some(dir) =>
      TrimLeftAtSlash(dir, MANIFEST);
      EndingMeaning(Some(TrimLeft(dir)));
  }

  // ---------- Manifest paths ----------

  lemma NonEmptySnoc(root: string, kind: string, id: string) returns (front: seq<string>)
    requires root != ""
    ensures front != [] && NonEmpty([root, kind, id, MANIFEST]) == front + [MANIFEST]
  {
    var parts := [root, kind, id, MANIFEST];
    assert parts[1..] == [kind, id, MANIFEST];
    assert parts[1..][1..] == [id, MANIFEST];
    assert parts[1..][1..][1..] == [MANIFEST];
    assert parts[1..][1..][1..][1..] == [];
    assert NonEmpty([MANIFEST]) == [MANIFEST];
    var tail := if id == "" then [] else [id];
    assert NonEmpty([id, MANIFEST]) == tail + [MANIFEST];
    var tail' := if kind == "" then tail else [kind] + tail;
    assert NonEmpty([kind, id, MANIFEST]) == tail' + [MANIFEST];
    front := [root] + tail';
    assert NonEmpty(parts) == front + [MANIFEST];
  }

  /** ArtifactManifestPath gives a clean path that ends in manifest.json. */
  lemma ManifestPathEnds(root: string, kind: string, id: string) returns (above: Option<string>)
    requires root != ""
    ensures var c := ManifestPath(root, kind, id);
            c == Ending(above) && Base(c) == MANIFEST && c != "" && Clean(c) == c
  {
    hide Clean, Base, NonEmpty, Joined;
    var front := NonEmptySnoc(root, kind, id);
    JoinedSnoc(front, MANIFEST);
    above := CleanEnding(Some(Joined(front)));
    CleanIdempotent(Joined(front + [MANIFEST]));
    EndingMeaning(above);
  }

  // ---------- Canonical paths ----------

  lemma TrimShortens(s: string)
    ensures |Trim(s)| <= |s| && (Trim(s) != s ==> |Trim(s)| < |s|)
  {
    var lo, hi := TrimIsWindow(s);
    assert hi - lo == |s| ==> s[lo..hi] == s;
  }

  /** The canonical path is no longer than the name, and shorter if the name has white space at its ends. */
  lemma PathOfShortens(root: string, name: string)
    ensures |PathOf(root, name)| <= |name|
    ensures name != "" && Trim(name) != name ==> |PathOf(root, name)| < |name|
  {
    hide Clean, Trim, HasDots, CleanRoot;
    TrimShortens(name);
    if Trim(name) != "" {
      CleanShortens(Trim(name));
    }
  }

  /**
    A manifest path that the archive accepts looks like an artifact to the index. It is
    its own canonical path exactly when it is trimmed; otherwise it is not even the
    canonical path of its canonical path.
   */
  lemma AcceptedManifestPath(root: string, kind: string, id: string)
    requires root != "" && Normalize(root, ManifestPath(root, kind, id)).Ok?
    ensures var path := ManifestPath(root, kind, id);
            && Base(PathOf(root, path)) == MANIFEST
            && (PathOf(root, path) == path <==> Trim(path) == path)
            && (PathOf(root, PathOf(root, path)) == path <==> Trim(path) == path)
  {
    hide Clean, Trim, HasDots, CleanRoot, Base, ManifestPath;
    var path := ManifestPath(root, kind, id);
    var above := ManifestPathEnds(root, kind, id);
    TrimEnding(above);
    var left := CleanEnding(match above case None => None case Some(dir) => Some(TrimLeft(dir)));
    EndingMeaning(left);
    PathOfShortens(root, path);
    PathOfShortens(root, PathOf(root, path));
  }

  /** The canonical path of a sound artifact ends in manifest.json; trimmed, it is its own canonical path. */
  lemma SoundPath(decode: Decoder, root: string, name: string, payload: Bytes)
    requires root != "" && Sound(decode, root, name, payload)
    ensures var c := PathOf(root, name);
            Base(c) == MANIFEST && c != "" && (Trim(c) == c ==> Normalize(root, c) == Ok(c))
  {
    hide Clean, Base, ManifestPath, ParseSpec, Trim, HasDots, CleanRoot;
    var spec := SpecOf(decode, payload);
    var _ := ManifestPathEnds(root, spec.kind, spec.id);
    CleanKeepsDotless(Trim(name));
    CleanKeepsRooted(Trim(name));
  }
}
