/** Archives that do not index as one might expect: unusual ids, shared ids, unusual roots. */
module ArchiveRoots {
  import opened Results
  import opened Text
  import opened Paths
  import opened Sorting
  import opened Archive
  import opened ArchivePaths
  import opened ProjectArchive
  import opened ArchiveLaws
  import opened ArchiveUpserts

  // ---------- Paths written out ----------

  predicate PlainElement(x: string) {
    SlashFree(x) && x != "" && x != "." && x != ".."
  }

  lemma ResolveSkips(parts: seq<string>, x: string)
    requires x == "" || x == "."
    ensures Resolve(parts + [x], false) == Resolve(parts, false)
  {
    assert (parts + [x])[..|parts|] == parts;
  }

  lemma ResolveUp(parts: seq<string>, before: seq<string>, x: string)
    requires Resolve(parts, false) == before + [x] && x != ".."
    ensures Resolve(parts + [".."], false) == before
  {
    assert (parts + [".."])[..|parts|] == parts;
  }

  lemma JoinedTwo(x: string, y: string)
    ensures Joined([x, y]) == x + "/" + y
  {
    assert [x, y][1..] == [y];
  }

  lemma JoinedFour(a: string, b: string, c: string, d: string)
    ensures Joined([a, b, c, d]) == a + "/" + (b + "/" + (c + "/" + d))
  {
    assert [a, b, c, d][1..] == [b, c, d];
    assert [b, c, d][1..] == [c, d];
    JoinedTwo(c, d);
  }

  lemma NonEmptyFour(root: string, kind: string, id: string)
    requires root != "" && kind != "" && id != ""
    ensures NonEmpty([root, kind, id, MANIFEST]) == [root, kind, id, MANIFEST]
  {
    assert [root, kind, id, MANIFEST][1..] == [kind, id, MANIFEST];
    assert [kind, id, MANIFEST][1..] == [id, MANIFEST];
    assert [id, MANIFEST][1..] == [MANIFEST];
    assert [MANIFEST][1..] == [];
    assert NonEmpty([MANIFEST]) == [MANIFEST];
    assert NonEmpty([id, MANIFEST]) == [id, MANIFEST];
    assert NonEmpty([kind, id, MANIFEST]) == [kind, id, MANIFEST];
  }

  // The elements of a manifest path before ".", ".." and empty ones are resolved.
  lemma ManifestElements(root: string, kind: string, id: string)
    requires root != "" && kind != "" && id != "" && !Rooted(root)
    ensures ManifestPath(root, kind, id) == Rendered(Resolve(Split(root) + Split(kind) + Split(id), false) + [MANIFEST], false)
  {
    hide Split, Resolve, Rendered, NonEmpty;
    NonEmptyFour(root, kind, id);
    JoinedFour(root, kind, id, MANIFEST);
    var s := root + "/" + (kind + "/" + (id + "/" + MANIFEST));
    ManifestIsElement();
    SplitOfElement(MANIFEST);
    SplitAtSlash(id, MANIFEST);
    SplitAtSlash(kind, id + "/" + MANIFEST);
    SplitAtSlash(root, kind + "/" + (id + "/" + MANIFEST));
    assert Split(s) == Split(root) + Split(kind) + Split(id) + [MANIFEST];
    ResolveSnoc(Split(root) + Split(kind) + Split(id), MANIFEST, false);
    CleanIdempotent(s);
  }

  lemma SplitDefaultRoot()
    ensures Split(DEFAULT_ROOT) == ["artifacts", ""]
  {
    hide Split;
    assert DEFAULT_ROOT == "artifacts" + "/" + "";
    assert SlashFree("artifacts") && SlashFree("");
    SplitAtSlash("artifacts", "");
    SplitOfElement("artifacts");
    SplitOfElement("");
  }

  lemma DefaultRootResolves()
    ensures Resolve(["artifacts", ""], false) == ["artifacts"]
  {
    assert ["artifacts", ""] == ["artifacts"] + [""];
    ResolveSkips(["artifacts"], "");
    ResolveOne("artifacts", false);
  }

  lemma PlainManifestPath(kind: string, id: string)
    requires PlainElement(kind) && PlainElement(id)
    ensures ManifestPath(DEFAULT_ROOT, kind, id) == "artifacts" + "/" + (kind + "/" + (id + "/" + MANIFEST))
  {
    hide Split, Resolve, ManifestPath, SlashFree;
    ManifestElements(DEFAULT_ROOT, kind, id);
    SplitDefaultRoot();
    SplitOfElement(kind);
    SplitOfElement(id);
    DefaultRootResolves();
    ResolveSnoc(["artifacts", ""], kind, false);
    ResolveSnoc(["artifacts", ""] + [kind], id, false);
    assert ["artifacts"] + [kind] + [id] + [MANIFEST] == ["artifacts", kind, id, MANIFEST];
    JoinedFour("artifacts", kind, id, MANIFEST);
  }

  lemma UnderArtifacts(rest: string)
    requires var p := "artifacts" + "/" + rest; Clean(p) == p && !HasDots(p) && Trimmed(p) && rest != ""
    ensures Normalize(DEFAULT_ROOT, "artifacts" + "/" + rest) == Ok("artifacts" + "/" + rest)
  {
    hide Clean, HasDots, Trim, CleanRoot;
    var p := "artifacts" + "/" + rest;
    DefaultCleanRoot();
    assert WithoutSlash("artifacts") == "artifacts";
    assert (p + "/")[..9] == "artifacts";
    assert p[0] == 'a';
  }

  lemma NoDotsInside()
    ensures !HasDots("artifacts") && !HasDots(MANIFEST) && !HasDots("canvas") && !HasDots("query")
  {
  }

  // ---------- A new project ----------

  /** A project without artifacts, with the default data file. */
  function NewArchive(manifest: Bytes, db: Bytes): seq<Entry> {
    [Entry(MANIFEST, manifest), Entry(DEFAULT_DATA, db)]
  }

  lemma PayloadsOfTwo(root: string, a: Entry, b: Entry)
    requires !Candidate(root, b.name)
    ensures Payloads(root, [a, b]) == if Candidate(root, a.name) then map[PathOf(root, a.name) := a.payload] else map[]
  {
    hide Candidate, PathOf;
    PayloadsSnoc(root, [], a);
    PayloadsSnoc(root, [a], b);
    assert [] + [a] == [a] && [a] + [b] == [a, b];
  }

  lemma NewArchiveIsEmpty(decode: Decoder, manifest: Bytes, db: Bytes)
    ensures var entries := NewArchive(manifest, db);
            Payloads(DEFAULT_ROOT, entries) == map[] && TidyNames(DEFAULT_ROOT, entries)
  {
    hide Candidate, PathOf, Payloads;
    DefaultsAreNoCandidates();
    PayloadsOfTwo(DEFAULT_ROOT, Entry(MANIFEST, manifest), Entry(DEFAULT_DATA, db));
  }

  // ---------- Two failing upserts ----------

  /** A current manifest with a kind and an id. */
  function Described(kind: string, id: string): Decoded {
    Json(Version(VERSION_1), id, kind, "", "", "")
  }

  lemma DescribedParses(kind: string, id: string)
    requires kind in KINDS && Trimmed(kind) && kind != "" && Trim(id) != ""
    ensures ParseSpec(Described(kind, id)) == Ok(Spec(id, kind, VERSION_1, "", ""))
  {
    hide TrimLeft, TrimRight;
    assert Trimmed(VERSION_1) && Trim(VERSION_1) == VERSION_1;
    assert VERSION_1 != VERSION_0;
  }

  const ESCAPING := "../../ artifacts"

  lemma EscapingPath()
    ensures ManifestPath(DEFAULT_ROOT, "canvas", ESCAPING) == " artifacts" + "/" + MANIFEST
  {
    hide Split, Resolve, ManifestPath, SlashFree;
    ManifestElements(DEFAULT_ROOT, "canvas", ESCAPING);
    SplitDefaultRoot();
    assert SlashFree("canvas") && SlashFree("..") && SlashFree(" artifacts") by { EscapingElements(); }
    SplitOfElement("canvas");
    assert ESCAPING == ".." + "/" + (".." + "/" + " artifacts");
    SplitAtSlash("..", ".." + "/" + " artifacts");
    SplitAtSlash("..", " artifacts");
    SplitOfElement("..");
    SplitOfElement(" artifacts");
    EscapingResolves();
    JoinedTwo(" artifacts", MANIFEST);
    assert [" artifacts"] + [MANIFEST] == [" artifacts", MANIFEST];
  }

  lemma EscapingElements()
    ensures SlashFree("canvas") && SlashFree("..") && SlashFree(" artifacts")
  {
  }

  lemma EscapingResolves()
    ensures Resolve(["artifacts", ""] + ["canvas"] + ([".."] + ([".."] + [" artifacts"])), false) == [" artifacts"]
  {
    hide Resolve;
    DefaultRootResolves();
    var up := ["artifacts", ""] + ["canvas"];
    ResolveSnoc(["artifacts", ""], "canvas", false);
    assert ["artifacts"] + ["canvas"] == ["artifacts"] + ["canvas"];
    ResolveUp(up, ["artifacts"], "canvas");
    assert [] + ["artifacts"] == ["artifacts"];
    ResolveUp(up + [".."], [], "artifacts");
    ResolveSnoc(up + [".."] + [".."], " artifacts", false);
    assert up + [".."] + [".."] + [" artifacts"] == up + ([".."] + ([".."] + [" artifacts"]));
  }

  lemma EscapingIsAccepted()
    ensures Normalize(DEFAULT_ROOT, " artifacts" + "/" + MANIFEST) == Ok("artifacts" + "/" + MANIFEST)
    ensures Trim(" artifacts" + "/" + MANIFEST) == "artifacts" + "/" + MANIFEST
  {
    hide Clean, HasDots, Trim, Normalize;
    TrimEnding(Some(" artifacts"));
    assert TrimLeft(" artifacts") == "artifacts" by {
      assert " artifacts"[1..] == "artifacts";
    }
    var p := "artifacts" + "/" + MANIFEST;
    EndingMeaning(Some("artifacts"));
    assert Trimmed(p);
    NoDotsInside();
    DotsSplit("artifacts", MANIFEST);
    PlainTwoClean();
    UnderArtifacts(MANIFEST);
    SameTrim(" artifacts" + "/" + MANIFEST, p);
  }

  lemma SameTrim(a: string, b: string)
    requires Trim(a) == b && Trimmed(b)
    ensures Normalize(DEFAULT_ROOT, a) == Normalize(DEFAULT_ROOT, b)
  {
    hide Clean, HasDots, Trim;
    assert Trim(b) == b;
  }

  lemma PlainTwoClean()
    ensures Clean("artifacts" + "/" + MANIFEST) == "artifacts" + "/" + MANIFEST
  {
    hide Split, Resolve;
    ManifestIsElement();
    SplitAtSlash("artifacts", MANIFEST);
    SplitOfElement("artifacts");
    SplitOfElement(MANIFEST);
    ResolveOne("artifacts", false);
    ResolveSnoc(["artifacts"], MANIFEST, false);
    assert ["artifacts"] + [MANIFEST] == ["artifacts", MANIFEST];
    JoinedTwo("artifacts", MANIFEST);
  }

  /**
    Counterexample, white space: a new project under the default root accepts an artifact
    whose id climbs out of the root. No id is in use, and yet the project no longer indexes.
   */
  lemma EscapingIdBreaksIndex(decode: Decoder, manifest: Bytes, db: Bytes, raw: Bytes)
    requires raw != "" && decode(raw) == Described("canvas", ESCAPING)
    ensures var entries := NewArchive(manifest, db);
            var path := " artifacts" + "/" + MANIFEST;
            && Target(decode, DEFAULT_ROOT, raw) == Ok(path)
            && Indexable(decode, DEFAULT_ROOT, Payloads(DEFAULT_ROOT, entries))
            && IdFree(decode, Payloads(DEFAULT_ROOT, entries), path, raw)
            && !Indexable(decode, DEFAULT_ROOT, Payloads(DEFAULT_ROOT, Upserted(entries, path, raw)))
  {
    hide Payloads, TidyNames, ParseSpec, Normalize, ManifestPath, Trim;
    NewArchiveIsEmpty(decode, manifest, db);
    assert Trim(ESCAPING) != "" by { assert Trimmed(ESCAPING); }
    DescribedParses("canvas", ESCAPING);
    EscapingPath();
    EscapingIsAccepted();
    UpsertKeepsIndexIff(decode, DEFAULT_ROOT, NewArchive(manifest, db), raw);
  }

  lemma SalesTarget(decode: Decoder, raw: Bytes, kind: string)
    requires raw != "" && decode(raw) == Described(kind, "sales") && (kind == "canvas" || kind == "query")
    ensures var path := "artifacts" + "/" + (kind + "/" + ("sales" + "/" + MANIFEST));
            Target(decode, DEFAULT_ROOT, raw) == Ok(path) && Trim(path) == path
    ensures SpecOf(decode, raw).id == "sales"
  {
    hide ParseSpec, Normalize, ManifestPath, Trim, HasDots, Clean, Base;
    DescribedParses(kind, "sales");
    PlainManifestPath(kind, "sales");
    var rest := kind + "/" + ("sales" + "/" + MANIFEST);
    var p := "artifacts" + "/" + rest;
    var above := ManifestPathEnds(DEFAULT_ROOT, kind, "sales");
    EndingMeaning(above);
    assert Trimmed(p);
    NoDotsInside();
    assert !HasDots("sales") by { NoDotsInSales(); }
    DotsSplit("artifacts", rest);
    DotsSplit(kind, "sales" + "/" + MANIFEST);
    DotsSplit("sales", MANIFEST);
    UnderArtifacts(rest);
  }

  lemma NoDotsInSales()
    ensures !HasDots("sales")
  {
  }

  // A new project after one artifact of id "sales" was put in.
  lemma OneSale(decode: Decoder, manifest: Bytes, db: Bytes, first: Bytes)
    requires first != "" && decode(first) == Described("canvas", "sales")
    ensures var path := "artifacts" + "/" + ("canvas" + "/" + ("sales" + "/" + MANIFEST));
            var one := UpsertOne(decode, DEFAULT_ROOT, NewArchive(manifest, db), first);
            && Payloads(DEFAULT_ROOT, one) == map[path := first] && TidyNames(DEFAULT_ROOT, one)
            && Indexable(decode, DEFAULT_ROOT, Payloads(DEFAULT_ROOT, one))
  {
    hide Payloads, TidyNames, Target, SpecOf, Indexable, Trim, Upserted, PathOf, Candidate, Admits, NewArchive;
    var entries := NewArchive(manifest, db);
    NewArchiveIsEmpty(decode, manifest, db);
    NothingIndexable(decode);
    SalesTarget(decode, first, "canvas");
    var a := Target(decode, DEFAULT_ROOT, first).value;
    TargetMeaning(decode, DEFAULT_ROOT, first);
    UpsertKeepsIndexIff(decode, DEFAULT_ROOT, entries, first);
    TidyAdmitsIff(decode, DEFAULT_ROOT, entries, a, first);
    UpsertKeepsTidy(DEFAULT_ROOT, entries, a, first);
    PayloadsOfUpserted(DEFAULT_ROOT, entries, a, first);
    NothingShadowed(DEFAULT_ROOT, entries, a);
  }

  /** Counterexample, shared id: after a canvas and a query of one id were put in, the project no longer indexes. */
  lemma SharedIdBreaksIndex(decode: Decoder, manifest: Bytes, db: Bytes, first: Bytes, second: Bytes)
    requires first != "" && decode(first) == Described("canvas", "sales")
    requires second != "" && decode(second) == Described("query", "sales")
    ensures var one := UpsertOne(decode, DEFAULT_ROOT, NewArchive(manifest, db), first);
            && Target(decode, DEFAULT_ROOT, second).Ok?
            && Trim(Target(decode, DEFAULT_ROOT, second).value) == Target(decode, DEFAULT_ROOT, second).value
            && Indexable(decode, DEFAULT_ROOT, Payloads(DEFAULT_ROOT, one))
            && !Indexable(decode, DEFAULT_ROOT, Payloads(DEFAULT_ROOT, UpsertOne(decode, DEFAULT_ROOT, one, second)))
  {
    hide Payloads, TidyNames, Target, SpecOf, Indexable, Trim, Upserted, PathOf, Candidate, Admits, NewArchive;
    OneSale(decode, manifest, db, first);
    SalesTarget(decode, first, "canvas");
    SalesTarget(decode, second, "query");
    var one := UpsertOne(decode, DEFAULT_ROOT, NewArchive(manifest, db), first);
    hide UpsertOne;
    var a, b := Target(decode, DEFAULT_ROOT, first).value, Target(decode, DEFAULT_ROOT, second).value;
    TargetMeaning(decode, DEFAULT_ROOT, second);
    UpsertKeepsIndexIff(decode, DEFAULT_ROOT, one, second);
    TidyAdmitsIff(decode, DEFAULT_ROOT, one, b, second);
    OneAccepted(decode, one, second);
    assert a != b by { assert a[10] == 'c' && b[10] == 'q'; }
    assert a in Payloads(DEFAULT_ROOT, one);
  }

  lemma OneAccepted(decode: Decoder, entries: seq<Entry>, raw: Bytes)
    requires Target(decode, DEFAULT_ROOT, raw).Ok?
    ensures UpsertOne(decode, DEFAULT_ROOT, entries, raw) == Upserted(entries, Target(decode, DEFAULT_ROOT, raw).value, raw)
  {
    hide Target, Upserted;
  }

  lemma NothingIndexable(decode: Decoder)
    ensures Indexable(decode, DEFAULT_ROOT, map[])
  {
  }

  // ---------- Roots under which the manifest looks like an artifact ----------

  predicate ProperPrefix(s: string, whole: string) {
    HasPrefix(whole, s) && s != whole
  }

  /** The manifest of the project looks like an artifact exactly when the cleaned root is a proper prefix of its name. */
  lemma ManifestIsCandidateIff(root: string)
    ensures Candidate(root, MANIFEST) <==> ProperPrefix(CleanRoot(root), MANIFEST)
  {
    hide Clean, Base, Trim, HasDots, CleanRoot;
    ManifestIsClean();
    NoDotsInside();
    var r := CleanRoot(root);
    PrefixWithSlash(r, MANIFEST);
  }

  lemma PrefixWithSlash(r: string, name: string)
    requires name != "" && name[|name| - 1] != '/'
    ensures HasPrefix(name + "/", r) && name != WithoutSlash(r) <==> ProperPrefix(r, name)
    ensures name == WithoutSlash(r) <==> r == name || r == name + "/"
  {
    var s := name + "/";
    if HasPrefix(s, r) {
      assert r == s[..|r|];
      if |r| <= |name| {
        assert s[..|r|] == name[..|r|];
      }
    }
    if ProperPrefix(r, name) {
      assert s[..|r|] == name[..|r|];
    }
  }

  lemma DataIsNoCandidate(root: string)
    ensures !Candidate(root, DEFAULT_DATA)
  {
    hide Clean, Base, Trim, HasDots, CleanRoot;
    ManifestIsClean();
  }

  /**
    A project without artifacts indexes again under a root exactly when the cleaned root is
    no proper prefix of manifest.json. The manifest of a project has neither a schema
    version nor an artifact type, so it is no artifact spec.
   */
  lemma NewProjectReindexesIff(decode: Decoder, root: string, manifest: Bytes, db: Bytes)
    requires root != "" && ParseSpec(decode(manifest)).Err?
    ensures Indexable(decode, root, Payloads(root, NewArchive(manifest, db))) <==> !ProperPrefix(CleanRoot(root), MANIFEST)
  {
    hide Normalize, ParseSpec, Base, CleanRoot, Payloads, PathOf;
    ManifestIsCandidateIff(root);
    DataIsNoCandidate(root);
    PayloadsOfTwo(root, Entry(MANIFEST, manifest), Entry(DEFAULT_DATA, db));
    if Candidate(root, MANIFEST) {
      var m := map[PathOf(root, MANIFEST) := manifest];
      assert PathOf(root, MANIFEST) in m && m[PathOf(root, MANIFEST)] == manifest;
    }
  }

  lemma PlainRoot(x: string)
    requires PlainElement(x) && Trimmed(x)
    ensures CleanRoot(x) == x
  {
    hide Split, Resolve, Trim;
    assert Trim(x) == x;
    assert x[|x| - 1] in x;
    assert !HasSuffix(x, "/");
    assert x + "/" == x + "/" + "";
    SplitAtSlash(x, "");
    SplitOfElement(x);
    SplitOfElement("");
    ResolveSkips([x], "");
    ResolveOne(x, false);
    assert !Rooted(x + "/") by { assert x[0] in x; }
  }

  lemma DotRoot()
    ensures CleanRoot(".") == ""
  {
    hide Split, Resolve, Trim;
    assert "." + "/" + "" == "." + "/";
    assert SlashFree(".") && SlashFree("");
    assert Trimmed(".") && Trim(".") == ".";
    SplitAtSlash(".", "");
    SplitOfElement(".");
    SplitOfElement("");
    ResolveSkips(["."], "");
    DotResolves();
  }

  lemma DotResolves()
    ensures Resolve(["."], false) == []
  {
    ResolveSkips([], ".");
    assert [] + ["."] == ["."];
  }

  /** Counterexamples: a new project under the root "." or "m" cannot be indexed. */
  lemma SomeRootsIndexManifest(decode: Decoder, manifest: Bytes, db: Bytes)
    requires ParseSpec(decode(manifest)).Err?
    ensures !Indexable(decode, ".", Payloads(".", NewArchive(manifest, db)))
    ensures !Indexable(decode, "m", Payloads("m", NewArchive(manifest, db)))
  {
    hide ParseSpec, Indexable, Payloads, CleanRoot;
    NewProjectReindexesIff(decode, ".", manifest, db);
    NewProjectReindexesIff(decode, "m", manifest, db);
    DotRoot();
    assert PlainElement("m");
    PlainRoot("m");
    assert HasPrefix(MANIFEST, "") && HasPrefix(MANIFEST, "m");
  }

  // ---------- A root under which payloads are mixed up ----------

  const SPACED := " canvas" + "/" + ("a" + "/" + MANIFEST)
  const UNSPACED := "canvas" + "/" + ("a" + "/" + MANIFEST)
  const DOTTED := "." + "/" + SPACED

  lemma JoinedThree(b: string, c: string, d: string)
    ensures Joined([b, c, d]) == b + "/" + (c + "/" + d)
  {
    assert [b, c, d][1..] == [c, d];
    JoinedTwo(c, d);
  }

  lemma TwoManifestPaths()
    ensures ManifestPath(".", " canvas", "a") == SPACED && ManifestPath(".", "canvas", "./a") == UNSPACED
  {
    hide Split, Resolve, ManifestPath;
    assert PlainElement(" canvas") && PlainElement("canvas") && PlainElement("a") && SlashFree(".");
    ManifestElements(".", " canvas", "a");
    ManifestElements(".", "canvas", "./a");
    assert "./a" == "." + "/" + "a";
    SplitAtSlash(".", "a");
    SplitOfElement(".");
    SplitOfElement("a");
    SplitOfElement(" canvas");
    SplitOfElement("canvas");
    DotResolves();
    ResolveSnoc(["."], " canvas", false);
    ResolveSnoc(["."] + [" canvas"], "a", false);
    ResolveSnoc(["."], "canvas", false);
    ResolveSkips(["."] + ["canvas"], ".");
    ResolveSnoc(["."] + ["canvas"] + ["."], "a", false);
    assert ["."] + ["canvas"] + (["."] + ["a"]) == ["."] + ["canvas"] + ["."] + ["a"];
    assert [] + [" canvas"] + ["a"] + [MANIFEST] == [" canvas", "a", MANIFEST];
    assert [] + ["canvas"] + ["a"] + [MANIFEST] == ["canvas", "a", MANIFEST];
    JoinedThree(" canvas", "a", MANIFEST);
    JoinedThree("canvas", "a", MANIFEST);
  }

  lemma UnderDot(p: string)
    requires Trimmed(p) && p != "" && p[0] != '/' && !HasDots(p) && Clean(p) != ""
    ensures Normalize(".", p) == Ok(Clean(p))
  {
    hide Clean, HasDots, Trim, CleanRoot;
    DotRoot();
  }

  lemma CleanDotted()
    ensures Clean(DOTTED) == SPACED && Clean(UNSPACED) == UNSPACED
  {
    hide Clean, ManifestPath;
    TwoManifestPaths();
    DottedIsJoined();
    var _ := ManifestPathEnds(".", " canvas", "a");
    var _ := ManifestPathEnds(".", "canvas", "./a");
  }

  lemma DottedIsJoined()
    ensures Clean(DOTTED) == ManifestPath(".", " canvas", "a")
  {
    hide Clean;
    NonEmptyFour(".", " canvas", "a");
    JoinedFour(".", " canvas", "a", MANIFEST);
    CleanIdempotent(DOTTED);
  }

  lemma NoDotsThere()
    ensures !HasDots(DOTTED) && !HasDots(UNSPACED)
  {
    hide HasDots;
    NoDotsInside();
    assert !HasDots("a") && !HasDots(".") && !HasDots(" canvas") by { NoDotsInShort(); }
    DotsSplit("a", MANIFEST);
    DotsSplit("canvas", "a" + "/" + MANIFEST);
    DotsSplit(" canvas", "a" + "/" + MANIFEST);
    DotsSplit(".", SPACED);
  }

  lemma NoDotsInShort()
    ensures !HasDots("a") && !HasDots(".") && !HasDots(" canvas")
  {
  }

  lemma TrimSpaced()
    ensures Trim(SPACED) == UNSPACED && Trim(UNSPACED) == UNSPACED && Trim(DOTTED) == DOTTED
  {
    hide Trim;
    EndingMeaning(Some(" canvas" + "/" + "a"));
    EndingMeaning(Some("canvas" + "/" + "a"));
    assert SPACED == Ending(Some(" canvas" + "/" + "a")) && UNSPACED == Ending(Some("canvas" + "/" + "a"));
    TrimEnding(Some(" canvas" + "/" + "a"));
    assert (" canvas" + "/" + "a")[1..] == "canvas" + "/" + "a";
    assert TrimLeft(" canvas" + "/" + "a") == "canvas" + "/" + "a";
    assert Trimmed(UNSPACED) && Trimmed(DOTTED);
  }

  lemma PathsUnderDot()
    ensures Normalize(".", DOTTED) == Ok(SPACED) && Normalize(".", SPACED) == Ok(UNSPACED)
  {
    hide Clean, Trim, HasDots, Normalize;
    CleanDotted();
    NoDotsThere();
    TrimSpaced();
    assert Trimmed(UNSPACED) && Trimmed(DOTTED);
    UnderDot(DOTTED);
    UnderDot(UNSPACED);
    SameUnderDot(SPACED, UNSPACED);
  }

  lemma SameUnderDot(a: string, b: string)
    requires Trim(a) == b && Trim(b) == b
    ensures Normalize(".", a) == Normalize(".", b)
  {
    hide Clean, HasDots, Trim, CleanRoot;
  }

  lemma SpacedKindParses()
    ensures ParseSpec(Described(" canvas", "a")) == Ok(Spec("a", " canvas", VERSION_1, "", ""))
    ensures ParseSpec(Described("canvas", "./a")) == Ok(Spec("./a", "canvas", VERSION_1, "", ""))
  {
    assert Trimmed(VERSION_1) && Trim(VERSION_1) == VERSION_1;
    assert VERSION_1 != VERSION_0;
    assert " canvas"[1..] == "canvas";
    assert Trim(" canvas") == "canvas" && Trim("canvas") == "canvas" && Trim("a") == "a" && Trim("./a") == "./a";
  }

  /**
    Counterexample: under the root "." there are two artifacts that can be indexed, and
    yet Create writes at the path of one the payload of the other.
   */
  lemma DotRootMixesPayloads(decode: Decoder, one: Bytes, two: Bytes)
    requires decode(one) == Described(" canvas", "a") && decode(two) == Described("canvas", "./a")
    ensures var artifacts := map[DOTTED := one, SPACED := two];
            Indexable(decode, ".", artifacts) && !Steady(".", artifacts)
  {
    hide Normalize, ParseSpec, ManifestPath;
    PathsUnderDot();
    TwoManifestPaths();
    SpacedKindParses();
    assert DOTTED[0] == '.' && SPACED[0] == ' ' && UNSPACED[0] == 'c';
    assert "a"[0] != "./a"[0];
    var artifacts := map[DOTTED := one, SPACED := two];
    assert PathOf(".", DOTTED) == SPACED && SPACED in artifacts && artifacts[SPACED] == two;
    assert one != two;
  }

  // ---------- A root under which an artifact is lost ----------

  const SPACED_ROOT := "./ x"
  const SPACED_NAME := SPACED_ROOT + "/" + ("canvas" + "/" + ("a" + "/" + MANIFEST))
  const SPACED_PATH := " x" + "/" + ("canvas" + "/" + ("a" + "/" + MANIFEST))

  lemma SpacedRootResolves()
    ensures Split(SPACED_ROOT) == ["."] + [" x"] && Resolve(["."] + [" x"], false) == [" x"]
  {
    hide Split, Resolve;
    assert PlainElement(" x") && SlashFree(".");
    assert SPACED_ROOT == "." + "/" + " x";
    SplitAtSlash(".", " x");
    SplitOfElement(".");
    SplitOfElement(" x");
    DotResolves();
    ResolveSnoc(["."], " x", false);
    assert [] + [" x"] == [" x"];
  }

  lemma SpacedCleanRoot()
    ensures CleanRoot(SPACED_ROOT) == " x"
  {
    hide Split, Resolve, Trim;
    SpacedRootResolves();
    assert Trimmed(SPACED_ROOT);
    assert SPACED_ROOT + "/" == SPACED_ROOT + "/" + "";
    SplitAtSlash(SPACED_ROOT, "");
    assert SlashFree("");
    SplitOfElement("");
    ResolveSkips(["."] + [" x"], "");
  }

  lemma SpacedManifestPath()
    ensures ManifestPath(SPACED_ROOT, "canvas", "a") == SPACED_PATH && Clean(SPACED_NAME) == SPACED_PATH
  {
    hide Split, Resolve, Clean, NonEmpty;
    assert PlainElement("canvas") && PlainElement("a");
    SpacedRootResolves();
    ManifestElements(SPACED_ROOT, "canvas", "a");
    SplitOfElement("canvas");
    SplitOfElement("a");
    ResolveSnoc(["."] + [" x"], "canvas", false);
    ResolveSnoc(["."] + [" x"] + ["canvas"], "a", false);
    assert [" x"] + ["canvas"] + ["a"] + [MANIFEST] == [" x", "canvas", "a", MANIFEST];
    JoinedFour(" x", "canvas", "a", MANIFEST);
    NonEmptyFour(SPACED_ROOT, "canvas", "a");
    JoinedFour(SPACED_ROOT, "canvas", "a", MANIFEST);
    CleanIdempotent(SPACED_NAME);
  }

  lemma SpacedNameAccepted()
    ensures Normalize(SPACED_ROOT, SPACED_NAME) == Ok(SPACED_PATH)
  {
    hide Clean, HasDots, Trim, CleanRoot, ManifestPath;
    SpacedManifestPath();
    SpacedCleanRoot();
    NoDotsInside();
    assert !HasDots("a") && !HasDots(SPACED_ROOT) by { NoDotsInSpaced(); }
    DotsSplit("a", MANIFEST);
    DotsSplit("canvas", "a" + "/" + MANIFEST);
    DotsSplit(SPACED_ROOT, "canvas" + "/" + ("a" + "/" + MANIFEST));
    var above := Some(SPACED_ROOT + "/" + ("canvas" + "/" + "a"));
    assert SPACED_NAME == Ending(above);
    EndingMeaning(above);
    assert Trimmed(SPACED_NAME);
    assert (SPACED_PATH + "/")[..2] == " x";
    assert WithoutSlash(" x") == " x";
  }

  lemma NoDotsInSpaced()
    ensures !HasDots("a") && !HasDots(SPACED_ROOT)
  {
  }

  /**
    Counterexample: under the root "./ x" an artifact can be written whose path starts with
    white space, and so the archive does not index to the same again.
   */
  lemma SpacedRootLosesArtifact(decode: Decoder, raw: Bytes)
    requires decode(raw) == Described("canvas", "a")
    ensures var artifacts := map[SPACED_NAME := raw];
            && Indexable(decode, SPACED_ROOT, artifacts)
            && !Candidate(SPACED_ROOT, MANIFEST) && !Candidate(SPACED_ROOT, DEFAULT_DATA)
            && !TidyPaths(SPACED_ROOT, artifacts)
  {
    hide Normalize, ParseSpec, ManifestPath, CleanRoot, Candidate;
    SpacedNameAccepted();
    SpacedManifestPath();
    assert Trim("a") != "" by { assert Trimmed("a"); }
    assert Trimmed("canvas");
    DescribedParses("canvas", "a");
    SpacedCleanRoot();
    ManifestIsCandidateIff(SPACED_ROOT);
    assert !HasPrefix(MANIFEST, " x") by { assert MANIFEST[..2][0] == 'm'; }
    DataIsNoCandidate(SPACED_ROOT);
    assert !Trimmed(SPACED_PATH) by { assert SPACED_PATH[0] == ' '; }
    var artifacts := map[SPACED_NAME := raw];
    assert SPACED_NAME in artifacts && PathOf(SPACED_ROOT, SPACED_NAME) == SPACED_PATH;
  }
}
