/**
  What cleaning a path does, as laws: doubled slashes, "." and an element with the ".."
  behind it can go, a path without any of these is left alone.
 */
module PathLaws {
  import opened Results
  import opened Text
  import opened Paths
  import opened Archive
  import opened ArchiveLaws

  // What one more element makes of the elements that remain.
  function WithElement(init: seq<string>, x: string, rooted: bool): seq<string> {
    if x == "" || x == "." then init
    else if x != ".." then init + [x]
    else if init != [] && init[|init| - 1] != ".." then init[..|init| - 1]
    else if rooted then init
    else init + [x]
  }

  lemma ResolveOneMore(parts: seq<string>, x: string, rooted: bool)
    ensures Resolve(parts + [x], rooted) == WithElement(Resolve(parts, rooted), x, rooted)
  {
    assert (parts + [x])[..|parts|] == parts;
  }

  lemma {:induction false} SameBehind(p: seq<string>, q: seq<string>, rest: seq<string>, rooted: bool)
    requires Resolve(p, rooted) == Resolve(q, rooted)
    ensures Resolve(p + rest, rooted) == Resolve(q + rest, rooted)
    decreases |rest|
  {
    hide Resolve, WithElement;
    if rest == [] {
      assert p + rest == p && q + rest == q;
    } else {
      var n := |rest| - 1;
      SameBehind(p, q, rest[..n], rooted);
      assert p + rest == p + rest[..n] + [rest[n]] && q + rest == q + rest[..n] + [rest[n]];
      ResolveOneMore(p + rest[..n], rest[n], rooted);
      ResolveOneMore(q + rest[..n], rest[n], rooted);
    }
  }

  lemma SkippedElement(p: seq<string>, x: string, rooted: bool)
    requires x == "" || x == "."
    ensures Resolve(p + [x], rooted) == Resolve(p, rooted)
  {
    assert (p + [x])[..|p|] == p;
  }

  lemma UndoneElement(p: seq<string>, x: string, rooted: bool)
    requires x != "" && x != "." && x != ".."
    ensures Resolve(p + [x] + [".."], rooted) == Resolve(p, rooted)
  {
    ResolveSnoc(p, x, rooted);
    assert (p + [x] + [".."])[..|p| + 1] == p + [x];
    var r := Resolve(p, rooted);
    assert (r + [x])[..|r|] == r;
  }

  // Two paths with the same beginning and elements that resolve alike are cleaned alike.
  lemma SameElementsSameClean(s: string, t: string, p: seq<string>, q: seq<string>, rest: seq<string>)
    requires Split(s) == p + rest && Split(t) == q + rest && Rooted(s) == Rooted(t)
    requires Resolve(p, Rooted(s)) == Resolve(q, Rooted(s))
    ensures Clean(s) == Clean(t)
  {
    hide Split, Resolve;
    SameBehind(p, q, rest, Rooted(s));
  }

  /** Doubled slashes, "." elements, and elements with a ".." behind them make no difference. */
  lemma CleanDrops(a: string, x: string, b: string)
    requires a != "" && SlashFree(x) && x != "" && x != "." && x != ".."
    ensures Clean(a + "/" + ("" + "/" + b)) == Clean(a + "/" + b)
    ensures Clean(a + "/" + ("." + "/" + b)) == Clean(a + "/" + b)
    ensures Clean(a + "/" + (x + "/" + (".." + "/" + b))) == Clean(a + "/" + b)
  {
    hide Split, Resolve, Rendered, SlashFree;
    assert SlashFree("") && SlashFree(".") && SlashFree("..") by { SlashFreeOnes(); }
    SplitOfElement("");
    SplitOfElement(".");
    SplitOfElement("..");
    SplitOfElement(x);
    SplitAtSlash(a, b);
    SplitAtSlash("", b);
    SplitAtSlash(".", b);
    SplitAtSlash("..", b);
    SplitAtSlash(x, ".." + "/" + b);
    SplitAtSlash(a, "" + "/" + b);
    SplitAtSlash(a, "." + "/" + b);
    SplitAtSlash(a, x + "/" + (".." + "/" + b));
    var p, r := Split(a), Rooted(a);
    SkippedElement(p, "", r);
    SkippedElement(p, ".", r);
    UndoneElement(p, x, r);
    assert p + ([""] + Split(b)) == p + [""] + Split(b);
    assert p + (["."] + Split(b)) == p + ["."] + Split(b);
    assert p + ([x] + ([".."] + Split(b))) == p + [x] + [".."] + Split(b);
    SameElementsSameClean(a + "/" + ("" + "/" + b), a + "/" + b, p + [""], p, Split(b));
    SameElementsSameClean(a + "/" + ("." + "/" + b), a + "/" + b, p + ["."], p, Split(b));
    SameElementsSameClean(a + "/" + (x + "/" + (".." + "/" + b)), a + "/" + b, p + [x] + [".."], p, Split(b));
  }

  lemma SlashFreeOnes()
    ensures SlashFree("") && SlashFree(".") && SlashFree("..")
  {
  }

  /** A path of proper elements, with ".." only in front of a relative one, is clean already. */
  lemma CleanLeavesAlone(parts: seq<string>, rooted: bool)
    requires Resolved(parts, rooted) && parts != []
    ensures Clean(Joined(parts)) == Joined(parts) || rooted
    ensures rooted ==> Clean("/" + Joined(parts)) == "/" + Joined(parts)
  {
    hide Split, Resolve, Joined, Resolved;
    RenderedResolves(parts, rooted);
  }

  /** Nothing is the current directory, and above the root there is nothing. */
  lemma CleanEnds(rest: string)
    ensures Clean("") == "."
    ensures Clean("/" + (".." + "/" + rest)) == Clean("/" + rest)
  {
    hide Split, Resolve, Joined;
    SlashFreeOnes();
    SplitOfElement("");
    assert Resolve([""], false) == [] by { OnlyNothing(false); }
    SlashInFront(".." + "/" + rest);
    SlashInFront(rest);
    SplitAtSlash("..", rest);
    SplitOfElement("..");
    var s, t := "/" + (".." + "/" + rest), "/" + rest;
    assert Resolve([""] + [".."], true) == Resolve([""], true) by { AboveRoot(); }
    assert [""] + ([".."] + Split(rest)) == [""] + [".."] + Split(rest);
    SameElementsSameClean(s, t, [""] + [".."], [""], Split(rest));
  }

  lemma OnlyNothing(rooted: bool)
    ensures Resolve([""], rooted) == []
  {
    assert [""][..0] == [];
  }

  lemma AboveRoot()
    ensures Resolve([""] + [".."], true) == Resolve([""], true)
  {
    OnlyNothing(true);
    assert ([""] + [".."])[..1] == [""];
  }

  // ---------- Paths in an archive ----------

  /**
    Under the default root a name is accepted exactly when, trimmed, it is not empty, not
    absolute and without "..", and its clean form goes on after "artifacts"; that form is
    its canonical path.
   */
  lemma DefaultRootAccepts(raw: string)
    ensures Normalize(DEFAULT_ROOT, raw).Ok? <==>
              && Trim(raw) != "" && !HasDots(Trim(raw)) && Trim(raw)[0] != '/'
              && HasPrefix(Clean(Trim(raw)), "artifacts") && Clean(Trim(raw)) != "artifacts"
    ensures Normalize(DEFAULT_ROOT, raw).Ok? ==> Normalize(DEFAULT_ROOT, raw).value == Clean(Trim(raw))
  {
    hide Clean, Trim, HasDots, CleanRoot;
    DefaultCleanRoot();
    assert WithoutSlash("artifacts") == "artifacts";
    PrefixOfSlashed(Clean(Trim(raw)));
  }

  lemma PrefixOfSlashed(c: string)
    ensures HasPrefix(c + "/", "artifacts") <==> HasPrefix(c, "artifacts")
  {
    var s := c + "/";
    if |c| >= 9 {
      assert s[..9] == c[..9];
    } else if |c| == 8 {
      DifferAt(s, "artifacts", 8);
    }
  }

  lemma DifferAt(s: string, prefix: string, i: nat)
    requires i < |prefix| && i < |s| && s[i] != prefix[i]
    ensures !HasPrefix(s, prefix)
  {
    if |prefix| <= |s| {
      assert s[..|prefix|][i] == s[i];
    }
  }

  // ---------- Manifests of artifacts ----------

  predicate KnownKind(kind: string) {
    var k := Trim(kind);
    k == "canvas" || k == "query" || k == "chart" || k == "report" || k == "procedure" || k == "vector_operation"
  }

  /**
    A manifest is accepted exactly when it is JSON with an id and a known kind, which an
    old or unversioned one names as its artifact type, under a known version. An old one
    is moved to the current version, its kind trimmed; a current one is taken as it is.
   */
  lemma ParseSpecMeaning(d: Decoded)
    ensures ParseSpec(d).Ok? <==>
              && d.Json? && !d.schemaVersion.NotText? && Trim(d.id) != ""
              && (if d.schemaVersion.Absent? || Trim(d.schemaVersion.text) == "" || Trim(d.schemaVersion.text) == "0.9.0"
                  then KnownKind(d.artifactType)
                  else Trim(d.schemaVersion.text) == "1.0.0" && KnownKind(d.kind))
    ensures ParseSpec(d).Ok? ==>
              ParseSpec(d).value ==
                if d.schemaVersion.Absent? || Trim(d.schemaVersion.text) == "" || Trim(d.schemaVersion.text) == "0.9.0"
                then Spec(d.id, Trim(d.artifactType), "1.0.0", d.title, d.description)
                else Spec(d.id, d.kind, d.schemaVersion.text, d.title, d.description)
  {
    hide TrimLeft, TrimRight;
    assert Trimmed("1.0.0") && Trim("1.0.0") == "1.0.0";
    assert VERSION_1[0] != VERSION_0[0];
    if d.Json? && d.artifactType != "" {
      TrimTwice(d.artifactType);
    }
  }

  lemma TrimTwice(s: string)
    ensures Trim(Trim(s)) == Trim(s)
  {
  }
}
