/** Slash-separated paths: path.Clean, path.Join and path.Base on their elements. */
module Paths {
  import opened Text

  predicate SlashFree(s: string) {
    '/' !in s
  }

  /** The elements between slashes; empty ones included. */
  function Split(s: string): (parts: seq<string>)
    ensures |parts| >= 1
    ensures forall i :: 0 <= i < |parts| ==> SlashFree(parts[i])
  {
    if s == "" then [""]
    else
      var rest := Split(s[1..]);
      if s[0] == '/' then [""] + rest else [[s[0]] + rest[0]] + rest[1..]
  }

  function Joined(parts: seq<string>): string {
    if parts == [] then ""
    else if |parts| == 1 then parts[0]
    else parts[0] + "/" + Joined(parts[1..])
  }

  /** The elements that remain: empty and "." go, ".." takes back the one before it where there is one. */
  function Resolve(parts: seq<string>, rooted: bool): seq<string> {
    if parts == [] then []
    else
      var init, x := Resolve(parts[..|parts| - 1], rooted), parts[|parts| - 1];
      if x == "" || x == "." then init
      else if x != ".." then init + [x]
      else if init != [] && init[|init| - 1] != ".." then init[..|init| - 1]
      else if rooted then init
      else init + [x]
  }

  predicate Rooted(s: string) {
    s != "" && s[0] == '/'
  }

  function Rendered(parts: seq<string>, rooted: bool): string {
    if rooted then "/" + Joined(parts) else if parts == [] then "." else Joined(parts)
  }

  /** path.Clean */
  function Clean(s: string): string {
    Rendered(Resolve(Split(s), Rooted(s)), Rooted(s))
  }

  /** path.Join, for elements none of which is empty. */
  function Join(parts: seq<string>): string {
    Clean(Joined(parts))
  }

  /** path.Base of a cleaned path that is neither "." nor "/": its last element. */
  function Base(s: string): string {
    var parts := Split(s);
    parts[|parts| - 1]
  }

  // ---------- Splitting and joining ----------

  lemma {:induction false} SplitAtSlash(a: string, b: string)
    ensures Split(a + "/" + b) == Split(a) + Split(b)
  {
    var s := a + "/" + b;
    if a == "" {
      assert s[1..] == b;
    } else {
      assert s[1..] == a[1..] + "/" + b;
      SplitAtSlash(a[1..], b);
    }
  }

  lemma {:induction false} SplitOfElement(w: string)
    requires SlashFree(w)
    ensures Split(w) == [w]
  {
    if w != "" {
      assert w[0] in w;
      SplitOfElement(w[1..]);
      assert w == [w[0]] + w[1..];
    }
  }

  lemma {:induction false} SplitOfJoined(parts: seq<string>)
    requires parts != [] && forall i :: 0 <= i < |parts| ==> SlashFree(parts[i])
    ensures Split(Joined(parts)) == parts
  {
    hide Split, SlashFree;
    SplitOfElement(parts[0]);
    if |parts| > 1 {
      SplitAtSlash(parts[0], Joined(parts[1..]));
      SplitOfJoined(parts[1..]);
    }
  }

  lemma {:induction false} JoinedSnoc(parts: seq<string>, x: string)
    requires parts != []
    ensures Joined(parts + [x]) == Joined(parts) + "/" + x
  {
    var all := parts + [x];
    if |parts| == 1 {
      assert all[1..] == [x];
    } else {
      assert all[1..] == parts[1..] + [x];
      JoinedSnoc(parts[1..], x);
    }
  }

  lemma {:induction false} JoinedSplit(s: string)
    ensures Joined(Split(s)) == s
  {
    if s != "" {
      JoinedSplit(s[1..]);
      var rest := Split(s[1..]);
      if s[0] == '/' {
        assert ([""] + rest)[1..] == rest;
      } else {
        assert ([[s[0]] + rest[0]] + rest[1..])[1..] == rest[1..];
      }
      assert s == [s[0]] + s[1..];
    }
  }

  // ---------- Cleaning ----------

  lemma ResolveSnoc(parts: seq<string>, x: string, rooted: bool)
    requires x != "" && x != "." && x != ".."
    ensures Resolve(parts + [x], rooted) == Resolve(parts, rooted) + [x]
  {
    assert (parts + [x])[..|parts|] == parts;
  }

  lemma ResolveOne(x: string, rooted: bool)
    requires x != "" && x != "." && x != ".."
    ensures Resolve([x], rooted) == [x]
  {
    assert [x][..0] == [];
  }

  /** What cleaning leaves: proper elements, with ".." only in front, and there only in a relative path. */
  predicate Resolved(parts: seq<string>, rooted: bool) {
    && (forall i :: 0 <= i < |parts| ==> SlashFree(parts[i]) && parts[i] != "" && parts[i] != ".")
    && (forall i, j :: 0 <= i < j < |parts| && parts[j] == ".." ==> parts[i] == "..")
    && (forall i :: 0 <= i < |parts| && parts[i] == ".." ==> !rooted)
  }

  lemma {:induction false} ResolveGivesResolved(parts: seq<string>, rooted: bool)
    requires forall i :: 0 <= i < |parts| ==> SlashFree(parts[i])
    ensures Resolved(Resolve(parts, rooted), rooted)
  {
    hide SlashFree;
    if parts != [] {
      ResolveGivesResolved(parts[..|parts| - 1], rooted);
    }
  }

  lemma {:induction false} ResolveOfResolved(parts: seq<string>, rooted: bool)
    requires Resolved(parts, rooted)
    ensures Resolve(parts, rooted) == parts
  {
    hide SlashFree;
    if parts != [] {
      ResolveOfResolved(parts[..|parts| - 1], rooted);
    }
  }

  lemma {:induction false} ResolveDropsEmpty(parts: seq<string>, rooted: bool)
    ensures Resolve([""] + parts, rooted) == Resolve(parts, rooted)
  {
    if parts == [] {
      assert [""] + parts == [""];
    } else {
      var n := |parts|;
      ResolveDropsEmpty(parts[..n - 1], rooted);
      assert ([""] + parts)[..n] == [""] + parts[..n - 1];
    }
  }

  lemma JoinedStart(parts: seq<string>)
    requires parts != [] && parts[0] != "" && SlashFree(parts[0])
    ensures Joined(parts) != "" && Joined(parts)[0] == parts[0][0] && !Rooted(Joined(parts))
  {
    assert parts[0][0] in parts[0];
  }

  /** The elements of a rendered path resolve to the elements it was rendered from. */
  lemma RenderedResolves(parts: seq<string>, rooted: bool)
    requires Resolved(parts, rooted)
    ensures Rooted(Rendered(parts, rooted)) == rooted
    ensures Resolve(Split(Rendered(parts, rooted)), rooted) == parts
  {
    hide Split, Resolve, SlashFree, Joined;
    if parts == [] {
      RenderedEmpty(rooted);
    } else {
      SplitOfJoined(parts);
      ResolveOfResolved(parts, rooted);
      JoinedStart(parts);
      if rooted {
        SlashInFront(Joined(parts));
        ResolveDropsEmpty(parts, rooted);
      }
    }
  }

  lemma RenderedEmpty(rooted: bool)
    ensures Rooted(Rendered([], rooted)) == rooted
    ensures Resolve(Split(Rendered([], rooted)), rooted) == []
  {
    assert Split("") == [""];
    if rooted {
      assert "/" + Joined([]) == "/";
      assert "/"[1..] == "";
      assert Split("/") == ["", ""];
      assert ["", ""][..1] == [""] && [""][..0] == [];
      assert Resolve([""], rooted) == [];
    } else {
      assert SlashFree(".");
      SplitOfElement(".");
    }
  }

  lemma SlashInFront(s: string)
    ensures Split("/" + s) == [""] + Split(s)
  {
    assert ("/" + s)[1..] == s;
  }

  /** Cleaning twice is cleaning once. */
  lemma CleanIdempotent(s: string)
    ensures Clean(Clean(s)) == Clean(s)
  {
    hide Split, Resolve, Resolved, Joined;
    var parts := Resolve(Split(s), Rooted(s));
    ResolveGivesResolved(Split(s), Rooted(s));
    RenderedResolves(parts, Rooted(s));
  }

  // ---------- Cleaning never lengthens ----------

  // The length of the joined elements, counting a slash after each.
  function Extent(parts: seq<string>): nat {
    if parts == [] then 0 else Extent(parts[..|parts| - 1]) + |parts[|parts| - 1]| + 1
  }

  lemma {:induction false} ExtentOfJoined(parts: seq<string>)
    requires parts != []
    ensures |Joined(parts)| + 1 == Extent(parts)
    decreases |parts|
  {
    var n := |parts| - 1;
    assert parts == parts[..n] + [parts[n]];
    if n == 0 {
      assert Extent(parts[..0]) == 0;
    } else {
      ExtentOfJoined(parts[..n]);
      JoinedSnoc(parts[..n], parts[n]);
    }
  }

  lemma {:induction false} ExtentOfResolved(parts: seq<string>, rooted: bool)
    ensures Extent(Resolve(parts, rooted)) <= Extent(parts)
  {
    if parts != [] {
      var init, x := Resolve(parts[..|parts| - 1], rooted), parts[|parts| - 1];
      ExtentOfResolved(parts[..|parts| - 1], rooted);
      assert (init + [x])[..|init|] == init;
    }
  }

  /** A cleaned path is no longer than the path. */
  lemma CleanShortens(s: string)
    requires s != ""
    ensures |Clean(s)| <= |s|
  {
    hide Split, Resolve, Joined, Extent;
    var rest := if Rooted(s) then s[1..] else s;
    var parts := Resolve(Split(rest), Rooted(s));
    if Rooted(s) {
      assert s == "/" + rest;
      SlashInFront(rest);
      ResolveDropsEmpty(Split(rest), true);
    }
    JoinedSplit(rest);
    ExtentOfJoined(Split(rest));
    ExtentOfResolved(Split(rest), Rooted(s));
    if parts == [] {
      assert Joined([]) == "" by { NothingJoined(); }
    } else {
      ExtentOfJoined(parts);
    }
  }

  lemma NothingJoined()
    ensures Joined([]) == ""
  {
  }

  lemma CleanKeepsRooted(s: string)
    ensures Rooted(Clean(s)) == Rooted(s)
  {
    hide Split, Resolve, Resolved, Joined;
    ResolveGivesResolved(Split(s), Rooted(s));
    RenderedResolves(Resolve(Split(s), Rooted(s)), Rooted(s));
  }

  // ---------- Two dots ----------

  /** strings.Contains(s, "..") */
  predicate HasDots(s: string) {
    exists i :: 0 <= i < |s| - 1 && s[i] == '.' && s[i + 1] == '.'
  }

  lemma DotsSplit(a: string, b: string)
    ensures HasDots(a + "/" + b) <==> HasDots(a) || HasDots(b)
  {
    var s := a + "/" + b;
    if i :| 0 <= i < |a| - 1 && a[i] == '.' && a[i + 1] == '.' {
      assert s[i] == '.' && s[i + 1] == '.';
    }
    if i :| 0 <= i < |b| - 1 && b[i] == '.' && b[i + 1] == '.' {
      assert s[|a| + 1 + i] == '.' && s[|a| + 1 + i + 1] == '.';
    }
    if i :| 0 <= i < |s| - 1 && s[i] == '.' && s[i + 1] == '.' {
      assert s[|a|] == '/';
      if i < |a| {
        assert a[i] == '.' && a[i + 1] == '.';
      } else {
        assert b[i - |a| - 1] == '.' && b[i - |a|] == '.';
      }
    }
  }

  // A path has two dots in a row exactly when one of its elements has.
  lemma {:induction false} DotsInElements(s: string)
    ensures HasDots(s) <==> exists i :: 0 <= i < |Split(s)| && HasDots(Split(s)[i])
    decreases |s|
  {
    var k := SlashAt(s);
    if k == |s| {
      NoSlash(s, k);
      SplitOfElement(s);
      assert Split(s)[0] == s;
    } else {
      var a, b := s[..k], s[k + 1..];
      NoSlash(s, k);
      assert s == a + "/" + b;
      DotsSplit(a, b);
      SplitAtSlash(a, b);
      SplitOfElement(a);
      DotsInElements(b);
      assert Split(s) == [a] + Split(b);
      assert Split(s)[0] == a;
      if i :| 0 <= i < |Split(b)| && HasDots(Split(b)[i]) {
        assert Split(s)[i + 1] == Split(b)[i];
      }
      if i :| 0 <= i < |Split(s)| && HasDots(Split(s)[i]) {
        assert i == 0 || Split(s)[i] == Split(b)[i - 1];
      }
    }
  }

  function SlashAt(s: string): (k: nat)
    ensures k <= |s| && (k < |s| ==> s[k] == '/') && forall i :: 0 <= i < k ==> s[i] != '/'
  {
    if s == "" || s[0] == '/' then 0 else 1 + SlashAt(s[1..])
  }

  lemma NoSlash(s: string, k: nat)
    requires k <= |s| && forall i :: 0 <= i < k ==> s[i] != '/'
    ensures SlashFree(s[..k]) && (k == |s| ==> SlashFree(s))
  {
  }

  lemma {:induction false} ResolveKeepsElements(parts: seq<string>, rooted: bool, x: string)
    requires x in Resolve(parts, rooted)
    ensures x in parts
  {
    if parts != [] {
      var init := parts[..|parts| - 1];
      if x in Resolve(init, rooted) {
        ResolveKeepsElements(init, rooted, x);
      }
    }
  }

  /** Cleaning brings in no two dots. */
  lemma CleanKeepsDotless(s: string)
    requires !HasDots(s)
    ensures !HasDots(Clean(s))
  {
    hide Split, Resolve, Joined, HasDots, SlashFree;
    var parts := Resolve(Split(s), Rooted(s));
    ResolveGivesResolved(Split(s), Rooted(s));
    DotsInElements(s);
    forall i | 0 <= i < |parts|
      ensures !HasDots(parts[i])
    {
      ResolveKeepsElements(Split(s), Rooted(s), parts[i]);
      var j :| 0 <= j < |Split(s)| && Split(s)[j] == parts[i];
      assert !HasDots(Split(s)[j]);
    }
    DotlessRendering(parts, Rooted(s));
  }

  lemma DotlessRendering(parts: seq<string>, rooted: bool)
    requires Resolved(parts, rooted) && forall i :: 0 <= i < |parts| ==> !HasDots(parts[i])
    ensures !HasDots(Rendered(parts, rooted))
  {
    hide Split, HasDots, SlashFree, Joined;
    if parts == [] {
      OneCharacterHasNoDots();
    } else {
      SplitOfJoined(parts);
      DotsInElements(Joined(parts));
      DotsSplit("", Joined(parts));
      OneCharacterHasNoDots();
      assert "" + "/" + Joined(parts) == "/" + Joined(parts);
    }
  }

  lemma OneCharacterHasNoDots()
    ensures !HasDots("") && !HasDots(".") && !HasDots("/" + Joined([]))
  {
    assert "/" + Joined([]) == "/";
  }
}
