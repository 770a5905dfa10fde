/** sort.Strings over the keys of a map, whatever order they come in. */
module Sorting {
  import opened Text

  predicate Ascending(ids: seq<string>) {
    forall i, j :: 0 <= i < j < |ids| ==> Less(ids[i], ids[j])
  }

  method Insert(sorted: seq<string>, id: string) returns (r: seq<string>)
    requires Ascending(sorted) && id !in sorted
    ensures Ascending(r) && multiset(r) == multiset(sorted) + multiset{id}
  {
    hide Less;
    var k := 0;
    while k < |sorted| && Less(sorted[k], id)
      invariant 0 <= k <= |sorted|
      invariant forall i :: 0 <= i < k ==> Less(sorted[i], id)
    {
      k := k + 1;
    }
    r := sorted[..k] + [id] + sorted[k..];
    forall i | k <= i < |sorted|
      ensures Less(id, sorted[i])
    {
      LessTrichotomy(id, sorted[k]);
      if i > k {
        LessTransitive(id, sorted[k], sorted[i]);
      }
    }
    assert sorted == sorted[..k] + sorted[k..];
  }

  /** The keys in byte order. */
  method SortedKeys(keys: set<string>) returns (r: seq<string>)
    ensures Ascending(r) && forall id :: id in r <==> id in keys
  {
    hide Less;
    r := [];
    var rest := keys;
    while rest != {}
      invariant rest <= keys
      invariant Ascending(r)
      invariant forall id :: id in r <==> id in keys && id !in rest
    {
      var id :| id in rest;
      ghost var before := r;
      r := Insert(r, id);
      forall x
        ensures x in r <==> x in before || x == id
      {
        assert x in r <==> x in multiset(r);
        assert x in before <==> x in multiset(before);
      }
      rest := rest - {id};
    }
  }

  /** Sorting leaves one list only. */
  lemma {:induction false} AscendingUnique(a: seq<string>, b: seq<string>)
    requires Ascending(a) && Ascending(b) && forall x :: x in a <==> x in b
    ensures a == b
    decreases |a|
  {
    hide Less;
    HeadIsMember(b);
    HeadIsMember(a);
    if a != [] {
      SameHead(a, b);
      forall x
        ensures x in a[1..] <==> x in b[1..]
      {
        TailMembers(a, x);
        TailMembers(b, x);
      }
      AscendingUnique(a[1..], b[1..]);
      assert a == [a[0]] + a[1..] && b == [b[0]] + b[1..];
    }
  }

  lemma HeadIsMember(a: seq<string>)
    ensures a == [] || a[0] in a
  {
  }

  lemma SameHead(a: seq<string>, b: seq<string>)
    requires Ascending(a) && Ascending(b) && a != [] && b != [] && forall x :: x in a <==> x in b
    ensures a[0] == b[0]
  {
    hide Less;
    assert a[0] in b && b[0] in a;
    var i :| 0 <= i < |a| && a[i] == b[0];
    var j :| 0 <= j < |b| && b[j] == a[0];
    LessTrichotomy(a[0], b[0]);
  }

  lemma TailMembers(a: seq<string>, x: string)
    requires Ascending(a) && a != []
    ensures x in a[1..] <==> x in a && x != a[0]
  {
    hide Less;
    LessIrreflexive(a[0]);
    if x in a && x != a[0] {
      var i :| 0 <= i < |a| && a[i] == x;
      assert a[1..][i - 1] == x;
    }
    if x in a[1..] {
      var i :| 0 <= i < |a| - 1 && a[1..][i] == x;
      assert Less(a[0], a[i + 1]);
    }
  }
}
