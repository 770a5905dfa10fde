/** Lists that keep part of another list in its order, told by the places they are picked from. */
module Picking {
  import opened Text

  /** Ascending places below a bound. */
  predicate Places(places: seq<nat>, bound: nat) {
    && (forall j :: 0 <= j < |places| ==> places[j] < bound)
    && (forall i, j :: 0 <= i < j < |places| ==> places[i] < places[j])
  }

  function Shifted(places: seq<nat>): (r: seq<nat>)
    ensures |r| == |places|
    ensures forall j :: 0 <= j < |places| ==> r[j] == places[j] + 1
  {
    seq(|places|, j requires 0 <= j < |places| => places[j] + 1)
  }

  lemma ShiftedHas(places: seq<nat>, k: nat)
    ensures k in Shifted(places) <==> k > 0 && k - 1 in places
  {
    if k > 0 && k - 1 in places {
      var j :| 0 <= j < |places| && places[j] == k - 1;
      assert Shifted(places)[j] == k;
    }
  }

  /** The places behind the first one, and the first one too if it is taken. */
  function Behind(taken: bool, rest: seq<nat>): seq<nat> {
    (if taken then [0] else []) + Shifted(rest)
  }

  lemma BehindPlaces(taken: bool, rest: seq<nat>, bound: nat)
    requires Places(rest, bound)
    ensures Places(Behind(taken, rest), bound + 1)
    ensures |Behind(taken, rest)| == |rest| + if taken then 1 else 0
  {
  }

  lemma BehindAt(taken: bool, rest: seq<nat>, m: nat)
    requires m < |rest|
    ensures |Behind(taken, rest)| == |rest| + if taken then 1 else 0
    ensures Behind(taken, rest)[if taken then m + 1 else m] == rest[m] + 1
    ensures taken ==> Behind(taken, rest)[0] == 0
  {
  }

  /** What is picked behind the first element, put together with the first one if it is taken. */
  lemma PickedBehind<T>(list: seq<T>, taken: bool, rest: seq<nat>, picked: seq<T>)
    requires list != [] && Places(rest, |list| - 1) && |picked| == |rest|
    requires forall j :: 0 <= j < |rest| ==> picked[j] == list[1..][rest[j]]
    ensures var places, all := Behind(taken, rest), (if taken then [list[0]] else []) + picked;
            Places(places, |list|) && |all| == |places| && forall j :: 0 <= j < |places| ==> all[j] == list[places[j]]
  {
    hide Behind, Places;
    BehindPlaces(taken, rest, |list| - 1);
    var places, all := Behind(taken, rest), (if taken then [list[0]] else []) + picked;
    forall j | 0 <= j < |places|
      ensures places[j] < |list| && all[j] == list[places[j]]
    {
      PlacesBelow(places, |list|, j);
      PlacesBelow(rest, |list| - 1, if taken then j - 1 else j);
      if j > 0 || !taken {
        var m := if taken then j - 1 else j;
        BehindAt(taken, rest, m);
        assert all[j] == picked[m];
        assert list[1..][rest[m]] == list[rest[m] + 1];
      } else {
        assert places[0] == 0 by { FirstBehind(rest); }
      }
    }
  }

  lemma FirstBehind(rest: seq<nat>)
    ensures Behind(true, rest)[0] == 0
  {
  }

  lemma PlacesBelow(places: seq<nat>, bound: nat, j: int)
    requires Places(places, bound)
    ensures 0 <= j < |places| ==> places[j] < bound
  {
  }

  lemma BehindHas(taken: bool, rest: seq<nat>, k: nat)
    ensures k in Behind(taken, rest) <==> if k == 0 then taken else k - 1 in rest
  {
    ShiftedHas(rest, k);
  }

  /** Picking from what was picked. */
  function Through(outer: seq<nat>, inner: seq<nat>): (r: seq<nat>)
    requires forall j :: 0 <= j < |inner| ==> inner[j] < |outer|
    ensures |r| == |inner|
    ensures forall j :: 0 <= j < |inner| ==> r[j] == outer[inner[j]]
  {
    seq(|inner|, j requires 0 <= j < |inner| => outer[inner[j]])
  }

  lemma ThroughPlaces(outer: seq<nat>, inner: seq<nat>, bound: nat)
    requires Places(outer, bound) && Places(inner, |outer|)
    ensures Places(Through(outer, inner), bound)
  {
  }

  lemma ThroughIsPart(outer: seq<nat>, inner: seq<nat>, k: nat)
    requires forall j :: 0 <= j < |inner| ==> inner[j] < |outer|
    ensures k in Through(outer, inner) ==> k in outer
  {
    if k in Through(outer, inner) {
      var j :| 0 <= j < |inner| && Through(outer, inner)[j] == k;
      assert outer[inner[j]] == k;
    }
  }

  lemma ThroughHas(outer: seq<nat>, inner: seq<nat>, bound: nat, k: nat)
    requires Places(outer, bound) && Places(inner, |outer|) && k < |outer|
    ensures outer[k] in Through(outer, inner) <==> k in inner
  {
    if k in inner {
      var j :| 0 <= j < |inner| && inner[j] == k;
      assert Through(outer, inner)[j] == outer[k];
    }
    if outer[k] in Through(outer, inner) {
      var j :| 0 <= j < |inner| && Through(outer, inner)[j] == outer[k];
    }
  }

  /** The places are determined by which places they are. */
  lemma {:induction false} SamePlaces(a: seq<nat>, b: seq<nat>, bound: nat)
    requires Places(a, bound) && Places(b, bound)
    requires forall k :: k in a <==> k in b
    ensures a == b
    decreases |a|
  {
    if a == [] {
      HeadIsThere(b);
    } else if b == [] {
      HeadIsThere(a);
    } else {
      var m, n := |a| - 1, |b| - 1;
      assert a[m] in b && b[n] in a;
      assert a[m] == b[n];
      forall k
        ensures k in a[..m] <==> k in b[..n]
      {
        InitHas(a, bound, k);
        InitHas(b, bound, k);
      }
      SamePlaces(a[..m], b[..n], bound);
      assert a == a[..m] + [a[m]] && b == b[..n] + [b[n]];
    }
  }

  lemma HeadIsThere(a: seq<nat>)
    ensures a == [] || a[0] in a
  {
  }

  lemma InitHas(a: seq<nat>, bound: nat, k: nat)
    requires Places(a, bound) && a != []
    ensures k in a[..|a| - 1] <==> k in a && k != a[|a| - 1]
  {
    if k in a && k != a[|a| - 1] {
      var i :| 0 <= i < |a| && a[i] == k;
      assert a[..|a| - 1][i] == k;
    }
  }
}
