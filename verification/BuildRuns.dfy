/** Over a run of requests, exactly the due ones are built, in order. */
module BuildRuns {
  import opened Picking
  import opened Staleness

  /** The index is missing, the source has moved past it, or it has aged the full window. */
  predicate Due(indexed: Time, q: Request, hours: int) {
    indexed == 0 || q.sourceUpdated > indexed || q.now >= indexed + hours * HOUR
  }

  /** The index time before each request: it moves to the time of every due one. */
  predicate Traces(times: seq<Time>, start: Time, hours: int, requests: seq<Request>) {
    && |times| == |requests| + 1 && times[0] == start
    && forall i :: 0 <= i < |requests| ==> times[i + 1] == if Due(times[i], requests[i], hours) then requests[i].now else times[i]
  }

  function BuildAt(times: seq<Time>, requests: seq<Request>, i: nat): Build
    requires i < |times| && i < |requests|
  {
    Build(requests[i].now, times[i], requests[i].sourceUpdated)
  }

  function AllBuilds(times: seq<Time>, requests: seq<Request>): (r: seq<Build>)
    requires |requests| <= |times|
    ensures |r| == |requests|
    ensures forall i :: 0 <= i < |requests| ==> r[i] == BuildAt(times, requests, i)
  {
    seq(|requests|, i requires 0 <= i < |requests| => BuildAt(times, requests, i))
  }

  lemma DueIsBuilt(indexed: Time, q: Request, hours: int)
    requires 1 <= hours <= MAX_HOURS && q.now > 0
    ensures ShouldBuild(indexed, q.sourceUpdated, hours, q.now, q.now, false) <==> Due(indexed, q, hours)
  {
    SkippedOnlyWhenFresh(indexed, q.sourceUpdated, hours, q.now);
  }

  lemma TracesBehind(start: Time, hours: int, requests: seq<Request>, rest: seq<Time>)
    requires requests != []
    requires Traces(rest, if Due(start, requests[0], hours) then requests[0].now else start, hours, requests[1..])
    ensures Traces([start] + rest, start, hours, requests)
    ensures AllBuilds([start] + rest, requests)[1..] == AllBuilds(rest, requests[1..])
  {
    hide Due;
    var times := [start] + rest;
    forall i | 0 <= i < |requests|
      ensures times[i + 1] == if Due(times[i], requests[i], hours) then requests[i].now else times[i]
    {
      if i > 0 {
        assert requests[1..][i - 1] == requests[i] && rest[i - 1] == times[i] && rest[i - 1 + 1] == times[i + 1];
      }
    }
  }

  /** The builds are those of the places, and the places are those of the due requests. */
  predicate BuiltAt(times: seq<Time>, start: Time, hours: int, requests: seq<Request>, builds: seq<Build>, places: seq<nat>) {
    && Traces(times, start, hours, requests) && Places(places, |requests|) && |builds| == |places|
    && (forall i :: 0 <= i < |requests| ==> (i in places <==> Due(times[i], requests[i], hours)))
    && (forall j :: 0 <= j < |places| ==> places[j] < |requests| && builds[j] == BuildAt(times, requests, places[j]))
  }

  lemma PlacesBehindFirst(start: Time, hours: int, requests: seq<Request>, times: seq<Time>, rest: seq<nat>)
    requires requests != [] && |times| == |requests|
    requires forall i :: 0 <= i < |requests| - 1 ==> (i in rest <==> Due(times[i], requests[1..][i], hours))
    ensures forall i :: 0 <= i < |requests| ==>
              (i in Behind(Due(start, requests[0], hours), rest) <==> Due(([start] + times)[i], requests[i], hours))
  {
    hide Due, Behind;
    forall i | 0 <= i < |requests|
      ensures i in Behind(Due(start, requests[0], hours), rest) <==> Due(([start] + times)[i], requests[i], hours)
    {
      BehindHas(Due(start, requests[0], hours), rest, i);
      if i > 0 {
        assert requests[1..][i - 1] == requests[i] && ([start] + times)[i] == times[i - 1];
      }
    }
  }

  lemma BuiltBehindFirst(start: Time, hours: int, requests: seq<Request>, times: seq<Time>, builds: seq<Build>, rest: seq<nat>)
    requires requests != []
    requires BuiltAt(times, if Due(start, requests[0], hours) then requests[0].now else start, hours, requests[1..], builds, rest)
    ensures var due := Due(start, requests[0], hours);
            BuiltAt([start] + times, start, hours, requests,
                    (if due then [Build(requests[0].now, start, requests[0].sourceUpdated)] else []) + builds, Behind(due, rest))
  {
    hide Due, Behind, Places, AllBuilds;
    var due := Due(start, requests[0], hours);
    var all := [start] + times;
    TracesBehind(start, hours, requests, times);
    PlacesBehindFirst(start, hours, requests, times, rest);
    AreBelow(rest, |requests| - 1);
    var list := AllBuilds(all, requests);
    forall j | 0 <= j < |rest|
      ensures builds[j] == list[1..][rest[j]]
    {
      assert list[1..] == AllBuilds(times, requests[1..]);
    }
    PickedBehind(list, due, rest, builds);
    AreBelow(Behind(due, rest), |requests|);
    assert list[0] == Build(requests[0].now, start, requests[0].sourceUpdated);
  }

  /**
    Over every run of requests without force there is one build for each request that is
    due when it comes, with its time, the index time before it and its source, in order.
   */
  lemma {:induction false} DueRequestsAreBuilt(start: Time, hours: int, requests: seq<Request>)
    returns (times: seq<Time>, places: seq<nat>)
    requires 1 <= hours <= MAX_HOURS && forall i :: 0 <= i < |requests| ==> requests[i].now > 0
    ensures BuiltAt(times, start, hours, requests, Builds(start, hours, requests), places)
    decreases |requests|
  {
    hide Due, ShouldBuild, Behind, BuiltAt;
    if requests == [] {
      times, places := [start], [];
      assert BuiltAt([start], start, hours, [], [], []) by { NothingBuilt(start, hours); }
    } else {
      DueIsBuilt(start, requests[0], hours);
      var due := Due(start, requests[0], hours);
      var next := if due then requests[0].now else start;
      var times', rest := DueRequestsAreBuilt(next, hours, requests[1..]);
      times, places := [start] + times', Behind(due, rest);
      BuiltBehindFirst(start, hours, requests, times', Builds(next, hours, requests[1..]), rest);
      assert [] + Builds(next, hours, requests[1..]) == Builds(next, hours, requests[1..]);
    }
  }

  lemma NothingBuilt(start: Time, hours: int)
    ensures BuiltAt([start], start, hours, [], [], [])
  {
  }

  lemma AreBelow(places: seq<nat>, bound: nat)
    requires Places(places, bound)
    ensures forall j :: 0 <= j < |places| ==> places[j] < bound
  {
  }
}
