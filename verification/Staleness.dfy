/** When a vector index is rebuilt, on times in nanoseconds with 64-bit durations. */
module Staleness {

  const HOUR := 3600_000_000_000
  const INT64 := 0x1_0000_0000_0000_0000
  const INT64_MAX := 0x7fff_ffff_ffff_ffff

  /** The most hours whose nanoseconds fit in 64 bits. */
  const MAX_HOURS := 2562047

  // Nanoseconds since the zero time, which stands for "never".
  type Time = nat

  /** A product as 64-bit two's complement arithmetic leaves it. */
  function Wrap64(x: int): (r: int)
    ensures -INT64_MAX - 1 <= r <= INT64_MAX
  {
    var m := x % INT64;
    if m > INT64_MAX then m - INT64 else m
  }

  /** time.Duration(hours) * time.Hour */
  function Window(hours: int): int {
    Wrap64(hours * HOUR)
  }

  /** IsVectorIndexStale; clock is what time.Now gives when no time is passed. */
  predicate IsStale(lastIndexed: Time, sourceUpdated: Time, hours: int, now: Time, clock: Time) {
    var at := if now == 0 then clock else now;
    if lastIndexed == 0 then true
    else if sourceUpdated != 0 && sourceUpdated > lastIndexed then true
    else if hours <= 0 then false
    else at >= lastIndexed + Window(hours)
  }

  /** ShouldBuild */
  predicate ShouldBuild(lastIndexed: Time, sourceUpdated: Time, hours: int, now: Time, clock: Time, force: bool) {
    force || (hours >= 0 && IsStale(lastIndexed, sourceUpdated, hours, now, clock))
  }

  // ---------- The window ----------

  /** The duration is the given number of hours exactly when it is at most 2562047. */
  lemma WindowIsFullIff(hours: int)
    requires hours >= 1
    ensures Window(hours) == hours * HOUR <==> hours <= MAX_HOURS
  {
    if hours <= MAX_HOURS {
      assert hours * HOUR <= MAX_HOURS * HOUR;
    } else {
      assert hours * HOUR >= (MAX_HOURS + 1) * HOUR;
    }
  }

  lemma LargeWindowIsShort(hours: int)
    requires hours > MAX_HOURS
    ensures Window(hours) < hours * HOUR && hours * HOUR > INT64_MAX
  {
    assert hours * HOUR >= (MAX_HOURS + 1) * HOUR;
  }

  /** An index that is rebuilt on its own, without a newer source, has aged the full window. */
  predicate FullWindow(hours: int, lastIndexed: Time, sourceUpdated: Time, now: Time) {
    IsStale(lastIndexed, sourceUpdated, hours, now, now) ==> sourceUpdated > lastIndexed || now >= lastIndexed + hours * HOUR
  }

  /** That holds for all times exactly when the hours fit. */
  lemma FullWindowIff(hours: int)
    requires hours >= 1
    ensures (forall last: Time, source: Time, now: Time :: 0 < last <= now ==> FullWindow(hours, last, source, now)) <==>
              hours <= MAX_HOURS
  {
    WindowIsFullIff(hours);
    if hours > MAX_HOURS {
      LargeWindowIsShort(hours);
      var last: Time := 1;
      var now: Time := if Window(hours) < 0 then 1 else 1 + Window(hours);
      assert IsStale(last, 0, hours, now, now);
      assert !FullWindow(hours, last, 0, now);
    }
  }

  /** Counterexample: with a window of 2562048 hours an index is stale at the moment it was made. */
  lemma OverflowingWindowIsStaleAtOnce()
    ensures IsStale(1, 0, 2562048, 1, 1) && !FullWindow(2562048, 1, 0, 1)
  {
    assert Window(2562048) == -9223371273709551616;
  }

  // ---------- Runs of builds ----------

  /** One request to build: when it is made and when the source last changed (0: unknown). */
  datatype Request = Request(now: Time, sourceUpdated: Time)

  /** A build that took place: its time, what the index said before, and the source it was told of. */
  datatype Build = Build(at: Time, previous: Time, sourceUpdated: Time)

  /** The builds of a run of requests without force, oldest first; each sets the index time to its own. */
  function Builds(lastIndexed: Time, hours: int, requests: seq<Request>): seq<Build>
    decreases |requests|
  {
    if requests == [] then []
    else
      var q := requests[0];
      if ShouldBuild(lastIndexed, q.sourceUpdated, hours, q.now, q.now, false) then
        [Build(q.now, lastIndexed, q.sourceUpdated)] + Builds(q.now, hours, requests[1..])
      else Builds(lastIndexed, hours, requests[1..])
  }

  predicate ClockRuns(start: Time, requests: seq<Request>) {
    && (forall i :: 0 <= i < |requests| ==> 0 < requests[i].now && start <= requests[i].now)
    && (forall i, j :: 0 <= i < j < |requests| ==> requests[i].now <= requests[j].now)
  }

  lemma ClockRunsOn(start: Time, requests: seq<Request>)
    requires ClockRuns(start, requests) && requests != []
    ensures ClockRuns(start, requests[1..]) && ClockRuns(requests[0].now, requests[1..])
  {
    assert forall i :: 0 <= i < |requests| - 1 ==> requests[1..][i] == requests[i + 1];
  }

  /**
    Two successive builds are a full window apart, unless the source had moved past the
    earlier one; and no build is earlier than the one before it.
   */
  lemma {:induction false} BuildsAreSpaced(lastIndexed: Time, hours: int, requests: seq<Request>, k: nat)
    requires 1 <= hours <= MAX_HOURS && ClockRuns(lastIndexed, requests)
    requires k < |Builds(lastIndexed, hours, requests)|
    ensures var builds := Builds(lastIndexed, hours, requests);
            && builds[k].previous == (if k == 0 then lastIndexed else builds[k - 1].at)
            && builds[k].at >= builds[k].previous
            && (builds[k].previous != 0 && builds[k].sourceUpdated <= builds[k].previous ==>
                  builds[k].at >= builds[k].previous + hours * HOUR)
    decreases |requests|
  {
    hide Window;
    var q := requests[0];
    ClockRunsOn(lastIndexed, requests);
    WindowIsFullIff(hours);
    var builds := Builds(lastIndexed, hours, requests);
    if ShouldBuild(lastIndexed, q.sourceUpdated, hours, q.now, q.now, false) {
      var rest := Builds(q.now, hours, requests[1..]);
      assert builds == [Build(q.now, lastIndexed, q.sourceUpdated)] + rest;
      if k > 0 {
        BuildsAreSpaced(q.now, hours, requests[1..], k - 1);
      }
    } else {
      BuildsAreSpaced(lastIndexed, hours, requests[1..], k);
    }
  }

  /** A request is passed over only while the index is younger than the window and the source has not moved. */
  lemma SkippedOnlyWhenFresh(lastIndexed: Time, sourceUpdated: Time, hours: int, now: Time)
    requires 1 <= hours <= MAX_HOURS && now > 0
    ensures !ShouldBuild(lastIndexed, sourceUpdated, hours, now, now, false) <==>
              lastIndexed != 0 && sourceUpdated <= lastIndexed && now < lastIndexed + hours * HOUR
  {
    hide Window;
    WindowIsFullIff(hours);
  }
}
