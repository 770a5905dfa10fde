/**
  What each call and step of the bus does to a subscriber's channel, and which events the
  messages carry: those the callers passed, in the order of their calls.
 */
module EventBusMeaning {
  import opened Results
  import opened EventBus
  import opened EventBusRuns
  import opened EventBusCalls

  /** The event as it was passed, with the time of the call where it had none. */
  predicate IsStamped(passed: Event, now: nat, e: Event) {
    e.kind == passed.kind && e.tool == passed.tool && e.timestamp == if passed.timestamp != 0 then passed.timestamp else now
  }

  /** The message is put into a channel that has room, and passed over by one that is full; nothing else happens to the channel. */
  predicate TakesIfRoom(before: Chan, m: Msg, after: Chan) {
    && after.buffer == (if |before.buffer| < before.cap then before.buffer + [m] else before.buffer)
    && after.received == before.received && after.cap == before.cap && after.closed == before.closed
    && after.since == before.since && after.until == before.until
    && after.offers == before.offers + [Offer(m, |before.buffer|, |before.buffer| < before.cap)]
  }

  /** One send of a publisher, in any interleaving. */
  lemma SendMeaning(b: Bus, p: int, id: nat)
    requires Inv(b) && Enabled(b, Send(p, id))
    ensures var n := Next(b, Send(p, id));
            && n.chans.Keys == b.chans.Keys && TakesIfRoom(b.chans[id], b.readers[p].msg, n.chans[id])
            && (forall i :: i in b.chans && i != id ==> n.chans[i] == b.chans[i])
            && n.registered == b.registered && n.published == b.published && n.nextID == b.nextID
  {
    hide OfferedInOrder, Authentic, ChanOK, ReaderOK, LocksOK;
  }

  /** A publication that begins carries the event that was passed. */
  lemma BeginMeaning(b: Bus, p: int, e: Event, now: nat)
    requires Enabled(b, PublishBegin(p, e, now))
    ensures var n := Next(b, PublishBegin(p, e, now));
            && p in n.readers && n.readers[p].msg.publisher == p && n.readers[p].visited == {}
            && IsStamped(e, now, n.readers[p].msg.event)
            && By(n.published, p) == By(b.published, p) + [n.readers[p].msg.event]
            && (forall q :: q != p ==> By(n.published, q) == By(b.published, q))
            && n.chans == b.chans && n.registered == b.registered
  {
  }

  /** Receiving takes the oldest message. */
  lemma ReceiveMeaning(b: Bus, id: nat)
    requires Enabled(b, Receive(id))
    ensures var before, after := b.chans[id], Next(b, Receive(id)).chans[id];
            && before.buffer == [after.received[|before.received|]] + after.buffer
            && after.received[..|before.received|] == before.received && |after.received| == |before.received| + 1
            && after.cap == before.cap && after.closed == before.closed
  {
  }

  /**
    A whole publication: every subscriber with room gets the event that was passed, every
    full one keeps what it has, and no other channel is touched.
   */
  lemma PublishMeaning(b: Bus, p: int, e: Event, now: nat) returns (m: Msg)
    requires Inv(b)
    ensures m.publisher == p && m.index == |By(b.published, p)| && IsStamped(e, now, m.event)
    ensures var n := PublishedAll(b, p, e, now);
            && n.registered == b.registered && n.nextID == b.nextID && n.chans.Keys == b.chans.Keys
            && By(n.published, p) == By(b.published, p) + [m.event]
            && (forall id :: id in b.registered ==> id in b.chans && TakesIfRoom(b.chans[id], m, n.chans[id]))
            && (forall id :: id in b.chans && id !in b.registered ==> n.chans[id] == b.chans[id])
  {
    hide OfferedInOrder, Authentic, ChanOK, ReaderOK, LocksOK;
    m := NextMsg(b, p, e, now);
  }

  /** A subscription opens one empty channel under a new id, of the size asked for, or 16. */
  lemma SubscribeMeaning(b: Bus, bufferSize: int)
    requires Inv(b) && !b.writer.Numbered?
    ensures var n, id := Subscribed(b, bufferSize), b.nextID;
            && id !in b.chans && n.chans.Keys == b.chans.Keys + {id} && n.registered == b.registered + {id}
            && n.chans[id].cap == (if bufferSize <= 0 then 16 else bufferSize)
            && n.chans[id].buffer == [] && n.chans[id].received == [] && !n.chans[id].closed
            && (forall i :: i in b.chans ==> n.chans[i] == b.chans[i])
            && n.nextID == id + 1
  {
    hide OfferedInOrder, Authentic, ChanOK, ReaderOK, LocksOK;
  }

  /** Cancelling closes a registered channel, leaves what is buffered in it, and does nothing the next time. */
  lemma CancelMeaning(b: Bus, id: nat)
    requires Inv(b)
    ensures var n := Cancelled(b, id);
            && (id !in b.registered ==> n == b)
            && (id in b.registered ==>
                  && id in b.chans && !b.chans[id].closed && n.chans.Keys == b.chans.Keys
                  && n.registered == b.registered - {id}
                  && n.chans[id].closed && n.chans[id].buffer == b.chans[id].buffer && n.chans[id].received == b.chans[id].received
                  && (forall i :: i in b.chans && i != id ==> n.chans[i] == b.chans[i]))
            && Cancelled(n, id) == n
  {
    hide OfferedInOrder, Authentic, ChanOK, ReaderOK, LocksOK;
  }

  // ---------- Runs ----------

  datatype Call = Call(event: Event, now: nat)

  /** The events a publisher passed in a run, in order. */
  function Calls(steps: seq<Step>, p: int): seq<Call> {
    if steps == [] then []
    else (if steps[0].PublishBegin? && steps[0].publisher == p then [Call(steps[0].event, steps[0].now)] else []) + Calls(steps[1..], p)
  }

  predicate AllStamped(calls: seq<Call>, events: seq<Event>) {
    |calls| == |events| && forall i :: 0 <= i < |calls| ==> IsStamped(calls[i].event, calls[i].now, events[i])
  }

  lemma StampedConcat(a: seq<Call>, x: seq<Event>, b: seq<Call>, y: seq<Event>)
    requires AllStamped(a, x) && AllStamped(b, y)
    ensures AllStamped(a + b, x + y)
  {
  }

  lemma StepPublishes(b: Bus, step: Step, p: int)
    requires Enabled(b, step)
    ensures By(Next(b, step).published, p) ==
              By(b.published, p) + if step.PublishBegin? && step.publisher == p then [WithTimestamp(step.event, step.now)] else []
  {
    hide Offered, WithTimestamp;
  }

  lemma {:induction false} PublishedAreCalls(b: Bus, steps: seq<Step>, p: int, before: seq<Call>)
    requires IsRun(b, steps) && AllStamped(before, By(b.published, p))
    ensures AllStamped(before + Calls(steps, p), By(After(b, steps).published, p))
    decreases |steps|
  {
    hide Enabled, Next, AllStamped;
    if steps == [] {
      assert before + Calls(steps, p) == before;
    } else {
      var step := steps[0];
      StepPublishes(b, step, p);
      var first: seq<Call> := if step.PublishBegin? && step.publisher == p then [Call(step.event, step.now)] else [];
      var stamped: seq<Event> := if step.PublishBegin? && step.publisher == p then [WithTimestamp(step.event, step.now)] else [];
      OneStamped(step, p);
      StampedConcat(before, By(b.published, p), first, stamped);
      PublishedAreCalls(Next(b, step), steps[1..], p, before + first);
      assert before + Calls(steps, p) == before + first + Calls(steps[1..], p);
    }
  }

  lemma OneStamped(step: Step, p: int)
    ensures AllStamped([], [])
    ensures step.PublishBegin? ==> AllStamped([Call(step.event, step.now)], [WithTimestamp(step.event, step.now)])
  {
  }

  /** After every run from the fresh bus, what is on record for a publisher is what it passed, call by call. */
  lemma RunsRecordCalls(steps: seq<Step>, p: int)
    requires IsRun(START, steps)
    ensures AllStamped(Calls(steps, p), By(After(START, steps).published, p))
  {
    hide IsRun, After, AllStamped, Calls;
    assert AllStamped([], By(START.published, p)) by { NothingStamped(); }
    PublishedAreCalls(START, steps, p, []);
    assert [] + Calls(steps, p) == Calls(steps, p);
  }

  lemma NothingStamped()
    ensures AllStamped([], [])
  {
  }
}
