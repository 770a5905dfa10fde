/** What every interleaving of publishers, subscribers, cancellers and receivers keeps. */
module EventBusRuns {
  import opened Results
  import opened EventBus

  // ---------- Histories ----------

  lemma MessagesSnoc(offers: seq<Offer>, o: Offer)
    ensures Messages(offers + [o]) == Messages(offers) + [o.msg]
  {
  }

  lemma IndicesSnoc(msgs: seq<Msg>, m: Msg, p: int)
    ensures Indices(msgs + [m], p) == Indices(msgs, p) + if m.publisher == p then [m.index] else []
  {
    assert (msgs + [m])[..|msgs|] == msgs;
  }

  lemma DeliveredSnoc(offers: seq<Offer>, o: Offer)
    ensures Delivered(offers + [o]) == Delivered(offers) + if o.delivered then [o.msg] else []
  {
    assert (offers + [o])[..|offers|] == offers;
  }

  lemma RangeSnoc(lo: nat, hi: nat)
    requires lo <= hi
    ensures Range(lo, hi + 1) == Range(lo, hi) + [hi]
  {
  }

  // ---------- One channel ----------

  lemma OfferedOK(ch: Chan, msg: Msg)
    requires ChanOK(ch)
    ensures ChanOK(Offered(ch, msg))
  {
    hide Delivered;
    var o := Offer(msg, |ch.buffer|, |ch.buffer| < ch.cap);
    DeliveredSnoc(ch.offers, o);
    assert ch.received + (ch.buffer + [msg]) == ch.received + ch.buffer + [msg];
  }

  lemma ReceivedOK(ch: Chan)
    requires ChanOK(ch) && ch.buffer != []
    ensures ChanOK(ch.(buffer := ch.buffer[1..], received := ch.received + [ch.buffer[0]]))
  {
    assert ch.received + [ch.buffer[0]] + ch.buffer[1..] == ch.received + ch.buffer;
  }

  lemma NextChansOK(b: Bus, step: Step, id: nat)
    requires Inv(b) && Enabled(b, step) && id in Next(b, step).chans
    ensures ChanOK(Next(b, step).chans[id])
  {
    hide OfferedInOrder, Authentic, Delivered, Offered;
    match step
    case Send(p, i) => OfferedOK(b.chans[i], b.readers[p].msg);
    case Receive(i) => ReceivedOK(b.chans[i]);
    case _ =>
      NewChanOK(b);
  }

  lemma NewChanOK(b: Bus)
    requires Inv(b)
    ensures b.writer.Numbered? ==> ChanOK(NewChan(b.writer.cap, b.published))
  {
  }

  lemma NextAuthentic(b: Bus, step: Step, id: nat)
    requires Inv(b) && Enabled(b, step) && id in Next(b, step).chans
    ensures Authentic(Next(b, step).published, Next(b, step).chans[id].offers)
  {
    hide OfferedInOrder, ChanOK, Delivered;
  }

  // ---------- Offers stay contiguous ----------

  lemma NextInOrder(b: Bus, step: Step, id: nat, p: int)
    requires Inv(b) && Enabled(b, step) && id in Next(b, step).chans
    ensures OfferedInOrder(Next(b, step), id, p)
  {
    hide Authentic, ChanOK, Indices, Range, Messages, Offered, Inv;
    if step.Send? {
      SendInOrder(b, step.publisher, step.id, id, p);
    } else if step.Register? && id == b.writer.id {
      NewInOrder(b, p);
    } else {
      OthersInOrder(b, step, id, p);
    }
  }

  lemma NewInOrder(b: Bus, p: int)
    requires Inv(b) && b.writer.Numbered?
    ensures OfferedInOrder(Next(b, Register), b.writer.id, p)
  {
    hide Authentic, ChanOK;
    assert Indices([], p) == [];
  }

  lemma SendInOrder(b: Bus, q: int, target: nat, id: nat, p: int)
    requires Inv(b) && Enabled(b, Send(q, target)) && id in b.chans
    ensures OfferedInOrder(Next(b, Send(q, target)), id, p)
  {
    hide Authentic, ChanOK, Indices, Messages, Range;
    assert OfferedInOrder(b, id, p);
    assert ReaderOK(b, q);
    if id == target {
      var ch := b.chans[id];
      var m := b.readers[q].msg;
      var o := Offer(m, |ch.buffer|, |ch.buffer| < ch.cap);
      MessagesSnoc(ch.offers, o);
      IndicesSnoc(Messages(ch.offers), m, p);
      RangeSnoc(|By(ch.since, p)|, OfferedUpTo(b, id, p));
    }
  }

  lemma OthersInOrder(b: Bus, step: Step, id: nat, p: int)
    requires Inv(b) && Enabled(b, step) && id in b.chans && !step.Send?
    ensures OfferedInOrder(Next(b, step), id, p)
  {
    hide Authentic, ChanOK, Indices, Messages, Range, WithTimestamp, Capacity, NewChan;
    assert OfferedInOrder(b, id, p);
  }

  lemma NextReaders(b: Bus, step: Step, p: int)
    requires Inv(b) && Enabled(b, step) && p in Next(b, step).readers
    ensures ReaderOK(Next(b, step), p)
  {
    hide OfferedInOrder, Authentic, ChanOK, Offered;
    if p in b.readers {
      assert ReaderOK(b, p);
    }
  }

  lemma NextLocks(b: Bus, step: Step)
    requires Inv(b) && Enabled(b, step)
    ensures !Next(b, step).panicked && LocksOK(Next(b, step))
  {
    hide OfferedInOrder, Authentic, ChanOK, ReaderOK, Offered;
    ReadersFree(b, step);
  }

  lemma NextRegistered(b: Bus, step: Step)
    requires Inv(b) && Enabled(b, step)
    ensures ChansOK(Next(b, step))
  {
    hide OfferedInOrder, Authentic, ChanOK, ReaderOK;
  }

  lemma ReadersFree(b: Bus, step: Step)
    requires Inv(b) && Enabled(b, step)
    ensures Next(b, step).readers != map[] ==> Next(b, step).writer.Free?
  {
    hide OfferedInOrder, Authentic, ChanOK, Offered, ReaderOK, ChansOK;
    if p :| p in Next(b, step).readers && p in b.readers {
      assert b.readers != map[];
    }
  }

  // ---------- Every run ----------

  lemma StepKeepsInv(b: Bus, step: Step)
    requires Inv(b) && Enabled(b, step)
    ensures Inv(Next(b, step))
  {
    hide OfferedInOrder, Authentic, ChanOK, ReaderOK, LocksOK, ChansOK, Enabled, Next;
    var n := Next(b, step);
    NextLocks(b, step);
    NextRegistered(b, step);
    forall id | id in n.chans
      ensures ChanOK(n.chans[id]) && Authentic(n.published, n.chans[id].offers)
    {
      NextChansOK(b, step, id);
      NextAuthentic(b, step, id);
    }
    forall id, p: int | id in n.chans
      ensures OfferedInOrder(n, id, p)
    {
      NextInOrder(b, step, id, p);
    }
    forall p | p in n.readers
      ensures ReaderOK(n, p)
    {
      NextReaders(b, step, p);
    }
  }

  predicate IsRun(b: Bus, steps: seq<Step>)
    decreases |steps|
  {
    steps != [] ==> Enabled(b, steps[0]) && IsRun(Next(b, steps[0]), steps[1..])
  }

  function After(b: Bus, steps: seq<Step>): Bus
    requires IsRun(b, steps)
    decreases |steps|
  {
    if steps == [] then b else After(Next(b, steps[0]), steps[1..])
  }

  lemma {:induction false} RunKeepsInv(b: Bus, steps: seq<Step>)
    requires Inv(b) && IsRun(b, steps)
    ensures Inv(After(b, steps))
    decreases |steps|
  {
    hide Inv, Enabled, Next;
    if steps != [] {
      StepKeepsInv(b, steps[0]);
      RunKeepsInv(Next(b, steps[0]), steps[1..]);
    }
  }

  lemma StartInv()
    ensures Inv(START)
  {
  }

  /** No run sends on a closed channel or closes a channel twice. */
  lemma NoRunPanics(steps: seq<Step>)
    requires IsRun(START, steps)
    ensures Inv(After(START, steps)) && !After(START, steps).panicked
  {
    hide Inv;
    StartInv();
    RunKeepsInv(START, steps);
    InvNoPanic(After(START, steps));
  }

  lemma InvNoPanic(b: Bus)
    requires Inv(b)
    ensures !b.panicked
  {
  }

  // ---------- What a subscriber gets ----------

  lemma {:induction false} SublistRefl(a: seq<nat>)
    ensures Sublist(a, a)
  {
    if a != [] {
      SublistRefl(a[..|a| - 1]);
    }
  }

  lemma SublistSnocBoth(a: seq<nat>, b: seq<nat>, x: nat)
    requires Sublist(a, b)
    ensures Sublist(a + [x], b + [x])
  {
    assert (a + [x])[..|a|] == a && (b + [x])[..|b|] == b;
  }

  lemma SublistSnocRight(a: seq<nat>, b: seq<nat>, x: nat)
    requires Sublist(a, b)
    ensures Sublist(a, b + [x])
  {
    assert (b + [x])[..|b|] == b;
  }

  lemma KeptSnoc(init: seq<Offer>, last: Offer, p: int)
    ensures Indices(Delivered(init + [last]), p) ==
              Indices(Delivered(init), p) + if last.delivered && last.msg.publisher == p then [last.msg.index] else []
    ensures Indices(Messages(init + [last]), p) ==
              Indices(Messages(init), p) + if last.msg.publisher == p then [last.msg.index] else []
  {
    hide Indices, Delivered, Messages;
    MessagesSnoc(init, last);
    DeliveredSnoc(init, last);
    IndicesSnoc(Messages(init), last.msg, p);
    IndicesSnoc(Delivered(init), last.msg, p);
    assert Delivered(init) + [] == Delivered(init);
  }

  lemma {:induction false} DeliveredIsSublist(offers: seq<Offer>, p: int)
    ensures Sublist(Indices(Delivered(offers), p), Indices(Messages(offers), p))
  {
    if offers != [] {
      var init, last := offers[..|offers| - 1], offers[|offers| - 1];
      DeliveredIsSublist(init, p);
      assert offers == init + [last];
      KeptSnoc(init, last, p);
      DeliveredStep(init, last, p);
    }
  }

  lemma DeliveredStep(init: seq<Offer>, last: Offer, p: int)
    requires Sublist(Indices(Delivered(init), p), Indices(Messages(init), p))
    ensures Sublist(Indices(Delivered(init), p) + if last.delivered && last.msg.publisher == p then [last.msg.index] else [],
                    Indices(Messages(init), p) + if last.msg.publisher == p then [last.msg.index] else [])
  {
    hide Sublist, Delivered, Messages, Indices;
    var kept, all := Indices(Delivered(init), p), Indices(Messages(init), p);
    if last.msg.publisher == p {
      SublistSnocBoth(kept, all, last.msg.index);
      SublistSnocRight(kept, all, last.msg.index);
    }
    assert kept + [] == kept && all + [] == all;
  }

  // Every index in the list of a publisher comes from an offer.
  lemma {:induction false} OfferOfIndex(offers: seq<Offer>, p: int, i: nat) returns (k: nat)
    requires i < |Indices(Messages(offers), p)|
    ensures k < |offers| && offers[k].msg.publisher == p && offers[k].msg.index == Indices(Messages(offers), p)[i]
  {
    var init, last := offers[..|offers| - 1], offers[|offers| - 1];
    assert offers == init + [last];
    KeptSnoc(init, last, p);
    if i < |Indices(Messages(init), p)| {
      k := OfferOfIndex(init, p, i);
    } else {
      k := |offers| - 1;
    }
  }

  lemma {:induction false} DeliveredHas(offers: seq<Offer>, k: nat)
    requires k < |offers| && offers[k].delivered
    ensures offers[k].msg.index in Indices(Delivered(offers), offers[k].msg.publisher)
  {
    var init, last := offers[..|offers| - 1], offers[|offers| - 1];
    assert offers == init + [last];
    KeptSnoc(init, last, offers[k].msg.publisher);
    if k < |init| {
      DeliveredHas(init, k);
    }
  }

  /**
    In every reachable state, what a subscriber received or still has buffered from a
    publisher is an in-order part, without repetition, of the events published while it
    was subscribed; and an event of that stretch is missing only if the buffer was full
    when it was offered.
   */
  lemma SubscriberGets(b: Bus, id: nat, p: int)
    requires Inv(b) && id in b.chans
    ensures var ch := b.chans[id];
            var lo, hi := |By(ch.since, p)|, OfferedUpTo(b, id, p);
            && lo <= hi <= |By(b.published, p)|
            && |ch.buffer| <= ch.cap
            && Sublist(Indices(ch.received + ch.buffer, p), Range(lo, hi))
            && (forall i :: lo <= i < hi && i !in Indices(ch.received + ch.buffer, p) ==>
                  exists k :: 0 <= k < |ch.offers| && ch.offers[k].msg.publisher == p && ch.offers[k].msg.index == i
                              && ch.offers[k].occupancy == ch.cap)
  {
    hide Sublist, Delivered, Messages, Indices, Authentic;
    var ch := b.chans[id];
    var lo, hi := |By(ch.since, p)|, OfferedUpTo(b, id, p);
    assert OfferedInOrder(b, id, p);
    assert ChanOK(ch);
    DeliveredIsSublist(ch.offers, p);
    forall i | lo <= i < hi && i !in Indices(ch.received + ch.buffer, p)
      ensures exists k :: 0 <= k < |ch.offers| && ch.offers[k].msg.publisher == p && ch.offers[k].msg.index == i
                          && ch.offers[k].occupancy == ch.cap
    {
      var k := OfferOfIndex(ch.offers, p, i - lo);
      if ch.offers[k].delivered {
        DeliveredHas(ch.offers, k);
      }
    }
  }

  /** The events themselves are the published ones. */
  lemma {:induction false} DeliveredAreAuthentic(published: Published, offers: seq<Offer>, m: Msg)
    requires Authentic(published, offers) && m in Delivered(offers)
    ensures m.index < |By(published, m.publisher)| && By(published, m.publisher)[m.index] == m.event
  {
    var init, last := offers[..|offers| - 1], offers[|offers| - 1];
    assert offers == init + [last];
    if m in Delivered(init) {
      DeliveredAreAuthentic(published, init, m);
    }
  }

  // ---------- Nobody waits for a slow subscriber ----------

  /** A publisher in the middle of publishing can always go on, however full the channels are. */
  lemma PublisherNeverStuck(b: Bus, p: int)
    requires Inv(b) && p in b.readers
    ensures Enabled(b, PublishEnd(p)) || exists id :: Enabled(b, Send(p, id))
    ensures forall id :: Enabled(b, Send(p, id)) ==>
              p in Next(b, Send(p, id)).readers &&
              |b.registered - Next(b, Send(p, id)).readers[p].visited| < |b.registered - b.readers[p].visited|
  {
    hide OfferedInOrder, Authentic, ChanOK, LocksOK;
    assert ReaderOK(b, p);
    if b.readers[p].visited != b.registered {
      var id :| id in b.registered && id !in b.readers[p].visited;
      assert Enabled(b, Send(p, id));
    }
    forall id | Enabled(b, Send(p, id))
      ensures p in Next(b, Send(p, id)).readers &&
              |b.registered - Next(b, Send(p, id)).readers[p].visited| < |b.registered - b.readers[p].visited|
    {
      var rest := b.registered - b.readers[p].visited;
      assert b.registered - Next(b, Send(p, id)).readers[p].visited == rest - {id};
    }
  }

  /** The holder of the write lock can always go on. */
  lemma WriterNeverStuck(b: Bus)
    requires Inv(b) && !b.writer.Free?
    ensures exists step :: step in [TakeID, Register, Remove, Close, Unlock] && Enabled(b, step)
  {
    hide OfferedInOrder, Authentic, ChanOK, ReaderOK, ChansOK;
    var step := match b.writer
      case Subscribing(_) => TakeID
      case Numbered(_, _) => Register
      case Cancelling(_) => Remove
      case Closing(_) => Close
      case _ => Unlock;
    assert Enabled(b, step);
  }

  // ---------- Cancelling again ----------

  /** Cancelling a removed channel takes the lock, finds nothing, and changes nothing. */
  lemma CancelAgainIsHarmless(b: Bus, id: nat)
    requires Inv(b) && Enabled(b, LockCancel(id)) && id !in b.registered
    ensures IsRun(b, [LockCancel(id), Remove, Unlock]) && After(b, [LockCancel(id), Remove, Unlock]) == b
  {
    hide Inv;
    var b1 := Next(b, LockCancel(id));
    var b2 := Next(b1, Remove);
    assert [LockCancel(id), Remove, Unlock][1..] == [Remove, Unlock];
    assert [Remove, Unlock][1..] == [Unlock];
    assert [Unlock][1..] == [];
    assert IsRun(b2, [Unlock]) && After(b2, [Unlock]) == Next(b2, Unlock);
    assert IsRun(b1, [Remove, Unlock]) && After(b1, [Remove, Unlock]) == Next(b2, Unlock);
  }
}
