/**
  The bus as its callers use it: an object with a counter and a map of channels. A call
  that runs without interruption does what the same steps do one by one, in whatever
  order the map is walked.
 */
module EventBusCalls {
  import opened Results
  import opened EventBus
  import opened EventBusRuns

  // What one whole publication does to the channels of a bus.
  function OfferedAll(chans: map<nat, Chan>, ids: set<nat>, msg: Msg): map<nat, Chan> {
    map id | id in chans :: if id in ids then Offered(chans[id], msg) else chans[id]
  }

  function NextMsg(b: Bus, p: int, e: Event, now: nat): Msg {
    Msg(p, |By(b.published, p)|, WithTimestamp(e, now))
  }

  /** Publish as one step: every registered channel is offered the event once, no other is touched. */
  function PublishedAll(b: Bus, p: int, e: Event, now: nat): Bus {
    b.(published := b.published[p := By(b.published, p) + [WithTimestamp(e, now)]],
       chans := OfferedAll(b.chans, b.registered, NextMsg(b, p, e, now)))
  }

  /** Subscribe as one step. */
  function Subscribed(b: Bus, bufferSize: int): Bus {
    b.(nextID := b.nextID + 1,
       chans := b.chans[b.nextID := NewChan(Capacity(bufferSize), b.published)],
       registered := b.registered + {b.nextID})
  }

  /** The cancel closure as one step. */
  function Cancelled(b: Bus, id: nat): Bus {
    if id in b.registered && id in b.chans then
      b.(registered := b.registered - {id},
         chans := b.chans[id := b.chans[id].(until := Some(b.published), closed := true)])
    else b
  }

  // ---------- Runs of steps ----------

  lemma {:induction false} RunConcat(b: Bus, first: seq<Step>, second: seq<Step>)
    requires IsRun(b, first) && IsRun(After(b, first), second)
    ensures IsRun(b, first + second)
    ensures After(b, first + second) == After(After(b, first), second)
    decreases |first|
  {
    hide Enabled, Next;
    if first == [] {
      assert first + second == second;
    } else {
      assert (first + second)[1..] == first[1..] + second;
      RunConcat(Next(b, first[0]), first[1..], second);
    }
  }

  lemma RunOne(b: Bus, step: Step)
    requires Enabled(b, step)
    ensures IsRun(b, [step]) && After(b, [step]) == Next(b, step)
  {
    hide Enabled, Next;
    assert [step][1..] == [];
  }

  function Sends(p: int, order: seq<nat>): seq<Step> {
    seq(|order|, i requires 0 <= i < |order| => Send(p, order[i]))
  }

  predicate Distinct(order: seq<nat>) {
    forall i, j :: 0 <= i < j < |order| ==> order[i] != order[j]
  }

  function Members(order: seq<nat>): set<nat> {
    set i | 0 <= i < |order| :: order[i]
  }

  // A publisher half way: it has offered its event to the channels of done.
  function Partly(b: Bus, p: int, done: set<nat>): Bus
    requires p in b.readers
  {
    b.(chans := OfferedAll(b.chans, done, b.readers[p].msg), readers := b.readers[p := b.readers[p].(visited := done)])
  }

  lemma SendOne(b: Bus, p: int, done: set<nat>, id: nat)
    requires ChansOK(b) && p in b.readers && done <= b.registered && id in b.registered && id !in done
    ensures Enabled(Partly(b, p, done), Send(p, id))
    ensures Next(Partly(b, p, done), Send(p, id)) == Partly(b, p, done + {id})
  {
    var before, after := Next(Partly(b, p, done), Send(p, id)), Partly(b, p, done + {id});
    assert before.chans == after.chans;
    assert before.readers == after.readers;
  }

  lemma {:induction false} SendAll(b: Bus, p: int, done: set<nat>, order: seq<nat>)
    requires ChansOK(b) && p in b.readers && done <= b.registered
    requires Distinct(order) && Members(order) !! done && Members(order) <= b.registered
    ensures IsRun(Partly(b, p, done), Sends(p, order))
    ensures After(Partly(b, p, done), Sends(p, order)) == Partly(b, p, done + Members(order))
    decreases |order|
  {
    hide ChansOK, Partly, Enabled, Next;
    if order == [] {
      assert done + Members(order) == done;
    } else {
      var rest := order[1..];
      assert order[0] in Members(order);
      SendOne(b, p, done, order[0]);
      assert Members(order) == {order[0]} + Members(rest) by {
        assert forall i :: 0 < i < |order| ==> order[i] == rest[i - 1];
      }
      assert order[0] !in Members(rest);
      SendAll(b, p, done + {order[0]}, rest);
      assert Sends(p, order)[1..] == Sends(p, rest);
      assert done + {order[0]} + Members(rest) == done + Members(order);
    }
  }

  /**
    A publication that is not interrupted has the same effect in every order of the
    registered channels: each is offered the event exactly once.
   */
  lemma PublishAnyOrder(b: Bus, p: int, e: Event, now: nat, order: seq<nat>)
    requires Inv(b) && b.writer.Free? && p !in b.readers
    requires Distinct(order) && Members(order) == b.registered
    ensures var steps := [PublishBegin(p, e, now)] + Sends(p, order) + [PublishEnd(p)];
            IsRun(b, steps) && After(b, steps) == PublishedAll(b, p, e, now)
  {
    hide Inv, ChansOK, IsRun, After, By, WithTimestamp, Offered;
    var begun := Next(b, PublishBegin(p, e, now));
    assert ChansOK(begun) by { BegunChans(b, p, e, now); }
    RunOne(b, PublishBegin(p, e, now));
    assert Partly(begun, p, {}) == begun by { NothingOffered(begun, p); }
    SendAll(begun, p, {}, order);
    assert {} + Members(order) == b.registered;
    var sent := Partly(begun, p, b.registered);
    RunOne(sent, PublishEnd(p));
    RunConcat(b, [PublishBegin(p, e, now)], Sends(p, order));
    RunConcat(b, [PublishBegin(p, e, now)] + Sends(p, order), [PublishEnd(p)]);
    assert (sent.readers - {p}) == b.readers;
  }

  lemma BegunChans(b: Bus, p: int, e: Event, now: nat)
    requires Inv(b) && Enabled(b, PublishBegin(p, e, now))
    ensures ChansOK(Next(b, PublishBegin(p, e, now)))
  {
    hide OfferedInOrder, Authentic, ChanOK, ReaderOK;
  }

  lemma NothingOffered(b: Bus, p: int)
    requires p in b.readers && b.readers[p].visited == {}
    ensures Partly(b, p, {}) == b
  {
    assert OfferedAll(b.chans, {}, b.readers[p].msg) == b.chans;
    assert b.readers[p := b.readers[p].(visited := {})] == b.readers;
  }

  lemma SubscribeSteps(b: Bus, bufferSize: int)
    requires b.writer.Free? && b.readers == map[]
    ensures var steps := [LockSubscribe(bufferSize), TakeID, Register, Unlock];
            IsRun(b, steps) && After(b, steps) == Subscribed(b, bufferSize)
  {
    hide IsRun, After, Capacity, NewChan;
    var b1 := Next(b, LockSubscribe(bufferSize));
    var b2 := Next(b1, TakeID);
    var b3 := Next(b2, Register);
    RunOne(b3, Unlock);
    RunOne(b2, Register);
    RunOne(b1, TakeID);
    RunOne(b, LockSubscribe(bufferSize));
    RunConcat(b2, [Register], [Unlock]);
    RunConcat(b1, [TakeID], [Register] + [Unlock]);
    RunConcat(b, [LockSubscribe(bufferSize)], [TakeID] + ([Register] + [Unlock]));
    assert [LockSubscribe(bufferSize)] + ([TakeID] + ([Register] + [Unlock])) == [LockSubscribe(bufferSize), TakeID, Register, Unlock];
  }

  lemma CancelSteps(b: Bus, id: nat)
    requires ChansOK(b) && b.writer.Free? && b.readers == map[] && id in b.registered
    ensures var steps := [LockCancel(id), Remove, Close, Unlock];
            IsRun(b, steps) && After(b, steps) == Cancelled(b, id)
  {
    hide IsRun, After;
    var b1 := Next(b, LockCancel(id));
    var b2 := Next(b1, Remove);
    var b3 := Next(b2, Close);
    RunOne(b3, Unlock);
    RunOne(b2, Close);
    RunOne(b1, Remove);
    RunOne(b, LockCancel(id));
    RunConcat(b2, [Close], [Unlock]);
    RunConcat(b1, [Remove], [Close] + [Unlock]);
    RunConcat(b, [LockCancel(id)], [Remove] + ([Close] + [Unlock]));
    assert [LockCancel(id)] + ([Remove] + ([Close] + [Unlock])) == [LockCancel(id), Remove, Close, Unlock];
    assert Next(b3, Unlock).chans == Cancelled(b, id).chans;
  }

  // ---------- Whole calls keep the invariant ----------

  lemma MembersCons(id: nat, rest: seq<nat>)
    ensures Members([id] + rest) == {id} + Members(rest)
    ensures Distinct(rest) && id !in Members(rest) ==> Distinct([id] + rest)
  {
    var order := [id] + rest;
    assert forall i :: 0 < i < |order| ==> order[i] == rest[i - 1];
    forall i | 0 <= i < |rest|
      ensures rest[i] in Members(order)
    {
      assert order[i + 1] == rest[i];
    }
    assert order[0] == id;
  }

  lemma {:induction false} Enumerate(ids: set<nat>) returns (order: seq<nat>)
    ensures Distinct(order) && Members(order) == ids
    decreases |ids|
  {
    if ids == {} {
      order := [];
    } else {
      hide Distinct, Members;
      var id :| id in ids;
      var rest := Enumerate(ids - {id});
      MembersCons(id, rest);
      order := [id] + rest;
    }
  }

  /** A whole publication, subscription or cancellation keeps everything each of its steps keeps. */
  lemma PublishedKeepsInv(b: Bus, p: int, e: Event, now: nat)
    requires Inv(b) && b.writer.Free? && p !in b.readers
    ensures Inv(PublishedAll(b, p, e, now))
  {
    hide Inv, IsRun, After, PublishedAll, Distinct, Members;
    var order := Enumerate(b.registered);
    PublishAnyOrder(b, p, e, now, order);
    RunKeepsInv(b, [PublishBegin(p, e, now)] + Sends(p, order) + [PublishEnd(p)]);
  }

  lemma SubscribedKeepsInv(b: Bus, bufferSize: int)
    requires Inv(b) && b.writer.Free? && b.readers == map[]
    ensures Inv(Subscribed(b, bufferSize))
  {
    hide Inv, IsRun, After, Subscribed;
    SubscribeSteps(b, bufferSize);
    RunKeepsInv(b, [LockSubscribe(bufferSize), TakeID, Register, Unlock]);
  }

  lemma CancelledKeepsInv(b: Bus, id: nat)
    requires Inv(b) && b.writer.Free? && b.readers == map[]
    ensures Inv(Cancelled(b, id))
  {
    hide IsRun, After, ChanOK, Authentic, OfferedInOrder, ReaderOK, LocksOK;
    if id in b.registered {
      CancelSteps(b, id);
      RunKeepsInv(b, [LockCancel(id), Remove, Close, Unlock]);
    }
  }

  // ---------- The object ----------

  /** The bus between calls; chans also keeps the channels that subscribers still hold after cancelling. */
  class EventBusObject {
    var nextID: nat
    var chans: map<nat, Chan>
    var registered: set<nat>
    var published: Published

    function View(): Bus
      reads this
    {
      Bus(nextID, chans, registered, map[], Free, published, false)
    }

    /** Between calls the bus is one that every interleaving would keep. */
    ghost predicate Valid()
      reads this
    {
      Inv(View())
    }

    constructor ()
      ensures Valid() && View() == START
    {
      nextID, chans, registered, published := 0, map[], {}, map[];
    }

    /** Walks the registered channels in any order; a full channel is passed over. */
    method Publish(publisher: int, event: Event, now: nat)
      requires Valid()
      modifies this
      ensures Valid() && View() == PublishedAll(old(View()), publisher, event, now)
    {
      hide Offered, By, WithTimestamp, ChanOK, Authentic, OfferedInOrder, ReaderOK, LocksOK;
      PublishedKeepsInv(View(), publisher, event, now);
      var msg := Msg(publisher, |By(published, publisher)|, WithTimestamp(event, now));
      published := published[publisher := By(published, publisher) + [msg.event]];
      var rest := registered;
      ghost var before := chans;
      while rest != {}
        invariant rest <= registered == old(registered) && nextID == old(nextID)
        invariant published == old(published)[publisher := By(old(published), publisher) + [msg.event]]
        invariant forall id :: id in registered ==> id in before
        invariant chans == OfferedAll(before, registered - rest, msg)
      {
        var id :| id in rest;
        var ch := chans[id];
        var next := Offered(ch, msg);
        chans := chans[id := next];
        assert registered - (rest - {id}) == registered - rest + {id};
        rest := rest - {id};
      }
      assert registered - rest == registered;
    }

    method Subscribe(bufferSize: int) returns (id: nat)
      requires Valid()
      modifies this
      ensures Valid() && id == old(nextID) && View() == Subscribed(old(View()), bufferSize)
    {
      hide Inv, Capacity, NewChan;
      SubscribedKeepsInv(View(), bufferSize);
      var ch := NewChan(Capacity(bufferSize), published);
      id := nextID;
      nextID := nextID + 1;
      chans := chans[id := ch];
      registered := registered + {id};
    }

    /** The closure Subscribe returns; calling it again does nothing. */
    method Cancel(id: nat)
      requires Valid()
      modifies this
      ensures Valid() && View() == Cancelled(old(View()), id)
    {
      hide Inv;
      CancelledKeepsInv(View(), id);
      if id in registered && id in chans {
        registered := registered - {id};
        chans := chans[id := chans[id].(until := Some(published), closed := true)];
      }
    }
  }

  // ---------- A missing bus ----------

  /** Subscribing to a nil bus hands out a private channel; each cancel closes it. None is the panic of closing twice. */
  function CancelNil(closed: bool): Option<bool> {
    if closed then None else Some(true)
  }

  function CancelNilTimes(closed: bool, times: nat): Option<bool>
    decreases times
  {
    if times == 0 then Some(closed)
    else match CancelNil(closed) case None => None case Some(now) => CancelNilTimes(now, times - 1)
  }

  /** On a nil bus, unlike on a real one, cancelling is safe exactly once. */
  lemma NilCancelPanicsIff(times: nat)
    ensures CancelNilTimes(false, times).None? <==> times >= 2
  {
    if times >= 2 {
      assert CancelNilTimes(true, times - 1).None?;
    }
  }
}
