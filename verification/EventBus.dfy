/**
  The event bus as a machine of atomic steps: publishers under the read lock offer an
  event to each registered channel without waiting, subscribers and cancellers take the
  write lock, receivers drain the channels at any time. Sending on or closing a closed
  channel is a panic.
 */
module EventBus {
  import opened Results

  const DEFAULT_BUFFER := 16

  datatype Event = Event(timestamp: nat, kind: string, tool: string)

  /** An event on its way: the index counts what its publisher published. */
  datatype Msg = Msg(publisher: int, index: nat, event: Event)

  /** History of one attempt to send: how full the buffer was and whether the event went in. */
  datatype Offer = Offer(msg: Msg, occupancy: nat, delivered: bool)

  type Published = map<int, seq<Event>>

  /** since and until record what had been published when the channel was registered and removed. */
  datatype Chan = Chan(
    cap: nat,
    buffer: seq<Msg>,
    closed: bool,
    received: seq<Msg>,
    offers: seq<Offer>,
    since: Published,
    until: Option<Published>)

  datatype Reader = Reader(msg: Msg, visited: set<nat>)

  /** What the holder of the write lock does next. */
  datatype Writer =
    | Free
    | Subscribing(cap: nat)
    | Numbered(cap: nat, id: nat)
    | Cancelling(id: nat)
    | Closing(id: nat)
    | Unlocking

  datatype Bus = Bus(
    nextID: nat,
    chans: map<nat, Chan>,
    registered: set<nat>,
    readers: map<int, Reader>,
    writer: Writer,
    published: Published,
    panicked: bool)

  datatype Step =
    | PublishBegin(publisher: int, event: Event, now: nat)
    | Send(publisher: int, id: nat)
    | PublishEnd(publisher: int)
    | LockSubscribe(bufferSize: int)
    | TakeID
    | Register
    | LockCancel(id: nat)
    | Remove
    | Close
    | Unlock
    | Receive(id: nat)

  const START := Bus(0, map[], {}, map[], Free, map[], false)

  function WithTimestamp(e: Event, now: nat): Event {
    if e.timestamp == 0 then e.(timestamp := now) else e
  }

  function Capacity(bufferSize: int): (cap: nat)
    ensures cap >= 1
  {
    if bufferSize <= 0 then DEFAULT_BUFFER else bufferSize
  }

  function By(published: Published, p: int): seq<Event> {
    if p in published then published[p] else []
  }

  function NewChan(cap: nat, published: Published): Chan {
    Chan(cap, [], false, [], [], published, None)
  }

  /** select { case ch <- event: default: } on a buffered channel that is open. */
  function Offered(ch: Chan, msg: Msg): Chan {
    var full := |ch.buffer| >= ch.cap;
    ch.(buffer := if full then ch.buffer else ch.buffer + [msg],
        offers := ch.offers + [Offer(msg, |ch.buffer|, !full)])
  }

  predicate Enabled(b: Bus, step: Step) {
    match step
    case PublishBegin(p, _, _) => b.writer.Free? && p !in b.readers
    case Send(p, id) => p in b.readers && id in b.registered && id in b.chans && id !in b.readers[p].visited
    case PublishEnd(p) => p in b.readers && b.readers[p].visited == b.registered
    case LockSubscribe(_) => b.writer.Free? && b.readers == map[]
    case TakeID => b.writer.Subscribing?
    case Register => b.writer.Numbered?
    case LockCancel(id) => b.writer.Free? && b.readers == map[] && id in b.chans
    case Remove => b.writer.Cancelling?
    case Close => b.writer.Closing? && b.writer.id in b.chans
    case Unlock => b.writer.Unlocking?
    case Receive(id) => id in b.chans && b.chans[id].buffer != []
  }

  function Next(b: Bus, step: Step): Bus
    requires Enabled(b, step)
  {
    match step
    case PublishBegin(p, e, now) =>
      var e' := WithTimestamp(e, now);
      b.(published := b.published[p := By(b.published, p) + [e']],
         readers := b.readers[p := Reader(Msg(p, |By(b.published, p)|, e'), {})])
    case Send(p, id) =>
      if b.chans[id].closed then b.(panicked := true)
      else
        b.(chans := b.chans[id := Offered(b.chans[id], b.readers[p].msg)],
           readers := b.readers[p := b.readers[p].(visited := b.readers[p].visited + {id})])
    case PublishEnd(p) => b.(readers := b.readers - {p})
    case LockSubscribe(bufferSize) => b.(writer := Subscribing(Capacity(bufferSize)))
    case TakeID => b.(writer := Numbered(b.writer.cap, b.nextID), nextID := b.nextID + 1)
    case Register =>
      b.(chans := b.chans[b.writer.id := NewChan(b.writer.cap, b.published)],
         registered := b.registered + {b.writer.id},
         writer := Unlocking)
    case LockCancel(id) => b.(writer := Cancelling(id))
    case Remove =>
      var id := b.writer.id;
      if id in b.registered && id in b.chans then
        b.(registered := b.registered - {id}, writer := Closing(id),
           chans := b.chans[id := b.chans[id].(until := Some(b.published))])
      else b.(writer := Unlocking)
    case Close =>
      var ch := b.chans[b.writer.id];
      if ch.closed then b.(panicked := true)
      else b.(chans := b.chans[b.writer.id := ch.(closed := true)], writer := Unlocking)
    case Unlock => b.(writer := Free)
    case Receive(id) =>
      var ch := b.chans[id];
      b.(chans := b.chans[id := ch.(buffer := ch.buffer[1..], received := ch.received + [ch.buffer[0]])])
  }

  // ---------- What a channel was offered and what it kept ----------

  function Delivered(offers: seq<Offer>): seq<Msg> {
    if offers == [] then []
    else
      var last := offers[|offers| - 1];
      Delivered(offers[..|offers| - 1]) + if last.delivered then [last.msg] else []
  }

  /** The indices of the messages of one publisher, in order. */
  function Indices(msgs: seq<Msg>, p: int): seq<nat> {
    if msgs == [] then []
    else
      var last := msgs[|msgs| - 1];
      Indices(msgs[..|msgs| - 1], p) + if last.publisher == p then [last.index] else []
  }

  function Messages(offers: seq<Offer>): seq<Msg> {
    seq(|offers|, i requires 0 <= i < |offers| => offers[i].msg)
  }

  function Range(lo: nat, hi: nat): (r: seq<nat>)
    requires lo <= hi
    ensures |r| == hi - lo
  {
    seq(hi - lo, i requires 0 <= i < hi - lo => lo + i)
  }

  /** a arises from b by leaving elements out. */
  predicate Sublist(a: seq<nat>, b: seq<nat>)
    decreases |b|
  {
    a == [] ||
    (b != [] &&
     ((a[|a| - 1] == b[|b| - 1] && Sublist(a[..|a| - 1], b[..|b| - 1])) || Sublist(a, b[..|b| - 1])))
  }

  // ---------- The invariant ----------

  /** One channel: bounded, holding what was delivered, and refusing only when full. */
  predicate ChanOK(ch: Chan) {
    && 1 <= ch.cap
    && |ch.buffer| <= ch.cap
    && ch.received + ch.buffer == Delivered(ch.offers)
    && (forall i :: 0 <= i < |ch.offers| ==>
          ch.offers[i].occupancy <= ch.cap && (ch.offers[i].delivered <==> ch.offers[i].occupancy < ch.cap))
  }

  /** Up to where the publisher's events have been offered to the channel. */
  function OfferedUpTo(b: Bus, id: nat, p: int): int
    requires id in b.chans
  {
    if b.chans[id].until.Some? then |By(b.chans[id].until.value, p)|
    else |By(b.published, p)| - if p in b.readers && id !in b.readers[p].visited then 1 else 0
  }

  /** The channel was offered every event of the publisher from its registration on, each once, in order. */
  predicate OfferedInOrder(b: Bus, id: nat, p: int)
    requires id in b.chans
  {
    var ch := b.chans[id];
    var lo, hi := |By(ch.since, p)|, OfferedUpTo(b, id, p);
    lo <= hi <= |By(b.published, p)| && Indices(Messages(ch.offers), p) == Range(lo, hi)
  }

  predicate Authentic(published: Published, offers: seq<Offer>) {
    forall i :: 0 <= i < |offers| ==>
      var m := offers[i].msg;
      m.index < |By(published, m.publisher)| && By(published, m.publisher)[m.index] == m.event
  }

  predicate ReaderOK(b: Bus, p: int)
    requires p in b.readers
  {
    var r := b.readers[p];
    && r.msg.publisher == p
    && r.msg.index + 1 == |By(b.published, p)|
    && By(b.published, p)[r.msg.index] == r.msg.event
    && r.visited <= b.registered
  }

  predicate LocksOK(b: Bus) {
    && (b.readers != map[] ==> b.writer.Free?)
    && (b.writer.Subscribing? ==> b.writer.cap >= 1)
    && (b.writer.Numbered? ==> b.writer.cap >= 1 && b.writer.id !in b.chans && b.writer.id + 1 == b.nextID)
    && (b.writer.Closing? ==> b.writer.id in b.chans && b.writer.id !in b.registered && !b.chans[b.writer.id].closed)
  }

  /** A registered channel is open; an unregistered one has been removed. */
  predicate ChansOK(b: Bus) {
    && (forall id :: id in b.registered ==> id in b.chans && !b.chans[id].closed && b.chans[id].until == None)
    && (forall id :: id in b.chans ==> id < b.nextID)
    && (forall id :: id in b.chans && id !in b.registered ==> b.chans[id].until.Some?)
  }

  ghost predicate Inv(b: Bus) {
    && !b.panicked
    && LocksOK(b)
    && ChansOK(b)
    && (forall id :: id in b.chans ==> ChanOK(b.chans[id]))
    && (forall id :: id in b.chans ==> Authentic(b.published, b.chans[id].offers))
    && (forall id, p: int :: id in b.chans ==> OfferedInOrder(b, id, p))
    && (forall p :: p in b.readers ==> ReaderOK(b, p))
  }
}
