/**
 The key-value store of one namespace as a value, and what each message does to it.

 A store holds the entries (with the instant at which each one expires), the pub/sub
 channels (each a list of subscribers) and the queues its subscribers read from. A
 queue is named by its position, so every subscription gets a fresh name. `sent` is
 everything the queue ever accepted; `open` turns false when the receiver is dropped.
 */
module KvModel {
  import opened Common

  type Time = nat

  datatype Value = Value(value: Bytes, expiresAt: Option<Time>)

  datatype Queue = Queue(open: bool, sent: seq<Bytes>)

  datatype Store = Store(entries: map<Bytes, Value>, channels: map<Bytes, seq<nat>>, queues: seq<Queue>)

  datatype Operation =
    | Set(key: Bytes, value: Bytes, nx: bool, px: Option<Time>)
    | Get(key: Bytes)
    | Delex(key: Bytes, ifeq: Bytes)
    | Subscribe(channel: Bytes)
    | Publish(channel: Bytes, data: Bytes)

  /** `now` is the clock when the expiry of an existing entry is tested, `stamp` the clock when the
      expiry of a new entry is computed: `set` reads the clock twice. */
  datatype Event =
    | Request(op: Operation, now: Time, stamp: Time)
    | ReceiverDropped(queue: nat)

  datatype Response =
    | SetOk
    | AlreadyExists
    | Got(value: Option<Bytes>)
    | DelexDone
    | Subscribed(queue: nat)
    | Published
    | NoReply

  const EMPTY: Store := Store(map[], map[], [])

  predicate Expired(v: Value, now: Time) {
    v.expiresAt.Some? && v.expiresAt.value <= now
  }

  /** What `get` returns: entries that have expired are still there but not visible. */
  function Lookup(entries: map<Bytes, Value>, key: Bytes, now: Time): Option<Bytes> {
    if key in entries && !Expired(entries[key], now) then Some(entries[key].value) else None
  }

  function Deadline(px: Option<Time>, stamp: Time): Option<Time> {
    if px.Some? then Some(stamp + px.value) else None
  }

  predicate SetRefused(entries: map<Bytes, Value>, key: Bytes, nx: bool, now: Time) {
    nx && Lookup(entries, key, now).Some?
  }

  function Insert(entries: map<Bytes, Value>, op: Operation, stamp: Time): map<Bytes, Value>
    requires op.Set?
  {
    entries[op.key := Value(op.value, Deadline(op.px, stamp))]
  }

  /** Compare-and-delete looks at the stored bytes only, not at the expiry. */
  function DeleteIfEqual(entries: map<Bytes, Value>, key: Bytes, ifeq: Bytes): map<Bytes, Value> {
    if key in entries && entries[key].value == ifeq then entries - {key} else entries
  }

  predicate IsOpen(queues: seq<Queue>, q: nat) {
    q < |queues| && queues[q].open
  }

  /** The subscribers a publish keeps: those whose receiver still exists. */
  function Kept(queues: seq<Queue>, subscribers: seq<nat>): seq<nat> {
    if subscribers == [] then []
    else
      var last := subscribers[|subscribers| - 1];
      Kept(queues, subscribers[..|subscribers| - 1]) + if IsOpen(queues, last) then [last] else []
  }

  function Send(queues: seq<Queue>, q: nat, data: Bytes): seq<Queue> {
    if IsOpen(queues, q) then queues[q := Queue(true, queues[q].sent + [data])] else queues
  }

  /** The queues after a publish tried every subscriber in turn. */
  function Delivered(queues: seq<Queue>, subscribers: seq<nat>, data: Bytes): seq<Queue> {
    if subscribers == [] then queues
    else
      Send(Delivered(queues, subscribers[..|subscribers| - 1], data), subscribers[|subscribers| - 1], data)
  }

  function AddSubscriber(s: Store, channel: Bytes): Store {
    var before := if channel in s.channels then s.channels[channel] else [];
    s.(channels := s.channels[channel := before + [|s.queues|]], queues := s.queues + [Queue(true, [])])
  }

  function PublishTo(s: Store, channel: Bytes, data: Bytes): Store {
    if channel !in s.channels then s
    else
      var kept := Kept(s.queues, s.channels[channel]);
      s.(channels := if kept == [] then s.channels - {channel} else s.channels[channel := kept],
         queues := Delivered(s.queues, s.channels[channel], data))
  }

  function DropReceiver(queues: seq<Queue>, q: nat): seq<Queue> {
    if q < |queues| then queues[q := queues[q].(open := false)] else queues
  }

  /** One message, or one receiver going away. */
  function Step(s: Store, e: Event): Store {
    match e
    case ReceiverDropped(q) => s.(queues := DropReceiver(s.queues, q))
    case Request(op, now, stamp) =>
      match op
      case Set(key, _, nx, _) =>
        if SetRefused(s.entries, key, nx, now) then s else s.(entries := Insert(s.entries, op, stamp))
      case Get(_) => s
      case Delex(key, ifeq) => s.(entries := DeleteIfEqual(s.entries, key, ifeq))
      case Subscribe(channel) => AddSubscriber(s, channel)
      case Publish(channel, data) => PublishTo(s, channel, data)
  }

  function Reply(s: Store, e: Event): Response {
    match e
    case ReceiverDropped(_) => NoReply
    case Request(op, now, stamp) =>
      match op
      case Set(key, _, nx, _) => if SetRefused(s.entries, key, nx, now) then AlreadyExists else SetOk
      case Get(key) => Got(Lookup(s.entries, key, now))
      case Delex(_, _) => DelexDone
      case Subscribe(_) => Subscribed(|s.queues|)
      case Publish(_, _) => Published
  }

  /** The store after all of `events`. */
  function Run(s: Store, events: seq<Event>): Store {
    if events == [] then s else Step(Run(s, events[..|events| - 1]), events[|events| - 1])
  }

  lemma RunPrefix(s: Store, events: seq<Event>, i: nat)
    requires i < |events|
    ensures Run(s, events[..i + 1]) == Step(Run(s, events[..i]), events[i])
  {
    assert events[..i + 1][..i] == events[..i];
  }

  lemma {:induction false} RunConcat(s: Store, a: seq<Event>, b: seq<Event>)
    ensures Run(s, a + b) == Run(Run(s, a), b)
  {
    if b == [] {
      assert a + b == a;
    } else {
      var n := |b| - 1;
      RunConcat(s, a, b[..n]);
      assert (a + b)[..|a + b| - 1] == a + b[..n];
    }
  }

  /** The clock never runs backwards, within a message or between messages. */
  ghost predicate ClockNeverRunsBack(events: seq<Event>) {
    && (forall i :: 0 <= i < |events| && events[i].Request? ==> events[i].now <= events[i].stamp)
    && (forall i, j :: 0 <= i < j < |events| && events[i].Request? && events[j].Request? ==>
          events[i].stamp <= events[j].now)
  }
}
