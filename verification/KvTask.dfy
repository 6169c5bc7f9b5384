/**
 The key-value task: one store per namespace, created by the first message that names it,
 all driven from one queue of messages.
 */
module KvTask {
  import opened Common
  import opened KvModel

  datatype TaskEvent = TaskEvent(namespace: string, event: Event)

  function StoreOf(stores: map<string, Store>, namespace: string): Store {
    if namespace in stores then stores[namespace] else EMPTY
  }

  function TaskStep(stores: map<string, Store>, e: TaskEvent): map<string, Store> {
    stores[e.namespace := Step(StoreOf(stores, e.namespace), e.event)]
  }

  function TaskRun(events: seq<TaskEvent>): map<string, Store> {
    if events == [] then map[] else TaskStep(TaskRun(events[..|events| - 1]), events[|events| - 1])
  }

  function TaskReply(before: seq<TaskEvent>, e: TaskEvent): Response {
    Reply(StoreOf(TaskRun(before), e.namespace), e.event)
  }

  /** Every answer of a run, in order. */
  function TaskReplies(events: seq<TaskEvent>): seq<Response> {
    if events == [] then []
    else TaskReplies(events[..|events| - 1]) + [TaskReply(events[..|events| - 1], events[|events| - 1])]
  }

  lemma TaskPrefix(events: seq<TaskEvent>, i: nat)
    requires i < |events|
    ensures TaskRun(events[..i + 1]) == TaskStep(TaskRun(events[..i]), events[i])
    ensures TaskReplies(events[..i + 1]) == TaskReplies(events[..i]) + [TaskReply(events[..i], events[i])]
  {
    assert events[..i + 1][..i] == events[..i];
  }

  lemma {:induction false} TaskReplyAt(events: seq<TaskEvent>, i: nat)
    requires i < |events|
    ensures |TaskReplies(events)| == |events|
    ensures TaskReplies(events)[i] == TaskReply(events[..i], events[i])
  {
    var n := |events| - 1;
    if i < n {
      TaskReplyAt(events[..n], i);
      assert events[..n][..i] == events[..i];
    } else if n > 0 {
      TaskReplyAt(events[..n], n - 1);
    }
  }

  /** The messages of one namespace, in order. */
  function Projected(events: seq<TaskEvent>, namespace: string): seq<Event> {
    if events == [] then []
    else
      var last := events[|events| - 1];
      Projected(events[..|events| - 1], namespace) + if last.namespace == namespace then [last.event] else []
  }

  lemma {:induction false} NamespaceIsolated(events: seq<TaskEvent>, namespace: string)
    ensures StoreOf(TaskRun(events), namespace) == Run(EMPTY, Projected(events, namespace))
  {
    if events != [] {
      var n := |events| - 1;
      NamespaceIsolated(events[..n], namespace);
      var before := Projected(events[..n], namespace);
      if events[n].namespace == namespace {
        assert (before + [events[n].event])[..|before|] == before;
      } else {
        assert Projected(events, namespace) == before;
      }
    }
  }

  /** Main result: a namespace's store and every answer it gives are those of running its own messages
      alone on a fresh store, whatever the other namespaces do in between. */
  lemma {:induction false} NamespaceProjection(events: seq<TaskEvent>, i: nat)
    requires i < |events|
    ensures var own := Projected(events[..i], events[i].namespace);
            && |TaskReplies(events)| == |events|
            && TaskReplies(events)[i] == Reply(Run(EMPTY, own), events[i].event)
            && StoreOf(TaskRun(events[..i + 1]), events[i].namespace) == Run(EMPTY, own + [events[i].event])
  {
    var own := Projected(events[..i], events[i].namespace);
    TaskReplyAt(events, i);
    NamespaceIsolated(events[..i], events[i].namespace);
    NamespaceIsolated(events[..i + 1], events[i].namespace);
    assert events[..i + 1][..i] == events[..i];
  }

  /** The store object of one namespace. */
  class Kv {
    var entries: map<Bytes, Value>
    var channels: map<Bytes, seq<nat>>
    var queues: seq<Queue>

    ghost function Contents(): Store
      reads this
    {
      Store(entries, channels, queues)
    }

    constructor ()
      ensures Contents() == EMPTY
    {
      entries := map[];
      channels := map[];
      queues := [];
    }

    method Get(key: Bytes, now: Time) returns (value: Option<Bytes>)
      ensures value == Lookup(entries, key, now)
    {
      if key !in entries {
        return None;
      }
      var found := entries[key];
      if found.expiresAt.Some? && found.expiresAt.value <= now {
        return None;
      }
      return Some(found.value);
    }

    method Set(key: Bytes, value: Bytes, nx: bool, px: Option<Time>, now: Time, stamp: Time) returns (ok: bool)
      modifies this`entries
      ensures ok == !SetRefused(old(entries), key, nx, now)
      ensures entries == if ok then old(entries)[key := Value(value, Deadline(px, stamp))] else old(entries)
    {
      if nx {
        var existing := Get(key, now);
        if existing.Some? {
          return false;
        }
      }
      entries := entries[key := Value(value, if px.Some? then Some(stamp + px.value) else None)];
      return true;
    }

    method Delex(key: Bytes, ifeq: Bytes)
      modifies this`entries
      ensures entries == DeleteIfEqual(old(entries), key, ifeq)
    {
      if key !in entries {
        return;
      }
      if entries[key].value == ifeq {
        entries := entries - {key};
      }
    }

    method Subscribe(channel: Bytes) returns (queue: nat)
      modifies this`channels, this`queues
      ensures queue == |old(queues)|
      ensures Contents() == AddSubscriber(old(Contents()), channel)
    {
      queue := |queues|;
      queues := queues + [Queue(true, [])];
      if channel !in channels {
        channels := channels[channel := []];
      }
      channels := channels[channel := channels[channel] + [queue]];
    }

    /** Offers the data to every subscriber and returns those that are still there. */
    method SendToSubscribers(subscribers: seq<nat>, data: Bytes) returns (kept: seq<nat>)
      modifies this`queues
      ensures kept == Kept(old(queues), subscribers)
      ensures queues == Delivered(old(queues), subscribers, data)
    {
      kept := [];
      for i := 0 to |subscribers|
        invariant kept == Kept(old(queues), subscribers[..i])
        invariant queues == Delivered(old(queues), subscribers[..i], data)
        invariant |queues| == |old(queues)| && forall q :: 0 <= q < |queues| ==> queues[q].open == old(queues)[q].open
      {
        assert subscribers[..i + 1][..i] == subscribers[..i];
        var q := subscribers[i];
        if q < |queues| && queues[q].open {
          queues := queues[q := Queue(true, queues[q].sent + [data])];
          kept := kept + [q];
        }
      }
      assert subscribers[..|subscribers|] == subscribers;
    }

    method Publish(channel: Bytes, data: Bytes)
      modifies this`channels, this`queues
      ensures Contents() == PublishTo(old(Contents()), channel, data)
    {
      if channel in channels {
        var kept := SendToSubscribers(channels[channel], data);
        channels := channels[channel := kept];
        if |kept| == 0 {
          channels := channels - {channel};
        }
      }
    }

    method CloseQueue(queue: nat)
      modifies this`queues
      ensures queues == DropReceiver(old(queues), queue)
    {
      if queue < |queues| {
        queues := queues[queue := queues[queue].(open := false)];
      }
    }

    method Handle(e: Event) returns (r: Response)
      modifies this
      ensures Contents() == Step(old(Contents()), e)
      ensures r == Reply(old(Contents()), e)
    {
      match e
      case ReceiverDropped(q) =>
        CloseQueue(q);
        r := NoReply;
      case Request(op, now, stamp) =>
        match op
        case Set(key, value, nx, px) =>
          var ok := Set(key, value, nx, px, now, stamp);
          r := if ok then SetOk else AlreadyExists;
        case Get(key) =>
          var value := Get(key, now);
          r := Got(value);
        case Delex(key, ifeq) =>
          Delex(key, ifeq);
          r := DelexDone;
        case Subscribe(channel) =>
          var queue := Subscribe(channel);
          r := Subscribed(queue);
        case Publish(channel, data) =>
          Publish(channel, data);
          r := Published;
    }
  }

  /** Each namespace has its own object and the object holds that namespace's store. */
  ghost predicate Represents(objects: map<string, Kv>, stores: map<string, Store>)
    reads objects.Values
  {
    && objects.Keys == stores.Keys
    && (forall n :: n in objects ==> objects[n].Contents() == stores[n])
    && (forall m, n :: m in objects && n in objects && m != n ==> objects[m] != objects[n])
  }

  /** One turn of the loop: find or create the namespace's store and hand it the message. */
  method Dispatch(objects: map<string, Kv>, e: TaskEvent, ghost stores: map<string, Store>)
    returns (after: map<string, Kv>, reply: Response)
    requires Represents(objects, stores)
    modifies objects.Values
    ensures Represents(after, TaskStep(stores, e))
    ensures reply == Reply(StoreOf(stores, e.namespace), e.event)
    ensures forall n :: n in after ==> fresh(after[n]) || (n in objects && after[n] == objects[n])
  {
    after := objects;
    if e.namespace !in objects {
      var created := new Kv();
      after := objects[e.namespace := created];
    }
    var kv := after[e.namespace];
    assert e.namespace in objects ==> kv in objects.Values;
    reply := kv.Handle(e.event);
  }

  /** The message loop of the task. */
  method RunKvTask(events: seq<TaskEvent>) returns (objects: map<string, Kv>, replies: seq<Response>)
    ensures Represents(objects, TaskRun(events))
    ensures replies == TaskReplies(events)
  {
    objects, replies := map[], [];
    ghost var stores: map<string, Store> := map[];
    for i := 0 to |events|
      invariant forall n :: n in objects ==> fresh(objects[n])
      invariant Represents(objects, stores)
      invariant stores == TaskRun(events[..i])
      invariant replies == TaskReplies(events[..i])
    {
      var reply;
      objects, reply := Dispatch(objects, events[i], stores);
      TaskPrefix(events, i);
      stores, replies := TaskStep(stores, events[i]), replies + [reply];
    }
    assert events[..|events|] == events;
  }
}
