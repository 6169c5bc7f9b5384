/**
 Delivery of published data.

 The ideal broker below keeps one flat list of subscriptions and never forgets one. The
 store groups subscribers by channel, prunes the closed ones while publishing and drops
 and re-creates channels, yet every queue holds what the ideal broker says, and that is
 exactly what was published on the channel while the subscription was open.
 */
module KvPubSub {
  import opened Common
  import opened KvModel

  datatype Subscription = Subscription(channel: Bytes, open: bool, sent: seq<Bytes>)

  function Offer(sub: Subscription, channel: Bytes, data: Bytes): Subscription {
    if sub.channel == channel && sub.open then sub.(sent := sub.sent + [data]) else sub
  }

  function OfferAll(subs: seq<Subscription>, channel: Bytes, data: Bytes): seq<Subscription> {
    seq(|subs|, i requires 0 <= i < |subs| => Offer(subs[i], channel, data))
  }

  function IdealStep(subs: seq<Subscription>, e: Event): seq<Subscription> {
    match e
    case ReceiverDropped(q) => if q < |subs| then subs[q := subs[q].(open := false)] else subs
    case Request(op, _, _) =>
      match op
      case Subscribe(channel) => subs + [Subscription(channel, true, [])]
      case Publish(channel, data) => OfferAll(subs, channel, data)
      case _ => subs
  }

  function Ideal(events: seq<Event>): seq<Subscription> {
    if events == [] then [] else IdealStep(Ideal(events[..|events| - 1]), events[|events| - 1])
  }

  ghost predicate NoDuplicates(s: seq<nat>) {
    forall i, j :: 0 <= i < j < |s| ==> s[i] != s[j]
  }

  ghost predicate SameQueues(queues: seq<Queue>, subs: seq<Subscription>) {
    && |queues| == |subs|
    && forall q :: 0 <= q < |subs| ==> queues[q] == Queue(subs[q].open, subs[q].sent)
  }

  /** A listed subscriber belongs to the channel, is listed once, and no listed channel is empty. */
  ghost predicate ListedCorrectly(subs: seq<Subscription>, channel: Bytes, subscribers: seq<nat>) {
    && subscribers != []
    && NoDuplicates(subscribers)
    && forall q :: q in subscribers ==> q < |subs| && subs[q].channel == channel
  }

  ghost predicate TableCorrect(channels: map<Bytes, seq<nat>>, subs: seq<Subscription>) {
    && (forall c :: c in channels ==> ListedCorrectly(subs, c, channels[c]))
    && (forall q :: 0 <= q < |subs| && subs[q].open ==>
          subs[q].channel in channels && q in channels[subs[q].channel])
  }

  /** The store's channel table and queues against the ideal broker's list. */
  ghost predicate Matches(s: Store, subs: seq<Subscription>) {
    SameQueues(s.queues, subs) && TableCorrect(s.channels, subs)
  }

  lemma {:induction false} KeptFacts(queues: seq<Queue>, subscribers: seq<nat>)
    requires NoDuplicates(subscribers)
    ensures NoDuplicates(Kept(queues, subscribers))
    ensures forall q :: q in Kept(queues, subscribers) <==> q in subscribers && IsOpen(queues, q)
  {
    if subscribers != [] {
      var n := |subscribers| - 1;
      KeptFacts(queues, subscribers[..n]);
      assert subscribers == subscribers[..n] + [subscribers[n]];
      assert subscribers[n] !in subscribers[..n];
    }
  }

  /** Publishing reaches every open subscriber once and no other queue. */
  lemma {:induction false} DeliveredOnce(queues: seq<Queue>, subscribers: seq<nat>, data: Bytes)
    requires NoDuplicates(subscribers)
    ensures var after := Delivered(queues, subscribers, data);
            && |after| == |queues|
            && forall q :: 0 <= q < |queues| ==>
                 after[q] == if q in subscribers && queues[q].open
                    then Queue(true, queues[q].sent + [data]) else queues[q]
  {
    if subscribers != [] {
      var n := |subscribers| - 1;
      DeliveredOnce(queues, subscribers[..n], data);
      assert subscribers == subscribers[..n] + [subscribers[n]];
      assert subscribers[n] !in subscribers[..n];
    }
  }

  lemma PublishMatches(s: Store, subs: seq<Subscription>, channel: Bytes, data: Bytes)
    requires Matches(s, subs)
    ensures Matches(PublishTo(s, channel, data), OfferAll(subs, channel, data))
  {
    var s', subs' := PublishTo(s, channel, data), OfferAll(subs, channel, data);
    if channel in s.channels {
      assert ListedCorrectly(subs, channel, s.channels[channel]);
      KeptFacts(s.queues, s.channels[channel]);
      DeliveredOnce(s.queues, s.channels[channel], data);
    }
    forall c | c in s'.channels
      ensures ListedCorrectly(subs', c, s'.channels[c])
    {
      assert ListedCorrectly(subs, c, s.channels[c]);
    }
  }

  lemma SubscribeMatches(s: Store, subs: seq<Subscription>, channel: Bytes)
    requires Matches(s, subs)
    ensures Matches(AddSubscriber(s, channel), subs + [Subscription(channel, true, [])])
  {
    var s' := AddSubscriber(s, channel);
    var subs' := subs + [Subscription(channel, true, [])];
    var before := if channel in s.channels then s.channels[channel] else [];
    forall c | c in s'.channels
      ensures ListedCorrectly(subs', c, s'.channels[c])
    {
      if c in s.channels {
        assert ListedCorrectly(subs, c, s.channels[c]);
      }
      if c == channel {
        assert s'.channels[c] == before + [|subs|] && |subs| !in before;
        assert NoDuplicates(before);
      }
    }
    assert s'.channels[channel][|before|] == |subs|;
    forall q | 0 <= q < |subs'| && subs'[q].open
      ensures subs'[q].channel in s'.channels && q in s'.channels[subs'[q].channel]
    {
      if q < |subs| && subs[q].channel == channel {
        assert q in before;
      }
    }
  }

  lemma DropMatches(s: Store, subs: seq<Subscription>, q: nat)
    requires Matches(s, subs) && q < |subs|
    ensures Matches(s.(queues := DropReceiver(s.queues, q)), subs[q := subs[q].(open := false)])
  {
  }

  lemma StepMatches(s: Store, subs: seq<Subscription>, e: Event)
    requires Matches(s, subs)
    ensures Matches(Step(s, e), IdealStep(subs, e))
  {
    if e.Request? && e.op.Publish? {
      PublishMatches(s, subs, e.op.channel, e.op.data);
    } else if e.Request? && e.op.Subscribe? {
      SubscribeMatches(s, subs, e.op.channel);
    } else if e.ReceiverDropped? && e.queue < |subs| {
      DropMatches(s, subs, e.queue);
    }
  }

  /** Main result, first half: the store is the ideal broker. In particular no channel in the table
      is ever empty, and no subscriber is listed twice or under a second channel. */
  lemma {:induction false} StoreMatchesIdeal(events: seq<Event>)
    ensures Matches(Run(EMPTY, events), Ideal(events))
  {
    if events != [] {
      var n := |events| - 1;
      StoreMatchesIdeal(events[..n]);
      StepMatches(Run(EMPTY, events[..n]), Ideal(events[..n]), events[n]);
    }
  }

  /** Everything published on the channel, in order. */
  function PublishedOn(events: seq<Event>, channel: Bytes): seq<Bytes> {
    if events == [] then []
    else
      var last := events[|events| - 1];
      PublishedOn(events[..|events| - 1], channel) +
      if last.Request? && last.op.Publish? && last.op.channel == channel then [last.op.data] else []
  }

  predicate SubscribesTo(events: seq<Event>, i: nat, channel: Bytes) {
    i < |events| && events[i].Request? && events[i].op == Subscribe(channel)
  }

  ghost predicate DroppedBetween(events: seq<Event>, q: nat, i: nat, m: nat)
    requires m <= |events|
  {
    exists d :: i < d < m && events[d] == ReceiverDropped(q)
  }

  lemma IdealPrefix(events: seq<Event>, i: nat)
    requires i < |events|
    ensures Ideal(events[..i + 1]) == IdealStep(Ideal(events[..i]), events[i])
  {
    assert events[..i + 1][..i] == events[..i];
  }

  lemma OneMorePublished(events: seq<Event>, channel: Bytes, i: nat, m: nat)
    requires i < m <= |events|
    ensures PublishedOn(events[i..m], channel) ==
            PublishedOn(events[i..m - 1], channel) + PublishedOn([events[m - 1]], channel)
  {
    assert events[i..m][..m - 1 - i] == events[i..m - 1];
    assert [events[m - 1]][..0] == [];
  }

  /** What one event does to a subscription that stays open. */
  lemma OpenStep(events: seq<Event>, q: nat, m: nat)
    requires m < |events| && q < |Ideal(events[..m])| && Ideal(events[..m])[q].open && events[m] != ReceiverDropped(q)
    ensures q < |Ideal(events[..m + 1])|
    ensures var sub := Ideal(events[..m])[q];
            Ideal(events[..m + 1])[q] == sub.(sent := sub.sent + PublishedOn([events[m]], sub.channel))
  {
    IdealPrefix(events, m);
    assert [events[m]][..0] == [];
  }

  lemma {:induction false} OpenSubscription(events: seq<Event>, i: nat, channel: Bytes, m: nat)
    requires SubscribesTo(events, i, channel) && i < m <= |events|
    requires !DroppedBetween(events, |Ideal(events[..i])|, i, m)
    ensures var q := |Ideal(events[..i])|;
            && q < |Ideal(events[..m])|
            && Ideal(events[..m])[q] == Subscription(channel, true, PublishedOn(events[i + 1..m], channel))
    decreases m
  {
    if i < m - 1 {
      OpenSubscription(events, i, channel, m - 1);
      OneMorePublished(events, channel, i + 1, m);
      OpenStep(events, |Ideal(events[..i])|, m - 1);
    } else {
      IdealPrefix(events, i);
      assert events[i + 1..m] == [];
    }
  }

  lemma {:induction false} ClosedSubscription(events: seq<Event>, q: nat, m: nat, n: nat)
    requires m <= n <= |events| && q < |Ideal(events[..m])| && !Ideal(events[..m])[q].open
    ensures q < |Ideal(events[..n])| && Ideal(events[..n])[q] == Ideal(events[..m])[q]
    decreases n
  {
    if m < n {
      IdealPrefix(events, n - 1);
      ClosedSubscription(events, q, m, n - 1);
    }
  }

  /** Main result, second half: the queue answered to a `subscribe` holds, after any run, exactly the
      data published on that channel after it, up to the moment its receiver was dropped, if it was. */
  lemma QueueHoldsExactSuffix(events: seq<Event>, i: nat, channel: Bytes, end: nat)
    requires SubscribesTo(events, i, channel) && i < end <= |events|
    requires !DroppedBetween(events, |Run(EMPTY, events[..i]).queues|, i, end)
    requires end == |events| || events[end] == ReceiverDropped(|Run(EMPTY, events[..i]).queues|)
    ensures var q := |Run(EMPTY, events[..i]).queues|;
            && Reply(Run(EMPTY, events[..i]), events[i]) == Subscribed(q)
            && q < |Run(EMPTY, events).queues|
            && Run(EMPTY, events).queues[q] == Queue(end == |events|, PublishedOn(events[i + 1..end], channel))
  {
    StoreMatchesIdeal(events[..i]);
    var q := |Ideal(events[..i])|;
    OpenSubscription(events, i, channel, end);
    assert events[..|events|] == events;
    if end < |events| {
      IdealPrefix(events, end);
      ClosedSubscription(events, q, end + 1, |events|);
    }
    StoreMatchesIdeal(events);
  }
}
