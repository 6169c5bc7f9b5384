/**
 An incoming request and its body on their way to the guest, and back out with its response.
 */
module AbiRequests {
  import opened Common
  import opened AbiHost
  import opened AbiGuest
  import opened AbiStages

  /** The call reads the request. */
  predicate ReadsRequest(c: Call, id: nat) {
    c.RequestSerializeCall? && c.id == id
  }

  /** The call polls the body, drops it, hands it over or sends it as the answer. */
  predicate TouchesBody(c: Call, id: nat) {
    || ((c.BodyPollCall? || c.BodyDropCall? || c.RespondCall?) && c.id == id)
    || (c.FetchCall? && c.request.Readable? && c.request.body == HandedOver(id))
  }

  ghost predicate Has<V>(t: Table<V>, id: nat, v: V) {
    id in t.entries && t.entries[id] == v
  }

  lemma StepKeepsRequest(h: Host, c: Call, id: nat, r: IncomingRequest)
    requires SoundTables(h) && Has(h.requests, id, r) && !ReadsRequest(c, id)
    ensures Has(Step(h, c).requests, id, r)
  {
  }

  lemma StepKeepsBody(h: Host, c: Call, id: nat, body: Body)
    requires SoundTables(h) && Has(h.bodies, id, body) && !TouchesBody(c, id)
    ensures Has(Step(h, c).bodies, id, body)
  {
  }

  lemma {:induction false} RequestWaits(h: Host, calls: seq<Call>, id: nat, r: IncomingRequest)
    requires SoundTables(h) && Has(h.requests, id, r)
    requires forall c :: c in calls ==> !ReadsRequest(c, id)
    ensures Has(Run(h, calls).requests, id, r)
  {
    if calls != [] {
      var n := |calls| - 1;
      RequestWaits(h, calls[..n], id, r);
      StagesAreConserved(h, calls[..n]);
      StepKeepsRequest(Run(h, calls[..n]), calls[n], id, r);
    }
  }

  lemma {:induction false} BodyWaits(h: Host, calls: seq<Call>, id: nat, body: Body)
    requires SoundTables(h) && Has(h.bodies, id, body)
    requires forall c :: c in calls ==> !TouchesBody(c, id)
    ensures Has(Run(h, calls).bodies, id, body)
  {
    if calls != [] {
      var n := |calls| - 1;
      BodyWaits(h, calls[..n], id, body);
      StagesAreConserved(h, calls[..n]);
      StepKeepsBody(Run(h, calls[..n]), calls[n], id, body);
    }
  }

  lemma ReceivedSound(h: Host, head: Bytes, body: Option<Body>)
    requires SoundTables(h)
    ensures SoundTables(ReceiveRequest(h, head, body).0)
  {
  }

  /** Reading a request gives what the table held and takes just that out. */
  lemma TakeRequestEffect(h: Host, id: nat, r: IncomingRequest)
    requires SoundTables(h) && Has(h.requests, id, r)
    ensures TakeRequest(h, id) ==
            (h.(requests := Delete(h.requests, id), bytes := h.bytes.(next := h.bytes.next + 1)), Some(r))
  {
    InsertDelete(h.bytes, WireRequest(r));
  }

  /** Main result: whatever the guest does in between, short of reading that request or touching its body, a
      request that came with this head and body reaches the guest with this head and the key of a body that
      is still the one received; and the tables hold what they held, less the request. */
  lemma RequestReachesGuest(h: Host, head: Bytes, body: Option<Body>, calls: seq<Call>)
    requires SoundTables(h)
    requires forall c :: c in calls ==> !ReadsRequest(c, h.requests.next)
    requires body.Some? ==> forall c :: c in calls ==> !TouchesBody(c, h.bodies.next)
    ensures var (received, id) := ReceiveRequest(h, head, body);
            var before := Run(received, calls);
            var (after, read) := TakeRequest(before, id);
            && read.Some? && read.value.head == head
            && (body.None? ==> read.value.body == None)
            && (body.Some? ==> read.value.body.Some? && Has(after.bodies, read.value.body.value, body.value)
                               && read.value.body.value !in h.bodies.entries)
            && after.requests.entries == before.requests.entries - {id}
            && after.bytes.entries == before.bytes.entries && after.bodies == before.bodies
  {
    var (received, id) := ReceiveRequest(h, head, body);
    var r := IncomingRequest(head, if body.Some? then Some(h.bodies.next) else None);
    ReceivedSound(h, head, body);
    RequestWaits(received, calls, id, r);
    StagesAreConserved(received, calls);
    if body.Some? {
      BodyWaits(received, calls, h.bodies.next, body.value);
    }
    TakeRequestEffect(Run(received, calls), id, r);
  }

  /** Main result: a response that names an untouched request body sends exactly the body received. */
  lemma ResponseSendsBody(h: Host, head: Bytes, body: Body, calls: seq<Call>)
    requires SoundTables(h)
    requires forall c :: c in calls ==> !TouchesBody(c, h.bodies.next)
    ensures var before := Run(ReceiveRequest(h, head, Some(body)).0, calls);
            var (after, sent) := Respond(before, h.bodies.next);
            && sent == Some(body)
            && after.bodies.entries == before.bodies.entries - {h.bodies.next}
    ensures forall id :: id !in h.bodies.entries ==> Respond(h, id) == (h, None)
  {
    var received := ReceiveRequest(h, head, Some(body)).0;
    ReceivedSound(h, head, Some(body));
    BodyWaits(received, calls, h.bodies.next, body);
    forall id | id !in h.bodies.entries
      ensures h.bodies.entries - {id} == h.bodies.entries
    {
    }
  }

  // ---- Requests going out ----

  /** The fetch puts a future in the table that ends in this result; no other future changes. */
  ghost predicate StartsAs(h: Host, r: FetchRequest, future: FetchFuture, result: FetchResult) {
    var (after, id) := Fetch(h, r, future);
    && id !in h.futures.entries
    && after.futures.entries == h.futures.entries[id := FetchFuture(future.pendingPolls, result)]
  }

  /** What a fetch is refused with, case by case. */
  lemma RefusedFetches(h: Host, target: Target, id: nat, future: FetchFuture)
    requires SoundTables(h) && id !in h.bodies.entries
    ensures forall error :: StartsAs(h, Unreadable(error), future, FetchFailed(error))
    ensures forall wellFormed, body ::
              StartsAs(h, Readable(None, wellFormed, body), future, FetchFailed(BAD_REQUEST))
    ensures StartsAs(h, Readable(Some(target), true, HandedOver(id)), future, FetchFailed(BODY_NOT_FOUND))
    ensures StartsAs(h, Readable(Some(target), true, UnreadableBody), future, FetchFailed(BAD_REQUEST))
    ensures StartsAs(h, Readable(Some(BoundFunction), false, HandedOver(id)), future, FetchFailed(BAD_REQUEST))
    ensures StartsAs(h, Readable(Some(Elsewhere), false, HandedOver(id)), future, FetchFailed(BODY_NOT_FOUND))
    ensures StartsAs(h, Readable(Some(target), false, NotFromHost), future, FetchFailed(BAD_REQUEST))
    ensures StartsAs(h, Readable(Some(target), true, NotFromHost), future, future.result)
    ensures forall live :: live in h.bodies.entries ==>
              StartsAs(h, Readable(Some(target), true, HandedOver(live)), future, future.result)
  {
  }

  // ---- What a call answers ----

  /** The answer of a call that needs `found`: the address decides whether it is written, and nothing else. */
  predicate AnswersAs<T(==)>(code: Code, written: Option<T>, found: bool, mem: Memory, value: T) {
    if !found then code == NotFound && written == None
    else
      match mem
      case Writable => code == Ok && written == Some(value)
      case Missing => code == FailedToAccessMemory && written == None
      case OutOfBounds => code == AddressOutOfBounds && written == None
  }

  /** A bad address costs the guest its answer but not the host its step: what was moved stays moved. */
  lemma AddressDecidesAnswerOnly(h: Host, id: nat, mem: Memory)
    ensures RequestSerialize(h, id, mem).0 == RequestSerialize(h, id, Writable).0
    ensures AnswersAs(RequestSerialize(h, id, mem).1, RequestSerialize(h, id, mem).2, id in h.requests.entries, mem,
                      h.bytes.next)
    ensures ResultSerialize(h, id, mem).0 == ResultSerialize(h, id, Writable).0
    ensures AnswersAs(ResultSerialize(h, id, mem).1, ResultSerialize(h, id, mem).2, id in h.results.entries, mem,
                      h.bytes.next)
    ensures FrameSerialize(h, id, mem).0 == FrameSerialize(h, id, Writable).0
    ensures AnswersAs(FrameSerialize(h, id, mem).1, FrameSerialize(h, id, mem).2, id in h.frames.entries, mem,
                      h.bytes.next)
    ensures BytesMove(h, id, mem).0 == BytesMove(h, id, Writable).0
    ensures id in h.bytes.entries ==>
              AnswersAs(BytesMove(h, id, mem).1, BytesMove(h, id, mem).2, true, mem, h.bytes.entries[id])
    ensures id !in h.bytes.entries ==> BytesMove(h, id, mem) == (h, NotFound, None)
    ensures FuturePoll(h, id, mem).0 == FuturePoll(h, id, Writable).0
    ensures !h.waker ==> FuturePoll(h, id, mem) == (h, NoWaker, None) && BodyPoll(h, id, mem) == (h, NoWaker, None)
    ensures h.waker && id !in h.futures.entries ==> FuturePoll(h, id, mem) == (h, NotFound, None)
    ensures h.waker && id in h.futures.entries ==>
              AnswersAs(FuturePoll(h, id, mem).1, FuturePoll(h, id, mem).2, true, mem,
                        if h.futures.entries[id].pendingPolls > 0 then StillPending else Ready(h.results.next))
    ensures BodyPoll(h, id, mem).0 == BodyPoll(h, id, Writable).0
    ensures h.waker && id !in h.bodies.entries ==>
              AnswersAs(BodyPoll(h, id, mem).1, BodyPoll(h, id, mem).2, true, mem, NoSuchBody)
    ensures h.waker && id in h.bodies.entries ==>
              AnswersAs(BodyPoll(h, id, mem).1, BodyPoll(h, id, mem).2, true, mem,
                        if h.bodies.entries[id] != [] && h.bodies.entries[id][0].NotYet? then StillPending
                        else Ready(h.frames.next))
  {
  }
}
