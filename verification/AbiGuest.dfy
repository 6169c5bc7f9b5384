/**
 The guest side: what the SDK does with one poll of a fetch or of a response body. Every
 address it passes is its own, so writes succeed.
 */
module AbiGuest {
  import opened Common
  import opened AbiHost

  datatype GuestError = RuntimeInternal | InternalSdk | Reported(error: nat)

  /** What a guest reads from a body. */
  datatype Item = ItemBytes(data: Bytes) | ItemBroken | ItemError(error: GuestError)

  datatype Fetched = FetchOk(status: nat, headers: Headers, body: nat) | FetchErr(error: GuestError)

  datatype GuestPoll<T> = Pending | Done(value: T)

  /** Reads the serialized result of a fetch. */
  function TakeResult(h: Host, id: nat): (Host, Fetched) {
    var (h1, code, bytesId) := ResultSerialize(h, id, Writable);
    if bytesId.None? then (h1, FetchErr(InternalSdk))
    else
      var (h2, _, wire) := BytesMove(h1, bytesId.value, Writable);
      match wire
      case Some(WireResponse(status, headers, body)) => (h2, FetchOk(status, headers, body))
      case Some(WireError(error)) => (h2, FetchErr(Reported(error)))
      case _ => (h2, FetchErr(InternalSdk))
  }

  /** One poll of the future that `fetch` awaits. */
  function PollFetch(h: Host, id: nat): (Host, GuestPoll<Fetched>) {
    var (h1, code, polled) := FuturePoll(h, id, Writable);
    if code.NoWaker? then (h1, Done(FetchErr(RuntimeInternal)))
    else if polled.None? then (h1, Done(FetchErr(InternalSdk)))
    else
      match polled.value
      case StillPending => (h1, Pending)
      case Ready(resultId) => var (h2, fetched) := TakeResult(h1, resultId); (h2, Done(fetched))
      case NoSuchBody => (h1, Done(FetchErr(InternalSdk)))
  }

  /** Reads one serialized frame; None is the end of the stream. */
  function TakeFrame(h: Host, id: nat): (Host, Option<Item>) {
    var (h1, code, bytesId) := FrameSerialize(h, id, Writable);
    if bytesId.None? then (h1, Some(ItemError(InternalSdk)))
    else
      var (h2, _, wire) := BytesMove(h1, bytesId.value, Writable);
      match wire
      case Some(WireFrame(StreamEnd)) => (h2, None)
      case Some(WireFrame(Data(data))) => (h2, Some(ItemBytes(data)))
      case Some(WireFrame(ReadError)) => (h2, Some(ItemBroken))
      case _ => (h2, Some(ItemError(InternalSdk)))
  }

  /** One poll of a body that lives on the host. */
  function PollBody(h: Host, id: nat): (Host, GuestPoll<Option<Item>>) {
    var (h1, code, polled) := BodyPoll(h, id, Writable);
    if code.NoWaker? then (h1, Done(Some(ItemError(RuntimeInternal))))
    else if polled.None? then (h1, Done(Some(ItemError(InternalSdk))))
    else
      match polled.value
      case StillPending => (h1, Pending)
      case Ready(frameId) => var (h2, item) := TakeFrame(h1, frameId); (h2, Done(item))
      case NoSuchBody => (h1, Done(Some(ItemError(InternalSdk))))
  }

  /** Reads the request the instance serves, the first time the guest looks at it; None is a panic. */
  function TakeRequest(h: Host, id: nat): (Host, Option<IncomingRequest>) {
    var (h1, code, bytesId) := RequestSerialize(h, id, Writable);
    if bytesId.None? then (h1, None)
    else
      var (h2, _, wire) := BytesMove(h1, bytesId.value, Writable);
      match wire
      case Some(WireRequest(request)) => (h2, Some(request))
      case _ => (h2, None)
  }

  /** What a body has to say, pending polls aside. */
  function Items(body: Body): seq<Item> {
    if body == [] then []
    else
      (match body[0]
       case NotYet => []
       case Chunk(data) => [ItemBytes(data)]
       case BrokenStream => [ItemBroken])
      + Items(body[1..])
  }

  function FetchedAs(h: Host, r: FetchResult): Fetched {
    if r.Response? then FetchOk(r.status, r.headers, h.bodies.next) else FetchErr(Reported(r.error))
  }

  /** A table that was inserted into and deleted from again differs in its next key only. */
  lemma InsertDelete<V>(t: Table<V>, v: V)
    requires KeysBelowNext(t)
    ensures Delete(Insert(t, v), t.next) == Table(t.entries, t.next + 1)
  {
  }

  /** One poll of a live fetch: pending, or the outcome it was scripted with, its body now a body
      resource. The results and bytes tables hold afterwards what they held before. */
  lemma PollFetchEffect(h: Host, id: nat)
    requires h.waker && id in h.futures.entries && KeysBelowNext(h.results) && KeysBelowNext(h.bytes)
    ensures var f := h.futures.entries[id];
            PollFetch(h, id) ==
            if f.pendingPolls > 0 then
              (h.(futures := h.futures.(entries := h.futures.entries[id := f.(pendingPolls := f.pendingPolls - 1)])),
               Pending)
            else
              (h.(futures := Delete(h.futures, id),
                  results := h.results.(next := h.results.next + 1),
                  bodies := if f.result.Response? then Insert(h.bodies, f.result.body) else h.bodies,
                  bytes := h.bytes.(next := h.bytes.next + 1)),
               Done(FetchedAs(h, f.result)))
  {
    var f := h.futures.entries[id];
    if f.pendingPolls == 0 {
      InsertDelete(h.results, f.result);
      var r := f.result;
      InsertDelete(h.bytes,
                   if r.Response? then WireResponse(r.status, r.headers, h.bodies.next) else WireError(r.error));
    }
  }

  function ItemOf(frame: Frame): Option<Item> {
    match frame
    case StreamEnd => None
    case Data(data) => Some(ItemBytes(data))
    case ReadError => Some(ItemBroken)
  }

  /** What one poll of a body yields and what it leaves make up what the body had to say. */
  lemma ItemsNext(body: Body)
    ensures Items(body) ==
            (if NextFrame(body).Some? && ItemOf(NextFrame(body).value).Some?
             then [ItemOf(NextFrame(body).value).value] else [])
            + Items(AfterPoll(body))
  {
  }

  /** One poll of a live body: the body's next event, and nothing left in the frame or bytes table. */
  lemma PollBodyEffect(h: Host, id: nat)
    requires h.waker && id in h.bodies.entries && KeysBelowNext(h.frames) && KeysBelowNext(h.bytes)
    ensures var body := h.bodies.entries[id];
            var h1 := h.(bodies := h.bodies.(entries := h.bodies.entries[id := AfterPoll(body)]));
            PollBody(h, id) ==
            match NextFrame(body)
            case None => (h1, Pending)
            case Some(frame) =>
              (h1.(frames := h.frames.(next := h.frames.next + 1), bytes := h.bytes.(next := h.bytes.next + 1)),
               Done(ItemOf(frame)))
  {
    var body := h.bodies.entries[id];
    if NextFrame(body).Some? {
      InsertDelete(h.frames, NextFrame(body).value);
      InsertDelete(h.bytes, WireFrame(NextFrame(body).value));
    }
  }

  /** Polls that cannot be answered: outside a poll of the instance, or for a key the host does not have. */
  lemma PollsGoneWrong(h: Host, id: nat)
    ensures !h.waker ==> PollFetch(h, id) == (h, Done(FetchErr(RuntimeInternal)))
    ensures !h.waker ==> PollBody(h, id) == (h, Done(Some(ItemError(RuntimeInternal))))
    ensures h.waker && id !in h.futures.entries ==> PollFetch(h, id) == (h, Done(FetchErr(InternalSdk)))
    ensures h.waker && id !in h.bodies.entries ==> PollBody(h, id) == (h, Done(Some(ItemError(InternalSdk))))
    ensures id !in h.requests.entries ==> TakeRequest(h, id) == (h, None)
  {
  }
}
