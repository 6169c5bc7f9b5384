/** The host tables and the SDK's values as objects, and the calls that change them. */
module AbiObjects {
  import opened Common
  import opened AbiHost
  import opened AbiGuest

  /** The resource tables of one instance with the imported functions that work on them. */
  class FunctionResources {
    var waker: bool
    var fetchRequestHeaders: Table<IncomingRequest>
    var fetchResultFutures: Table<FetchFuture>
    var fetchResults: Table<FetchResult>
    var httpBodies: Table<Body>
    var httpFrames: Table<AbiHost.Frame>
    var bytes: Table<Wire>

    ghost function Contents(): Host
      reads this
    {
      Host(waker, fetchRequestHeaders, fetchResultFutures, fetchResults, httpBodies, httpFrames, bytes)
    }

    constructor ()
      ensures Contents() ==
        Host(false, Table(map[], 0), Table(map[], 0), Table(map[], 0), Table(map[], 0), Table(map[], 0),
             Table(map[], 0))
    {
      waker := false;
      fetchRequestHeaders := Table(map[], 0);
      fetchResultFutures, fetchResults, httpBodies, httpFrames, bytes :=
        Table(map[], 0), Table(map[], 0), Table(map[], 0), Table(map[], 0), Table(map[], 0);
    }

    method FxFetch(request: FetchRequest, future: FetchFuture) returns (id: nat)
      modifies this`httpBodies, this`fetchResultFutures
      ensures (Contents(), id) == Fetch(old(Contents()), request, future)
    {
      var started := future;
      match request {
        case Unreadable(error) =>
          started := future.(result := FetchFailed(error));
        case Readable(target, wellFormed, body) =>
          var bodyError: Option<nat> := None;
          if body.UnreadableBody? {
            bodyError := Some(BAD_REQUEST);
          } else if body.HandedOver? {
            if body.id !in httpBodies.entries {
              bodyError := Some(BODY_NOT_FOUND);
            }
            httpBodies := Delete(httpBodies, body.id);
          }
          if target.None? {
            started := future.(result := FetchFailed(BAD_REQUEST));
          } else if target.value.BoundFunction? {
            if !wellFormed {
              started := future.(result := FetchFailed(BAD_REQUEST));
            } else if bodyError.Some? {
              started := future.(result := FetchFailed(bodyError.value));
            }
          } else {
            if bodyError.Some? {
              started := future.(result := FetchFailed(bodyError.value));
            } else if !wellFormed {
              started := future.(result := FetchFailed(BAD_REQUEST));
            }
          }
      }
      id := fetchResultFutures.next;
      fetchResultFutures := Insert(fetchResultFutures, started);
    }

    method FxFetchResultFuturePoll(id: nat, mem: Memory) returns (code: Code, polled: Option<Polled>)
      modifies this`fetchResultFutures, this`fetchResults
      ensures (Contents(), code, polled) == FuturePoll(old(Contents()), id, mem)
    {
      if !waker {
        return NoWaker, None;
      }
      if id !in fetchResultFutures.entries {
        return NotFound, None;
      }
      var future := fetchResultFutures.entries[id];
      var result := StillPending;
      if future.pendingPolls > 0 {
        var waiting := future.(pendingPolls := future.pendingPolls - 1);
        fetchResultFutures := fetchResultFutures.(entries := fetchResultFutures.entries[id := waiting]);
      } else {
        fetchResultFutures := Delete(fetchResultFutures, id);
        result := Ready(fetchResults.next);
        fetchResults := Insert(fetchResults, future.result);
      }
      code, polled := Outcome(mem, result).0, Outcome(mem, result).1;
    }

    method FxFetchResultSerialize(id: nat, mem: Memory) returns (code: Code, bytesId: Option<nat>)
      modifies this`fetchResults, this`httpBodies, this`bytes
      ensures (Contents(), code, bytesId) == ResultSerialize(old(Contents()), id, mem)
    {
      if id !in fetchResults.entries {
        return NotFound, None;
      }
      var result := fetchResults.entries[id];
      fetchResults := Delete(fetchResults, id);
      var wire;
      match result {
        case Response(status, headers, body) =>
          wire := WireResponse(status, headers, httpBodies.next);
          httpBodies := Insert(httpBodies, body);
        case FetchFailed(error) =>
          wire := WireError(error);
      }
      var written := Outcome(mem, bytes.next);
      bytes := Insert(bytes, wire);
      code, bytesId := written.0, written.1;
    }

    method FxHttpBodyPollFrame(id: nat, mem: Memory) returns (code: Code, polled: Option<Polled>)
      modifies this`httpBodies, this`httpFrames
      ensures (Contents(), code, polled) == BodyPoll(old(Contents()), id, mem)
    {
      if !waker {
        return NoWaker, None;
      }
      var result := NoSuchBody;
      if id in httpBodies.entries {
        var body := httpBodies.entries[id];
        httpBodies := httpBodies.(entries := httpBodies.entries[id := AfterPoll(body)]);
        var frame := NextFrame(body);
        if frame.None? {
          result := StillPending;
        } else {
          result := Ready(httpFrames.next);
          httpFrames := Insert(httpFrames, frame.value);
        }
      }
      code, polled := Outcome(mem, result).0, Outcome(mem, result).1;
    }

    method FxHttpBodyDrop(id: nat)
      modifies this`httpBodies
      ensures Contents() == BodyDrop(old(Contents()), id)
    {
      httpBodies := Delete(httpBodies, id);
    }

    method FxHttpFrameSerialize(id: nat, mem: Memory) returns (code: Code, bytesId: Option<nat>)
      modifies this`httpFrames, this`bytes
      ensures (Contents(), code, bytesId) == FrameSerialize(old(Contents()), id, mem)
    {
      if id !in httpFrames.entries {
        return NotFound, None;
      }
      var frame := httpFrames.entries[id];
      httpFrames := Delete(httpFrames, id);
      var written := Outcome(mem, bytes.next);
      bytes := Insert(bytes, WireFrame(frame));
      code, bytesId := written.0, written.1;
    }

    method FxBytesMove(id: nat, mem: Memory) returns (code: Code, message: Option<Wire>)
      modifies this`bytes
      ensures (Contents(), code, message) == BytesMove(old(Contents()), id, mem)
    {
      if id !in bytes.entries {
        return NotFound, None;
      }
      var wire := bytes.entries[id];
      bytes := Delete(bytes, id);
      code, message := Outcome(mem, wire).0, Outcome(mem, wire).1;
    }

    method ReceiveRequest(head: Bytes, body: Option<Body>) returns (id: nat)
      modifies this`fetchRequestHeaders, this`httpBodies
      ensures (Contents(), id) == AbiHost.ReceiveRequest(old(Contents()), head, body)
    {
      var bodyId: Option<nat> := None;
      if body.Some? {
        bodyId := Some(httpBodies.next);
        httpBodies := Insert(httpBodies, body.value);
      }
      id := fetchRequestHeaders.next;
      fetchRequestHeaders := Insert(fetchRequestHeaders, IncomingRequest(head, bodyId));
    }

    method FxFetchRequestHeaderSerialize(id: nat, mem: Memory) returns (code: Code, bytesId: Option<nat>)
      modifies this`fetchRequestHeaders, this`bytes
      ensures (Contents(), code, bytesId) == RequestSerialize(old(Contents()), id, mem)
    {
      if id !in fetchRequestHeaders.entries {
        return NotFound, None;
      }
      var request := fetchRequestHeaders.entries[id];
      fetchRequestHeaders := Delete(fetchRequestHeaders, id);
      var written := Outcome(mem, bytes.next);
      bytes := Insert(bytes, WireRequest(request));
      code, bytesId := written.0, written.1;
    }

    /** Takes the host body out that the guest's response names. */
    method TakeResponseBody(id: nat) returns (body: Option<Body>)
      modifies this`httpBodies
      ensures (Contents(), body) == Respond(old(Contents()), id)
    {
      body := if id in httpBodies.entries then Some(httpBodies.entries[id]) else None;
      httpBodies := Delete(httpBodies, id);
    }
  }

  /** One poll of a body that lives on the host: poll, serialize, move. */
  method PollHostBody(host: FunctionResources, id: nat) returns (polled: GuestPoll<Option<Item>>)
    modifies host
    ensures (host.Contents(), polled) == PollBody(old(host.Contents()), id)
  {
    var code, result := host.FxHttpBodyPollFrame(id, Writable);
    if code.NoWaker? {
      return Done(Some(ItemError(RuntimeInternal)));
    }
    if result.None? {
      return Done(Some(ItemError(InternalSdk)));
    }
    match result.value {
      case StillPending =>
        return Pending;
      case NoSuchBody =>
        return Done(Some(ItemError(InternalSdk)));
      case Ready(frameId) =>
        var _, bytesId := host.FxHttpFrameSerialize(frameId, Writable);
        if bytesId.None? {
          return Done(Some(ItemError(InternalSdk)));
        }
        var _, wire := host.FxBytesMove(bytesId.value, Writable);
        match wire {
          case Some(WireFrame(StreamEnd)) => return Done(None);
          case Some(WireFrame(Data(data))) => return Done(Some(ItemBytes(data)));
          case Some(WireFrame(ReadError)) => return Done(Some(ItemBroken));
          case _ => return Done(Some(ItemError(InternalSdk)));
        }
    }
  }

  /** What one poll of a stream of the guest's own gives, unless it is broken. */
  function GuestPollOf(script: Body): GuestPoll<Option<Item>> {
    match NextFrame(script)
    case None => Pending
    case Some(frame) => Done(ItemOf(frame))
  }

  /** Where a guest's body comes from. A stream of the guest's own is the script of what polling it gives. */
  datatype Inner = Empty | GuestStream(script: Body) | HostResource(id: nat)

  /** The SDK's body. */
  class HttpBody {
    var inner: Inner

    constructor (inner: Inner)
      ensures this.inner == inner
    {
      this.inner := inner;
    }

    /** Takes the resource out, so that dropping this body later drops nothing. */
    method IntoInner() returns (taken: Inner)
      modifies this
      ensures taken == old(inner) && inner == Empty
    {
      taken := inner;
      inner := Empty;
    }

    method Drop(host: FunctionResources)
      modifies host`httpBodies
      ensures host.Contents() ==
              if inner.HostResource? then BodyDrop(old(host.Contents()), inner.id) else old(host.Contents())
    {
      if inner.HostResource? {
        host.FxHttpBodyDrop(inner.id);
      }
    }

    /** One poll, wherever the body comes from. An error of the guest's own stream is a panic. */
    method PollNext(host: FunctionResources) returns (panics: bool, polled: GuestPoll<Option<Item>>)
      modifies host, this`inner
      ensures panics <==> old(inner).GuestStream? && NextFrame(old(inner).script) == Some(ReadError)
      ensures inner == if old(inner).GuestStream? then GuestStream(AfterPoll(old(inner).script)) else old(inner)
      ensures !panics ==>
                (host.Contents(), polled) ==
                match old(inner)
                case Empty => (old(host.Contents()), Done(None))
                case GuestStream(script) => (old(host.Contents()), GuestPollOf(script))
                case HostResource(id) => PollBody(old(host.Contents()), id)
    {
      match inner {
        case Empty =>
          return false, Done(None);
        case GuestStream(script) =>
          inner := GuestStream(AfterPoll(script));
          if script == [] {
            return false, Done(None);
          }
          match script[0] {
            case NotYet => return false, Pending;
            case Chunk(data) => return false, Done(Some(ItemBytes(data)));
            case BrokenStream => return true, Pending;
          }
        case HostResource(id) =>
          polled := PollHostBody(host, id);
          return false, polled;
      }
    }
  }

  method PollFetchFuture(host: FunctionResources, id: nat) returns (polled: GuestPoll<Fetched>)
    modifies host
    ensures (host.Contents(), polled) == PollFetch(old(host.Contents()), id)
  {
    var code, result := host.FxFetchResultFuturePoll(id, Writable);
    if code.NoWaker? {
      return Done(FetchErr(RuntimeInternal));
    }
    if result.None? || result.value.NoSuchBody? {
      return Done(FetchErr(InternalSdk));
    }
    if result.value.StillPending? {
      return Pending;
    }
    var _, bytesId := host.FxFetchResultSerialize(result.value.id, Writable);
    if bytesId.None? {
      return Done(FetchErr(InternalSdk));
    }
    var _, wire := host.FxBytesMove(bytesId.value, Writable);
    match wire {
      case Some(WireResponse(status, headers, body)) => return Done(FetchOk(status, headers, body));
      case Some(WireError(error)) => return Done(FetchErr(Reported(error)));
      case _ => return Done(FetchErr(InternalSdk));
    }
  }

  /** The two hosts agree on every entry of every table. */
  ghost predicate SameEntries(a: Host, b: Host) {
    && a.futures.entries == b.futures.entries && a.results.entries == b.results.entries
    && a.bodies.entries == b.bodies.entries && a.frames.entries == b.frames.entries
    && a.bytes.entries == b.bytes.entries && a.requests.entries == b.requests.entries
  }

  /** Polls a fetch until it is done. */
  method AwaitFetch(host: FunctionResources, id: nat) returns (fetched: Fetched)
    requires BeingPolled(host.Contents()) && id in host.fetchResultFutures.entries
    modifies host
    ensures BeingPolled(host.Contents())
    ensures fetched == FetchedAs(old(host.Contents()), old(host.fetchResultFutures.entries[id].result))
    ensures var h, r := old(host.Contents()), old(host.fetchResultFutures.entries[id].result);
            SameEntries(host.Contents(),
                        h.(futures := Delete(h.futures, id),
                           bodies := if r.Response? then Insert(h.bodies, r.body) else h.bodies))
  {
    var polled: GuestPoll<Fetched> := Pending;
    ghost var h := host.Contents();
    while polled.Pending?
      invariant BeingPolled(host.Contents())
      invariant polled.Pending? ==>
                  && id in host.fetchResultFutures.entries
                  && host.fetchResultFutures.entries[id].result == h.futures.entries[id].result
                  && host.fetchResultFutures.entries - {id} == h.futures.entries - {id}
                  && host.Contents().(futures := h.futures) == h
      invariant polled.Done? ==>
                  var r := h.futures.entries[id].result;
                  && polled.value == FetchedAs(h, r)
                  && SameEntries(host.Contents(),
                                 h.(futures := Delete(h.futures, id),
                                    bodies := if r.Response? then Insert(h.bodies, r.body) else h.bodies))
      decreases polled.Pending?, if polled.Pending? then host.fetchResultFutures.entries[id].pendingPolls else 0
    {
      PollFetchEffect(host.Contents(), id);
      polled := PollFetchFuture(host, id);
    }
    fetched := polled.value;
  }

  /** `now` is `h` with some of body `id` already read: `items` of it. */
  ghost predicate PartlyRead(h: Host, now: Host, id: nat, items: seq<Item>) {
    && BeingPolled(now) && id in h.bodies.entries && id in now.bodies.entries
    && SameEntries(now, h.(bodies := h.bodies.(entries := h.bodies.entries[id := now.bodies.entries[id]])))
    && items + Items(now.bodies.entries[id]) == Items(h.bodies.entries[id])
  }

  /** One more poll reads on. */
  lemma PollReadsOn(h: Host, now: Host, id: nat, items: seq<Item>)
    requires PartlyRead(h, now, id, items)
    ensures var (after, polled) := PollBody(now, id);
            && PartlyRead(h, after, id,
                            if polled.Done? && polled.value.Some? then items + [polled.value.value] else items)
            && (polled == Done(None) ==> now.bodies.entries[id] == [] && after.bodies.entries[id] == [])
            && (polled != Done(None) ==> |after.bodies.entries[id]| < |now.bodies.entries[id]|)
  {
    PollBodyEffect(now, id);
    var body := now.bodies.entries[id];
    var after := PollBody(now, id).0;
    assert after.bodies.entries[id] == AfterPoll(body);
    ItemsNext(body);
    assert after.bodies.entries == h.bodies.entries[id := AfterPoll(body)];
  }

  /** Polls a body until it ends; gives every item and leaves the drained body behind. */
  method ReadToEnd(host: FunctionResources, body: HttpBody) returns (items: seq<Item>)
    requires BeingPolled(host.Contents()) && body.inner.HostResource? && body.inner.id in host.httpBodies.entries
    modifies host, body
    ensures BeingPolled(host.Contents()) && body.inner == old(body.inner)
    ensures items == Items(old(host.httpBodies.entries[body.inner.id]))
    ensures var h, id := old(host.Contents()), body.inner.id;
            SameEntries(host.Contents(), h.(bodies := h.bodies.(entries := h.bodies.entries[id := []])))
  {
    items := [];
    var ended := false;
    ghost var h := host.Contents();
    var id := body.inner.id;
    while !ended
      invariant body.inner == HostResource(id)
      invariant PartlyRead(h, host.Contents(), id, items)
      invariant ended ==> host.httpBodies.entries[id] == []
      decreases !ended, |host.httpBodies.entries[id]|
    {
      PollReadsOn(h, host.Contents(), id, items);
      var _, polled := body.PollNext(host);
      match polled {
        case Pending =>
        case Done(None) => ended := true;
        case Done(Some(item)) => items := items + [item];
      }
    }
  }

  /** Reads a fresh response body to its end and drops it. */
  method ReadAndDrop(host: FunctionResources, id: nat) returns (items: seq<Item>)
    requires BeingPolled(host.Contents()) && id in host.httpBodies.entries
    modifies host
    ensures BeingPolled(host.Contents())
    ensures items == Items(old(host.httpBodies.entries[id]))
    ensures SameEntries(host.Contents(), BodyDrop(old(host.Contents()), id))
  {
    var body := new HttpBody(HostResource(id));
    items := ReadToEnd(host, body);
    body.Drop(host);
  }

  /** The guest's request as the host reads it. The SDK takes the body apart before it sends the request. */
  function SentRequest(target: Option<Target>, wellFormed: bool, inner: Inner): FetchRequest {
    Readable(target, wellFormed, if inner.HostResource? then HandedOver(inner.id) else NotFromHost)
  }

  /** Main result, one fetch run to completion: the guest gets the host's answer, which is an error exactly
      when the request has no host, is malformed, or the fetch itself failed; of a response it reads exactly
      the body's chunks and errors in order. Afterwards no table has gained or lost an entry, except for the
      request body, if one was handed over. */
  method FetchAndReadAll(
      host: FunctionResources, request: HttpBody, target: Option<Target>, wellFormed: bool, script: FetchFuture)
    returns (fetched: Fetched, items: seq<Item>)
    requires BeingPolled(host.Contents())
    requires request.inner.HostResource? ==> request.inner.id in host.httpBodies.entries
    modifies host, request
    ensures BeingPolled(host.Contents())
    ensures request.inner == Empty
    ensures target.None? || !wellFormed ==> fetched == FetchErr(Reported(BAD_REQUEST)) && items == []
    ensures target.Some? && wellFormed && script.result.FetchFailed? ==>
              fetched == FetchErr(Reported(script.result.error)) && items == []
    ensures target.Some? && wellFormed && script.result.Response? ==>
              && fetched.FetchOk? && fetched.status == script.result.status && fetched.headers == script.result.headers
              && items == Items(script.result.body)
    ensures var h := old(host.Contents());
            SameEntries(host.Contents(),
                        if old(request.inner).HostResource? then BodyDrop(h, old(request.inner.id)) else h)
  {
    var taken := request.IntoInner();
    ghost var h0 := host.Contents();
    ghost var h := if taken.HostResource? then BodyDrop(h0, taken.id) else h0;
    var id := host.FxFetch(SentRequest(target, wellFormed, taken), script);
    ghost var started := StartedFuture(h0, SentRequest(target, wellFormed, taken), script);
    InsertDelete(h.futures, started);
    fetched := AwaitFetch(host, id);
    items := [];
    if fetched.FetchOk? {
      InsertDelete(h.bodies, started.result.body);
      items := ReadAndDrop(host, fetched.body);
    }
    request.Drop(host);
  }
}
