/**
 The host side of the function ABI: the resource tables of one function instance and the
 calls that move values between them.

 A fetch goes future -> result -> bytes + body; a frame goes body -> frame -> bytes; an
 incoming request goes request + body -> bytes. Keys
 are never used twice. A body is the script of what polling it gives; a future becomes
 ready after some polls. Serialization is an exact encoding, so the bytes table holds the
 messages themselves.
 */
module AbiHost {
  import opened Common

  datatype Table<V> = Table(entries: map<nat, V>, next: nat)

  function Insert<V>(t: Table<V>, v: V): Table<V> {
    Table(t.entries[t.next := v], t.next + 1)
  }

  function Delete<V>(t: Table<V>, id: nat): Table<V> {
    t.(entries := t.entries - {id})
  }

  ghost predicate KeysBelowNext<V>(t: Table<V>) {
    forall id :: id in t.entries ==> id < t.next
  }

  datatype BodyEvent = NotYet | Chunk(data: Bytes) | BrokenStream

  type Body = seq<BodyEvent>

  type Headers = seq<(Bytes, Bytes)>

  datatype FetchResult =
    | Response(status: nat, headers: Headers, body: Body)
    | FetchFailed(error: nat)

  datatype FetchFuture = FetchFuture(pendingPolls: nat, result: FetchResult)

  datatype Frame = Data(data: Bytes) | ReadError | StreamEnd

  /** An incoming request: method, address and headers in one piece, and its body's key, if it has one. */
  datatype IncomingRequest = IncomingRequest(head: Bytes, body: Option<nat>)

  datatype Wire =
    | WireResponse(status: nat, headers: Headers, body: nat)
    | WireError(error: nat)
    | WireFrame(frame: Frame)
    | WireRequest(request: IncomingRequest)

  /** `waker` tells whether the instance is being polled right now. */
  datatype Host = Host(
    waker: bool,
    requests: Table<IncomingRequest>,
    futures: Table<FetchFuture>,
    results: Table<FetchResult>,
    bodies: Table<Body>,
    frames: Table<Frame>,
    bytes: Table<Wire>)

  ghost predicate SoundTables(h: Host) {
    && KeysBelowNext(h.requests) && KeysBelowNext(h.futures) && KeysBelowNext(h.results) && KeysBelowNext(h.bodies)
    && KeysBelowNext(h.frames) && KeysBelowNext(h.bytes)
  }

  /** The tables while the guest is being polled. */
  ghost predicate BeingPolled(h: Host) {
    h.waker && SoundTables(h)
  }

  /** How writing the answer into guest memory ends. The address is the guest's choice. */
  datatype Memory = Writable | Missing | OutOfBounds

  datatype Code = Ok | NotFound | NoWaker | FailedToAccessMemory | AddressOutOfBounds

  datatype Polled = Ready(id: nat) | StillPending | NoSuchBody

  /** The body of an outgoing request, as far as the host tables are concerned. */
  datatype RequestBody = NotFromHost | HandedOver(id: nat) | UnreadableBody

  /** Whom a request is for: a function bound to its host name, or anybody else. */
  datatype Target = BoundFunction | Elsewhere

  /** What the host can make of a request. No target: there is no host name in it. `wellFormed` tells whether
      method, address and headers are all valid. */
  datatype FetchRequest =
    | Unreadable(error: nat)
    | Readable(target: Option<Target>, wellFormed: bool, body: RequestBody)

  const BAD_REQUEST: nat := 1

  /** The error of a fetch whose request body names no live body. */
  const BODY_NOT_FOUND: nat := 2

  function Outcome<T>(mem: Memory, value: T): (Code, Option<T>) {
    match mem
    case Writable => (Ok, Some(value))
    case Missing => (FailedToAccessMemory, None)
    case OutOfBounds => (AddressOutOfBounds, None)
  }

  function BodyError(h: Host, body: RequestBody): Option<nat> {
    match body
    case NotFromHost => None
    case HandedOver(id) => if id in h.bodies.entries then None else Some(BODY_NOT_FOUND)
    case UnreadableBody => Some(BAD_REQUEST)
  }

  /** What a request is refused for. A missing host name comes first; then a bound function looks at the head
      before the body, and everybody else at the body before the head. */
  function RequestError(h: Host, r: FetchRequest): Option<nat> {
    match r
    case Unreadable(error) => Some(error)
    case Readable(target, wellFormed, body) =>
      if target.None? then Some(BAD_REQUEST)
      else if target.value.BoundFunction? then
        if !wellFormed then Some(BAD_REQUEST) else BodyError(h, body)
      else
        if BodyError(h, body).Some? then BodyError(h, body) else if !wellFormed then Some(BAD_REQUEST) else None
  }

  function StartedFuture(h: Host, r: FetchRequest, future: FetchFuture): FetchFuture {
    var error := RequestError(h, r);
    if error.Some? then future.(result := FetchFailed(error.value)) else future
  }

  function Fetch(h: Host, r: FetchRequest, future: FetchFuture): (Host, nat) {
    (h.(bodies := if r.Readable? && r.body.HandedOver? then Delete(h.bodies, r.body.id) else h.bodies,
        futures := Insert(h.futures, StartedFuture(h, r, future))),
     h.futures.next)
  }

  function FuturePoll(h: Host, id: nat, mem: Memory): (Host, Code, Option<Polled>) {
    if !h.waker then (h, NoWaker, None)
    else if id !in h.futures.entries then (h, NotFound, None)
    else
      var f := h.futures.entries[id];
      var (h', polled) :=
        if f.pendingPolls > 0 then
          (h.(futures := h.futures.(entries := h.futures.entries[id := f.(pendingPolls := f.pendingPolls - 1)])),
           StillPending)
        else
          (h.(futures := Delete(h.futures, id), results := Insert(h.results, f.result)), Ready(h.results.next));
      var (code, written) := Outcome(mem, polled);
      (h', code, written)
  }

  function ResultSerialize(h: Host, id: nat, mem: Memory): (Host, Code, Option<nat>) {
    if id !in h.results.entries then (h, NotFound, None)
    else
      var r := h.results.entries[id];
      var wire := if r.Response? then WireResponse(r.status, r.headers, h.bodies.next) else WireError(r.error);
      var (code, written) := Outcome(mem, h.bytes.next);
      (h.(results := Delete(h.results, id),
          bodies := if r.Response? then Insert(h.bodies, r.body) else h.bodies,
          bytes := Insert(h.bytes, wire)),
       code, written)
  }

  /** What one poll of a body gives: a frame, or nothing yet. A body polled after its end ends again. */
  function NextFrame(body: Body): Option<Frame> {
    if body == [] then Some(StreamEnd)
    else
      match body[0]
      case NotYet => None
      case Chunk(data) => Some(Data(data))
      case BrokenStream => Some(ReadError)
  }

  function AfterPoll(body: Body): Body {
    if body == [] then [] else body[1..]
  }

  function BodyPoll(h: Host, id: nat, mem: Memory): (Host, Code, Option<Polled>) {
    if !h.waker then (h, NoWaker, None)
    else if id !in h.bodies.entries then
      var (code, written) := Outcome(mem, NoSuchBody);
      (h, code, written)
    else
      var body := h.bodies.entries[id];
      var h1 := h.(bodies := h.bodies.(entries := h.bodies.entries[id := AfterPoll(body)]));
      var (h2, polled) :=
        match NextFrame(body)
        case None => (h1, StillPending)
        case Some(frame) => (h1.(frames := Insert(h.frames, frame)), Ready(h.frames.next));
      var (code, written) := Outcome(mem, polled);
      (h2, code, written)
  }

  /** The runtime hands the instance a request to serve. */
  function ReceiveRequest(h: Host, head: Bytes, body: Option<Body>): (Host, nat) {
    (h.(requests := Insert(h.requests, IncomingRequest(head, if body.Some? then Some(h.bodies.next) else None)),
        bodies := if body.Some? then Insert(h.bodies, body.value) else h.bodies),
     h.requests.next)
  }

  function RequestSerialize(h: Host, id: nat, mem: Memory): (Host, Code, Option<nat>) {
    if id !in h.requests.entries then (h, NotFound, None)
    else
      var (code, written) := Outcome(mem, h.bytes.next);
      (h.(requests := Delete(h.requests, id), bytes := Insert(h.bytes, WireRequest(h.requests.entries[id]))),
       code, written)
  }

  /** The guest's own response carries a body of the host's; None when there is no such body. */
  function Respond(h: Host, id: nat): (Host, Option<Body>) {
    (h.(bodies := Delete(h.bodies, id)), if id in h.bodies.entries then Some(h.bodies.entries[id]) else None)
  }

  function BodyDrop(h: Host, id: nat): Host {
    h.(bodies := Delete(h.bodies, id))
  }

  function FrameSerialize(h: Host, id: nat, mem: Memory): (Host, Code, Option<nat>) {
    if id !in h.frames.entries then (h, NotFound, None)
    else
      var (code, written) := Outcome(mem, h.bytes.next);
      (h.(frames := Delete(h.frames, id), bytes := Insert(h.bytes, WireFrame(h.frames.entries[id]))), code, written)
  }

  function BytesMove(h: Host, id: nat, mem: Memory): (Host, Code, Option<Wire>) {
    if id !in h.bytes.entries then (h, NotFound, None)
    else
      var (code, written) := Outcome(mem, h.bytes.entries[id]);
      (h.(bytes := Delete(h.bytes, id)), code, written)
  }
}
