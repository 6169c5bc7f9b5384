/**
 What the host keeps up by itself: for any calls a guest makes, with any ids and any result
 addresses, nothing is duplicated on its way through the tables and nothing is lost from
 the count.
 */
module AbiStages {
  import opened Common
  import opened AbiHost

  datatype Call =
    | FetchCall(request: FetchRequest, future: FetchFuture)
    | FuturePollCall(id: nat, mem: Memory)
    | ResultSerializeCall(id: nat, mem: Memory)
    | BodyPollCall(id: nat, mem: Memory)
    | BodyDropCall(id: nat)
    | FrameSerializeCall(id: nat, mem: Memory)
    | BytesMoveCall(id: nat, mem: Memory)
    | RequestSerializeCall(id: nat, mem: Memory)
      /** The runtime hands the instance a request to serve. */
    | ReceiveCall(head: Bytes, content: Option<Body>)
      /** The guest's response is read, and it names a host body. */
    | RespondCall(id: nat)
      /** The runtime starts or stops polling the instance. */
    | SetWaker(waker: bool)

  function Step(h: Host, c: Call): Host {
    match c
    case FetchCall(request, future) => Fetch(h, request, future).0
    case FuturePollCall(id, mem) => FuturePoll(h, id, mem).0
    case ResultSerializeCall(id, mem) => ResultSerialize(h, id, mem).0
    case BodyPollCall(id, mem) => BodyPoll(h, id, mem).0
    case BodyDropCall(id) => BodyDrop(h, id)
    case FrameSerializeCall(id, mem) => FrameSerialize(h, id, mem).0
    case BytesMoveCall(id, mem) => BytesMove(h, id, mem).0
    case RequestSerializeCall(id, mem) => RequestSerialize(h, id, mem).0
    case ReceiveCall(head, content) => ReceiveRequest(h, head, content).0
    case RespondCall(id) => Respond(h, id).0
    case SetWaker(waker) => h.(waker := waker)
  }

  function Run(h: Host, calls: seq<Call>): Host {
    if calls == [] then h else Step(Run(h, calls[..|calls| - 1]), calls[|calls| - 1])
  }

  // ---- Events of one call ----

  predicate SerializesResult(h: Host, c: Call) {
    c.ResultSerializeCall? && c.id in h.results.entries
  }

  predicate ProducesFrame(h: Host, c: Call) {
    c.BodyPollCall? && h.waker && c.id in h.bodies.entries && NextFrame(h.bodies.entries[c.id]).Some?
  }

  predicate SerializesFrame(h: Host, c: Call) {
    c.FrameSerializeCall? && c.id in h.frames.entries
  }

  predicate MovesBytes(h: Host, c: Call) {
    c.BytesMoveCall? && c.id in h.bytes.entries
  }

  predicate SerializesRequest(h: Host, c: Call) {
    c.RequestSerializeCall? && c.id in h.requests.entries
  }

  /** The body leaves the table: handed over to a request, sent as the answer, or dropped. */
  predicate TakesBody(h: Host, c: Call) {
    || ((c.BodyDropCall? || c.RespondCall?) && c.id in h.bodies.entries)
    || (c.FetchCall? && c.request.Readable? && c.request.body.HandedOver? && c.request.body.id in h.bodies.entries)
  }

  predicate ConsumesBody(h: Host, c: Call, id: nat) {
    TakesBody(h, c) && id == if c.FetchCall? then c.request.body.id else c.id
  }

  predicate ProducesBody(h: Host, c: Call) {
    (c.ReceiveCall? && c.content.Some?) || (SerializesResult(h, c) && h.results.entries[c.id].Response?)
  }

  /** How often `what` happens along the run. */
  function Times(what: (Host, Call) -> bool, h: Host, calls: seq<Call>): nat {
    if calls == [] then 0
    else
      var n := |calls| - 1;
      Times(what, h, calls[..n]) + if what(Run(h, calls[..n]), calls[n]) then 1 else 0
  }

  lemma SizeAfterInsert<V>(t: Table<V>, v: V)
    requires KeysBelowNext(t)
    ensures |Insert(t, v).entries| == |t.entries| + 1
  {
  }

  lemma SizeAfterDelete<V>(t: Table<V>, id: nat)
    ensures |Delete(t, id).entries| == |t.entries| - if id in t.entries then 1 else 0
  {
  }

  lemma SizeAfterUpdate<V>(entries: map<nat, V>, id: nat, v: V)
    requires id in entries
    ensures |entries[id := v]| == |entries|
  {
  }

  lemma StepKeepsSound(h: Host, c: Call)
    requires SoundTables(h)
    ensures SoundTables(Step(h, c))
  {
  }

  /** What one call does to the number of fetches on their way. */
  lemma StepCountsFetches(h: Host, c: Call)
    requires SoundTables(h)
    ensures var h' := Step(h, c);
            |h'.futures.entries| + |h'.results.entries| + (if SerializesResult(h, c) then 1 else 0)
            == |h.futures.entries| + |h.results.entries| + (if c.FetchCall? then 1 else 0)
  {
    match c
    case FuturePollCall(id, mem) =>
      if h.waker && id in h.futures.entries {
        var f := h.futures.entries[id];
        if f.pendingPolls > 0 {
          SizeAfterUpdate(h.futures.entries, id, f.(pendingPolls := f.pendingPolls - 1));
        } else {
          SizeAfterDelete(h.futures, id);
          SizeAfterInsert(h.results, f.result);
        }
      }
    case ResultSerializeCall(id, mem) => SizeAfterDelete(h.results, id);
    case FetchCall(_, _) => SizeAfterInsert(h.futures, Step(h, c).futures.entries[h.futures.next]);
    case _ =>
  }

  /** What one call does to the number of frames on their way. */
  lemma StepCountsFrames(h: Host, c: Call)
    requires SoundTables(h)
    ensures |Step(h, c).frames.entries| + (if SerializesFrame(h, c) then 1 else 0)
            == |h.frames.entries| + (if ProducesFrame(h, c) then 1 else 0)
  {
  }

  /** What one call does to the number of requests the guest has not read. */
  lemma StepCountsRequests(h: Host, c: Call)
    requires SoundTables(h)
    ensures |Step(h, c).requests.entries| + (if SerializesRequest(h, c) then 1 else 0)
            == |h.requests.entries| + (if c.ReceiveCall? then 1 else 0)
  {
  }

  /** What one call does to the number of messages waiting for the guest. */
  lemma StepCountsBytes(h: Host, c: Call)
    requires SoundTables(h)
    ensures |Step(h, c).bytes.entries| + (if MovesBytes(h, c) then 1 else 0)
            == |h.bytes.entries|
               + (if SerializesResult(h, c) || SerializesFrame(h, c) || SerializesRequest(h, c) then 1 else 0)
  {
  }

  /** What one call does to the number of bodies. */
  lemma StepCountsBodies(h: Host, c: Call)
    requires SoundTables(h)
    ensures |Step(h, c).bodies.entries| + (if TakesBody(h, c) then 1 else 0)
            == |h.bodies.entries| + (if ProducesBody(h, c) then 1 else 0)
  {
    match c
    case BodyPollCall(id, mem) =>
      if h.waker && id in h.bodies.entries {
        SizeAfterUpdate(h.bodies.entries, id, AfterPoll(h.bodies.entries[id]));
        assert Step(h, c).bodies.entries == h.bodies.entries[id := AfterPoll(h.bodies.entries[id])];
      }
    case _ =>
  }

  /** Main result: fetches started are live futures, live results and results serialized; frames produced
      are live frames and frames serialized; requests received are live requests and requests serialized;
      messages serialized are live messages and messages moved; bodies received, with responses or requests,
      are live bodies and bodies taken. */
  lemma {:induction false} StagesAreConserved(h: Host, calls: seq<Call>)
    requires SoundTables(h)
    ensures var h' := Run(h, calls);
            && SoundTables(h')
            && |h'.futures.entries| + |h'.results.entries| + Times(SerializesResult, h, calls)
               == |h.futures.entries| + |h.results.entries| + Times((_, c: Call) => c.FetchCall?, h, calls)
            && |h'.frames.entries| + Times(SerializesFrame, h, calls)
               == |h.frames.entries| + Times(ProducesFrame, h, calls)
            && |h'.bytes.entries| + Times(MovesBytes, h, calls)
               == |h.bytes.entries| + Times(SerializesResult, h, calls) + Times(SerializesFrame, h, calls)
                  + Times(SerializesRequest, h, calls)
            && |h'.requests.entries| + Times(SerializesRequest, h, calls)
               == |h.requests.entries| + Times((_, c: Call) => c.ReceiveCall?, h, calls)
            && |h'.bodies.entries| + Times(TakesBody, h, calls)
               == |h.bodies.entries| + Times(ProducesBody, h, calls)
  {
    if calls != [] {
      var n := |calls| - 1;
      StagesAreConserved(h, calls[..n]);
      StepCountsFetches(Run(h, calls[..n]), calls[n]);
      StepCountsFrames(Run(h, calls[..n]), calls[n]);
      StepCountsRequests(Run(h, calls[..n]), calls[n]);
      StepCountsBytes(Run(h, calls[..n]), calls[n]);
      StepCountsBodies(Run(h, calls[..n]), calls[n]);
      StepKeepsSound(Run(h, calls[..n]), calls[n]);
    }
  }

  // ---- Consumed at most once ----

  ghost predicate OnlyNewKeys<V>(before: Table<V>, after: Table<V>) {
    before.next <= after.next && forall id :: id in after.entries ==> id in before.entries || id >= before.next
  }

  lemma StepAddsOnlyNewKeys(h: Host, c: Call)
    ensures OnlyNewKeys(h.futures, Step(h, c).futures) && OnlyNewKeys(h.results, Step(h, c).results)
    ensures OnlyNewKeys(h.bodies, Step(h, c).bodies) && OnlyNewKeys(h.frames, Step(h, c).frames)
    ensures OnlyNewKeys(h.bytes, Step(h, c).bytes) && OnlyNewKeys(h.requests, Step(h, c).requests)
  {
  }

  lemma {:induction false} RunAddsOnlyNewKeys(h: Host, calls: seq<Call>)
    ensures OnlyNewKeys(h.bodies, Run(h, calls).bodies) && OnlyNewKeys(h.bytes, Run(h, calls).bytes)
  {
    if calls != [] {
      var n := |calls| - 1;
      RunAddsOnlyNewKeys(h, calls[..n]);
      StepAddsOnlyNewKeys(Run(h, calls[..n]), calls[n]);
    }
  }

  lemma {:induction false} RunConcat(h: Host, a: seq<Call>, b: seq<Call>)
    ensures Run(h, a + b) == Run(Run(h, a), b)
  {
    if b == [] {
      assert a + b == a;
    } else {
      RunConcat(h, a, b[..|b| - 1]);
      assert (a + b)[..|a + b| - 1] == a + b[..|b| - 1];
    }
  }

  lemma LaterAddsOnlyNewKeys(h: Host, calls: seq<Call>, i: nat, j: nat)
    requires i <= j <= |calls|
    ensures OnlyNewKeys(Run(h, calls[..i]).bodies, Run(h, calls[..j]).bodies)
    ensures OnlyNewKeys(Run(h, calls[..i]).bytes, Run(h, calls[..j]).bytes)
  {
    RunConcat(h, calls[..i], calls[i..j]);
    assert calls[..j] == calls[..i] + calls[i..j];
    RunAddsOnlyNewKeys(Run(h, calls[..i]), calls[i..j]);
  }

  /** What is consumed is gone, and its key was used up before. */
  lemma ConsumedIsGone(h: Host, c: Call, id: nat)
    requires SoundTables(h)
    ensures MovesBytes(h, c) && c.id == id ==> id !in Step(h, c).bytes.entries && id < h.bytes.next
    ensures ConsumesBody(h, c, id) ==> id !in Step(h, c).bodies.entries && id < h.bodies.next
  {
  }

  /** Main result: whatever the guest calls, one bytes resource is moved at most once and one body is
      handed over, sent as an answer or dropped at most once. */
  lemma ConsumedAtMostOnce(h: Host, calls: seq<Call>, i: nat, j: nat, id: nat)
    requires SoundTables(h) && i < j < |calls|
    ensures !(MovesBytes(Run(h, calls[..i]), calls[i]) && MovesBytes(Run(h, calls[..j]), calls[j])
              && calls[i].id == id && calls[j].id == id)
    ensures !(ConsumesBody(Run(h, calls[..i]), calls[i], id) && ConsumesBody(Run(h, calls[..j]), calls[j], id))
  {
    StagesAreConserved(h, calls[..i]);
    ConsumedIsGone(Run(h, calls[..i]), calls[i], id);
    StepAddsOnlyNewKeys(Run(h, calls[..i]), calls[i]);
    assert calls[..i + 1][..i] == calls[..i];
    LaterAddsOnlyNewKeys(h, calls, i + 1, j);
  }
}
