/**
 Any number of fetches of one guest, interleaved in any way.

 Each fetch is a session: waiting for its result, reading the body, and finally closed. A
 body can be handed on as the request body of another fetch. The tables the instance
 started with may hold anything; `base` is that start.
 */
module AbiSessions {
  import opened Common
  import opened AbiHost
  import opened AbiGuest

  datatype Session =
    | Waiting(future: nat)
    | Reading(body: nat, status: nat, headers: Headers, seen: seq<Item>, ended: bool)
      /** The body was dropped or handed on. */
    | Closed(status: nat, headers: Headers, seen: seq<Item>, ended: bool)
    | Failed(error: GuestError)
      /** The guest dropped the fetch before it resolved. */
    | Abandoned(future: nat)

  /** The request body of a new fetch. */
  datatype Gift = Nothing | BodyOfSession(session: nat) | BodyFromStart(id: nat)

  /** The rest of the request: whom it is for, if its address names a host, and whether it is well formed. */
  datatype Head = Head(target: Option<Target>, wellFormed: bool)

  datatype Action =
    | StartFetch(head: Head, gift: Gift, script: FetchFuture)
    | PollSession(session: nat)
    | DropBody(session: nat)
    | Abandon(session: nat)

  /** `scripts` records the future each fetch was started with, `given` the bodies of `base` handed on. */
  datatype World = World(host: Host, sessions: seq<Session>, scripts: seq<FetchFuture>, given: set<nat>)

  function Start(base: Host): World {
    World(base, [], [], {})
  }

  predicate IsReading(w: World, s: nat) {
    s < |w.sessions| && w.sessions[s].Reading?
  }

  function Close(s: Session): Session
    requires s.Reading?
  {
    Closed(s.status, s.headers, s.seen, s.ended)
  }

  function RequestOf(head: Head, body: RequestBody): FetchRequest {
    Readable(head.target, head.wellFormed, body)
  }

  /** Sends a request; the body, if any, has been taken out of its session. */
  function Send(w: World, head: Head, body: RequestBody, script: FetchFuture): World {
    var (host, id) := Fetch(w.host, RequestOf(head, body), script);
    w.(host := host,
       sessions := w.sessions + [Waiting(id)],
       scripts := w.scripts + [StartedFuture(w.host, RequestOf(head, body), script)])
  }

  function DoFetch(base: Host, w: World, head: Head, gift: Gift, script: FetchFuture): World {
    match gift
    case Nothing => Send(w, head, NotFromHost, script)
    case BodyOfSession(s) =>
      if IsReading(w, s) then
        Send(w.(sessions := w.sessions[s := Close(w.sessions[s])]), head, HandedOver(w.sessions[s].body), script)
      else w
    case BodyFromStart(b) =>
      if b in base.bodies.entries && b !in w.given then
        Send(w.(given := w.given + {b}), head, HandedOver(b), script)
      else w
  }

  function DoPoll(w: World, s: nat): World {
    if s >= |w.sessions| then w
    else
      match w.sessions[s]
      case Waiting(id) =>
        var (host, polled) := PollFetch(w.host, id);
        (match polled
         case Pending => w.(host := host)
         case Done(FetchOk(status, headers, body)) =>
           w.(host := host, sessions := w.sessions[s := Reading(body, status, headers, [], false)])
         case Done(FetchErr(error)) => w.(host := host, sessions := w.sessions[s := Failed(error)]))
      case Reading(body, status, headers, seen, ended) =>
        var (host, polled) := PollBody(w.host, body);
        (match polled
         case Pending => w.(host := host)
         case Done(Some(item)) =>
           w.(host := host, sessions := w.sessions[s := Reading(body, status, headers, seen + [item], ended)])
         case Done(None) => w.(host := host, sessions := w.sessions[s := Reading(body, status, headers, seen, true)]))
      case _ => w
  }

  function Step(base: Host, w: World, a: Action): World {
    match a
    case StartFetch(head, gift, script) => DoFetch(base, w, head, gift, script)
    case PollSession(s) => DoPoll(w, s)
    case DropBody(s) =>
      if IsReading(w, s) then
        w.(host := BodyDrop(w.host, w.sessions[s].body), sessions := w.sessions[s := Close(w.sessions[s])])
      else w
    case Abandon(s) =>
      if s < |w.sessions| && w.sessions[s].Waiting?
        then w.(sessions := w.sessions[s := Abandoned(w.sessions[s].future)])
      else w
  }

  function Run(base: Host, actions: seq<Action>): World {
    if actions == [] then Start(base) else Step(base, Run(base, actions[..|actions| - 1]), actions[|actions| - 1])
  }

  // ---- Who owns which key ----

  function FutureKey(s: Session): Option<nat> {
    if s.Waiting? || s.Abandoned? then Some(s.future) else None
  }

  function BodyKey(s: Session): Option<nat> {
    if s.Reading? then Some(s.body) else None
  }

  function FutureKeys(sessions: seq<Session>): seq<Option<nat>> {
    seq(|sessions|, i requires 0 <= i < |sessions| => FutureKey(sessions[i]))
  }

  function BodyKeys(sessions: seq<Session>): seq<Option<nat>> {
    seq(|sessions|, i requires 0 <= i < |sessions| => BodyKey(sessions[i]))
  }

  /** A table holds what is left of its start and, beyond that, exactly one entry per owner. */
  ghost predicate OwnedBy<V>(t: Table<V>, rest: map<nat, V>, firstNew: nat, owners: seq<Option<nat>>) {
    && firstNew <= t.next
    && (forall id :: id in rest ==> id < firstNew && id in t.entries && t.entries[id] == rest[id])
    && (forall id :: id in t.entries ==> id < t.next && (id in rest || Some(id) in owners))
    && (forall s :: 0 <= s < |owners| && owners[s].Some? ==>
          firstNew <= owners[s].value && owners[s].value in t.entries)
    && (forall s, u :: 0 <= s < u < |owners| && owners[s].Some? ==> owners[s] != owners[u])
  }

  lemma OwnedInsert<V>(t: Table<V>, rest: map<nat, V>, firstNew: nat, owners: seq<Option<nat>>, v: V)
    requires OwnedBy(t, rest, firstNew, owners)
    ensures OwnedBy(Insert(t, v), rest, firstNew, owners + [Some(t.next)])
  {
  }

  /** A session that owned no key gets a new one. */
  lemma OwnedAssign<V>(t: Table<V>, rest: map<nat, V>, firstNew: nat, owners: seq<Option<nat>>, s: nat, v: V)
    requires OwnedBy(t, rest, firstNew, owners) && s < |owners| && owners[s].None?
    ensures OwnedBy(Insert(t, v), rest, firstNew, owners[s := Some(t.next)])
  {
    var owners' := owners[s := Some(t.next)];
    forall id | id in Insert(t, v).entries
      ensures id in rest || Some(id) in owners'
    {
      if id == t.next {
        assert owners'[s] == Some(id);
      } else if id !in rest {
        var u :| 0 <= u < |owners| && owners[u] == Some(id);
        assert owners'[u] == Some(id);
      }
    }
  }

  lemma OwnedRelease<V>(t: Table<V>, rest: map<nat, V>, firstNew: nat, owners: seq<Option<nat>>, s: nat)
    requires OwnedBy(t, rest, firstNew, owners) && s < |owners| && owners[s].Some?
    ensures OwnedBy(Delete(t, owners[s].value), rest, firstNew, owners[s := None])
  {
    var id0 := owners[s].value;
    var owners' := owners[s := None];
    forall id | id in Delete(t, id0).entries
      ensures id in rest || Some(id) in owners'
    {
      if id !in rest {
        var u :| 0 <= u < |owners| && owners[u] == Some(id);
        assert owners'[u] == Some(id);
      }
    }
  }

  lemma OwnedUpdate<V>(t: Table<V>, rest: map<nat, V>, firstNew: nat, owners: seq<Option<nat>>, s: nat, v: V)
    requires OwnedBy(t, rest, firstNew, owners) && s < |owners| && owners[s].Some?
    ensures OwnedBy(t.(entries := t.entries[owners[s].value := v]), rest, firstNew, owners)
  {
  }

  lemma OwnedNobody<V>(t: Table<V>, rest: map<nat, V>, firstNew: nat, owners: seq<Option<nat>>)
    requires OwnedBy(t, rest, firstNew, owners)
    ensures OwnedBy(t, rest, firstNew, owners + [None])
  {
  }

  lemma OwnedLessRest<V>(t: Table<V>, rest: map<nat, V>, firstNew: nat, owners: seq<Option<nat>>, b: nat)
    requires OwnedBy(t, rest, firstNew, owners) && b in rest
    ensures OwnedBy(Delete(t, b), rest - {b}, firstNew, owners)
  {
  }

  // ---- The invariant ----

  /** The tables between two calls of the guest. */
  ghost predicate TablesAccounted(base: Host, w: World) {
    && w.host.waker
    && OwnedBy(w.host.futures, base.futures.entries, base.futures.next, FutureKeys(w.sessions))
    && OwnedBy(w.host.bodies, base.bodies.entries - w.given, base.bodies.next, BodyKeys(w.sessions))
    && w.host.requests == base.requests
    && w.host.results.entries == base.results.entries && w.host.results.next >= base.results.next
    && w.host.frames.entries == base.frames.entries && w.host.frames.next >= base.frames.next
    && w.host.bytes.entries == base.bytes.entries && w.host.bytes.next >= base.bytes.next
  }

  /** What a session has seen, together with what its resource still holds, is what was scripted. */
  ghost predicate Faithful(host: Host, s: Session, script: FetchFuture) {
    match s
    case Waiting(id) => id in host.futures.entries && host.futures.entries[id].result == script.result
    case Abandoned(id) => id in host.futures.entries && host.futures.entries[id].result == script.result
    case Reading(id, status, headers, seen, ended) =>
      && script.result.Response? && status == script.result.status && headers == script.result.headers
      && id in host.bodies.entries
      && seen + Items(host.bodies.entries[id]) == Items(script.result.body)
      && (ended ==> host.bodies.entries[id] == [])
    case Closed(status, headers, seen, ended) =>
      && script.result.Response? && status == script.result.status && headers == script.result.headers
      && seen <= Items(script.result.body)
      && (ended ==> seen == Items(script.result.body))
    case Failed(error) => script.result.FetchFailed? && error == Reported(script.result.error)
  }

  ghost predicate AllFaithful(w: World) {
    && |w.scripts| == |w.sessions|
    && forall s :: 0 <= s < |w.sessions| ==> Faithful(w.host, w.sessions[s], w.scripts[s])
  }

  /** Sessions other than `s` do not notice what happens to its keys. */
  lemma OthersStayFaithful(base: Host, w: World, s: nat, u: nat, host: Host)
    requires TablesAccounted(base, w) && AllFaithful(w) && s < |w.sessions| && u < |w.sessions| && u != s
    requires forall id :: id in w.host.futures.entries && FutureKey(w.sessions[s]) != Some(id) ==>
               id in host.futures.entries && host.futures.entries[id] == w.host.futures.entries[id]
    requires forall id :: id in w.host.bodies.entries && BodyKey(w.sessions[s]) != Some(id) ==>
               id in host.bodies.entries && host.bodies.entries[id] == w.host.bodies.entries[id]
    ensures Faithful(host, w.sessions[u], w.scripts[u])
  {
    assert Faithful(w.host, w.sessions[u], w.scripts[u]);
    var f, b := FutureKeys(w.sessions), BodyKeys(w.sessions);
    assert f[u] == FutureKey(w.sessions[u]) && f[s] == FutureKey(w.sessions[s]);
    assert b[u] == BodyKey(w.sessions[u]) && b[s] == BodyKey(w.sessions[s]);
  }

  ghost predicate Good(base: Host, w: World) {
    TablesAccounted(base, w) && AllFaithful(w)
  }

  lemma KeysOfUpdate(sessions: seq<Session>, s: nat, x: Session)
    requires s < |sessions|
    ensures FutureKeys(sessions[s := x]) == FutureKeys(sessions)[s := FutureKey(x)]
    ensures BodyKeys(sessions[s := x]) == BodyKeys(sessions)[s := BodyKey(x)]
    ensures FutureKeys(sessions)[s] == FutureKey(sessions[s]) && BodyKeys(sessions)[s] == BodyKey(sessions[s])
    ensures FutureKeys(sessions)[s := FutureKeys(sessions)[s]] == FutureKeys(sessions)
    ensures BodyKeys(sessions)[s := BodyKeys(sessions)[s]] == BodyKeys(sessions)
  {
  }

  lemma KeysOfAppend(sessions: seq<Session>, x: Session)
    ensures FutureKeys(sessions + [x]) == FutureKeys(sessions) + [FutureKey(x)]
    ensures BodyKeys(sessions + [x]) == BodyKeys(sessions) + [BodyKey(x)]
  {
  }

  /** Session `s` moved on and nobody else's entries were touched. */
  lemma SessionMoves(base: Host, w: World, s: nat, host: Host, x: Session)
    requires Good(base, w) && s < |w.sessions|
    requires TablesAccounted(base, w.(host := host, sessions := w.sessions[s := x]))
    requires Faithful(host, x, w.scripts[s])
    requires forall id :: id in w.host.futures.entries && FutureKey(w.sessions[s]) != Some(id) ==>
               id in host.futures.entries && host.futures.entries[id] == w.host.futures.entries[id]
    requires forall id :: id in w.host.bodies.entries && BodyKey(w.sessions[s]) != Some(id) ==>
               id in host.bodies.entries && host.bodies.entries[id] == w.host.bodies.entries[id]
    ensures Good(base, w.(host := host, sessions := w.sessions[s := x]))
  {
    forall u | 0 <= u < |w.sessions|
      ensures Faithful(host, w.sessions[s := x][u], w.scripts[u])
    {
      if u != s {
        OthersStayFaithful(base, w, s, u, host);
      }
    }
  }

  lemma StillWaitingGood(base: Host, w: World, s: nat)
    requires Good(base, w) && s < |w.sessions| && w.sessions[s].Waiting?
    requires w.sessions[s].future in w.host.futures.entries
    requires w.host.futures.entries[w.sessions[s].future].pendingPolls > 0
    ensures var id := w.sessions[s].future;
            var f := w.host.futures.entries[id];
            var f' := f.(pendingPolls := f.pendingPolls - 1);
            Good(base, w.(host := w.host.(futures := w.host.futures.(entries := w.host.futures.entries[id := f']))))
  {
    var id := w.sessions[s].future;
    var f := w.host.futures.entries[id];
    var f' := f.(pendingPolls := f.pendingPolls - 1);
    var host := w.host.(futures := w.host.futures.(entries := w.host.futures.entries[id := f']));
    assert Faithful(w.host, w.sessions[s], w.scripts[s]);
    KeysOfUpdate(w.sessions, s, w.sessions[s]);
    OwnedUpdate(w.host.futures, base.futures.entries, base.futures.next, FutureKeys(w.sessions), s, f');
    assert w.sessions[s := w.sessions[s]] == w.sessions;
    SessionMoves(base, w, s, host, w.sessions[s]);
  }

  function ResolvedHost(h: Host, id: nat): Host
    requires id in h.futures.entries
  {
    var r := h.futures.entries[id].result;
    h.(futures := Delete(h.futures, id),
       results := h.results.(next := h.results.next + 1),
       bodies := if r.Response? then Insert(h.bodies, r.body) else h.bodies,
       bytes := h.bytes.(next := h.bytes.next + 1))
  }

  function ResolvedSession(h: Host, r: FetchResult): Session {
    if r.Response? then Reading(h.bodies.next, r.status, r.headers, [], false) else Failed(Reported(r.error))
  }

  lemma ResolvedGood(base: Host, w: World, s: nat)
    requires Good(base, w) && s < |w.sessions| && w.sessions[s].Waiting?
    requires w.sessions[s].future in w.host.futures.entries
    ensures var id := w.sessions[s].future;
            var x := ResolvedSession(w.host, w.host.futures.entries[id].result);
            Good(base, w.(host := ResolvedHost(w.host, id), sessions := w.sessions[s := x]))
  {
    var id := w.sessions[s].future;
    var r := w.host.futures.entries[id].result;
    var host, x := ResolvedHost(w.host, id), ResolvedSession(w.host, r);
    assert Faithful(w.host, w.sessions[s], w.scripts[s]);
    KeysOfUpdate(w.sessions, s, x);
    OwnedRelease(w.host.futures, base.futures.entries, base.futures.next, FutureKeys(w.sessions), s);
    if r.Response? {
      OwnedAssign(w.host.bodies, base.bodies.entries - w.given, base.bodies.next, BodyKeys(w.sessions), s, r.body);
    }
    assert TablesAccounted(base, w.(host := host, sessions := w.sessions[s := x]));
    SessionMoves(base, w, s, host, x);
  }

  lemma PollWaitingGood(base: Host, w: World, s: nat)
    requires BeingPolled(base) && Good(base, w) && s < |w.sessions| && w.sessions[s].Waiting?
    ensures Good(base, DoPoll(w, s))
  {
    var id := w.sessions[s].future;
    assert Faithful(w.host, w.sessions[s], w.scripts[s]);
    PollFetchEffect(w.host, id);
    if w.host.futures.entries[id].pendingPolls > 0 {
      StillWaitingGood(base, w, s);
    } else {
      ResolvedGood(base, w, s);
    }
  }

  /** The host after one poll of body `id` that used up `keys` keys of the frame and bytes tables. */
  function PolledHost(h: Host, id: nat, keys: nat): Host
    requires id in h.bodies.entries
  {
    h.(bodies := h.bodies.(entries := h.bodies.entries[id := AfterPoll(h.bodies.entries[id])]),
       frames := h.frames.(next := h.frames.next + keys),
       bytes := h.bytes.(next := h.bytes.next + keys))
  }

  lemma ReadingMovesGood(base: Host, w: World, s: nat, keys: nat, x: Session)
    requires Good(base, w) && IsReading(w, s) && x.Reading? && x.body == w.sessions[s].body
    requires x.body in w.host.bodies.entries
    requires Faithful(PolledHost(w.host, x.body, keys), x, w.scripts[s])
    ensures Good(base, w.(host := PolledHost(w.host, x.body, keys), sessions := w.sessions[s := x]))
  {
    KeysOfUpdate(w.sessions, s, x);
    OwnedUpdate(w.host.bodies, base.bodies.entries - w.given, base.bodies.next, BodyKeys(w.sessions), s,
                AfterPoll(w.host.bodies.entries[x.body]));
    assert FutureKey(x) == FutureKey(w.sessions[s]) && BodyKey(x) == BodyKey(w.sessions[s]);
    assert TablesAccounted(base, w.(host := PolledHost(w.host, x.body, keys), sessions := w.sessions[s := x]));
    SessionMoves(base, w, s, PolledHost(w.host, x.body, keys), x);
  }

  /** What a reading session has seen after one more poll. */
  function AfterReading(s: Session, body: Body): Session
    requires s.Reading?
  {
    match NextFrame(body)
    case None => s
    case Some(frame) =>
      match ItemOf(frame)
      case None => Reading(s.body, s.status, s.headers, s.seen, true)
      case Some(item) => Reading(s.body, s.status, s.headers, s.seen + [item], s.ended)
  }

  lemma ReadingStaysFaithful(host: Host, s: Session, script: FetchFuture, keys: nat)
    requires s.Reading? && Faithful(host, s, script)
    ensures Faithful(PolledHost(host, s.body, keys), AfterReading(s, host.bodies.entries[s.body]), script)
  {
    var body := host.bodies.entries[s.body];
    ItemsNext(body);
    assert PolledHost(host, s.body, keys).bodies.entries[s.body] == AfterPoll(body);
  }

  function KeysUsed(body: Body): nat {
    if NextFrame(body).Some? then 1 else 0
  }

  lemma PollReadingShape(w: World, s: nat)
    requires w.host.waker && IsReading(w, s) && w.sessions[s].body in w.host.bodies.entries
    requires KeysBelowNext(w.host.frames) && KeysBelowNext(w.host.bytes)
    ensures var id := w.sessions[s].body;
            var body := w.host.bodies.entries[id];
            DoPoll(w, s) == w.(host := PolledHost(w.host, id, KeysUsed(body)),
                               sessions := w.sessions[s := AfterReading(w.sessions[s], body)])
  {
  }

  lemma {:induction false} PollReadingGood(base: Host, w: World, s: nat)
    requires BeingPolled(base) && Good(base, w) && IsReading(w, s)
    ensures Good(base, DoPoll(w, s))
  {
    assert Faithful(w.host, w.sessions[s], w.scripts[s]);
    var body := w.host.bodies.entries[w.sessions[s].body];
    PollReadingShape(w, s);
    ReadingStaysFaithful(w.host, w.sessions[s], w.scripts[s], KeysUsed(body));
    ReadingMovesGood(base, w, s, KeysUsed(body), AfterReading(w.sessions[s], body));
  }

  /** Closing a session after its body left the table. */
  lemma CloseGood(base: Host, w: World, s: nat)
    requires Good(base, w) && IsReading(w, s)
    ensures Good(base, w.(host := BodyDrop(w.host, w.sessions[s].body),
                          sessions := w.sessions[s := Close(w.sessions[s])]))
  {
    var w' := w.(host := BodyDrop(w.host, w.sessions[s].body), sessions := w.sessions[s := Close(w.sessions[s])]);
    assert Faithful(w.host, w.sessions[s], w.scripts[s]);
    KeysOfUpdate(w.sessions, s, w'.sessions[s]);
    OwnedRelease(w.host.bodies, base.bodies.entries - w.given, base.bodies.next, BodyKeys(w.sessions), s);
    forall u | 0 <= u < |w.sessions|
      ensures Faithful(w'.host, w'.sessions[u], w'.scripts[u])
    {
      if u != s {
        OthersStayFaithful(base, w, s, u, w'.host);
      }
    }
  }

  /** Sending a request whose body, if any, is already out of its table. */
  lemma SendGood(base: Host, w: World, started: FetchFuture)
    requires Good(base, w)
    ensures Good(base, w.(host := w.host.(futures := Insert(w.host.futures, started)),
                          sessions := w.sessions + [Waiting(w.host.futures.next)],
                          scripts := w.scripts + [started]))
  {
    var w' := w.(host := w.host.(futures := Insert(w.host.futures, started)),
                 sessions := w.sessions + [Waiting(w.host.futures.next)],
                 scripts := w.scripts + [started]);
    KeysOfAppend(w.sessions, Waiting(w.host.futures.next));
    OwnedInsert(w.host.futures, base.futures.entries, base.futures.next, FutureKeys(w.sessions), started);
    OwnedNobody(w.host.bodies, base.bodies.entries - w.given, base.bodies.next, BodyKeys(w.sessions));
    forall u | 0 <= u < |w'.sessions|
      ensures Faithful(w'.host, w'.sessions[u], w'.scripts[u])
    {
      if u < |w.sessions| {
        assert Faithful(w.host, w.sessions[u], w.scripts[u]);
      }
    }
  }

  /** Giving away a body the instance started with. */
  lemma GiveFromStartGood(base: Host, w: World, b: nat)
    requires BeingPolled(base) && Good(base, w) && b in base.bodies.entries && b !in w.given
    ensures Good(base, w.(host := BodyDrop(w.host, b), given := w.given + {b}))
  {
    var rest := base.bodies.entries - w.given;
    OwnedLessRest(w.host.bodies, rest, base.bodies.next, BodyKeys(w.sessions), b);
    assert base.bodies.entries - (w.given + {b}) == rest - {b};
    var w' := w.(host := BodyDrop(w.host, b), given := w.given + {b});
    forall u | 0 <= u < |w.sessions|
      ensures Faithful(w'.host, w.sessions[u], w.scripts[u])
    {
      assert Faithful(w.host, w.sessions[u], w.scripts[u]);
      assert BodyKeys(w.sessions)[u] == BodyKey(w.sessions[u]);
    }
  }

  lemma FetchGood(base: Host, w: World, head: Head, gift: Gift, script: FetchFuture)
    requires BeingPolled(base) && Good(base, w)
    ensures Good(base, DoFetch(base, w, head, gift, script))
  {
    match gift
    case Nothing => SendGood(base, w, StartedFuture(w.host, RequestOf(head, NotFromHost), script));
    case BodyOfSession(s) =>
      if IsReading(w, s) {
        var id := w.sessions[s].body;
        CloseGood(base, w, s);
        SendGood(base, w.(host := BodyDrop(w.host, id), sessions := w.sessions[s := Close(w.sessions[s])]),
                 StartedFuture(w.host, RequestOf(head, HandedOver(id)), script));
      }
    case BodyFromStart(b) =>
      if b in base.bodies.entries && b !in w.given {
        GiveFromStartGood(base, w, b);
        SendGood(base, w.(host := BodyDrop(w.host, b), given := w.given + {b}),
                 StartedFuture(w.host, RequestOf(head, HandedOver(b)), script));
      }
  }

  lemma StepGood(base: Host, w: World, a: Action)
    requires BeingPolled(base) && Good(base, w)
    ensures Good(base, Step(base, w, a))
  {
    match a
    case StartFetch(head, gift, script) => FetchGood(base, w, head, gift, script);
    case PollSession(s) =>
      if s < |w.sessions| && w.sessions[s].Waiting? {
        PollWaitingGood(base, w, s);
      } else if IsReading(w, s) {
        PollReadingGood(base, w, s);
      }
    case DropBody(s) =>
      if IsReading(w, s) {
        CloseGood(base, w, s);
      }
    case Abandon(s) =>
      if s < |w.sessions| && w.sessions[s].Waiting? {
        assert Faithful(w.host, w.sessions[s], w.scripts[s]);
        KeysOfUpdate(w.sessions, s, Abandoned(w.sessions[s].future));
      }
  }

  lemma {:induction false} AlwaysGood(base: Host, actions: seq<Action>)
    requires BeingPolled(base)
    ensures Good(base, Run(base, actions))
  {
    if actions != [] {
      var n := |actions| - 1;
      AlwaysGood(base, actions[..n]);
      StepGood(base, Run(base, actions[..n]), actions[n]);
    } else {
      assert base.bodies.entries - {} == base.bodies.entries;
    }
  }

  /** Main result, fidelity: however sessions interleave, each one has the status and headers of its own
      response and has read a prefix of its body, chunk by chunk and error by error, and all of it once it
      was told the stream ended. */
  lemma EverySessionReadsItsOwnBody(base: Host, actions: seq<Action>, s: nat)
    requires BeingPolled(base) && s < |Run(base, actions).sessions|
    requires Run(base, actions).sessions[s].Reading? || Run(base, actions).sessions[s].Closed?
    ensures var w := Run(base, actions);
            && s < |w.scripts| && w.scripts[s].result.Response?
            && w.sessions[s].status == w.scripts[s].result.status
            && w.sessions[s].headers == w.scripts[s].result.headers
            && w.sessions[s].seen <= Items(w.scripts[s].result.body)
            && (w.sessions[s].ended ==> w.sessions[s].seen == Items(w.scripts[s].result.body))
  {
    AlwaysGood(base, actions);
    var w := Run(base, actions);
    assert Faithful(w.host, w.sessions[s], w.scripts[s]);
  }

  ghost predicate Settled(w: World) {
    forall s :: 0 <= s < |w.sessions| ==> w.sessions[s].Closed? || w.sessions[s].Failed?
  }

  lemma NobodyOwns<V>(t: Table<V>, rest: map<nat, V>, firstNew: nat, owners: seq<Option<nat>>)
    requires OwnedBy(t, rest, firstNew, owners)
    requires forall s :: 0 <= s < |owners| ==> owners[s].None?
    ensures t.entries == rest
  {
  }

  /** Main result, no leak: once every fetch has failed or had its body dropped or handed on, every host
      table holds what it held at the start, less the bodies of the start that were handed over. */
  lemma SettledSessionsLeaveNothing(base: Host, actions: seq<Action>)
    requires BeingPolled(base) && Settled(Run(base, actions))
    ensures var w := Run(base, actions);
            && w.host.futures.entries == base.futures.entries
            && w.host.requests.entries == base.requests.entries
            && w.host.results.entries == base.results.entries
            && w.host.bodies.entries == base.bodies.entries - w.given
            && w.host.frames.entries == base.frames.entries
            && w.host.bytes.entries == base.bytes.entries
  {
    AlwaysGood(base, actions);
    var w := Run(base, actions);
    NobodyOwns(w.host.futures, base.futures.entries, base.futures.next, FutureKeys(w.sessions));
    NobodyOwns(w.host.bodies, base.bodies.entries - w.given, base.bodies.next, BodyKeys(w.sessions));
  }

  /** The futures table is back where it started exactly when no fetch is waiting and none was abandoned:
      dropping a fetch before it resolves is the one way to leak. */
  lemma FuturesLeakExactlyWhenAbandoned(base: Host, actions: seq<Action>)
    requires BeingPolled(base)
    ensures var w := Run(base, actions);
            w.host.futures.entries == base.futures.entries
            <==> forall s :: 0 <= s < |w.sessions| ==> !w.sessions[s].Waiting? && !w.sessions[s].Abandoned?
  {
    AlwaysGood(base, actions);
    var w := Run(base, actions);
    if forall s :: 0 <= s < |w.sessions| ==> !w.sessions[s].Waiting? && !w.sessions[s].Abandoned? {
      NobodyOwns(w.host.futures, base.futures.entries, base.futures.next, FutureKeys(w.sessions));
    } else {
      var s :| 0 <= s < |w.sessions| && (w.sessions[s].Waiting? || w.sessions[s].Abandoned?);
      assert FutureKeys(w.sessions)[s] == Some(w.sessions[s].future);
      assert w.sessions[s].future in w.host.futures.entries && w.sessions[s].future >= base.futures.next;
    }
  }

  /** Such a run: the guest drops a fetch right after it started. */
  lemma AbandonedFetchLeaks(base: Host, head: Head, script: FetchFuture)
    requires BeingPolled(base)
    ensures Run(base, [StartFetch(head, Nothing, script), Abandon(0)]).host.futures.entries != base.futures.entries
  {
    var actions := [StartFetch(head, Nothing, script), Abandon(0)];
    assert actions[..1][..0] == [] && actions[..1] == [actions[0]];
    assert Run(base, actions[..1]) == Send(Start(base), head, NotFromHost, script);
    assert Run(base, actions).sessions[0].Abandoned?;
    FuturesLeakExactlyWhenAbandoned(base, actions);
  }
}
