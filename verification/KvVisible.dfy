/**
 What a key holds and for how long, read off the messages and which of them were accepted:
 neither the deadline nor the test for expiry of the store is used to say it.
 */
module KvVisible {
  import opened Common
  import opened KvModel

  /** Which messages were answered "ok, set". */
  function SetAnswers(events: seq<Event>): seq<bool> {
    seq(|events|, i requires 0 <= i < |events| => Reply(Run(EMPTY, events[..i]), events[i]) == SetOk)
  }

  predicate Sets(e: Event, key: Bytes) {
    e.Request? && e.op.Set? && e.op.key == key
  }

  /** Before message `n` the set at `i` is the last accepted one of the key, and nobody deleted its value since. */
  ghost predicate Holds(events: seq<Event>, ok: seq<bool>, i: nat, n: nat, key: Bytes)
    requires n <= |events| == |ok|
  {
    && i < n && Sets(events[i], key) && ok[i]
    && forall r :: i < r < n ==>
         !(Sets(events[r], key) && ok[r]) && !(events[r].Request? && events[r].op == Delex(key, events[i].op.value))
  }

  /** The clock has not reached the end of the set: its own clock reading plus its `px`, if any. */
  predicate StillLasts(e: Event, now: Time)
    requires e.Request? && e.op.Set?
  {
    e.op.px.Some? ==> now < e.stamp + e.op.px.value
  }

  /** The store holds for the key what the set `e` wrote. */
  predicate Written(s: Store, key: Bytes, e: Event)
    requires e.Request? && e.op.Set?
  {
    && key in s.entries
    && s.entries[key].value == e.op.value
    && s.entries[key].expiresAt == if e.op.px.Some? then Some(e.stamp + e.op.px.value) else None
  }

  lemma AcceptedSetWrites(s: Store, e: Event, key: Bytes)
    requires Sets(e, key) && Reply(s, e) == SetOk
    ensures Written(Step(s, e), key, e)
  {
  }

  predicate Removes(e: Event, key: Bytes, w: Event)
    requires w.Request? && w.op.Set?
  {
    e.Request? && e.op == Delex(key, w.op.value)
  }

  /** Any other message leaves a written entry alone, or deletes just its value; and it writes none. */
  lemma OthersKeep(s: Store, e: Event, key: Bytes, w: Event)
    requires w.Request? && w.op.Set? && Written(s, key, w) && !(Sets(e, key) && Reply(s, e) == SetOk)
    ensures Removes(e, key, w) ==> key !in Step(s, e).entries
    ensures !Removes(e, key, w) ==> Written(Step(s, e), key, w)
  {
  }

  lemma OthersWriteNothing(s: Store, e: Event, key: Bytes)
    requires key !in s.entries && !(Sets(e, key) && Reply(s, e) == SetOk)
    ensures key !in Step(s, e).entries
  {
  }

  ghost predicate Tracks(s: Store, events: seq<Event>, ok: seq<bool>, n: nat, key: Bytes)
    requires n <= |events| == |ok|
  {
    && (key in s.entries ==> exists i: nat :: Holds(events, ok, i, n, key))
    && forall i: nat :: Holds(events, ok, i, n, key) ==> Written(s, key, events[i])
  }

  lemma StepTracks(s: Store, events: seq<Event>, ok: seq<bool>, n: nat, key: Bytes)
    requires n < |events| == |ok| && Tracks(s, events, ok, n, key)
    requires ok[n] == (Reply(s, events[n]) == SetOk)
    ensures Tracks(Step(s, events[n]), events, ok, n + 1, key)
  {
    var e, m := events[n], n + 1;
    if Sets(e, key) && ok[n] {
      AcceptedSetWrites(s, e, key);
      assert Holds(events, ok, n, n + 1, key);
    } else if i: nat :| Holds(events, ok, i, n, key) {
      OthersKeep(s, e, key, events[i]);
      assert !Removes(e, key, events[i]) ==> Holds(events, ok, i, n + 1, key);
      forall j: nat | Holds(events, ok, j, m, key)
        ensures j == i
      {
        assert Holds(events, ok, j, n, key);
      }
    } else {
      OthersWriteNothing(s, e, key);
      forall j: nat
        ensures !Holds(events, ok, j, m, key)
      {
        assert !Holds(events, ok, j, n, key);
      }
    }
  }

  lemma {:induction false} RunTracks(events: seq<Event>, n: nat, key: Bytes)
    requires n <= |events|
    ensures Tracks(Run(EMPTY, events[..n]), events, SetAnswers(events), n, key)
  {
    if n > 0 {
      RunTracks(events, n - 1, key);
      StepTracks(Run(EMPTY, events[..n - 1]), events, SetAnswers(events), n - 1, key);
      RunPrefix(EMPTY, events, n - 1);
    }
  }

  /** Before message `n` the set at `i` holds, and the clock has not ended it. */
  ghost predicate Live(events: seq<Event>, i: nat, n: nat, key: Bytes, now: Time)
    requires n <= |events|
  {
    Holds(events, SetAnswers(events), i, n, key) && StillLasts(events[i], now)
  }

  lemma LookupIsLive(events: seq<Event>, n: nat, key: Bytes, now: Time)
    requires n <= |events|
    ensures var found := Lookup(Run(EMPTY, events[..n]).entries, key, now);
            && (found.Some? <==> exists i: nat :: Live(events, i, n, key, now))
            && forall i: nat :: Live(events, i, n, key, now) ==> found == Some(events[i].op.value)
  {
    RunTracks(events, n, key);
    if Lookup(Run(EMPTY, events[..n]).entries, key, now).Some? {
      var i: nat :| Holds(events, SetAnswers(events), i, n, key);
      assert Live(events, i, n, key, now);
    }
  }

  /** Main result: in any run, whatever the clock did, a `get` answers a value exactly when some accepted `set`
      wrote it with no `px` or less than `px` ago, and no later accepted `set` and no `delex` of that value
      came in between. */
  lemma GetAnswersExactly(events: seq<Event>, n: nat, key: Bytes, value: Bytes)
    requires n < |events| && events[n].Request? && events[n].op == Get(key)
    ensures Reply(Run(EMPTY, events[..n]), events[n]) == Got(Some(value))
            <==> exists i: nat :: Live(events, i, n, key, events[n].now) && events[i].op.value == value
  {
    LookupIsLive(events, n, key, events[n].now);
  }

  /** Main result: a `set` is refused exactly when it carries `nx` and such a value is there. */
  lemma SetRefusedExactly(events: seq<Event>, n: nat)
    requires n < |events| && events[n].Request? && events[n].op.Set?
    ensures Reply(Run(EMPTY, events[..n]), events[n]) == AlreadyExists
            <==> events[n].op.nx && exists i: nat :: Live(events, i, n, events[n].op.key, events[n].now)
  {
    LookupIsLive(events, n, events[n].op.key, events[n].now);
  }

  /** Every request is answered, each in its kind; a subscription gets the name of a queue that is new. */
  lemma AnsweredInKind(s: Store, e: Event)
    requires e.Request?
    ensures match e.op
            case Set(_, _, _, _) => Reply(s, e).SetOk? || Reply(s, e).AlreadyExists?
            case Get(_) => Reply(s, e).Got?
            case Delex(_, _) => Reply(s, e).DelexDone?
            case Publish(_, _) => Reply(s, e).Published?
            case Subscribe(_) =>
              Reply(s, e).Subscribed? && Reply(s, e).queue >= |s.queues| && IsOpen(Step(s, e).queues, Reply(s, e).queue)
  {
  }
}
