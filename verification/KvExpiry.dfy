/**
 Lazy expiry against eager expiry.

 The store keeps expired entries and hides them in `get`. The reference store here drops
 every expired entry before each operation and then tests plain membership. Under a clock
 that never runs back the two cannot be told apart by any sequence of operations.
 */
module KvExpiry {
  import opened Common
  import opened KvModel

  function Purge(entries: map<Bytes, Value>, now: Time): map<Bytes, Value> {
    map k | k in entries && !Expired(entries[k], now) :: entries[k]
  }

  function PurgeBefore(s: Store, e: Event): Store {
    if e.Request? then s.(entries := Purge(s.entries, e.now)) else s
  }

  /** The eager store: no operation looks at an expiry. */
  function EagerStep(s: Store, e: Event): Store {
    var p := PurgeBefore(s, e);
    if e.Request? && e.op.Set? then
      if e.op.nx && e.op.key in p.entries then p else p.(entries := Insert(p.entries, e.op, e.stamp))
    else
      Step(p, e)
  }

  function EagerReply(s: Store, e: Event): Response {
    var p := PurgeBefore(s, e);
    if e.Request? && e.op.Set? then
      if e.op.nx && e.op.key in p.entries then AlreadyExists else SetOk
    else if e.Request? && e.op.Get? then
      Got(if e.op.key in p.entries then Some(p.entries[e.op.key].value) else None)
    else
      Reply(p, e)
  }

  function EagerRun(s: Store, events: seq<Event>): Store {
    if events == [] then s else EagerStep(EagerRun(s, events[..|events| - 1]), events[|events| - 1])
  }

  /** The latest clock reading taken so far. */
  function Horizon(events: seq<Event>): Time {
    if events == [] then 0
    else if events[|events| - 1].Request? then events[|events| - 1].stamp
    else Horizon(events[..|events| - 1])
  }

  lemma PurgeTwice(entries: map<Bytes, Value>, t: Time, u: Time)
    requires t <= u
    ensures Purge(Purge(entries, t), u) == Purge(entries, u)
  {
  }

  /** Two stores that only differ in entries already expired at `t`. */
  ghost predicate SameLive(lazy: Store, eager: Store, t: Time) {
    && Purge(lazy.entries, t) == Purge(eager.entries, t)
    && lazy.channels == eager.channels
    && lazy.queues == eager.queues
  }

  lemma SameLiveLater(lazy: Store, eager: Store, t: Time, u: Time)
    requires SameLive(lazy, eager, t) && t <= u
    ensures SameLive(lazy, eager, u)
  {
    PurgeTwice(lazy.entries, t, u);
    PurgeTwice(eager.entries, t, u);
  }

  lemma LookupIsPurgedMembership(entries: map<Bytes, Value>, key: Bytes, now: Time)
    ensures Lookup(entries, key, now) ==
            if key in Purge(entries, now) then Some(Purge(entries, now)[key].value) else None
  {
  }

  lemma PurgeInsert(a: map<Bytes, Value>, b: map<Bytes, Value>, op: Operation, stamp: Time)
    requires op.Set? && Purge(a, stamp) == Purge(b, stamp)
    ensures Purge(Insert(a, op, stamp), stamp) == Purge(Insert(b, op, stamp), stamp)
  {
    var x, y := Purge(Insert(a, op, stamp), stamp), Purge(Insert(b, op, stamp), stamp);
    forall k
      ensures (k in x <==> k in y) && (k in x ==> x[k] == y[k])
    {
      assert k in Purge(a, stamp) <==> k in Purge(b, stamp);
    }
  }

  lemma PurgeDelete(a: map<Bytes, Value>, b: map<Bytes, Value>, key: Bytes, ifeq: Bytes, t: Time)
    requires Purge(a, t) == Purge(b, t)
    ensures Purge(DeleteIfEqual(a, key, ifeq), t) == Purge(DeleteIfEqual(b, key, ifeq), t)
  {
    var x, y := Purge(DeleteIfEqual(a, key, ifeq), t), Purge(DeleteIfEqual(b, key, ifeq), t);
    forall k
      ensures (k in x <==> k in y) && (k in x ==> x[k] == y[k])
    {
      assert k in Purge(a, t) <==> k in Purge(b, t);
      assert k in Purge(a, t) ==> Purge(a, t)[k] == Purge(b, t)[k];
    }
  }

  /** One operation: same answer, and the stores stay alike. */
  lemma StepAgrees(lazy: Store, eager: Store, e: Event, t: Time)
    requires SameLive(lazy, eager, t)
    requires e.Request? ==> t <= e.now <= e.stamp
    ensures Reply(lazy, e) == EagerReply(eager, e)
    ensures SameLive(Step(lazy, e), EagerStep(eager, e), if e.Request? then e.stamp else t)
  {
    if e.Request? {
      SameLiveLater(lazy, eager, t, e.now);
      var p := PurgeBefore(eager, e);
      PurgeTwice(eager.entries, e.now, e.now);
      assert SameLive(lazy, p, e.now);
      SameLiveLater(lazy, p, e.now, e.stamp);
      if e.op.Set? {
        LookupIsPurgedMembership(lazy.entries, e.op.key, e.now);
        PurgeInsert(lazy.entries, p.entries, e.op, e.stamp);
      } else if e.op.Get? {
        LookupIsPurgedMembership(lazy.entries, e.op.key, e.now);
      } else if e.op.Delex? {
        PurgeDelete(lazy.entries, p.entries, e.op.key, e.op.ifeq, e.stamp);
      }
    }
  }

  /** Nothing read before the message at `i` is later than what that message reads. */
  lemma HorizonBefore(events: seq<Event>, i: nat, j: nat)
    requires ClockNeverRunsBack(events) && j <= i < |events| && events[i].Request?
    ensures Horizon(events[..j]) <= events[i].now
    decreases j
  {
    if j > 0 {
      assert events[..j][..j - 1] == events[..j - 1];
      HorizonBefore(events, i, j - 1);
    }
  }

  lemma {:induction false} RunsAgree(events: seq<Event>, n: nat)
    requires ClockNeverRunsBack(events) && n <= |events|
    ensures SameLive(Run(EMPTY, events[..n]), EagerRun(EMPTY, events[..n]), Horizon(events[..n]))
    decreases n
  {
    if n > 0 {
      RunsAgree(events, n - 1);
      assert events[..n][..n - 1] == events[..n - 1];
      var e := events[n - 1];
      if e.Request? {
        HorizonBefore(events, n - 1, n - 1);
      }
      StepAgrees(Run(EMPTY, events[..n - 1]), EagerRun(EMPTY, events[..n - 1]), e, Horizon(events[..n - 1]));
    }
  }

  /** Main result: every answer of the lazy store is the answer of the eager store. */
  lemma LazyExpiryRefinesEager(events: seq<Event>, i: nat)
    requires ClockNeverRunsBack(events) && i < |events|
    ensures Reply(Run(EMPTY, events[..i]), events[i]) == EagerReply(EagerRun(EMPTY, events[..i]), events[i])
  {
    RunsAgree(events, i);
    if events[i].Request? {
      HorizonBefore(events, i, i);
    }
    StepAgrees(Run(EMPTY, events[..i]), EagerRun(EMPTY, events[..i]), events[i], Horizon(events[..i]));
  }

  /** The clock assumption is needed: `SystemTime` may step back, and then an entry that was already
      reported gone is visible again, which no eager store would show. */
  lemma ClockStepBackRevivesEntry(key: Bytes, value: Bytes)
    ensures var events := [
        Request(Set(key, value, false, Some(5)), 0, 0), Request(Get(key), 9, 9), Request(Get(key), 2, 2)];
            && Reply(Run(EMPTY, events[..1]), events[1]) == Got(None)
            && Reply(Run(EMPTY, events[..2]), events[2]) == Got(Some(value))
            && EagerReply(EagerRun(EMPTY, events[..2]), events[2]) == Got(None)
  {
  }
}
