/**
 `set nx px` and `delex ifeq` as a lease lock on one key.

 A lease starts when a `set nx` on the key is accepted and ends at the earlier of its
 expiry and the first `delex` carrying its token. On a key written by nothing else, leases
 never overlap, and a holder keeps the key until its own lease ends whatever other
 tokens are released in between.
 */
module KvLease {
  import opened Common
  import opened KvModel

  /** Nothing overwrites the key: every `set` on it carries `nx`. (`px` may be left out.) */
  ghost predicate Guarded(events: seq<Event>, key: Bytes) {
    forall i :: 0 <= i < |events| && events[i].Request? && events[i].op.Set? && events[i].op.key == key ==>
      events[i].op.nx
  }

  predicate Acquires(s: Store, events: seq<Event>, key: Bytes, i: nat) {
    && i < |events|
    && events[i].Request? && events[i].op.Set? && events[i].op.key == key && events[i].op.nx
    && Reply(Run(s, events[..i]), events[i]) == SetOk
  }

  predicate Releases(e: Event, key: Bytes, token: Bytes) {
    e.Request? && e.op == Delex(key, token)
  }

  function LeaseOf(e: Event): Value
    requires e.Request? && e.op.Set?
  {
    Value(e.op.value, Deadline(e.op.px, e.stamp))
  }

  ghost predicate ReleasedBetween(events: seq<Event>, key: Bytes, token: Bytes, i: nat, j: nat)
    requires j <= |events|
  {
    exists r :: i < r < j && Releases(events[r], key, token)
  }

  ghost predicate UnexpiredBetween(events: seq<Event>, lease: Value, i: nat, j: nat)
    requires j <= |events|
  {
    forall r :: i < r < j && events[r].Request? ==> !Expired(lease, events[r].now)
  }

  /** Not the end of the lease: no release with its token, no clock reading past it, no plain `set`. */
  predicate LeavesLease(e: Event, key: Bytes, lease: Value) {
    && !Releases(e, key, lease.value)
    && (e.Request? ==> !Expired(lease, e.now) && (e.op.Set? && e.op.key == key ==> e.op.nx))
  }

  predicate HasLease(s: Store, key: Bytes, lease: Value) {
    key in s.entries && s.entries[key] == lease
  }

  lemma EventKeepsLease(s: Store, e: Event, key: Bytes, lease: Value)
    requires HasLease(s, key, lease) && LeavesLease(e, key, lease)
    ensures HasLease(Step(s, e), key, lease)
  {
  }

  lemma {:induction false} EventsKeepLease(s: Store, events: seq<Event>, key: Bytes, lease: Value)
    requires HasLease(s, key, lease)
    requires forall r :: 0 <= r < |events| ==> LeavesLease(events[r], key, lease)
    ensures HasLease(Run(s, events), key, lease)
  {
    if events != [] {
      var n := |events| - 1;
      EventsKeepLease(s, events[..n], key, lease);
      EventKeepsLease(Run(s, events[..n]), events[n], key, lease);
    }
  }

  /** Until its lease ends, the holder's entry is exactly what it stored. */
  lemma HolderKeepsKey(s: Store, events: seq<Event>, key: Bytes, i: nat, m: nat)
    requires Guarded(events, key) && Acquires(s, events, key, i) && i < m <= |events|
    requires !ReleasedBetween(events, key, events[i].op.value, i, m)
    requires UnexpiredBetween(events, LeaseOf(events[i]), i, m)
    ensures HasLease(Run(s, events[..m]), key, LeaseOf(events[i]))
  {
    var lease := LeaseOf(events[i]);
    RunPrefix(s, events, i);
    forall r | i < r < m
      ensures LeavesLease(events[r], key, lease)
    {
      assert !Releases(events[r], key, lease.value);
    }
    EventsKeepLease(Run(s, events[..i + 1]), events[i + 1..m], key, lease);
    RunConcat(s, events[..i + 1], events[i + 1..m]);
    assert events[..m] == events[..i + 1] + events[i + 1..m];
  }

  /** Of two leases on the key, the first ended before the second was granted. */
  lemma SecondLeaseAfterFirst(s: Store, events: seq<Event>, key: Bytes, i: nat, j: nat)
    requires ClockNeverRunsBack(events) && Guarded(events, key)
    requires Acquires(s, events, key, i) && Acquires(s, events, key, j) && i < j
    ensures ReleasedBetween(events, key, events[i].op.value, i, j) || Expired(LeaseOf(events[i]), events[j].now)
  {
    if !ReleasedBetween(events, key, events[i].op.value, i, j) && !Expired(LeaseOf(events[i]), events[j].now) {
      HolderKeepsKey(s, events, key, i, j);
    }
  }

  function Earlier(a: Option<Time>, b: Time): Option<Time> {
    if a.Some? && a.value <= b then a else Some(b)
  }

  /** The end of the lease taken at `i`, looking at messages from `r` on; None when it never ends. */
  function LeaseEnd(events: seq<Event>, key: Bytes, i: nat, r: nat): Option<Time>
    requires i < |events| && events[i].Request? && events[i].op.Set?
    decreases |events| - r
  {
    if r >= |events| then LeaseOf(events[i]).expiresAt
    else if Releases(events[r], key, events[i].op.value) then Earlier(LeaseOf(events[i]).expiresAt, events[r].now)
    else LeaseEnd(events, key, i, r + 1)
  }

  lemma LeaseEndByRelease(events: seq<Event>, key: Bytes, i: nat, k: nat, r: nat)
    requires ClockNeverRunsBack(events)
    requires i < k <= r < |events| && events[i].Request? && events[i].op.Set?
    requires Releases(events[r], key, events[i].op.value)
    ensures LeaseEnd(events, key, i, k).Some? && LeaseEnd(events, key, i, k).value <= events[r].now
    decreases r - k
  {
    if !Releases(events[k], key, events[i].op.value) {
      LeaseEndByRelease(events, key, i, k + 1, r);
    }
  }

  lemma LeaseEndByExpiry(events: seq<Event>, key: Bytes, i: nat, k: nat)
    requires i < |events| && events[i].Request? && events[i].op.Set? && LeaseOf(events[i]).expiresAt.Some?
    ensures LeaseEnd(events, key, i, k).Some? && LeaseEnd(events, key, i, k).value <= LeaseOf(events[i]).expiresAt.value
    decreases |events| - k
  {
  }

  predicate Holds(events: seq<Event>, key: Bytes, i: nat, t: Time)
    requires i < |events| && events[i].Request? && events[i].op.Set?
  {
    var end := LeaseEnd(events, key, i, i + 1);
    events[i].now <= t && (end.Some? ==> t < end.value)
  }

  /** Main result: no instant lies in two leases. */
  lemma LeasesAreDisjoint(s: Store, events: seq<Event>, key: Bytes, i: nat, j: nat, t: Time)
    requires ClockNeverRunsBack(events) && Guarded(events, key)
    requires Acquires(s, events, key, i) && Acquires(s, events, key, j) && i != j
    ensures !(Holds(events, key, i, t) && Holds(events, key, j, t))
  {
    var a, b := if i < j then i else j, if i < j then j else i;
    SecondLeaseAfterFirst(s, events, key, a, b);
    if ReleasedBetween(events, key, events[a].op.value, a, b) {
      var r :| a < r < b && Releases(events[r], key, events[a].op.value);
      LeaseEndByRelease(events, key, a, a + 1, r);
    } else {
      LeaseEndByExpiry(events, key, a, a + 1);
    }
  }

  /** A release that comes after its own lease was superseded does nothing to the new holder. */
  lemma LateReleaseKeepsHolder(s: Store, events: seq<Event>, key: Bytes, i: nat, j: nat, r: nat)
    requires Guarded(events, key) && i < j < r < |events|
    requires Acquires(s, events, key, i) && Acquires(s, events, key, j)
    requires events[i].op.value != events[j].op.value
    requires Releases(events[r], key, events[i].op.value)
    requires !ReleasedBetween(events, key, events[j].op.value, j, r)
    requires UnexpiredBetween(events, LeaseOf(events[j]), j, r)
    ensures Run(s, events[..r + 1]) == Run(s, events[..r])
    ensures HasLease(Run(s, events[..r]), key, LeaseOf(events[j]))
  {
    HolderKeepsKey(s, events, key, j, r);
    RunPrefix(s, events, r);
  }

  /** The token must be the holder's own: with a shared token the late release of an expired lease
      does remove the current holder's entry, and a third client gets in. */
  lemma SharedTokenBreaksLock(key: Bytes, token: Bytes, other: Bytes)
    ensures var events := [
              Request(Set(key, token, true, Some(5)), 0, 0),
              Request(Set(key, token, true, Some(50)), 5, 5),
              Request(Delex(key, token), 6, 6),
              Request(Set(key, other, true, Some(5)), 7, 7)];
            Acquires(EMPTY, events, key, 0) && Acquires(EMPTY, events, key, 1) && Acquires(EMPTY, events, key, 3)
  {
    var events := [
      Request(Set(key, token, true, Some(5)), 0, 0),
      Request(Set(key, token, true, Some(50)), 5, 5),
      Request(Delex(key, token), 6, 6),
      Request(Set(key, other, true, Some(5)), 7, 7)];
    RunPrefix(EMPTY, events, 0);
    RunPrefix(EMPTY, events, 1);
    RunPrefix(EMPTY, events, 2);
  }
}
