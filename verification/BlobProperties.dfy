/** What the answers of the blob store say, with and without I/O failures. */
module BlobProperties {
  import opened Common
  import opened BlobNames
  import opened BlobModel

  predicate Collide(hash: HashFunction, m: Name, n: Name) {
    HashOf(hash, m) == HashOf(hash, n) && Encoded(m.bucket, m.key) != Encoded(n.bucket, n.key)
  }

  /** No two names used in the log share a hash without sharing their encoding, and bucket names are
      shorter than 4 GiB. Nothing is assumed about names the log does not use. */
  ghost predicate NoCollisions(hash: HashFunction, log: seq<Request>) {
    && (forall i :: 0 <= i < |log| ==> |log[i].name.bucket| < LENGTH_LIMIT)
    && (forall i, j {:trigger Collide(hash, log[i].name, log[j].name)} :: 0 <= i < |log| && 0 <= j < |log| ==>
          !Collide(hash, log[i].name, log[j].name))
  }

  lemma PathsTellNamesApart(hash: HashFunction, log: seq<Request>, i: nat, j: nat)
    requires NoCollisions(hash, log) && i < |log| && j < |log|
    requires PathOf(hash, log[i].name) == PathOf(hash, log[j].name)
    ensures log[i].name == log[j].name
  {
    KeyPathInjective(HashOf(hash, log[i].name), HashOf(hash, log[j].name));
    assert !Collide(hash, log[i].name, log[j].name);
    EncodedInjective(log[i].name.bucket, log[i].name.key, log[j].name.bucket, log[j].name.key);
  }

  ghost predicate IndexSound(hash: HashFunction, d: Disk) {
    && (forall b :: b in d.buckets ==> d.buckets[b] < d.nextBucket)
    && (forall b, c :: b in d.buckets && c in d.buckets && d.buckets[b] == d.buckets[c] ==> b == c)
    && (forall o :: o in d.objects ==> o.0 < d.nextBucket)
    && (forall n :: Listed(d, n) ==> RowOf(d, n).keyHash == HashOf(hash, n))
  }

  lemma BucketKeepsIndex(hash: HashFunction, d: Disk, bucket: Bytes)
    requires IndexSound(hash, d)
    ensures IndexSound(hash, WithBucket(d, bucket))
    ensures forall n :: Listed(WithBucket(d, bucket), n) <==> Listed(d, n)
  {
  }

  lemma AddRowKeepsIndex(hash: HashFunction, d: Disk, n: Name, size: nat)
    requires IndexSound(hash, d) && n.bucket in d.buckets
    ensures IndexSound(hash, AddRow(d, n, Row(HashOf(hash, n), size)))
    ensures forall m :: Listed(AddRow(d, n, Row(HashOf(hash, n), size)), m) <==> Listed(d, m) || m == n
  {
  }

  lemma DropRowKeepsIndex(hash: HashFunction, d: Disk, n: Name)
    requires IndexSound(hash, d) && n.bucket in d.buckets
    ensures IndexSound(hash, DropRow(d, n))
    ensures forall m :: Listed(DropRow(d, n), m) <==> Listed(d, m) && m != n
  {
  }

  lemma FilesLeaveIndex(hash: HashFunction, d: Disk, d': Disk)
    requires IndexSound(hash, d) && d'.buckets == d.buckets && d'.nextBucket == d.nextBucket && d'.objects == d.objects
    ensures IndexSound(hash, d')
  {
  }

  lemma PutKeepsIndex(hash: HashFunction, d: Disk, n: Name, value: Bytes, io: Io)
    requires IndexSound(hash, d)
    ensures IndexSound(hash, PutStep(hash, d, n, value, io).0)
  {
    BucketKeepsIndex(hash, d, n.bucket);
    var d1 := WithBucket(d, n.bucket);
    AddRowKeepsIndex(hash, d1, n, |value|);
    if io.first && io.second && io.third {
      FilesLeaveIndex(hash, AddRow(d1, n, Row(HashOf(hash, n), |value|)), PutStep(hash, d, n, value, io).0);
    }
  }

  lemma DeleteKeepsIndex(hash: HashFunction, d: Disk, n: Name, io: Io)
    requires IndexSound(hash, d)
    ensures IndexSound(hash, DeleteStep(d, n, io).0)
  {
    if io.first && io.second && io.third && Listed(d, n) {
      DropRowKeepsIndex(hash, d, n);
      FilesLeaveIndex(hash, DropRow(d, n), DeleteStep(d, n, io).0);
    }
  }

  lemma StepKeepsIndex(hash: HashFunction, d: Disk, r: Request)
    requires IndexSound(hash, d)
    ensures IndexSound(hash, Step(hash, d, r))
  {
    match r
    case Put(n, value, io) => PutKeepsIndex(hash, d, n, value, io);
    case Get(_, _) =>
    case Delete(n, io) => DeleteKeepsIndex(hash, d, n, io);
  }

  lemma {:induction false} IndexAlwaysSound(hash: HashFunction, log: seq<Request>)
    ensures IndexSound(hash, Run(hash, log))
  {
    if log != [] {
      IndexAlwaysSound(hash, log[..|log| - 1]);
      StepKeepsIndex(hash, Run(hash, log[..|log| - 1]), log[|log| - 1]);
    }
  }

  // ---- One object at a time ----

  /** All the disk holds about one object. */
  datatype Slot = Slot(listed: bool, file: Option<Bytes>)

  function SlotOf(hash: HashFunction, d: Disk, n: Name): Slot {
    var path := PathOf(hash, n);
    Slot(Listed(d, n), if path in d.files then Some(d.files[path]) else None)
  }

  predicate Indexes(r: Request, n: Name) {
    r.Put? && r.name == n && r.io.first && r.io.second && r.io.third
  }

  predicate Stores(r: Request, n: Name) {
    Indexes(r, n) && r.io.last
  }

  predicate Unlists(r: Request, n: Name) {
    r.Delete? && r.name == n && r.io.first && r.io.second && r.io.third
  }

  function SlotStep(s: Slot, n: Name, r: Request): Slot {
    if Indexes(r, n) then Slot(true, if r.io.last then Some(r.value) else s.file)
    else if Unlists(r, n) && s.listed then Slot(false, if r.io.last then None else s.file)
    else s
  }

  lemma StepOnListing(hash: HashFunction, d: Disk, n: Name, r: Request)
    requires IndexSound(hash, d)
    ensures Listed(Step(hash, d, r), n) <==> Indexes(r, n) || (Listed(d, n) && !Unlists(r, n))
  {
  }

  /** The files after a request: one written, one removed, or all as they were. */
  lemma StepOnFiles(hash: HashFunction, d: Disk, r: Request)
    requires IndexSound(hash, d)
    ensures Step(hash, d, r).files ==
            if Stores(r, r.name) then d.files[PathOf(hash, r.name) := r.value]
            else if Unlists(r, r.name) && r.io.last && Listed(d, r.name) then d.files - {PathOf(hash, r.name)}
            else d.files
  {
  }

  /** A request changes the slot of its own object and of no other. */
  lemma StepOnSlot(hash: HashFunction, d: Disk, n: Name, r: Request)
    requires IndexSound(hash, d)
    requires PathOf(hash, r.name) == PathOf(hash, n) ==> r.name == n
    ensures SlotOf(hash, Step(hash, d, r), n) == SlotStep(SlotOf(hash, d, n), n, r)
  {
    StepOnListing(hash, d, n, r);
    StepOnFiles(hash, d, r);
  }

  function SlotRun(log: seq<Request>, n: Name): Slot {
    if log == [] then Slot(false, None) else SlotStep(SlotRun(log[..|log| - 1], n), n, log[|log| - 1])
  }

  /** The whole store, seen through one object, is the two-field machine of that object alone. */
  lemma {:induction false} StoreIsSlotwise(hash: HashFunction, log: seq<Request>, i: nat, m: nat)
    requires NoCollisions(hash, log) && i < |log| && m <= |log|
    ensures SlotOf(hash, Run(hash, log[..m]), log[i].name) == SlotRun(log[..m], log[i].name)
    decreases m
  {
    if m > 0 {
      StoreIsSlotwise(hash, log, i, m - 1);
      assert log[..m][..m - 1] == log[..m - 1];
      IndexAlwaysSound(hash, log[..m - 1]);
      if PathOf(hash, log[m - 1].name) == PathOf(hash, log[i].name) {
        PathsTellNamesApart(hash, log, m - 1, i);
      }
      StepOnSlot(hash, Run(hash, log[..m - 1]), log[i].name, log[m - 1]);
    }
  }

  /** A value is answered exactly when the object is listed and its file is there and readable. */
  lemma GetAnswersSlot(hash: HashFunction, log: seq<Request>, i: nat)
    requires NoCollisions(hash, log) && i < |log| && log[i].Get?
    ensures var s, io := SlotRun(log[..i], log[i].name), log[i].io;
            && (forall v :: AnswerAt(hash, log, i) == Found(Some(v)) <==>
                  io.first && io.second && io.last && s.listed && s.file == Some(v))
            && (io.first && io.second && !s.listed ==> AnswerAt(hash, log, i) == Found(None))
            && (s.listed ==> AnswerAt(hash, log, i) != Found(None))
  {
    StoreIsSlotwise(hash, log, i, i);
    IndexAlwaysSound(hash, log[..i]);
  }

  // ---- All I/O succeeds: the store is a map ----

  const ALL_WELL: Io := Io(true, true, true, true)

  function MapStep(m: map<Name, Bytes>, r: Request): map<Name, Bytes> {
    match r
    case Put(n, value, _) => m[n := value]
    case Get(_, _) => m
    case Delete(n, _) => m - {n}
  }

  function MapRun(log: seq<Request>): map<Name, Bytes> {
    if log == [] then map[] else MapStep(MapRun(log[..|log| - 1]), log[|log| - 1])
  }

  function MapAnswer(m: map<Name, Bytes>, r: Request): Answer {
    match r
    case Put(_, _, _) => Done
    case Get(n, _) => Found(if n in m then Some(m[n]) else None)
    case Delete(_, _) => Done
  }

  lemma {:induction false} SlotFollowsMap(log: seq<Request>, n: Name)
    requires forall j :: 0 <= j < |log| ==> log[j].io == ALL_WELL
    ensures SlotRun(log, n) == if n in MapRun(log) then Slot(true, Some(MapRun(log)[n])) else Slot(false, None)
  {
    if log != [] {
      SlotFollowsMap(log[..|log| - 1], n);
    }
  }

  /** Main result: without I/O failures and collisions every answer is that of a plain map from bucket
      and key to bytes, and index and files agree with the map. */
  lemma {:induction false} BlobStoreRefinesMap(hash: HashFunction, log: seq<Request>, i: nat)
    requires NoCollisions(hash, log) && i < |log|
    requires forall j :: 0 <= j < |log| ==> log[j].io == ALL_WELL
    ensures AnswerAt(hash, log, i) == MapAnswer(MapRun(log[..i]), log[i])
    ensures var n, d := log[i].name, Run(hash, log);
            && (Listed(d, n) <==> n in MapRun(log))
            && (PathOf(hash, n) in d.files <==> n in MapRun(log))
            && (n in MapRun(log) ==> d.files[PathOf(hash, n)] == MapRun(log)[n])
  {
    var n := log[i].name;
    StoreIsSlotwise(hash, log, i, i);
    IndexAlwaysSound(hash, log[..i]);
    SlotFollowsMap(log[..i], n);
    assert log[..|log|] == log;
    StoreIsSlotwise(hash, log, i, |log|);
    SlotFollowsMap(log, n);
  }

  // ---- Any step may fail ----

  /** The last put that listed the object has not been unlisted since. */
  ghost predicate ListedBy(log: seq<Request>, n: Name, j: nat) {
    j < |log| && Indexes(log[j], n) && forall r :: j < r < |log| ==> !Unlists(log[r], n)
  }

  lemma {:induction false} ListedExactlyBy(log: seq<Request>, n: Name)
    ensures SlotRun(log, n).listed <==> exists j: nat :: ListedBy(log, n, j)
  {
    if log != [] {
      var m := |log| - 1;
      ListedExactlyBy(log[..m], n);
      if Indexes(log[m], n) {
        assert ListedBy(log, n, m);
      } else {
        if j: nat :| ListedBy(log, n, j) {
          assert ListedBy(log[..m], n, j);
        }
        if j: nat :| ListedBy(log[..m], n, j) && !Unlists(log[m], n) {
          assert log[..m][j] == log[j];
          forall r | j < r < |log|
            ensures !Unlists(log[r], n)
          {
            assert r < m ==> log[..m][r] == log[r];
          }
          assert ListedBy(log, n, j);
        }
      }
    }
  }

  /** Delete `r` finds the object listed and takes its row away. */
  ghost predicate TakesRow(log: seq<Request>, n: Name, r: nat) {
    r < |log| && Unlists(log[r], n) && exists q: nat :: ListedBy(log[..r], n, q)
  }

  /** Delete `r` finds the object listed and gets as far as removing its file. */
  ghost predicate Erases(log: seq<Request>, n: Name, r: nat) {
    TakesRow(log, n, r) && log[r].io.last
  }

  /** Put `j` wrote the file as it is now. */
  ghost predicate WrittenBy(log: seq<Request>, n: Name, j: nat) {
    && j < |log| && Stores(log[j], n)
    && forall r :: j < r < |log| ==> !Stores(log[r], n) && !Erases(log, n, r)
  }

  lemma WrittenByExtend(log: seq<Request>, n: Name, j: nat)
    requires log != [] && j < |log| - 1
    ensures WrittenBy(log, n, j) <==>
            WrittenBy(log[..|log| - 1], n, j) && !Stores(log[|log| - 1], n) && !Erases(log, n, |log| - 1)
  {
    var m := |log| - 1;
    forall r | 0 <= r < m
      ensures log[..m][r] == log[r] && (Erases(log[..m], n, r) <==> Erases(log, n, r))
    {
      assert log[..m][..r] == log[..r];
    }
  }

  lemma {:induction false} FileExactlyWrittenBy(log: seq<Request>, n: Name)
    ensures SlotRun(log, n).file.Some? <==> exists j: nat :: WrittenBy(log, n, j)
    ensures forall j: nat :: WrittenBy(log, n, j) ==> SlotRun(log, n).file == Some(log[j].value)
  {
    if log != [] {
      var m := |log| - 1;
      FileExactlyWrittenBy(log[..m], n);
      ListedExactlyBy(log[..m], n);
      forall j: nat | j < m
        ensures WrittenBy(log, n, j) <==> WrittenBy(log[..m], n, j) && !Stores(log[m], n) && !Erases(log, n, m)
        ensures log[..m][j] == log[j]
      {
        WrittenByExtend(log, n, j);
      }
      if Stores(log[m], n) {
        assert WrittenBy(log, n, m);
      } else if SlotRun(log, n).file.Some? {
        var j: nat :| WrittenBy(log[..m], n, j);
        assert WrittenBy(log, n, j);
      }
    }
  }

  /** Main result: whatever fails, a value that a get returns was put under that very bucket and key by
      a put that answered ok, the last such put; no other object's bytes are ever returned. */
  lemma ReturnedValuesWerePut(hash: HashFunction, log: seq<Request>, i: nat, value: Bytes)
    requires NoCollisions(hash, log) && i < |log| && log[i].Get? && AnswerAt(hash, log, i) == Found(Some(value))
    ensures exists j: nat :: j < i && log[j].Put? && log[j].name == log[i].name && log[j].value == value
                             && WrittenBy(log[..i], log[i].name, j)
                             && AnswerAt(hash, log, j) == Done
                             && forall r :: j < r < i && log[r].Put? && log[r].name == log[i].name ==>
                                    AnswerAt(hash, log, r) == Failed
  {
    var n := log[i].name;
    GetAnswersSlot(hash, log, i);
    FileExactlyWrittenBy(log[..i], n);
    var j: nat :| WrittenBy(log[..i], n, j);
    assert log[..i][j] == log[j];
    forall r | j < r < i && log[r].Put? && log[r].name == n
      ensures AnswerAt(hash, log, r) == Failed
    {
      assert log[..i][r] == log[r];
    }
  }

  lemma {:induction false} UnlistedUntilPut(log: seq<Request>, n: Name, d: nat, m: nat)
    requires d < m <= |log| && log[d].name == n && log[d].Delete?
    requires Unlists(log[d], n) || !SlotRun(log[..d], n).listed
    requires forall r :: d < r < m ==> !(log[r].Put? && log[r].name == n)
    ensures !SlotRun(log[..m], n).listed
    decreases m
  {
    assert log[..m][..m - 1] == log[..m - 1];
    if d < m - 1 {
      UnlistedUntilPut(log, n, d, m - 1);
    }
  }

  /** Main result: after a delete that answered ok, no get returns a value until the next put of that
      object. */
  lemma DeletedStaysDeleted(hash: HashFunction, log: seq<Request>, d: nat, i: nat)
    requires NoCollisions(hash, log) && d < i < |log|
    requires log[d].Delete? && AnswerAt(hash, log, d) == Done
    requires log[i].Get? && log[i].name == log[d].name
    requires forall r :: d < r < i ==> !(log[r].Put? && log[r].name == log[d].name)
    ensures forall v :: AnswerAt(hash, log, i) != Found(Some(v))
  {
    StoreIsSlotwise(hash, log, d, d);
    UnlistedUntilPut(log, log[d].name, d, i);
    GetAnswersSlot(hash, log, i);
  }

  /** Put `j` wrote the bytes, delete `r` took the row but left the file, and put `p` listed the object
      again without writing its own bytes; nothing since `j` replaced or removed the file, and nothing
      since `p` took the row. */
  ghost predicate LeftBehind(log: seq<Request>, n: Name, j: nat, r: nat, p: nat) {
    && j < r < p < |log|
    && WrittenBy(log, n, j)
    && TakesRow(log, n, r) && !log[r].io.last
    && ListedBy(log, n, p) && !log[p].io.last
  }

  /** The bytes in the file are those of put `j`, and delete `r` took the row after it. */
  ghost predicate Stale(log: seq<Request>, n: Name, j: nat, r: nat) {
    j < r && WrittenBy(log, n, j) && TakesRow(log, n, r)
  }

  /** The get answers the bytes of a put whose object was deleted in between. */
  ghost predicate AnswersDeletedBytes(hash: HashFunction, log: seq<Request>, i: nat)
    requires i < |log| && log[i].Get?
  {
    exists j: nat, r: nat :: Stale(log[..i], log[i].name, j, r) && AnswerAt(hash, log, i) == Found(Some(log[j].value))
  }

  lemma ListedAgainAfter(log: seq<Request>, n: Name, j: nat, r: nat, p: nat)
    requires Stale(log, n, j, r) && ListedBy(log, n, p)
    ensures LeftBehind(log, n, j, r, p)
  {
    assert !Erases(log, n, r);
    assert p > r && !Stores(log[p], n);
  }

  /** Main result: a get answers deleted bytes exactly when its own steps work and the log holds a put, a
      later delete that left the file, and a still later put that left it again. */
  lemma DeletedBytesComeBackExactlyWhen(hash: HashFunction, log: seq<Request>, i: nat)
    requires NoCollisions(hash, log) && i < |log| && log[i].Get?
    ensures AnswersDeletedBytes(hash, log, i) <==>
            && log[i].io.first && log[i].io.second && log[i].io.last
            && exists j: nat, r: nat, p: nat :: LeftBehind(log[..i], log[i].name, j, r, p)
  {
    var n := log[i].name;
    GetAnswersSlot(hash, log, i);
    ListedExactlyBy(log[..i], n);
    FileExactlyWrittenBy(log[..i], n);
    if AnswersDeletedBytes(hash, log, i) {
      var j: nat, r: nat :| Stale(log[..i], n, j, r) && AnswerAt(hash, log, i) == Found(Some(log[j].value));
      var p: nat :| ListedBy(log[..i], n, p);
      ListedAgainAfter(log[..i], n, j, r, p);
    }
    if j: nat, r: nat, p: nat :| LeftBehind(log[..i], n, j, r, p) {
      assert Stale(log[..i], n, j, r);
    }
  }

  function ComeBackLog(n: Name, first: Bytes, second: Bytes): seq<Request> {
    var badFile := Io(true, true, true, false);
    [Put(n, first, ALL_WELL), Delete(n, badFile), Delete(n, ALL_WELL), Put(n, second, badFile), Get(n, ALL_WELL)]
  }

  lemma ComeBackIsStale(n: Name, first: Bytes, second: Bytes)
    ensures Stale(ComeBackLog(n, first, second)[..4], n, 0, 1)
  {
    var log := ComeBackLog(n, first, second)[..4];
    assert ListedBy(log[..1], n, 0) && TakesRow(log, n, 1);
    assert !TakesRow(log, n, 2) by {
      assert forall q :: 0 <= q < 2 ==> !ListedBy(log[..2], n, q) by {
        assert Unlists(log[..2][1], n);
      }
    }
  }

  /** Such a run: the second delete answers ok, the second put fails, and the get returns the deleted bytes. */
  lemma DeletedBytesCanComeBack(hash: HashFunction, n: Name, first: Bytes, second: Bytes)
    requires |n.bucket| < LENGTH_LIMIT
    ensures var log := ComeBackLog(n, first, second);
            && NoCollisions(hash, log)
            && AnswerAt(hash, log, 2) == Done
            && AnswerAt(hash, log, 3) == Failed
            && AnswerAt(hash, log, 4) == Found(Some(first))
            && AnswersDeletedBytes(hash, log, 4)
  {
    var log := ComeBackLog(n, first, second);
    var s0 := SlotRun(log[..0], n);
    assert forall k :: 0 <= k < 4 ==> log[..k + 1][..k] == log[..k];
    assert SlotRun(log[..1], n) == Slot(true, Some(first));
    assert SlotRun(log[..2], n) == Slot(false, Some(first));
    assert SlotRun(log[..3], n) == Slot(false, Some(first));
    assert SlotRun(log[..4], n) == Slot(true, Some(first));
    StoreIsSlotwise(hash, log, 2, 2);
    GetAnswersSlot(hash, log, 4);
    ComeBackIsStale(n, first, second);
  }

  // ---- Every answer ----

  /** Some put of the bucket got as far as its bucket row. */
  ghost predicate BucketKnown(log: seq<Request>, bucket: Bytes) {
    exists j: nat :: j < |log| && log[j].Put? && log[j].name.bucket == bucket && log[j].io.first
  }

  lemma {:induction false} BucketExactlyBy(hash: HashFunction, log: seq<Request>, bucket: Bytes)
    ensures bucket in Run(hash, log).buckets <==> BucketKnown(log, bucket)
  {
    if log != [] {
      var m := |log| - 1;
      BucketExactlyBy(hash, log[..m], bucket);
      if j: nat :| j < m && log[..m][j].Put? && log[..m][j].name.bucket == bucket && log[..m][j].io.first {
        assert log[j].Put? && log[j].name.bucket == bucket && log[j].io.first;
      }
      if j: nat :| j < |log| && log[j].Put? && log[j].name.bucket == bucket && log[j].io.first {
        assert j < m ==> log[..m][j] == log[j];
      }
    }
  }

  ghost predicate IsListed(log: seq<Request>, n: Name) {
    exists j: nat :: ListedBy(log, n, j)
  }

  ghost predicate HasFile(log: seq<Request>, n: Name) {
    exists j: nat :: WrittenBy(log, n, j)
  }

  /** A put answers ok exactly when all its steps worked. */
  lemma PutAnswersExactly(hash: HashFunction, log: seq<Request>, i: nat)
    requires i < |log| && log[i].Put?
    ensures AnswerAt(hash, log, i) == if log[i].io == ALL_WELL then Done else Failed
  {
  }

  /** A delete answers ok exactly when it found nothing to delete, or deleted the row and the file. */
  lemma DeleteAnswersExactly(hash: HashFunction, log: seq<Request>, i: nat)
    requires NoCollisions(hash, log) && i < |log| && log[i].Delete?
    ensures AnswerAt(hash, log, i) == Done || AnswerAt(hash, log, i) == Failed
    ensures var n, io := log[i].name, log[i].io;
            AnswerAt(hash, log, i) == Done <==>
            io.first && (!BucketKnown(log[..i], n.bucket) ||
              (io.second && (!IsListed(log[..i], n) || (io.third && io.last && HasFile(log[..i], n)))))
  {
    BucketExactlyBy(hash, log[..i], log[i].name.bucket);
    ListedExactlyBy(log[..i], log[i].name);
    FileExactlyWrittenBy(log[..i], log[i].name);
    StoreIsSlotwise(hash, log, i, i);
    IndexAlwaysSound(hash, log[..i]);
  }

  /** A get answers "nothing" exactly when the index says so, a value as `GetAnswersSlot` says, and else fails. */
  lemma GetFindsNothingExactly(hash: HashFunction, log: seq<Request>, i: nat)
    requires NoCollisions(hash, log) && i < |log| && log[i].Get?
    ensures var n, io := log[i].name, log[i].io;
            AnswerAt(hash, log, i) == Found(None) <==>
            io.first && (!BucketKnown(log[..i], n.bucket) || (io.second && !IsListed(log[..i], n)))
    ensures AnswerAt(hash, log, i) != Done
  {
    BucketExactlyBy(hash, log[..i], log[i].name.bucket);
    ListedExactlyBy(log[..i], log[i].name);
    StoreIsSlotwise(hash, log, i, i);
  }

  /** Put `j` is the last to have indexed the object, and no delete took the row since. */
  ghost predicate RowBy(log: seq<Request>, n: Name, j: nat) {
    && j < |log| && Indexes(log[j], n)
    && forall r :: j < r < |log| ==> !Indexes(log[r], n) && !Unlists(log[r], n)
  }

  lemma StepOnRow(hash: HashFunction, d: Disk, n: Name, r: Request)
    requires IndexSound(hash, d) && Listed(Step(hash, d, r), n)
    ensures Indexes(r, n) ==> RowOf(Step(hash, d, r), n) == Row(HashOf(hash, n), |r.value|)
    ensures !Indexes(r, n) && Listed(d, n) ==> RowOf(Step(hash, d, r), n) == RowOf(d, n)
  {
  }

  /** The row of an object carries its hash and the size of the value that was put last. */
  lemma {:induction false} RowExactlyBy(hash: HashFunction, log: seq<Request>, n: Name, j: nat)
    requires RowBy(log, n, j)
    ensures Listed(Run(hash, log), n) && RowOf(Run(hash, log), n) == Row(HashOf(hash, n), |log[j].value|)
  {
    var m := |log| - 1;
    IndexAlwaysSound(hash, log[..m]);
    StepOnListing(hash, Run(hash, log[..m]), n, log[m]);
    if j < m {
      assert forall r :: 0 <= r < m ==> log[..m][r] == log[r];
      RowExactlyBy(hash, log[..m], n, j);
    }
    StepOnRow(hash, Run(hash, log[..m]), n, log[m]);
  }
}
