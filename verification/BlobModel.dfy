/**
 The blob store as a value: the two tables of the index database, the files, and what each
 message does when any of its four I/O steps may fail without effect.
 */
module BlobModel {
  import opened Common
  import opened BlobNames

  datatype Name = Name(bucket: Bytes, key: Bytes)

  datatype Row = Row(keyHash: HexHash, size: nat)

  datatype Disk = Disk(
    buckets: map<Bytes, nat>, nextBucket: nat, objects: map<(nat, Bytes), Row>, files: map<Path, Bytes>)

  /** Which of the steps of one message work, in the order they are tried. */
  datatype Io = Io(first: bool, second: bool, third: bool, last: bool)

  datatype Request =
    | Put(name: Name, value: Bytes, io: Io)
    | Get(name: Name, io: Io)
    | Delete(name: Name, io: Io)

  datatype Answer =
    | Done
    | Found(value: Option<Bytes>)
    | Failed

  const EMPTY: Disk := Disk(map[], 0, map[], map[])

  function HashOf(hash: HashFunction, n: Name): HexHash {
    hash(Encoded(n.bucket, n.key))
  }

  function PathOf(hash: HashFunction, n: Name): Path {
    KeyPath(HashOf(hash, n))
  }

  /** "insert or ignore into buckets". */
  function WithBucket(d: Disk, bucket: Bytes): Disk {
    if bucket in d.buckets then d
    else d.(buckets := d.buckets[bucket := d.nextBucket], nextBucket := d.nextBucket + 1)
  }

  predicate Listed(d: Disk, n: Name) {
    n.bucket in d.buckets && (d.buckets[n.bucket], n.key) in d.objects
  }

  function RowOf(d: Disk, n: Name): Row
    requires Listed(d, n)
  {
    d.objects[(d.buckets[n.bucket], n.key)]
  }

  function AddRow(d: Disk, n: Name, row: Row): Disk
    requires n.bucket in d.buckets
  {
    d.(objects := d.objects[(d.buckets[n.bucket], n.key) := row])
  }

  function DropRow(d: Disk, n: Name): Disk
    requires n.bucket in d.buckets
  {
    d.(objects := d.objects - {(d.buckets[n.bucket], n.key)})
  }

  /** Bucket row, bucket lookup, object row, then the file. */
  function PutStep(hash: HashFunction, d: Disk, n: Name, value: Bytes, io: Io): (Disk, Answer) {
    if !io.first then (d, Failed)
    else
      var d1 := WithBucket(d, n.bucket);
      if !io.second || !io.third then (d1, Failed)
      else
        var row := Row(HashOf(hash, n), |value|);
        var d2 := AddRow(d1, n, row);
        if !io.last then (d2, Failed)
        else (d2.(files := d2.files[KeyPath(row.keyHash) := value]), Done)
  }

  /** Bucket lookup, object lookup, then the file. */
  function GetAnswer(d: Disk, n: Name, io: Io): Answer {
    if !io.first then Failed
    else if n.bucket !in d.buckets then Found(None)
    else if !io.second then Failed
    else if !Listed(d, n) then Found(None)
    else
      var path := KeyPath(RowOf(d, n).keyHash);
      if io.last && path in d.files then Found(Some(d.files[path])) else Failed
  }

  /** Bucket lookup, object lookup, object row, then the file. */
  function DeleteStep(d: Disk, n: Name, io: Io): (Disk, Answer) {
    if !io.first then (d, Failed)
    else if n.bucket !in d.buckets then (d, Done)
    else if !io.second then (d, Failed)
    else if !Listed(d, n) then (d, Done)
    else if !io.third then (d, Failed)
    else
      var path := KeyPath(RowOf(d, n).keyHash);
      var d1 := DropRow(d, n);
      if io.last && path in d.files then (d1.(files := d1.files - {path}), Done) else (d1, Failed)
  }

  function Step(hash: HashFunction, d: Disk, r: Request): Disk {
    match r
    case Put(n, value, io) => PutStep(hash, d, n, value, io).0
    case Get(_, _) => d
    case Delete(n, io) => DeleteStep(d, n, io).0
  }

  function AnswerTo(hash: HashFunction, d: Disk, r: Request): Answer {
    match r
    case Put(n, value, io) => PutStep(hash, d, n, value, io).1
    case Get(n, io) => GetAnswer(d, n, io)
    case Delete(n, io) => DeleteStep(d, n, io).1
  }

  function Run(hash: HashFunction, log: seq<Request>): Disk {
    if log == [] then EMPTY else Step(hash, Run(hash, log[..|log| - 1]), log[|log| - 1])
  }

  function AnswerAt(hash: HashFunction, log: seq<Request>, i: nat): Answer
    requires i < |log|
  {
    AnswerTo(hash, Run(hash, log[..i]), log[i])
  }

  lemma RunPrefix(hash: HashFunction, log: seq<Request>, i: nat)
    requires i < |log|
    ensures Run(hash, log[..i + 1]) == Step(hash, Run(hash, log[..i]), log[i])
  {
    assert log[..i + 1][..i] == log[..i];
  }
}
