/** The blob task: the index database, the files, and the handler of each message. */
module BlobTask {
  import opened Common
  import opened BlobNames
  import opened BlobModel

  /** The outcome of an index operation: a failed statement, or its result. */
  datatype Indexed<T> = Broken | Got(value: T)

  class IndexDb {
    var buckets: map<Bytes, nat>
    var nextBucket: nat
    var objects: map<(nat, Bytes), Row>

    constructor ()
      ensures buckets == map[] && nextBucket == 0 && objects == map[]
    {
      buckets, nextBucket, objects := map[], 0, map[];
    }

    ghost function Contents(files: map<Path, Bytes>): Disk
      reads this
    {
      Disk(buckets, nextBucket, objects, files)
    }

    /** Inserts the bucket unless it exists, then looks its id up. */
    method GetOrCreateBucket(
        bucket: Bytes, ghost files: map<Path, Bytes>, insertWorks: bool, selectWorks: bool)
      returns (id: Indexed<nat>)
      modifies this`buckets, this`nextBucket
      ensures Contents(files) == if insertWorks then WithBucket(old(Contents(files)), bucket) else old(Contents(files))
      ensures id.Got? <==> insertWorks && selectWorks
      ensures id.Got? ==> bucket in buckets && id.value == buckets[bucket]
    {
      if !insertWorks {
        return Broken;
      }
      if bucket !in buckets {
        buckets, nextBucket := buckets[bucket := nextBucket], nextBucket + 1;
      }
      if !selectWorks {
        return Broken;
      }
      return Got(buckets[bucket]);
    }

    /** True when the object is in the index afterwards. */
    method PutObject(n: Name, keyHash: HexHash, size: nat, ghost files: map<Path, Bytes>, io: Io) returns (ok: bool)
      modifies this
      ensures ok <==> io.first && io.second && io.third
      ensures Contents(files) ==
              if !io.first then old(Contents(files))
              else if ok then AddRow(WithBucket(old(Contents(files)), n.bucket), n, Row(keyHash, size))
              else WithBucket(old(Contents(files)), n.bucket)
    {
      var bucketId := GetOrCreateBucket(n.bucket, files, io.first, io.second);
      if bucketId.Broken? || !io.third {
        return false;
      }
      objects := objects[(bucketId.value, n.key) := Row(keyHash, size)];
      return true;
    }

    method GetObject(n: Name, ghost files: map<Path, Bytes>, io: Io) returns (keyHash: Indexed<Option<HexHash>>)
      ensures keyHash.Broken? <==> !io.first || (n.bucket in buckets && !io.second)
      ensures keyHash.Got? ==>
                keyHash.value == if Listed(Contents(files), n) then Some(RowOf(Contents(files), n).keyHash) else None
    {
      if !io.first {
        return Broken;
      }
      if n.bucket !in buckets {
        return Got(None);
      }
      if !io.second {
        return Broken;
      }
      var row := (buckets[n.bucket], n.key);
      return Got(if row in objects then Some(objects[row].keyHash) else None);
    }

    method DeleteObject(n: Name, ghost files: map<Path, Bytes>, io: Io) returns (keyHash: Indexed<Option<HexHash>>)
      modifies this`objects
      ensures var d := old(Contents(files));
              && (keyHash.Broken? <==>
                  !io.first || (n.bucket in d.buckets && (!io.second || (Listed(d, n) && !io.third))))
              && (keyHash.Got? ==> keyHash.value == if Listed(d, n) then Some(RowOf(d, n).keyHash) else None)
              && Contents(files) == if keyHash.Got? && keyHash.value.Some? then DropRow(d, n) else d
    {
      keyHash := GetObject(n, files, io);
      if keyHash.Broken? || keyHash.value.None? {
        return;
      }
      if !io.third {
        return Broken;
      }
      objects := objects - {(buckets[n.bucket], n.key)};
    }
  }

  class BlobStore {
    const hash: HashFunction
    const index: IndexDb
    var files: map<Path, Bytes>

    ghost function Contents(): Disk
      reads this, index
    {
      index.Contents(files)
    }

    constructor (hash: HashFunction)
      ensures this.hash == hash && fresh(index) && Contents() == EMPTY
    {
      this.hash := hash;
      index := new IndexDb();
      files := map[];
    }

    /** One turn of the message loop. */
    method Handle(r: Request) returns (answer: Answer)
      modifies this, index
      ensures Contents() == Step(hash, old(Contents()), r)
      ensures answer == AnswerTo(hash, old(Contents()), r)
    {
      match r
      case Put(n, value, io) =>
        var keyHash := hash(Encoded(n.bucket, n.key));
        var indexed := index.PutObject(n, keyHash, |value|, files, io);
        if !indexed || !io.last {
          return Failed;
        }
        files := files[KeyPath(keyHash) := value];
        return Done;
      case Get(n, io) =>
        var found := index.GetObject(n, files, io);
        if found.Broken? {
          return Failed;
        }
        if found.value.None? {
          return Found(None);
        }
        var path := KeyPath(found.value.value);
        return if io.last && path in files then Found(Some(files[path])) else Failed;
      case Delete(n, io) =>
        var removed := index.DeleteObject(n, files, io);
        if removed.Broken? {
          return Failed;
        }
        if removed.value.None? {
          return Done;
        }
        var path := KeyPath(removed.value.value);
        if !io.last || path !in files {
          return Failed;
        }
        files := files - {path};
        return Done;
    }
  }

  /** The message loop over a whole log. */
  method RunBlobTask(hash: HashFunction, log: seq<Request>) returns (store: BlobStore, answers: seq<Answer>)
    ensures store.hash == hash && store.Contents() == Run(hash, log)
    ensures |answers| == |log| && forall i :: 0 <= i < |log| ==> answers[i] == AnswerAt(hash, log, i)
  {
    store := new BlobStore(hash);
    answers := [];
    for i := 0 to |log|
      invariant fresh(store) && fresh(store.index) && store.hash == hash
      invariant store.Contents() == Run(hash, log[..i])
      invariant |answers| == i && forall j :: 0 <= j < i ==> answers[j] == AnswerAt(hash, log, j)
    {
      RunPrefix(hash, log, i);
      var answer := store.Handle(log[i]);
      answers := answers + [answer];
    }
    assert log[..|log|] == log;
  }
}
