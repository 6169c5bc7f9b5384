/**
 Where the bytes of an object are kept: the file name is derived from a hash of the bucket
 name's length, the bucket name and the key.

 Bucket names stand for their UTF-8 bytes. The hash function is a parameter.
 */
module BlobNames {
  import opened Common

  type HexHash = s: string | |s| == 64 witness seq(64, i => '0')

  type HashFunction = Bytes -> HexHash

  const LENGTH_LIMIT: nat := 0x1_0000_0000

  /** `(n as u32).to_be_bytes()`: the cast drops everything above 32 bits. */
  function BigEndian32(n: nat): Bytes {
    var v := n % LENGTH_LIMIT;
    [(v / 0x100_0000) as byte, (v / 0x1_0000 % 0x100) as byte, (v / 0x100 % 0x100) as byte, (v % 0x100) as byte]
  }

  function FromBigEndian32(b: Bytes): nat
    requires |b| == 4
  {
    b[0] as nat * 0x100_0000 + b[1] as nat * 0x1_0000 + b[2] as nat * 0x100 + b[3] as nat
  }

  lemma {:induction false} BigEndian32ReadsBack(n: nat)
    ensures FromBigEndian32(BigEndian32(n)) == n % LENGTH_LIMIT
  {
    var v := n % LENGTH_LIMIT;
    assert v == v / 0x100 * 0x100 + v % 0x100;
    assert v / 0x100 == v / 0x100 / 0x100 * 0x100 + v / 0x100 % 0x100;
    assert v / 0x100 / 0x100 == v / 0x1_0000;
    assert v / 0x1_0000 == v / 0x1_0000 / 0x100 * 0x100 + v / 0x1_0000 % 0x100;
    assert v / 0x1_0000 / 0x100 == v / 0x100_0000;
  }

  /** The bytes that are hashed. */
  function Encoded(bucket: Bytes, key: Bytes): Bytes {
    BigEndian32(|bucket|) + bucket + key
  }

  /** Exactly which names are encoded alike. */
  lemma EncodedAlike(b1: Bytes, k1: Bytes, b2: Bytes, k2: Bytes)
    ensures Encoded(b1, k1) == Encoded(b2, k2)
            <==> b1 + k1 == b2 + k2 && |b1| % LENGTH_LIMIT == |b2| % LENGTH_LIMIT
  {
    BigEndian32ReadsBack(|b1|);
    BigEndian32ReadsBack(|b2|);
    var e1, e2 := Encoded(b1, k1), Encoded(b2, k2);
    assert e1[..4] == BigEndian32(|b1|) && e1[4..] == b1 + k1;
    assert e2[..4] == BigEndian32(|b2|) && e2[4..] == b2 + k2;
    assert e1 == e1[..4] + e1[4..] && e2 == e2[..4] + e2[4..];
  }

  /** Below 4 GiB of bucket name the encoding tells all names apart. */
  lemma EncodedInjective(b1: Bytes, k1: Bytes, b2: Bytes, k2: Bytes)
    requires |b1| < LENGTH_LIMIT && |b2| < LENGTH_LIMIT
    requires Encoded(b1, k1) == Encoded(b2, k2)
    ensures b1 == b2 && k1 == k2
  {
    EncodedAlike(b1, k1, b2, k2);
    assert b1 == (b1 + k1)[..|b1|] && k1 == (b1 + k1)[|b1|..];
    assert b2 == (b2 + k2)[..|b2|] && k2 == (b2 + k2)[|b2|..];
  }

  /** At that length it no longer does: a bucket name can move into the key. */
  lemma LongBucketNamesClash(name: Bytes)
    requires |name| == LENGTH_LIMIT
    ensures Encoded(name, []) == Encoded([], name)
  {
  }

  datatype Path = Path(dir1: string, dir2: string, file: string)

  /** Two directory levels from the first four digits. */
  function KeyPath(h: HexHash): Path {
    Path(h[0..2], h[2..4], h[4..])
  }

  /** The path spells the hash: two digits, two digits, the rest. */
  lemma KeyPathSpells(h: HexHash)
    ensures var p := KeyPath(h);
            p.dir1 + p.dir2 + p.file == h && |p.dir1| == 2 && |p.dir2| == 2
  {
  }

  lemma KeyPathInjective(g: HexHash, h: HexHash)
    requires KeyPath(g) == KeyPath(h)
    ensures g == h
  {
  }
}
