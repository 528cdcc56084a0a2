/** Addresses in frames and in table entries: how six bytes become a 48-bit key. */
module Addresses {
  import opened Mixer

  type Mac = m: seq<Byte> | |m| == 6 witness [0, 0, 0, 0, 0, 0]
  type Buffer = b: seq<Byte> | |b| >= 12 witness [0, 0, 0, 0, 0, 0, 0, 0, 0, 0, 0, 0]
  type Key = bv64

  /** netmap's own limit on the ports of a bridge, and the numbers that stand for all ports and for none. */
  const NM_BDG_MAXPORTS: nat := 254
  const NM_BDG_BROADCAST := NM_BDG_MAXPORTS
  const NM_BDG_NOPORT := NM_BDG_MAXPORTS + 1

  const NOWHERE: Mac := [0, 0, 0, 0, 0, 0]

  /** A little-endian load of eight bytes. */
  function Load64(b: seq<Byte>, i: nat): Key
    requires i + 8 <= |b|
  {
    (b[i] as Key) | ((b[i + 1] as Key) << 8) | ((b[i + 2] as Key) << 16) | ((b[i + 3] as Key) << 24)
    | ((b[i + 4] as Key) << 32) | ((b[i + 5] as Key) << 40) | ((b[i + 6] as Key) << 48) | ((b[i + 7] as Key) << 56)
  }

  /** Six address bytes as a table key. */
  function Pack(m: Mac): Key
  {
    SixBytes(m[0], m[1], m[2], m[3], m[4], m[5])
  }

  function SixBytes(p: Byte, q: Byte, r: Byte, s: Byte, t: Byte, u: Byte): Key
  {
    (p as Key) | ((q as Key) << 8) | ((r as Key) << 16) | ((s as Key) << 24)
    | ((t as Key) << 32) | ((u as Key) << 40)
  }

  function Source(b: Buffer): Mac { b[6..12] }

  function Destination(b: Buffer): Mac { b[..6] }

  /** The source is read two bytes early and shifted down. */
  function SourceKey(b: Buffer): (k: Key)
    ensures k == Pack(b[6..12])
  {
    Load64(b, 4) >> 16
  }

  /** Eight bytes are loaded and the last two masked away. */
  function LowSix(b: seq<Byte>): (k: Key)
    requires |b| >= 8
    ensures k == Pack(b[..6])
  {
    Load64(b, 0) & 0xffffffffffff
  }

  function DestinationKey(b: Buffer): (k: Key)
    ensures k == Pack(b[..6])
  {
    LowSix(b)
  }

  lemma SixBytesApart(p: Byte, q: Byte, r: Byte, s: Byte, t: Byte, u: Byte,
                      p': Byte, q': Byte, r': Byte, s': Byte, t': Byte, u': Byte)
    ensures SixBytes(p, q, r, s, t, u) == SixBytes(p', q', r', s', t', u') ==>
              p == p' && q == q' && r == r' && s == s' && t == t' && u == u'
  {
  }

  /** Keys lose nothing, so comparing keys is comparing addresses. */
  lemma PackInjective(m: Mac, m': Mac)
    ensures Pack(m) == Pack(m') <==> m == m'
  {
    hide SixBytes;
    SixBytesApart(m[0], m[1], m[2], m[3], m[4], m[5], m'[0], m'[1], m'[2], m'[3], m'[4], m'[5]);
    assert m == [m[0], m[1], m[2], m[3], m[4], m[5]];
    assert m' == [m'[0], m'[1], m'[2], m'[3], m'[4], m'[5]];
  }

  /** The table index of an address under the bridge's hash. */
  function HashOf(m: Mac): (h: nat)
    ensures h < BDG_HASH
  {
    Bucket(m)
  }

  /** nm_bridge_rthash on an address. */
  method Hash(m: Mac) returns (h: nat)
    ensures h == HashOf(m) < BDG_HASH
  {
    hide Bucket;
    assert m[..6] == m;
    h := RtHash(m);
  }

  lemma PackNowhere()
    ensures Pack(NOWHERE) == 0
  {
  }

  /** The group bit: the low bit of the first byte on the wire. */
  predicate Group(m: Mac)
  {
    m[0] & 1 != 0
  }

  /** A table entry: the low six bytes of mac are an address. */
  datatype Entry = Entry(mac: Key, ports: nat)
}
