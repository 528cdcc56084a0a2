/** The bridge's hash: six address bytes are packed into two of three words, the words are mixed
    reversibly, and the table index is the low part of the third. */
module Mixer {

  type Byte = bv8
  type Word = bv32
  type Shift = n: nat | n <= 32

  const BDG_HASH := 1024

  // The machine operations of the mixer, named so that proofs can work without their bits.

  function Add(u: Word, v: Word): Word { u + v }

  function Sub(u: Word, v: Word): Word { u - v }

  function Xor(u: Word, v: Word): Word { u ^ v }

  function Right(w: Word, n: Shift): Word { w >> n }

  function Left(w: Word, n: Shift): Word { w << n }

  lemma XorTwice(y: Word, x: Word)
    ensures Xor(Xor(y, x), x) == y
  {
  }

  lemma AddedBack(u: Word, v: Word)
    ensures Add(u - v, v) == u
  {
  }

  lemma TakenAway(u: Word, v: Word)
    ensures Sub(u + v, v) == u
  {
  }

  lemma AddUndoesSub(u: Word, v: Word)
    ensures Add(Sub(u, v), v) == u
  {
    hide Add;
    AddedBack(u, v);
  }

  lemma SubUndoesAdd(u: Word, v: Word)
    ensures Sub(Add(u, v), v) == u
  {
    hide Sub;
    TakenAway(u, v);
  }

  /** One line of the mixer changes the word u by the two others and a shifted copy x of one of them. */
  function Blend(u: Word, v: Word, w: Word, x: Word): Word
  {
    Xor(Sub(Sub(u, v), w), x)
  }

  function Unblend(u: Word, v: Word, w: Word, x: Word): Word
  {
    Add(Add(Xor(u, x), w), v)
  }

  lemma BlendRoundTrip(u: Word, v: Word, w: Word, x: Word)
    ensures Unblend(Blend(u, v, w, x), v, w, x) == u
    ensures Blend(Unblend(u, v, w, x), v, w, x) == u
  {
    hide Xor, Sub, Add;
    AddUndoesSub(u, v);
    AddUndoesSub(Sub(u, v), w);
    XorTwice(Sub(Sub(u, v), w), x);
    XorTwice(u, x);
    SubUndoesAdd(Xor(u, x), w);
    SubUndoesAdd(Add(Xor(u, x), w), v);
  }

  datatype Words = Words(a: Word, b: Word, c: Word)

  /** Three lines, with the shifts i, j and k. */
  function Round(t: Words, i: Shift, j: Shift, k: Shift): Words
  {
    var a := Blend(t.a, t.b, t.c, Right(t.c, i));
    var b := Blend(t.b, t.c, a, Left(a, j));
    var c := Blend(t.c, a, b, Right(b, k));
    Words(a, b, c)
  }

  /** The inverse undoes the three lines in the opposite order. */
  function Unround(t: Words, i: Shift, j: Shift, k: Shift): Words
  {
    var c := Unblend(t.c, t.a, t.b, Right(t.b, k));
    var b := Unblend(t.b, c, t.a, Left(t.a, j));
    var a := Unblend(t.a, b, c, Right(c, i));
    Words(a, b, c)
  }

  lemma RoundUndone(t: Words, i: Shift, j: Shift, k: Shift)
    ensures Unround(Round(t, i, j, k), i, j, k) == t
  {
    hide Blend, Unblend, Right, Left;
    var s := Round(t, i, j, k);
    BlendRoundTrip(t.c, s.a, s.b, Right(s.b, k));
    BlendRoundTrip(t.b, t.c, s.a, Left(s.a, j));
    BlendRoundTrip(t.a, t.b, t.c, Right(t.c, i));
  }

  lemma UnroundUndone(t: Words, i: Shift, j: Shift, k: Shift)
    ensures Round(Unround(t, i, j, k), i, j, k) == t
  {
    hide Blend, Unblend, Right, Left;
    var s := Unround(t, i, j, k);
    BlendRoundTrip(t.a, s.b, s.c, Right(s.c, i));
    BlendRoundTrip(t.b, s.c, t.a, Left(t.a, j));
    BlendRoundTrip(t.c, t.a, t.b, Right(t.b, k));
  }

  function Mix(t: Words): Words
  {
    Round(Round(Round(t, 13, 8, 13), 12, 16, 5), 3, 10, 15)
  }

  function Unmix(t: Words): Words
  {
    Unround(Unround(Unround(t, 3, 10, 15), 12, 16, 5), 13, 8, 13)
  }

  /** The mixer loses nothing: it is a bijection on word triples. */
  lemma MixRoundTrip(t: Words)
    ensures Unmix(Mix(t)) == t && Mix(Unmix(t)) == t
  {
    hide Round, Unround;
    RoundUndone(t, 13, 8, 13);
    RoundUndone(Round(t, 13, 8, 13), 12, 16, 5);
    RoundUndone(Round(Round(t, 13, 8, 13), 12, 16, 5), 3, 10, 15);
    UnroundUndone(t, 3, 10, 15);
    UnroundUndone(Unround(t, 3, 10, 15), 12, 16, 5);
    UnroundUndone(Unround(Unround(t, 3, 10, 15), 12, 16, 5), 13, 8, 13);
  }

  /** The mix macro: nine lines of three assignments each, on three words in turn. */
  method MixInPlace(a0: Word, b0: Word, c0: Word) returns (a: Word, b: Word, c: Word)
    ensures Words(a, b, c) == Mix(Words(a0, b0, c0))
  {
    hide Right, Left, Xor, Sub;
    a, b, c := a0, b0, c0;
    a := Sub(a, b); a := Sub(a, c); a := Xor(a, Right(c, 13));
    b := Sub(b, c); b := Sub(b, a); b := Xor(b, Left(a, 8));
    c := Sub(c, a); c := Sub(c, b); c := Xor(c, Right(b, 13));
    ghost var t1 := Round(Words(a0, b0, c0), 13, 8, 13);
    assert Words(a, b, c) == t1;
    a := Sub(a, b); a := Sub(a, c); a := Xor(a, Right(c, 12));
    b := Sub(b, c); b := Sub(b, a); b := Xor(b, Left(a, 16));
    c := Sub(c, a); c := Sub(c, b); c := Xor(c, Right(b, 5));
    ghost var t2 := Round(t1, 12, 16, 5);
    assert Words(a, b, c) == t2;
    a := Sub(a, b); a := Sub(a, c); a := Xor(a, Right(c, 3));
    b := Sub(b, c); b := Sub(b, a); b := Xor(b, Left(a, 10));
    c := Sub(c, a); c := Sub(c, b); c := Xor(c, Right(b, 15));
    assert Words(a, b, c) == Round(t2, 3, 10, 15);
  }

  // Packing the address

  const KEY: Word := 0x9e3779b9

  function PackFour(k: Word, p: Byte, q: Byte, r: Byte, s: Byte): Word
  {
    Add(Add(Add(Add(k, (p as Word) << 24), (q as Word) << 16), (r as Word) << 8), s as Word)
  }

  function PackTwo(k: Word, r: Byte, s: Byte): Word
  {
    Add(Add(k, (r as Word) << 8), s as Word)
  }

  function Four(p: Byte, q: Byte, r: Byte, s: Byte): Word
  {
    ((p as Word) << 24) + (((q as Word) << 16) + (((r as Word) << 8) + (s as Word)))
  }

  lemma FourPack(p: Byte, q: Byte, r: Byte, s: Byte, p': Byte, q': Byte, r': Byte, s': Byte)
    ensures Four(p, q, r, s) == Four(p', q', r', s') ==> p == p' && q == q' && r == r' && s == s'
  {
  }

  lemma AddIs(u: Word, v: Word)
    ensures Add(u, v) == u + v
  {
  }

  lemma SumsRegroup(u: Word, v: Word, w: Word)
    ensures Add(u + v, w) == Add(u, v + w) == Add(v + w, u)
  {
  }

  lemma Regroup(u: Word, v: Word, w: Word)
    ensures Add(Add(u, v), w) == Add(u, Add(v, w)) == Add(Add(v, w), u)
  {
    hide Add;
    SumsRegroup(u, v, w);
    AddIs(u, v);
    AddIs(v, w);
  }

  lemma SumsAreFour(p: Byte, q: Byte, r: Byte, s: Byte)
    ensures ((p as Word) << 24) + (((q as Word) << 16) + (((r as Word) << 8) + (s as Word))) == Four(p, q, r, s)
  {
  }

  lemma SumsOfSums(P: Word, Q: Word, R: Word, S: Word)
    ensures Add(R, S) == R + S
    ensures Add(Q, R + S) == Q + (R + S)
    ensures Add(P, Q + (R + S)) == P + (Q + (R + S))
  {
  }

  lemma SumOfFour(P: Word, Q: Word, R: Word, S: Word)
    ensures Add(P, Add(Q, Add(R, S))) == P + (Q + (R + S))
  {
    hide Add;
    SumsOfSums(P, Q, R, S);
  }

  lemma KeyLast(k: Word, P: Word, Q: Word, R: Word, S: Word)
    ensures Add(Add(Add(Add(k, P), Q), R), S) == Add(Add(P, Add(Q, Add(R, S))), k)
  {
    hide Add;
    Regroup(Add(Add(k, P), Q), R, S);
    Regroup(Add(k, P), Q, Add(R, S));
    Regroup(k, P, Add(Q, Add(R, S)));
  }

  /** The key can be taken off the packed word again. */
  lemma KeyTakenOff(k: Word, p: Byte, q: Byte, r: Byte, s: Byte)
    ensures PackFour(k, p, q, r, s) == Add(Four(p, q, r, s), k)
  {
    hide Add, Four;
    KeyLast(k, (p as Word) << 24, (q as Word) << 16, (r as Word) << 8, s as Word);
    SumOfFour((p as Word) << 24, (q as Word) << 16, (r as Word) << 8, s as Word);
    SumsAreFour(p, q, r, s);
  }

  lemma TwoIsFour(k: Word, r: Byte, s: Byte)
    ensures PackTwo(k, r, s) == PackFour(k, 0, 0, r, s)
  {
    assert Add(k, (0 as Word) << 24) == k;
    assert Add(k, (0 as Word) << 16) == k;
    hide Add;
  }

  lemma PackingInjective(k: Word, p: Byte, q: Byte, r: Byte, s: Byte, p': Byte, q': Byte, r': Byte, s': Byte)
    ensures PackFour(k, p, q, r, s) == PackFour(k, p', q', r', s') ==> p == p' && q == q' && r == r' && s == s'
    ensures PackTwo(k, r, s) == PackTwo(k, r', s') ==> r == r' && s == s'
  {
    hide Add, Sub, Four, PackFour, PackTwo;
    KeyTakenOff(k, p, q, r, s);
    KeyTakenOff(k, p', q', r', s');
    SubUndoesAdd(Four(p, q, r, s), k);
    SubUndoesAdd(Four(p', q', r', s'), k);
    FourPack(p, q, r, s, p', q', r', s');
    TwoIsFour(k, r, s);
    TwoIsFour(k, r', s');
    KeyTakenOff(k, 0, 0, r, s);
    KeyTakenOff(k, 0, 0, r', s');
    SubUndoesAdd(Four(0, 0, r, s), k);
    SubUndoesAdd(Four(0, 0, r', s'), k);
    FourPack(0, 0, r, s, 0, 0, r', s');
  }

  /** The three words before mixing. */
  function Premix(m: seq<Byte>): Words
    requires |m| == 6
  {
    Words(PackFour(KEY, m[3], m[2], m[1], m[0]), PackTwo(KEY, m[5], m[4]), 0)
  }

  /** The three words of the hash before its mask. */
  function Mixed(m: seq<Byte>): Words
    requires |m| == 6
  {
    Mix(Premix(m))
  }

  /** Different addresses always differ somewhere in the 96 mixed bits, so two of them can share a
      table entry only because the mask drops all but ten of those bits. */
  lemma OnlyTheMaskCollides(m: seq<Byte>, m': seq<Byte>)
    requires |m| == 6 && |m'| == 6
    ensures Mixed(m) == Mixed(m') <==> m == m'
  {
    hide Mix, Unmix, PackFour, PackTwo;
    if Mixed(m) == Mixed(m') {
      MixRoundTrip(Premix(m));
      MixRoundTrip(Premix(m'));
      assert Premix(m) == Premix(m');
      PackingInjective(KEY, m[3], m[2], m[1], m[0], m'[3], m'[2], m'[1], m'[0]);
      PackingInjective(KEY, 0, 0, m[5], m[4], 0, 0, m'[5], m'[4]);
      assert m == [m[0], m[1], m[2], m[3], m[4], m[5]] == m';
    }
  }

  /** The table entry an address hashes to. */
  function Bucket(m: seq<Byte>): (h: nat)
    requires |m| == 6
    ensures h < BDG_HASH
  {
    LowTen(Mixed(m).c)
  }

  function LowTen(w: Word): (h: nat)
    ensures h < BDG_HASH
  {
    ((w & 0x3ff) as bv10) as int
  }

  lemma LowTenIs(w: Word)
    ensures LowTen(w) == (w % 1024) as int
  {
  }

  lemma TenBits(v: bv10, v': bv10)
    ensures v as int == v' as int ==> v == v'
  {
    assert (v as int) as bv10 == v && (v' as int) as bv10 == v';
  }

  function Modulo(w: Word): Word { w % 1024 }

  lemma LowTenApart(w: Word, w': Word)
    ensures LowTen(w) == LowTen(w') <==> Modulo(w) == Modulo(w')
  {
    TenBits((w & 0x3ff) as bv10, (w' & 0x3ff) as bv10);
    RestApart(w, w');
  }

  lemma RestApart(w: Word, w': Word)
    ensures (w & 0x3ff) as bv10 == (w' & 0x3ff) as bv10 <==> w % 1024 == w' % 1024
  {
  }

  /** Two addresses share a table entry exactly when their third mixed words agree modulo 1024. */
  lemma SharedEntry(m: seq<Byte>, m': seq<Byte>)
    requires |m| == 6 && |m'| == 6
    ensures Bucket(m) == Bucket(m') <==> Modulo(Mixed(m).c) == Modulo(Mixed(m').c)
  {
    hide *;
    BucketMasks(m);
    BucketMasks(m');
    LowTenApart(Mixed(m).c, Mixed(m').c);
  }

  lemma BucketMasks(m: seq<Byte>)
    requires |m| == 6
    ensures Bucket(m) == LowTen(Mixed(m).c)
  {
  }

  /** The entry is the third mixed word modulo 1024. */
  lemma EntryIs(m: seq<Byte>)
    requires |m| == 6
    ensures Bucket(m) == (Mixed(m).c % 1024) as int
  {
    hide *;
    BucketMasks(m);
    LowTenIs(Mixed(m).c);
  }

  /** Known values of the hash, from its constants to its mask. */
  lemma KnownHash()
    ensures Mixed([0xfe, 0x81, 0xc3, 0xa5, 0x99, 0xe7]) == Words(0x6b8597ac, 0xa605cf56, 0xce0aafb9)
    ensures Bucket([0xfe, 0x81, 0xc3, 0xa5, 0x99, 0xe7]) == 953
  {
    assert Premix([0xfe, 0x81, 0xc3, 0xa5, 0x99, 0xe7]) == Words(0x43fafbb7, 0x9e386152, 0x00000000);
    assert Round(Words(0x43fafbb7, 0x9e386152, 0x00000000), 13, 8, 13) == Words(0xa5c29a65, 0x3aefa3ed, 0x1f4c16d3);
    assert Round(Words(0xa5c29a65, 0x3aefa3ed, 0x1f4c16d3), 12, 16, 5) == Words(0x4b872b64, 0xfb7861b6, 0xdf974ab4);
    assert Round(Words(0x4b872b64, 0xfb7861b6, 0xdf974ab4), 3, 10, 15) == Words(0x6b8597ac, 0xa605cf56, 0xce0aafb9);
    EntryIs([0xfe, 0x81, 0xc3, 0xa5, 0x99, 0xe7]);
  }

  /** Two neighbours on one segment that share an entry. */
  lemma KnownCollision()
    ensures Bucket([0x00, 0x16, 0x3e, 0x00, 0x00, 0x01]) == Bucket([0x00, 0x16, 0x3e, 0x00, 0x00, 0x51]) == 652
  {
    assert Premix([0x00, 0x16, 0x3e, 0x00, 0x00, 0x01]) == Words(0x9e758fb9, 0x9e377ab9, 0x00000000);
    assert Round(Words(0x9e758fb9, 0x9e377ab9, 0x00000000), 13, 8, 13) == Words(0x003e1500, 0xa3ec65b9, 0x5bd09a24);
    assert Round(Words(0x003e1500, 0xa3ec65b9, 0x5bd09a24), 12, 16, 5) == Words(0x0084a82a, 0xefbd236b, 0x6cf32794);
    assert Round(Words(0x0084a82a, 0xefbd236b, 0x6cf32794), 3, 10, 15) == Words(0xae4a39d9, 0xfc98a5fe, 0xc211be8c);
    EntryIs([0x00, 0x16, 0x3e, 0x00, 0x00, 0x01]);
    assert Premix([0x00, 0x16, 0x3e, 0x00, 0x00, 0x51]) == Words(0x9e758fb9, 0x9e37cab9, 0x00000000);
    assert Round(Words(0x9e758fb9, 0x9e37cab9, 0x00000000), 13, 8, 13) == Words(0x003dc500, 0xa03f05b9, 0x5f8634bf);
    assert Round(Words(0x003dc500, 0xa03f05b9, 0x5f8634bf), 12, 16, 5) == Words(0x007d72eb, 0x32d05e0f, 0x2daee135);
    assert Round(Words(0x007d72eb, 0x32d05e0f, 0x2daee135), 3, 10, 15) == Words(0x9a4bef81, 0x456b8959, 0x4df7e28c);
    EntryIs([0x00, 0x16, 0x3e, 0x00, 0x00, 0x51]);
  }

  method RtHash(addr: seq<Byte>) returns (h: nat)
    requires |addr| >= 6
    ensures h == Bucket(addr[..6])
  {
    hide Add, Mix, LowTen;
    var a, b, c := KEY, KEY, 0 as Word;
    b := Add(b, (addr[5] as Word) << 8);
    b := Add(b, addr[4] as Word);
    a := Add(a, (addr[3] as Word) << 24);
    a := Add(a, (addr[2] as Word) << 16);
    a := Add(a, (addr[1] as Word) << 8);
    a := Add(a, addr[0] as Word);
    a, b, c := MixInPlace(a, b, c);
    h := LowTen(c);
  }
}
