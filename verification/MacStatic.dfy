/** The static layer-2 bridge: ports are chosen by the source address, from a table without tags. */
module MacStatic {
  import opened Mixer
  import opened Addresses
  import opened BdgRequests

  const NM_BRIDGES := 8

  /** What the control device has been asked to do. */
  datatype Command = Register(idx: nat, port: nat)
                   | AddIf(idx: nat, addr: Mac, dst: nat, at: nat)   // at is the address's hash

  // What the tables approximate: the whole history of commands

  /** Does this command write entry b of bridge i? */
  ghost predicate Writes(c: Command, i: nat, b: nat)
  {
    c.AddIf? && c.idx == i && c.at == b
  }

  /** The latest command that wrote entry b of bridge i, or -1. */
  ghost function LatestAdd(h: seq<Command>, i: nat, b: nat): (k: int)
    ensures -1 <= k < |h|
  {
    if h == [] then -1
    else if Writes(h[|h| - 1], i, b) then |h| - 1
    else LatestAdd(h[..|h| - 1], i, b)
  }

  /** The latest command that installed address m on bridge i, or -1: what a map would hold. */
  ghost function LatestFor(h: seq<Command>, i: nat, m: Mac): (k: int)
    ensures -1 <= k < |h|
    ensures k >= 0 ==> h[k].AddIf? && h[k].idx == i && h[k].addr == m
    ensures forall j :: k < j < |h| && h[j].AddIf? && h[j].idx == i ==> h[j].addr != m
  {
    if h == [] then -1
    else
      var c := h[|h| - 1];
      if c.AddIf? && c.idx == i && c.addr == m then |h| - 1
      else LatestFor(h[..|h| - 1], i, m)
  }

  /** The port a bridge was last registered with. */
  ghost function ControlPort(h: seq<Command>, i: nat): nat
  {
    if h == [] then NM_BDG_NOPORT
    else if h[|h| - 1].Register? && h[|h| - 1].idx == i then h[|h| - 1].port
    else ControlPort(h[..|h| - 1], i)
  }

  /** It is the port of the bridge's latest registration, or no port. */
  lemma {:induction false} LatestRegistration(h: seq<Command>, i: nat, k: int)
    requires -1 <= k < |h| && (k >= 0 ==> h[k].Register? && h[k].idx == i)
    requires forall j | k < j < |h| && h[j].Register? :: h[j].idx != i
    ensures ControlPort(h, i) == if k >= 0 then h[k].port else NM_BDG_NOPORT
  {
    if k < |h| - 1 {
      LatestRegistration(h[..|h| - 1], i, k);
    }
  }

  ghost function Stored(h: seq<Command>, i: nat, b: nat): Entry
  {
    var k := LatestAdd(h, i, b);
    if k >= 0 && h[k].AddIf? then Entry(Pack(h[k].addr), h[k].dst) else Entry(0, NM_BDG_NOPORT)
  }

  /** The port chosen for a frame from source m, whose hash is at. */
  ghost function Answer(h: seq<Command>, m: Mac, at: nat): nat
  {
    if Group(m) then ControlPort(h, 0) else Stored(h, 0, at).ports
  }

  /** The choice in bytes: the control port for a source, bytes 6 to 12, with the group bit; else what the
      latest add into its entry said, whatever address that was for. */
  ghost predicate Chooses(h: seq<Command>, buf: Buffer, at: nat, dst: nat)
  {
    && (buf[6] & 1 != 0 ==> dst == ControlPort(h, 0))
    && (buf[6] & 1 == 0 ==>
          && (forall k | 0 <= k < |h| && h[k].AddIf? && h[k].idx == 0 && h[k].at == at
                         && (forall j | k < j < |h| && h[j].AddIf? && h[j].idx == 0 :: h[j].at != at) ::
                dst == h[k].dst)
          && ((forall j | 0 <= j < |h| && h[j].AddIf? && h[j].idx == 0 :: h[j].at != at) ==> dst == NM_BDG_NOPORT))
  }

  lemma ChosenInBytes(h: seq<Command>, buf: Buffer, at: nat)
    ensures Chooses(h, buf, at, Answer(h, buf[6..12], at))
  {
    LatestAddWrites(h, 0, at);
    hide Pack, ControlPort;
  }

  lemma AnswerIs(h: seq<Command>, m: Mac, at: nat)
    ensures Answer(h, m, at) == if Group(m) then ControlPort(h, 0) else Stored(h, 0, at).ports
  {
  }

  /** What a map from addresses to ports would answer. */
  ghost function Exact(h: seq<Command>, i: nat, m: Mac): nat
  {
    if LatestFor(h, i, m) >= 0 then h[LatestFor(h, i, m)].dst else NM_BDG_NOPORT
  }

  /** It is a map: an add changes it at one address of one bridge. */
  lemma ExactFollows(h: seq<Command>, c: Command, i: nat, m: Mac)
    ensures Exact([], i, m) == NM_BDG_NOPORT
    ensures Exact(h + [c], i, m) == if c.AddIf? && c.idx == i && c.addr == m then c.dst else Exact(h, i, m)
  {
    assert (h + [c])[..|h|] == h;
  }

  lemma {:induction false} LatestAddWrites(h: seq<Command>, i: nat, b: nat)
    ensures LatestAdd(h, i, b) >= 0 ==> Writes(h[LatestAdd(h, i, b)], i, b)
    ensures forall j :: LatestAdd(h, i, b) < j < |h| ==> !Writes(h[j], i, b)
  {
    hide Writes;
    if h != [] && !Writes(h[|h| - 1], i, b) {
      LatestAddWrites(h[..|h| - 1], i, b);
    }
  }

  /** The tables were written under this hash. */
  ghost predicate IndexedBy(h: seq<Command>, hash: Mac -> nat)
  {
    forall j :: 0 <= j < |h| && h[j].AddIf? ==> h[j].at == hash(h[j].addr)
  }

  /** A later add into the same entry. */
  ghost predicate Displaced(h: seq<Command>, i: nat, m: Mac, at: nat)
  {
    exists j :: LatestFor(h, i, m) < j < |h| && Writes(h[j], i, at)
  }

  /** The table against the map it approximates, for any hash: an entry holds what was last installed for
      an address unless a later add displaced it, and then it holds the last address that did. */
  lemma LatestWins(h: seq<Command>, i: nat, m: Mac, hash: Mac -> nat)
    requires IndexedBy(h, hash)
    ensures !Displaced(h, i, m, hash(m)) ==> LatestAdd(h, i, hash(m)) == LatestFor(h, i, m)
    ensures !Displaced(h, i, m, hash(m)) ==> Stored(h, i, hash(m)).ports == Exact(h, i, m)
    ensures Displaced(h, i, m, hash(m)) ==> exists j ::
              && LatestFor(h, i, m) < j < |h|
              && Writes(h[j], i, hash(m)) && h[j].addr != m
              && Stored(h, i, hash(m)) == Entry(Pack(h[j].addr), h[j].dst)
              && forall l :: j < l < |h| ==> !Writes(h[l], i, hash(m))
  {
    hide Pack;
    LatestAddWrites(h, i, hash(m));
    if Displaced(h, i, m, hash(m)) {
      var k := LatestAdd(h, i, hash(m));
      assert Writes(h[k], i, hash(m));
      assert LatestFor(h, i, m) < k;
    }
  }

  /** So while no other installed address shares its hash, a unicast source is forwarded as the map says. */
  lemma ExactWithoutCollisions(h: seq<Command>, m: Mac, hash: Mac -> nat)
    requires IndexedBy(h, hash) && !Group(m)
    requires forall j :: 0 <= j < |h| && Writes(h[j], 0, hash(m)) ==> h[j].addr == m
    ensures Answer(h, m, hash(m)) == Exact(h, 0, m)
  {
    hide Group, Pack, Exact;
    LatestWins(h, 0, m, hash);
  }

  /** Without tags, one add decides for every address that shares its hash. */
  lemma CollisionAnswersForOthers(h: seq<Command>, m: Mac, m': Mac, hash: Mac -> nat, dst: nat)
    requires !Group(m) && hash(m) == hash(m')
    ensures Answer(h + [AddIf(0, m', dst, hash(m'))], m, hash(m)) == dst
  {
    hide Group, Pack;
  }

  lemma StoredChanges(h: seq<Command>, c: Command, i: nat, b: nat)
    ensures Stored(h + [c], i, b)
         == if Writes(c, i, b) then Entry(Pack(c.addr), c.dst) else Stored(h, i, b)
    ensures ControlPort(h + [c], i) == if c.Register? && c.idx == i then c.port else ControlPort(h, i)
  {
    hide Pack;
    assert (h + [c])[..|h|] == h;
  }

  /** Taking a key apart again. */
  function Unpack(k: Key): (m: seq<Byte>)
    ensures |m| == 6
  {
    [(k & 0xff) as Byte, ((k >> 8) & 0xff) as Byte, ((k >> 16) & 0xff) as Byte,
     ((k >> 24) & 0xff) as Byte, ((k >> 32) & 0xff) as Byte, ((k >> 40) & 0xff) as Byte]
  }

  lemma UnpackBytes(p: Byte, q: Byte, r: Byte, s: Byte, t: Byte, u: Byte)
    ensures Unpack(SixBytes(p, q, r, s, t, u)) == [p, q, r, s, t, u]
  {
  }

  lemma UnpackPack(m: Mac)
    ensures Unpack(Pack(m)) == m
  {
    hide Unpack, SixBytes;
    UnpackBytes(m[0], m[1], m[2], m[3], m[4], m[5]);
    assert m == [m[0], m[1], m[2], m[3], m[4], m[5]];
  }

  /** What an entry shows to a client that lists the table: an entry is used if its address is not all zeroes. */
  ghost function Row(h: seq<Command>, i: nat, b: nat): Shown
  {
    var k := LatestAdd(h, i, b);
    if k >= 0 && h[k].AddIf? && h[k].addr != NOWHERE then Used(h[k].addr, h[k].dst) else Unused
  }

  ghost function Rows(h: seq<Command>, i: nat): (r: seq<Shown>)
    ensures |r| == BDG_HASH
  {
    seq(BDG_HASH, b requires 0 <= b < BDG_HASH => Row(h, i, b))
  }

  lemma EntryShows(h: seq<Command>, i: nat, b: nat)
    ensures var e := Stored(h, i, b);
            Row(h, i, b) == if e.mac == 0 then Unused else Used(Unpack(e.mac), e.ports)
  {
    hide Pack, Unpack;
    PackNowhere();
    var k := LatestAdd(h, i, b);
    if k >= 0 && h[k].AddIf? {
      PackInjective(h[k].addr, NOWHERE);
      UnpackPack(h[k].addr);
    }
  }

  /** The address of a request as a key: two bytes of padding are loaded with it and masked away. */
  function RequestKey(r: Request): (k: Key)
    requires Shaped(r)
    ensures k == Pack(r.addr)
  {
    assert (r.addr + r.pad)[..6] == r.addr;
    LowSix(r.addr + r.pad)
  }

  lemma NothingStored()
    ensures forall i: nat, b: nat :: Stored([], i, b) == Entry(0, NM_BDG_NOPORT)
    ensures forall i: nat :: ControlPort([], i) == NM_BDG_NOPORT
  {
  }

  class Table {
    const rt: array2<Entry>
    const ctl: array<nat>
    ghost var past: seq<Command>

    ghost predicate Sized()
    {
      rt.Length0 == NM_BRIDGES && rt.Length1 == BDG_HASH && ctl.Length == NM_BRIDGES
    }

    ghost predicate Valid()
      reads this, rt, ctl
    {
      && Sized() && IndexedBy(past, HashOf)
      && (forall i, b :: 0 <= i < NM_BRIDGES && 0 <= b < BDG_HASH ==> rt[i, b] == Stored(past, i, b))
      && (forall i :: 0 <= i < NM_BRIDGES ==> ctl[i] == ControlPort(past, i))
    }

    method RtInit(i: nat)
      requires Sized() && i < NM_BRIDGES
      modifies rt, ctl
      ensures ctl[..] == old(ctl[..])[i := NM_BDG_NOPORT]
      ensures forall k, b :: 0 <= k < NM_BRIDGES && 0 <= b < BDG_HASH ==>
                rt[k, b] == if k == i then old(rt[k, b]).(ports := NM_BDG_NOPORT) else old(rt[k, b])
    {
      ctl[i] := NM_BDG_NOPORT;
      for j := 0 to BDG_HASH
        invariant ctl[..] == old(ctl[..])[i := NM_BDG_NOPORT]
        invariant forall k, b :: 0 <= k < NM_BRIDGES && 0 <= b < BDG_HASH ==>
                    rt[k, b] == if k == i && b < j then old(rt[k, b]).(ports := NM_BDG_NOPORT) else old(rt[k, b])
      {
        rt[i, j] := rt[i, j].(ports := NM_BDG_NOPORT);
      }
    }

    constructor ()
      ensures Valid() && fresh(rt) && fresh(ctl) && past == []
    {
      rt := new Entry[NM_BRIDGES, BDG_HASH]((_, _) => Entry(0, 0));
      ctl := new nat[NM_BRIDGES](_ => 0);
      past := [];
      new;
      hide HashOf, Stored;
      for i := 0 to NM_BRIDGES
        invariant past == []
        invariant forall k :: 0 <= k < i ==> ctl[..][k] == NM_BDG_NOPORT
        invariant forall k, b :: 0 <= k < NM_BRIDGES && 0 <= b < BDG_HASH ==>
                    rt[k, b] == Entry(0, if k < i then NM_BDG_NOPORT else 0)
      {
        RtInit(i);
      }
      NothingStored();
    }

    method Lookup2(buf: Buffer) returns (dst: nat, dstRing: nat)
      requires Valid()
      ensures Chooses(past, buf, HashOf(buf[6..12]), dst)
      ensures dst == Answer(past, Source(buf), HashOf(Source(buf))) && dstRing == 0
    {
      hide HashOf, Group, Stored, Chooses, Answer;
      ChosenInBytes(past, buf, HashOf(Source(buf)));
      AnswerIs(past, Source(buf), HashOf(Source(buf)));
      dst := ctl[0];
      if !Group(Source(buf)) {
        var sh := Hash(Source(buf));
        dst := rt[0, sh].ports;
      }
      dstRing := 0;
    }

    method BdgAddIf2(s: Request)
      requires Valid() && Shaped(s) && s.idx < NM_BRIDGES
      modifies rt, `past
      ensures Valid() && past == old(past) + [AddIf(s.idx, s.addr, s.dst, HashOf(s.addr))]
    {
      hide HashOf, Stored, Pack, RequestKey, ControlPort;
      ghost var c := AddIf(s.idx, s.addr, s.dst, HashOf(s.addr));
      var sh := Hash(s.addr);
      var smac := RequestKey(s);
      rt[s.idx, sh] := Entry(smac, s.dst);
      past := past + [c];
      forall i, b | 0 <= i < NM_BRIDGES && 0 <= b < BDG_HASH ensures rt[i, b] == Stored(past, i, b) {
        StoredChanges(old(past), c, i, b);
      }
      forall i | 0 <= i < NM_BRIDGES ensures ctl[i] == ControlPort(past, i) {
        StoredChanges(old(past), c, i, 0);
      }
    }

    /** Registration sets the control port, whether or not netmap accepted the lookup function. */
    method Register(r: Request)
      requires Valid() && r.idx < NM_BRIDGES
      modifies ctl, `past
      ensures Valid() && past == old(past) + [Command.Register(r.idx, r.port)]
    {
      hide HashOf, Stored, Pack, ControlPort;
      ghost var c := Command.Register(r.idx, r.port);
      ctl[r.idx] := r.port;
      past := past + [c];
      forall i, b | 0 <= i < NM_BRIDGES && 0 <= b < BDG_HASH ensures rt[i, b] == Stored(past, i, b) {
        StoredChanges(old(past), c, i, b);
      }
      forall i | 0 <= i < NM_BRIDGES ensures ctl[i] == ControlPort(past, i) {
        StoredChanges(old(past), c, i, 0);
      }
    }

    /** Scan from entry xiter for a used one. The index is signed: what a scan that starts before the table
        finds there, nobody can say. */
    method BdgList(xiter: nat, breq: Request) returns (rc: int, q: Request)
      requires Valid() && Shaped(breq) && breq.idx < NM_BRIDGES && xiter == breq.arg < 0x1_0000_0000
      ensures xiter < 0x8000_0000 ==> Lists(Rows(past, breq.idx), breq, rc, q)
    {
      hide HashOf, Stored, Pack, Unpack, Row;
      rc, q := ENOENT, breq;
      var i: int := if xiter < 0x8000_0000 then xiter else xiter - 0x1_0000_0000;
      if i < 0 {
        rc, q := *, *;
        return;
      }
      while i < BDG_HASH
        invariant rc == ENOENT && q == breq
        invariant 0 <= xiter <= i && (i <= BDG_HASH || i == xiter)
        invariant i <= BDG_HASH ==> NextUsed(Rows(past, breq.idx), xiter) == NextUsed(Rows(past, breq.idx), i)
      {
        EntryShows(past, breq.idx, i);
        if rt[breq.idx, i].mac == 0 {
          i := i + 1;
          continue;
        }
        var s := Unpack(rt[breq.idx, i].mac);
        assert s + breq.addr[6..] == s;
        q := breq.(addr := s, port := rt[breq.idx, i].ports, arg := i);
        rc := 0;
        break;
      }
    }
  }
}
