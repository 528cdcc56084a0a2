/** The static layer-3 bridge: frames whose source address is not installed are routed by IP address. */
module IpStatic {
  import opened Mixer
  import opened Addresses
  import opened BdgRequests
  import MacStatic

  const NM_BRIDGES := 4
  const IP_BDG_HASH := 65536
  const ETHER_HDR_LEN := 14

  type Ip = a: seq<Byte> | |a| == 4 witness [0, 0, 0, 0]

  const NO_IP: Ip := [0, 0, 0, 0]

  /** The hash is made of the last two bytes. */
  function IpHash2(a: Ip): (h: nat)
    ensures h < IP_BDG_HASH
  {
    IndexOf(HashWord(a[3], a[2]))
  }

  function IndexOf(w: Word): (h: nat)
    requires w <= 0xffff
    ensures h < IP_BDG_HASH
  {
    (w as bv16) as int
  }

  function HashWord(p: Byte, q: Byte): (w: Word)
    ensures w <= 0xffff
  {
    (((p as Word) << 8) | (q as Word)) & 0xffff
  }

  lemma HashWordApart(p: Byte, q: Byte, p': Byte, q': Byte)
    ensures HashWord(p, q) == HashWord(p', q') ==> p == p' && q == q'
  {
  }

  lemma IntsApart(x: bv16, y: bv16)
    ensures x as int == y as int ==> x == y
  {
    assert (x as int) as bv16 == x && (y as int) as bv16 == y;
  }

  lemma IndexApart(u: Word, v: Word)
    requires u <= 0xffff && v <= 0xffff
    ensures IndexOf(u) == IndexOf(v) <==> u == v
  {
    IntsApart(u as bv16, v as bv16);
    NarrowApart(u, v);
  }

  lemma NarrowApart(u: Word, v: Word)
    requires u <= 0xffff && v <= 0xffff
    ensures u as bv16 == v as bv16 ==> u == v
  {
  }

  function Weighed(p: Byte, q: Byte): bv16 { 256 * (p as bv16) + (q as bv16) }

  lemma WordBytes(p: Byte, q: Byte)
    ensures HashWord(p, q) as bv16 == Weighed(p, q)
  {
  }

  /** The last byte counts 256 times, the one before it once. */
  lemma HashIs(a: Ip)
    ensures IpHash2(a) == Weighed(a[3], a[2]) as int
  {
    hide *;
    WordBytes(a[3], a[2]);
    IndexIs(a, Weighed(a[3], a[2]));
  }

  lemma IndexIs(a: Ip, v: bv16)
    requires HashWord(a[3], a[2]) as bv16 == v
    ensures IpHash2(a) == v as int
  {
    hide HashWord;
  }

  lemma HashApart(a: Ip, b: Ip)
    ensures IpHash2(a) == IpHash2(b) <==> a[2..] == b[2..]
  {
    hide HashWord, IndexOf;
    HashWordApart(a[3], a[2], b[3], b[2]);
    IndexApart(HashWord(a[3], a[2]), HashWord(b[3], b[2]));
    assert a[2..] == [a[2], a[3]] && b[2..] == [b[2], b[3]];
  }

  datatype Command = Register(idx: nat, port: nat) | AddIf(idx: nat, addr: Ip, port: nat)

  // What the tables approximate: the whole history of commands

  /** Does this command store an address in entry b of bridge i? */
  ghost predicate Writes(c: Command, i: nat, b: nat)
  {
    c.AddIf? && c.idx == i && IpHash2(c.addr) == b
  }

  /** The latest command that stored an address in entry b of bridge i, or -1. */
  ghost function LatestAdd(h: seq<Command>, i: nat, b: nat): (k: int)
    ensures -1 <= k < |h|
  {
    if h == [] then -1
    else if Writes(h[|h| - 1], i, b) then |h| - 1
    else LatestAdd(h[..|h| - 1], i, b)
  }

  /** The latest command that set the port of entry b of bridge i, or -1: a registration sets them all. */
  ghost function LatestPort(h: seq<Command>, i: nat, b: nat): (k: int)
    ensures -1 <= k < |h|
  {
    if h == [] then -1
    else if Writes(h[|h| - 1], i, b) || (h[|h| - 1].Register? && h[|h| - 1].idx == i) then |h| - 1
    else LatestPort(h[..|h| - 1], i, b)
  }

  /** The latest command that a map from addresses to ports would answer for address a, or -1. */
  ghost function LatestFor(h: seq<Command>, i: nat, a: Ip): (k: int)
    ensures -1 <= k < |h|
    ensures k >= 0 ==> h[k].idx == i && (h[k].AddIf? ==> h[k].addr == a)
    ensures forall j :: k < j < |h| && h[j].idx == i ==> h[j].AddIf? && h[j].addr != a
  {
    if h == [] then -1
    else
      var c := h[|h| - 1];
      if c.idx == i && (c.Register? || c.addr == a) then |h| - 1
      else LatestFor(h[..|h| - 1], i, a)
  }

  ghost function ControlPort(h: seq<Command>, i: nat): nat
  {
    if h == [] then 0
    else if h[|h| - 1].Register? && h[|h| - 1].idx == i then h[|h| - 1].port
    else ControlPort(h[..|h| - 1], i)
  }

  ghost function AddrAt(h: seq<Command>, i: nat, b: nat): Ip
  {
    var k := LatestAdd(h, i, b);
    if k >= 0 && h[k].AddIf? then h[k].addr else NO_IP
  }

  ghost function PortAt(h: seq<Command>, i: nat, b: nat): nat
  {
    var k := LatestPort(h, i, b);
    if k < 0 then 0 else h[k].port
  }

  /** What a map from addresses to ports would answer, every address starting at the control port. */
  ghost function Exact(h: seq<Command>, i: nat, a: Ip): nat
  {
    var k := LatestFor(h, i, a);
    if k < 0 then 0 else h[k].port
  }

  /** It is a map: a registration sets it everywhere on its bridge, an add at one address. */
  lemma ExactFollows(h: seq<Command>, c: Command, i: nat, a: Ip)
    ensures Exact([], i, a) == 0
    ensures Exact(h + [c], i, a) == if c.idx == i && (c.Register? || c.addr == a) then c.port else Exact(h, i, a)
  {
    assert (h + [c])[..|h|] == h;
  }

  lemma {:induction false} LatestPortWrites(h: seq<Command>, i: nat, b: nat)
    ensures var k := LatestPort(h, i, b);
            && (k >= 0 ==> Writes(h[k], i, b) || (h[k].Register? && h[k].idx == i))
            && forall j :: k < j < |h| ==> !Writes(h[j], i, b) && !(h[j].Register? && h[j].idx == i)
  {
    hide Writes;
    if h != [] && LatestPort(h, i, b) < |h| - 1 {
      LatestPortWrites(h[..|h| - 1], i, b);
    }
  }

  /** An address that ends in the same two bytes was added later. */
  ghost predicate Displaced(h: seq<Command>, i: nat, a: Ip)
  {
    exists j :: LatestFor(h, i, a) < j < |h| && h[j].AddIf? && h[j].idx == i && h[j].addr[2..] == a[2..]
  }

  lemma SameEntry(h: seq<Command>, i: nat, a: Ip)
    ensures forall j :: 0 <= j < |h| && h[j].AddIf? ==>
              (Writes(h[j], i, IpHash2(a)) <==> h[j].idx == i && h[j].addr[2..] == a[2..])
  {
    forall j | 0 <= j < |h| && h[j].AddIf?
      ensures Writes(h[j], i, IpHash2(a)) <==> h[j].idx == i && h[j].addr[2..] == a[2..]
    {
      HashApart(h[j].addr, a);
    }
  }

  /** The table against the map it approximates: the port is the map's unless a later add displaced the
      address, and then it is the port of the last add that did. */
  lemma LatestWins(h: seq<Command>, i: nat, a: Ip)
    ensures !Displaced(h, i, a) ==> PortAt(h, i, IpHash2(a)) == Exact(h, i, a)
    ensures Displaced(h, i, a) ==> exists j ::
              && LatestFor(h, i, a) < j < |h|
              && h[j].AddIf? && h[j].idx == i && h[j].addr[2..] == a[2..] && h[j].addr != a
              && PortAt(h, i, IpHash2(a)) == h[j].port
              && forall l :: j < l < |h| && h[l].idx == i ==> h[l].AddIf? && h[l].addr[2..] != a[2..]
  {
    LatestPortWrites(h, i, IpHash2(a));
    SameEntry(h, i, a);
    hide IpHash2;
    var k, e := LatestPort(h, i, IpHash2(a)), LatestFor(h, i, a);
    assert e >= 0 ==> k >= e by { hide PortAt, Exact; }
    if Displaced(h, i, a) {
      assert k > e && h[k].AddIf?;
    } else {
      assert k >= 0 ==> e >= k;
    }
  }

  lemma {:induction false} LatestAddWrites(h: seq<Command>, i: nat, b: nat)
    ensures var k := LatestAdd(h, i, b);
            && (k >= 0 ==> Writes(h[k], i, b))
            && forall j :: k < j < |h| ==> !Writes(h[j], i, b)
  {
    hide Writes;
    if h != [] && !Writes(h[|h| - 1], i, b) {
      LatestAddWrites(h[..|h| - 1], i, b);
    }
  }

  /** An installed address stays in its entry, through registrations too, until another that ends
      in the same two bytes is installed. */
  lemma AddressKept(h: seq<Command>, i: nat, a: Ip, j: nat)
    requires j < |h| && h[j].AddIf? && h[j].idx == i && h[j].addr == a
    requires forall l :: j < l < |h| && h[l].AddIf? && h[l].idx == i && h[l].addr[2..] == a[2..] ==> h[l].addr == a
    ensures AddrAt(h, i, IpHash2(a)) == a
  {
    LatestAddWrites(h, i, IpHash2(a));
    SameEntry(h, i, a);
    hide IpHash2;
    assert LatestAdd(h, i, IpHash2(a)) >= j;
  }

  /** All addresses installed on bridge i start with the same two bytes as a. */
  ghost predicate OneSubnet(h: seq<Command>, i: nat, a: Ip)
  {
    forall j :: 0 <= j < |h| && h[j].AddIf? && h[j].idx == i ==> h[j].addr[..2] == a[..2]
  }

  lemma HalvesDecide(a: Ip, b: Ip)
    ensures a[..2] == b[..2] && a[2..] == b[2..] ==> a == b
  {
    assert a == a[..2] + a[2..] && b == b[..2] + b[2..];
  }

  /** Inside one /16 no address displaces another. */
  lemma ExactInSubnet(h: seq<Command>, i: nat, a: Ip)
    requires OneSubnet(h, i, a)
    ensures PortAt(h, i, IpHash2(a)) == Exact(h, i, a)
  {
    hide IpHash2, PortAt, Exact;
    LatestWins(h, i, a);
    forall j | LatestFor(h, i, a) < j < |h| && h[j].AddIf? && h[j].idx == i ensures h[j].addr[2..] != a[2..] {
      HalvesDecide(h[j].addr, a);
    }
  }

  lemma Changes(h: seq<Command>, c: Command, i: nat, b: nat)
    ensures AddrAt(h + [c], i, b) == if Writes(c, i, b) then c.addr else AddrAt(h, i, b)
    ensures PortAt(h + [c], i, b)
         == if Writes(c, i, b) || (c.Register? && c.idx == i) then c.port else PortAt(h, i, b)
    ensures ControlPort(h + [c], i) == if c.Register? && c.idx == i then c.port else ControlPort(h, i)
  {
    hide IpHash2;
    assert (h + [c])[..|h|] == h;
  }

  // Frames

  /** What the lookup sees in a frame: the first four bytes of two network addresses. */
  datatype Network = NoAddresses | Addresses(src: Ip, dst: Ip)

  /** The code reads addresses without checking lengths, so it needs frames that hold them. */
  predicate Readable(buf: seq<Byte>)
  {
    && |buf| >= ETHER_HDR_LEN
    && (buf[12..14] == [0x08, 0x00] ==> |buf| >= ETHER_HDR_LEN + 20)
    && (buf[12..14] == [0x86, 0xdd] ==> |buf| >= ETHER_HDR_LEN + 40)
  }

  /** Two bytes in network order. */
  function EtherType(p: Byte, q: Byte): bv16
  {
    ((p as bv16) << 8) | (q as bv16)
  }

  lemma TypeBytes(p: Byte, q: Byte)
    ensures EtherType(p, q) == 0x0800 <==> p == 0x08 && q == 0x00
    ensures EtherType(p, q) == 0x86dd <==> p == 0x86 && q == 0xdd
  {
  }

  lemma TypeOf(buf: seq<Byte>)
    requires |buf| >= ETHER_HDR_LEN
    ensures EtherType(buf[12], buf[13]) == 0x0800 <==> buf[12..14] == [0x08, 0x00]
    ensures EtherType(buf[12], buf[13]) == 0x86dd <==> buf[12..14] == [0x86, 0xdd]
  {
    TypeBytes(buf[12], buf[13]);
    hide EtherType;
    assert buf[12..14] == [buf[12], buf[13]];
  }

  function NetworkOf(buf: seq<Byte>): Network
    requires Readable(buf)
  {
    if buf[12..14] == [0x08, 0x00] then Addresses(buf[26..30], buf[30..34])
    else if buf[12..14] == [0x86, 0xdd] then Addresses(buf[22..26], buf[38..42])
    else NoAddresses
  }

  /** The forwarding decision on bridge 0, given the layer-2 answer. */
  ghost function Answer(h: seq<Command>, l2: nat, n: Network): nat
  {
    if l2 != NM_BDG_NOPORT || n.NoAddresses? then l2
    else
      var p := PortAt(h, 0, IpHash2(n.src));
      if p == ControlPort(h, 0) then PortAt(h, 0, IpHash2(n.dst)) else p
  }

  /** The promise to users of one subnet: a frame whose source address is not installed at layer 2 goes
      where a plain map sends its source, or its destination when the source maps to the control port. */
  lemma SubnetRouting(h: seq<Command>, n: Network)
    requires n.Addresses? && OneSubnet(h, 0, n.src) && OneSubnet(h, 0, n.dst)
    ensures Answer(h, NM_BDG_NOPORT, n)
         == if Exact(h, 0, n.src) != ControlPort(h, 0) then Exact(h, 0, n.src) else Exact(h, 0, n.dst)
  {
    hide IpHash2, PortAt, Exact, OneSubnet;
    ExactInSubnet(h, 0, n.src);
    ExactInSubnet(h, 0, n.dst);
  }

  /** Where a frame with these addresses in it goes. */
  ghost predicate Sent(h: seq<Command>, src: Ip, dst: Ip, port: nat)
  {
    && (var p := PortAt(h, 0, IpHash2(src)); port == if p != ControlPort(h, 0) then p else PortAt(h, 0, IpHash2(dst)))
    && (OneSubnet(h, 0, src) && OneSubnet(h, 0, dst) ==>
          port == if Exact(h, 0, src) != ControlPort(h, 0) then Exact(h, 0, src) else Exact(h, 0, dst))
  }

  /** The decision in bytes: the port from layer 2; else by the IPv4 addresses, bytes 26 to 30 and 30 to 34, or the
      first four bytes of the IPv6 addresses at 22 and 38; other frames have no port. */
  ghost predicate Routed(h: seq<Command>, l2: nat, buf: seq<Byte>, port: nat)
    requires Readable(buf)
  {
    && (l2 != NM_BDG_NOPORT ==> port == l2)
    && (l2 == NM_BDG_NOPORT ==>
          && (buf[12..14] == [0x08, 0x00] ==> Sent(h, buf[26..30], buf[30..34], port))
          && (buf[12..14] == [0x86, 0xdd] ==> Sent(h, buf[22..26], buf[38..42], port))
          && (buf[12..14] != [0x08, 0x00] && buf[12..14] != [0x86, 0xdd] ==> port == NM_BDG_NOPORT))
  }

  lemma RoutedInBytes(h: seq<Command>, l2: nat, buf: seq<Byte>)
    requires Readable(buf)
    ensures Routed(h, l2, buf, Answer(h, l2, NetworkOf(buf)))
  {
    hide IpHash2, PortAt, Exact, OneSubnet, ControlPort;
    var n := NetworkOf(buf);
    if n.Addresses? && OneSubnet(h, 0, n.src) && OneSubnet(h, 0, n.dst) {
      SubnetRouting(h, n);
    }
  }

  /** The control port is that of the bridge's latest registration. */
  lemma {:induction false} LatestRegistration(h: seq<Command>, i: nat, k: int)
    requires -1 <= k < |h| && (k >= 0 ==> h[k].Register? && h[k].idx == i)
    requires forall j | k < j < |h| && h[j].Register? :: h[j].idx != i
    ensures ControlPort(h, i) == if k >= 0 then h[k].port else 0
  {
    if k < |h| - 1 {
      LatestRegistration(h[..|h| - 1], i, k);
    }
  }

  /** An address that was not added since the registration maps to the control port. */
  lemma {:induction false} UnknownMapsToControl(h: seq<Command>, i: nat, a: Ip)
    requires LatestFor(h, i, a) >= 0 ==> h[LatestFor(h, i, a)].Register?
    ensures Exact(h, i, a) == ControlPort(h, i)
  {
    if h != [] && (h[|h| - 1].idx != i || (h[|h| - 1].AddIf? && h[|h| - 1].addr != a)) {
      var g := h[..|h| - 1];
      assert LatestFor(h, i, a) == LatestFor(g, i, a);
      UnknownMapsToControl(g, i, a);
    }
  }

  // What a client sees

  function KeyOf(a: Ip): Key
  {
    FourBytes(a[0], a[1], a[2], a[3])
  }

  /** A little-endian load of four bytes. */
  function FourBytes(p: Byte, q: Byte, r: Byte, s: Byte): Key
  {
    ((p as Key) | ((q as Key) << 8) | ((r as Key) << 16) | ((s as Key) << 24)) & 0xffffffff
  }

  function Unpack(k: Key): (m: seq<Byte>)
    ensures |m| == 4
  {
    [(k & 0xff) as Byte, ((k >> 8) & 0xff) as Byte, ((k >> 16) & 0xff) as Byte, ((k >> 24) & 0xff) as Byte]
  }

  lemma FourBytesReturn(p: Byte, q: Byte, r: Byte, s: Byte)
    ensures Unpack(FourBytes(p, q, r, s)) == [p, q, r, s]
    ensures FourBytes(p, q, r, s) == 0 <==> p == q == r == s == 0
  {
  }

  lemma KeyReturns(a: Ip)
    ensures Unpack(KeyOf(a)) == a
    ensures KeyOf(a) == 0 <==> a == NO_IP
  {
    hide Unpack, FourBytes;
    FourBytesReturn(a[0], a[1], a[2], a[3]);
    assert a == [a[0], a[1], a[2], a[3]];
  }

  /** An entry is shown if its address is not all zeroes, even when a registration has reset its port. */
  ghost function Row(h: seq<Command>, i: nat, b: nat): Shown
  {
    if AddrAt(h, i, b) != NO_IP then Used(AddrAt(h, i, b), PortAt(h, i, b)) else Unused
  }

  ghost function Rows(h: seq<Command>, i: nat): (r: seq<Shown>)
    ensures |r| == IP_BDG_HASH
  {
    seq(IP_BDG_HASH, b requires 0 <= b < IP_BDG_HASH => Row(h, i, b))
  }

  datatype Route = Route(addr: Key, ports: nat)

  ghost function Stored(h: seq<Command>, i: nat, b: nat): Route
  {
    Route(KeyOf(AddrAt(h, i, b)), PortAt(h, i, b))
  }

  lemma StoredChanges(h: seq<Command>, c: Command, i: nat, b: nat)
    ensures Stored(h + [c], i, b)
         == if Writes(c, i, b) then Route(KeyOf(c.addr), c.port)
            else if c.Register? && c.idx == i then Stored(h, i, b).(ports := c.port)
            else Stored(h, i, b)
    ensures ControlPort(h + [c], i) == if c.Register? && c.idx == i then c.port else ControlPort(h, i)
  {
    hide IpHash2, KeyOf, AddrAt, PortAt, ControlPort;
    Changes(h, c, i, b);
  }

  lemma RouteShows(h: seq<Command>, i: nat, b: nat)
    ensures var e := Stored(h, i, b);
            Row(h, i, b) == if e.addr == 0 then Unused else Used(Unpack(e.addr), e.ports)
  {
    hide KeyOf, Unpack, AddrAt, PortAt;
    KeyReturns(AddrAt(h, i, b));
  }

  lemma NothingStored()
    ensures forall i: nat, b: nat :: Stored([], i, b) == Route(0, 0)
    ensures forall i: nat :: ControlPort([], i) == 0
  {
    hide IpHash2, KeyOf;
    KeyReturns(NO_IP);
  }

  class Table {
    const rt: array2<Route>
    const ctl: array<nat>
    ghost var past: seq<Command>

    ghost predicate Sized()
    {
      rt.Length0 == NM_BRIDGES && rt.Length1 == IP_BDG_HASH && ctl.Length == NM_BRIDGES
    }

    ghost predicate Valid()
      reads this, rt, ctl
    {
      && Sized()
      && (forall i, b :: 0 <= i < NM_BRIDGES && 0 <= b < IP_BDG_HASH ==> rt[i, b] == Stored(past, i, b))
      && (forall i :: 0 <= i < NM_BRIDGES ==> ctl[i] == ControlPort(past, i))
    }

    constructor ()
      ensures Valid() && fresh(rt) && fresh(ctl) && past == []
    {
      rt := new Route[NM_BRIDGES, IP_BDG_HASH]((_, _) => Route(0, 0));
      ctl := new nat[NM_BRIDGES](_ => 0);
      past := [];
      new;
      hide IpHash2, Stored;
      NothingStored();
    }

    method RtInit(i: nat, port: nat)
      requires Sized() && i < NM_BRIDGES
      modifies rt, ctl
      ensures ctl[..] == old(ctl[..])[i := NM_BDG_NOPORT]
      ensures forall k, b :: 0 <= k < NM_BRIDGES && 0 <= b < IP_BDG_HASH ==>
                rt[k, b] == if k == i then old(rt[k, b]).(ports := port) else old(rt[k, b])
    {
      ctl[i] := NM_BDG_NOPORT;
      for j := 0 to IP_BDG_HASH
        invariant ctl[..] == old(ctl[..])[i := NM_BDG_NOPORT]
        invariant forall k, b :: 0 <= k < NM_BRIDGES && 0 <= b < IP_BDG_HASH ==>
                    rt[k, b] == if k == i && b < j then old(rt[k, b]).(ports := port) else old(rt[k, b])
      {
        rt[i, j] := rt[i, j].(ports := port);
      }
    }

    /** Registration sends everything to the control port, whether or not netmap accepted the lookup function. */
    method Register(r: Request)
      requires Valid() && r.idx < NM_BRIDGES
      modifies rt, ctl, `past
      ensures Valid() && past == old(past) + [Command.Register(r.idx, r.port)]
    {
      hide IpHash2, Stored, ControlPort;
      ghost var c := Command.Register(r.idx, r.port);
      RtInit(r.idx, r.port);
      ctl[r.idx] := r.port;
      past := past + [c];
      forall i, b | 0 <= i < NM_BRIDGES && 0 <= b < IP_BDG_HASH ensures rt[i, b] == Stored(past, i, b) {
        StoredChanges(old(past), c, i, b);
      }
      forall i | 0 <= i < NM_BRIDGES ensures ctl[i] == ControlPort(past, i) {
        StoredChanges(old(past), c, i, 0);
        assert ctl[..][i] == ctl[i];
      }
    }

    method BdgAddIf3(s: Request)
      requires Valid() && Shaped(s) && s.idx < NM_BRIDGES
      modifies rt, `past
      ensures Valid() && past == old(past) + [AddIf(s.idx, s.addr[..4], s.dst)]
    {
      hide IpHash2, Stored, KeyOf, ControlPort;
      ghost var c := AddIf(s.idx, s.addr[..4], s.dst);
      var sh := IpHash2(s.addr[..4]);
      var src := KeyOf(s.addr[..4]);
      rt[s.idx, sh] := Route(src, s.dst);
      past := past + [c];
      forall i, b | 0 <= i < NM_BRIDGES && 0 <= b < IP_BDG_HASH ensures rt[i, b] == Stored(past, i, b) {
        StoredChanges(old(past), c, i, b);
      }
      forall i | 0 <= i < NM_BRIDGES ensures ctl[i] == ControlPort(past, i) {
        StoredChanges(old(past), c, i, 0);
      }
    }

    /** Layer 2 first; its answer stands unless it is "no port". */
    method Lookup3(buf: seq<Byte>, l2: MacStatic.Table) returns (dst: nat, dstRing: nat)
      requires Valid() && l2.Valid() && Readable(buf)
      ensures dst == Answer(past, MacStatic.Answer(l2.past, Source(buf), HashOf(Source(buf))), NetworkOf(buf)) && dstRing == 0
      ensures Routed(past, MacStatic.Answer(l2.past, Source(buf), HashOf(Source(buf))), buf, dst)
    {
      hide IpHash2, EtherType, Source, ControlPort, MacStatic.Answer, MacStatic.Chooses, HashOf, Routed;
      RoutedInBytes(past, MacStatic.Answer(l2.past, Source(buf), HashOf(Source(buf))), buf);
      TypeOf(buf);
      var ctl0 := ctl[0];
      dst, dstRing := l2.Lookup2(buf);
      if dst == NM_BDG_NOPORT {
        var saddr, daddr := [], [];
        if EtherType(buf[12], buf[13]) == 0x0800 {
          saddr, daddr := buf[26..30], buf[30..34];
        } else if EtherType(buf[12], buf[13]) == 0x86dd {
          saddr, daddr := buf[22..26], buf[38..42];
        }
        if saddr != [] {
          var sh := IpHash2(saddr);
          dst := rt[0, sh].ports;
        }
        if dst == ctl0 && daddr != [] {
          var dh := IpHash2(daddr);
          dst := rt[0, dh].ports;
        }
      }
      dstRing := 0;
    }

    /** Scan from entry xiter for a used one. The index is signed: what a scan that starts before the table
        finds there, nobody can say. */
    method BdgList(xiter: nat, breq: Request) returns (rc: int, q: Request)
      requires Valid() && Shaped(breq) && breq.idx < NM_BRIDGES && xiter == breq.arg < 0x1_0000_0000
      ensures xiter < 0x8000_0000 ==> Lists(Rows(past, breq.idx), breq, rc, q)
    {
      hide IpHash2, Stored, KeyOf, Unpack, Row;
      rc, q := ENOENT, breq;
      var i: int := if xiter < 0x8000_0000 then xiter else xiter - 0x1_0000_0000;
      if i < 0 {
        rc, q := *, *;
        return;
      }
      while i < IP_BDG_HASH
        invariant rc == ENOENT && q == breq
        invariant 0 <= xiter <= i && (i <= IP_BDG_HASH || i == xiter)
        invariant i <= IP_BDG_HASH ==> NextUsed(Rows(past, breq.idx), xiter) == NextUsed(Rows(past, breq.idx), i)
      {
        RouteShows(past, breq.idx, i);
        if rt[breq.idx, i].addr == 0 {
          i := i + 1;
          continue;
        }
        var s := Unpack(rt[breq.idx, i].addr);
        q := breq.(addr := s + breq.addr[4..], port := rt[breq.idx, i].ports, arg := i);
        rc := 0;
        break;
      }
    }
  }
}
