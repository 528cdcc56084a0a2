/** The command-line client lists a table by asking for one entry at a time. */
module Enumeration {
  import opened BdgRequests
  import Mixer
  import Addresses
  import MacStatic
  import IpStatic

  /** The device file the client has opened: one module or the other answers its requests. */
  datatype Device = MacDevice(mac: MacStatic.Table) | IpDevice(ip: IpStatic.Table)
  {
    ghost predicate Ready(idx: nat)
      reads match this case MacDevice(t) => {t, t.rt, t.ctl} case IpDevice(t) => {t, t.rt, t.ctl}
    {
      match this
      case MacDevice(t) => t.Valid() && idx < MacStatic.NM_BRIDGES
      case IpDevice(t) => t.Valid() && idx < IpStatic.NM_BRIDGES
    }

    ghost function Rows(idx: nat): seq<Shown>
      reads match this case MacDevice(t) => {t} case IpDevice(t) => {t}
    {
      match this
      case MacDevice(t) => MacStatic.Rows(t.past, idx)
      case IpDevice(t) => IpStatic.Rows(t.past, idx)
    }

    /** BDGIOCLIST */
    method List(breq: Request) returns (rc: int, q: Request)
      requires Ready(breq.idx) && Shaped(breq) && breq.arg < 0x8000_0000
      ensures Lists(Rows(breq.idx), breq, rc, q)
    {
      match this
      case MacDevice(t) => rc, q := t.BdgList(breq.arg, breq);
      case IpDevice(t) => rc, q := t.BdgList(breq.arg, breq);
    }
  }

  /** One printed line: the entry's index, the six address bytes of the request and the port. */
  datatype Line = Line(index: nat, addr: seq<Mixer.Byte>, port: nat)

  /** A line shows entry k of the table. */
  ghost predicate Shows(l: Line, rows: seq<Shown>, k: nat)
    requires k < |rows|
  {
    && rows[k].Used?
    && l.index == k && l.port == rows[k].port
    && |l.addr| == 6 && rows[k].bytes <= l.addr
  }

  /** The lines show the used entries below k, each once and in order. */
  ghost predicate Listed(lines: seq<Line>, rows: seq<Shown>, k: nat)
    requires k <= |rows|
  {
    && (forall i :: 0 <= i < |lines| ==> lines[i].index < k && Shows(lines[i], rows, lines[i].index))
    && (forall i, j :: 0 <= i < j < |lines| ==> lines[i].index < lines[j].index)
    && (forall n :: 0 <= n < k && rows[n].Used? ==> exists i :: 0 <= i < |lines| && lines[i].index == n)
  }

  lemma NoneSkipped(lines: seq<Line>, rows: seq<Shown>, k: nat, n: nat)
    requires k <= n <= |rows| && Listed(lines, rows, k)
    requires forall j :: k <= j < n ==> rows[j].Unused?
    ensures Listed(lines, rows, n)
  {
  }

  lemma OneMore(lines: seq<Line>, rows: seq<Shown>, l: Line, n: nat)
    requires n < |rows| && Listed(lines, rows, n) && Shows(l, rows, n)
    ensures Listed(lines + [l], rows, n + 1)
  {
    var after := lines + [l];
    forall m | 0 <= m < n + 1 && rows[m].Used? ensures exists i :: 0 <= i < |after| && after[i].index == m {
      if m == n {
        assert after[|lines|].index == n;
      } else {
        var i :| 0 <= i < |lines| && lines[i].index == m;
        assert after[i].index == m;
      }
    }
  }

  /** What one answer adds to the lines printed so far. */
  lemma OneAnswer(lines: seq<Line>, rows: seq<Shown>, r: Request, rc: int, q: Request)
    requires Shaped(r) && r.arg <= |rows| && Listed(lines, rows, r.arg) && Lists(rows, r, rc, q)
    ensures rc != 0 ==> Listed(lines, rows, |rows|)
    ensures rc == 0 ==> Shaped(q) && q.idx == r.idx && r.arg <= q.arg < |rows|
                        && Listed(lines + [Line(q.arg, q.addr, q.port)], rows, q.arg + 1)
  {
    hide Listed;
    NoneSkipped(lines, rows, r.arg, NextUsed(rows, r.arg));
    if rc == 0 {
      OneMore(lines, rows, Line(q.arg, q.addr, q.port), q.arg);
    }
  }

  /** The listing loop: start at 0, and after each answer ask again from the next entry. */
  method ListIf(dev: Device, request: Request) returns (lines: seq<Line>)
    requires dev.Ready(request.idx) && Shaped(request)
    ensures Listed(lines, dev.Rows(request.idx), |dev.Rows(request.idx)|)
  {
    hide Listed, Lists, Shaped;
    ghost var rows := dev.Rows(request.idx);
    var breq := request.(arg := 0);
    ShapeKept(request, 0);
    lines := [];
    NothingListed(rows);
    while true
      invariant Shaped(breq) && breq.idx == request.idx && breq.arg <= |rows|
      invariant Listed(lines, rows, breq.arg)
      decreases |rows| - breq.arg
    {
      ghost var asked := breq;
      var rc: int;
      rc, breq := dev.List(breq);
      OneAnswer(lines, rows, asked, rc, breq);
      if rc != 0 { break; }
      lines := lines + [Line(breq.arg, breq.addr, breq.port)];
      ShapeKept(breq, breq.arg + 1);
      breq := breq.(arg := breq.arg + 1);
    }
  }

  lemma ShapeKept(r: Request, k: nat)
    ensures Shaped(r.(arg := k)) == Shaped(r)
  {
  }

  lemma NothingListed(rows: seq<Shown>)
    ensures Listed([], rows, 0)
  {
  }

  /** Every address that the layer-2 table still holds is listed, byte for byte, with its port. */
  lemma InstalledMacListed(lines: seq<Line>, h: seq<MacStatic.Command>, i: nat, m: Addresses.Mac, hash: Addresses.Mac -> nat)
    requires Listed(lines, MacStatic.Rows(h, i), Mixer.BDG_HASH)
    requires MacStatic.IndexedBy(h, hash) && hash(m) < Mixer.BDG_HASH
    requires MacStatic.LatestFor(h, i, m) >= 0 && !MacStatic.Displaced(h, i, m, hash(m)) && m != Addresses.NOWHERE
    ensures exists n :: 0 <= n < |lines| && lines[n].addr == m && lines[n].port == MacStatic.Exact(h, i, m)
  {
    hide Addresses.Pack, MacStatic.Displaced, MacStatic.Stored;
    MacStatic.LatestWins(h, i, m, hash);
    var b := hash(m);
    var rows := MacStatic.Rows(h, i);
    assert rows[b] == MacStatic.Row(h, i, b) == Used(m, MacStatic.Exact(h, i, m));
    var n :| 0 <= n < |lines| && lines[n].index == b;
    assert Shows(lines[n], rows, b);
  }

  /** The same for the layer-3 table: the address added by command j and not replaced since. */
  lemma InstalledIpListed(lines: seq<Line>, h: seq<IpStatic.Command>, i: nat, a: IpStatic.Ip, j: nat)
    requires Listed(lines, IpStatic.Rows(h, i), IpStatic.IP_BDG_HASH)
    requires j < |h| && h[j].AddIf? && h[j].idx == i && h[j].addr == a != IpStatic.NO_IP
    requires forall l :: j < l < |h| && h[l].AddIf? && h[l].idx == i && h[l].addr[2..] == a[2..] ==> h[l].addr == a
    ensures exists n :: 0 <= n < |lines| && lines[n].addr[..4] == a
                     && lines[n].port == IpStatic.PortAt(h, i, IpStatic.IpHash2(a))
  {
    hide IpStatic.IpHash2, IpStatic.AddrAt, IpStatic.PortAt;
    IpStatic.AddressKept(h, i, a, j);
    var b := IpStatic.IpHash2(a);
    var rows := IpStatic.Rows(h, i);
    assert rows[b] == IpStatic.Row(h, i, b) == Used(a, IpStatic.PortAt(h, i, b));
    var n :| 0 <= n < |lines| && lines[n].index == b;
    assert Shows(lines[n], rows, b);
  }

  /** And nothing else is listed: a line shows an address that was added to this bridge, by the latest add into
      its entry, and the port it was added with. */
  lemma OnlyInstalledMacListed(lines: seq<Line>, h: seq<MacStatic.Command>, i: nat, n: nat)
    requires Listed(lines, MacStatic.Rows(h, i), Mixer.BDG_HASH) && n < |lines|
    ensures exists k :: 0 <= k < |h| && h[k].AddIf? && h[k].idx == i && h[k].at == lines[n].index
                        && lines[n].addr == h[k].addr && lines[n].port == h[k].dst
  {
    var b := lines[n].index;
    MacStatic.LatestAddWrites(h, i, b);
    var rows := MacStatic.Rows(h, i);
    assert Shows(lines[n], rows, b) && rows[b] == MacStatic.Row(h, i, b);
    assert h[MacStatic.LatestAdd(h, i, b)].AddIf?;
  }

  lemma OnlyInstalledIpListed(lines: seq<Line>, h: seq<IpStatic.Command>, i: nat, n: nat)
    requires Listed(lines, IpStatic.Rows(h, i), IpStatic.IP_BDG_HASH) && n < |lines|
    ensures exists k :: 0 <= k < |h| && h[k].AddIf? && h[k].idx == i && IpStatic.IpHash2(h[k].addr) == lines[n].index
                        && lines[n].addr[..4] == h[k].addr && lines[n].port == IpStatic.PortAt(h, i, lines[n].index)
  {
    hide IpStatic.IpHash2, IpStatic.PortAt;
    var b := lines[n].index;
    IpStatic.LatestAddWrites(h, i, b);
    var rows := IpStatic.Rows(h, i);
    assert Shows(lines[n], rows, b) && rows[b] == IpStatic.Row(h, i, b);
    assert h[IpStatic.LatestAdd(h, i, b)].AddIf?;
  }
}
