/** The backend's grants over time: xenvif_grant_ring and xenvif_revoke_ring for one ring, and the map and
    unmap entry points that use them for the transmit and the receive ring. */
module GrantLifetime {
  import opened Sizes
  import opened Pages
  import opened GrantTransfer

  lemma IssuedTwice(e0: map<nat, nat>, e1: map<nat, nat>, e2: map<nat, nat>, r1: seq<nat>, r2: seq<nat>)
    requires Issued(e0, e1, r1) && Issued(e1, e2, r2) && Distinct(r1) && Distinct(r2)
    ensures Issued(e0, e2, r1 + r2) && Distinct(r1 + r2)
  {
    forall j, k | 0 <= j < k < |r1 + r2|
      ensures (r1 + r2)[j] != (r1 + r2)[k]
    {
      if j < |r1| && k >= |r1| {
        assert r1[j] in e1 && r2[k - |r1|] in r2;
      }
    }
  }

  lemma GrantsOutlive(e1: map<nat, nat>, e2: map<nat, nat>, r1: seq<nat>, t1: seq<nat>, r2: seq<nat>)
    requires Grants(e1, r1, t1) && Issued(e1, e2, r2)
    ensures Grants(e2, r1, t1)
  {
  }

  function Members(s: seq<nat>): set<nat>
  {
    set r | r in s
  }

  lemma {:induction false} DistinctCount(refs: seq<nat>)
    requires Distinct(refs)
    ensures |Members(refs)| == |refs|
  {
    if refs != [] {
      var n := |refs| - 1;
      var init, last := refs[..n], refs[n];
      assert forall j | 0 <= j < n :: init[j] == refs[j] && refs[j] != refs[n];
      DistinctCount(init);
      assert Members(refs) == Members(init) + {last};
    }
  }

  /** So many grants are live as references were issued. */
  lemma LiveCount(e0: map<nat, nat>, e: map<nat, nat>, refs: seq<nat>)
    requires Issued(e0, e, refs) && Distinct(refs)
    ensures |e| == |e0| + |refs|
  {
    DistinctCount(refs);
    IssuedKeys(e0, e, refs);
    assert |e.Keys| == |e0.Keys| + |Members(refs)|;
  }

  lemma IssuedKeys(e0: map<nat, nat>, e: map<nat, nat>, refs: seq<nat>)
    requires Issued(e0, e, refs)
    ensures e.Keys == e0.Keys + Members(refs) && e0.Keys !! Members(refs)
  {
  }

  /** What a kring tells the grant code: the addresses of the ring header and of the last slot, the
      buffers its slots name, and the slots' ptr words. */
  class Kring {
    const ring: nat
    const lastSlot: nat
    const bufIdx: array<nat>
    const ptr: array<nat>
    const lut: seq<nat>

    constructor (ring: nat, lastSlot: nat, bufIdx: array<nat>, ptr: array<nat>, lut: seq<nat>)
      ensures this.ring == ring && this.lastSlot == lastSlot && this.bufIdx == bufIdx && this.ptr == ptr && this.lut == lut
    {
      this.ring, this.lastSlot, this.bufIdx, this.ptr, this.lut := ring, lastSlot, bufIdx, ptr, lut;
    }

    /** A ring of at least one descriptor whose header lies before its slots, with buffers off page 0. */
    ghost predicate Usable()
      reads this, bufIdx
    {
      && ring <= lastSlot && PageOf(lastSlot) - PageOf(ring) < 0xffff
      && bufIdx != ptr && 0 < bufIdx.Length == ptr.Length <= 0x10000
      && (forall i | 0 <= i < bufIdx.Length :: bufIdx[i] < |lut|)
      && (forall i | 0 <= i < bufIdx.Length :: PageOf(lut[bufIdx[i]]) != 0)
    }

    ghost function BufPages(): seq<nat>
      reads this, bufIdx
      requires Usable()
    {
      SlotPages(bufIdx[..], lut)
    }

    ghost function RingPages(): seq<nat>
      requires ring <= lastSlot
    {
      PageOfMonotone(ring, lastSlot);
      PagesFrom(PageOf(ring), PageOf(lastSlot) - PageOf(ring) + 1)
    }
  }

  /** vmalloc does not clear memory; that its first word is not the page looked for is assumed of it. */
  method Vmalloc(n: nat, unlike: nat) returns (a: array<nat>)
    ensures fresh(a) && a.Length == n && (n > 0 ==> a[0] != unlike)
  {
    a := new nat[n];
    if n > 0 && a[0] == unlike {
      a[0] := unlike + 1;
    }
  }

  /** The descriptor's references grant the ring's pages in order and the buffers' pages run by run, and the
      slots carry the latter. */
  ghost predicate Described(g: NmGrantRing, kring: Kring, entries: map<nat, nat>)
    requires kring.Usable()
    reads g, g.ringRef, g.bufRef, kring, kring.bufIdx, kring.ptr
  {
    && g.nrRingPgs == |kring.RingPages()| < g.ringRef.Length && g.nrBufPgs < g.bufRef.Length
    && Grants(entries, g.ringRef[..g.nrRingPgs], kring.RingPages()) && Distinct(g.ringRef[..g.nrRingPgs + 1])
    && Grants(entries, g.bufRef[..g.nrBufPgs + 1], Runs(kring.BufPages()))
    && Carried(kring.BufPages(), kring.ptr[..], kring.ptr.Length, g.bufRef[..g.nrBufPgs + 1])
  }

  /** The k-th reference of the ring grants the k-th page from the header's on. */
  lemma RingPagesGranted(g: NmGrantRing, kring: Kring, entries: map<nat, nat>)
    requires kring.Usable() && Described(g, kring, entries)
    ensures g.nrRingPgs == kring.lastSlot / PAGE_SIZE - kring.ring / PAGE_SIZE + 1 > 0
    ensures forall k | 0 <= k < g.nrRingPgs ::
              g.ringRef[k] in entries && entries[g.ringRef[k]] == kring.ring / PAGE_SIZE + k
  {
    hide Carried, Distinct, Runs;
    PageOfMonotone(kring.ring, kring.lastSlot);
    forall k | 0 <= k < g.nrRingPgs
      ensures g.ringRef[k] in entries && entries[g.ringRef[k]] == kring.ring / PAGE_SIZE + k
    {
      assert g.ringRef[..g.nrRingPgs][k] == g.ringRef[k];
    }
  }

  lemma DescriptionOutlives(e1: map<nat, nat>, e2: map<nat, nat>, more: seq<nat>, g: NmGrantRing, kring: Kring)
    requires kring.Usable() && Described(g, kring, e1) && Issued(e1, e2, more)
    ensures Described(g, kring, e2)
  {
    GrantsOutlive(e1, e2, g.ringRef[..g.nrRingPgs], kring.RingPages(), more);
    GrantsOutlive(e1, e2, g.bufRef[..g.nrBufPgs + 1], Runs(kring.BufPages()), more);
  }

  /** struct nm_grant_ring. */
  class NmGrantRing {
    var ringPg: array<nat>
    var bufPg: array<nat>
    var ringRef: array<nat>
    var bufRef: array<nat>
    var nrBufPgs: nat     // index of the last buffer page
    var nrRingPgs: nat    // number of ring pages, 0 when nothing is granted
    ghost var refs: seq<nat>

    constructor ()
      ensures nrRingPgs == 0 && refs == [] && Valid()
    {
      ringPg, bufPg, ringRef, bufRef := new nat[0], new nat[0], new nat[0], new nat[0];
      nrBufPgs, nrRingPgs := 0, 0;
      refs := [];
    }

    /** refs are the live references: one more than nr_ring_pgs for the ring, nr_buf_pgs + 1 for the buffers. */
    ghost predicate Valid()
      reads this, ringRef, bufRef
    {
      if nrRingPgs == 0 then refs == [] else
        && ringRef != bufRef && nrRingPgs < ringRef.Length && nrBufPgs < bufRef.Length
        && refs == ringRef[..nrRingPgs + 1] + bufRef[..nrBufPgs + 1]
    }

    /** First half of xenvif_grant_ring: allocate the arrays and find the pages. */
    method FindPages(kring: Kring, ringCap: nat, bufCap: nat)
      requires kring.Usable() && PageOf(kring.lastSlot) - PageOf(kring.ring) + 1 < ringCap
      requires |Runs(kring.BufPages())| <= bufCap
      modifies this, kring.ptr
      ensures kring.Usable() && kring.BufPages() == old(kring.BufPages())
      ensures fresh(ringPg) && fresh(bufPg) && fresh(ringRef) && fresh(bufRef)
      ensures ringPg != ringRef && bufPg != bufRef && ringRef != bufRef && ringPg != bufRef
      ensures ringPg.Length == ringRef.Length == ringCap && bufPg.Length == bufRef.Length == bufCap
      ensures nrRingPgs < ringCap && ringPg[..nrRingPgs] == kring.RingPages()
      ensures nrBufPgs + 1 == |Runs(kring.BufPages())| <= bufCap && bufPg[..nrBufPgs + 1] == Runs(kring.BufPages())
      ensures forall i | 0 <= i < kring.ptr.Length :: kring.ptr[i] == if RunStart(kring.BufPages(), i) then 1 else 0
    {
      hide PageOf, Runs, Scanned;
      ghost var p := kring.BufPages();
      RunsLast(p);
      ringPg := Vmalloc(ringCap, 0);
      bufPg := Vmalloc(bufCap, PageOf(kring.lut[kring.bufIdx[0]]));
      ringRef := Vmalloc(ringCap, 0);
      bufRef := Vmalloc(bufCap, 0);
      PageOfMonotone(kring.ring, kring.lastSlot);
      nrRingPgs := NmRingPages(kring.ring, kring.lastSlot, ringPg);
      ghost var before := bufPg[..];
      nrBufPgs := NmBufPages(kring.bufIdx, kring.lut, kring.ptr, bufPg);
      MarksExactlyRunStarts(p, kring.ptr[..], bufPg[..], nrBufPgs, before);
    }

    /** Second half: grant the buffer pages, then the ring pages. */
    method IssueRefs(table: GrantTable, kring: Kring)
      requires kring.Usable() && ringPg != ringRef && bufPg != bufRef && ringRef != bufRef
      requires kring.ptr != bufPg && kring.ptr != bufRef && kring.ptr != ringPg && kring.ptr != ringRef
      requires kring.bufIdx != bufRef && kring.bufIdx != ringRef
      requires ringPg != bufRef && ringPg.Length == ringRef.Length && bufPg.Length == bufRef.Length
      requires nrRingPgs < ringPg.Length && ringPg[..nrRingPgs] == kring.RingPages()
      requires nrBufPgs + 1 == |Runs(kring.BufPages())| <= bufPg.Length && bufPg[..nrBufPgs + 1] == Runs(kring.BufPages())
      requires forall i | 0 <= i < kring.ptr.Length :: kring.ptr[i] == if RunStart(kring.BufPages(), i) then 1 else 0
      modifies this`refs, table, kring.ptr, ringRef, bufRef
      ensures kring.Usable() && kring.BufPages() == old(kring.BufPages())
      ensures refs == ringRef[..nrRingPgs + 1] + bufRef[..nrBufPgs + 1]
      ensures Issued(old(table.entries), table.entries, refs) && Distinct(refs) && Distinct(ringRef[..nrRingPgs + 1])
      ensures Grants(table.entries, ringRef[..nrRingPgs], kring.RingPages())
      ensures Grants(table.entries, bufRef[..nrBufPgs + 1], Runs(kring.BufPages()))
      ensures Carried(kring.BufPages(), kring.ptr[..], kring.ptr.Length, bufRef[..nrBufPgs + 1])
    {
      hide PageOf, Runs, RunStart, Granting, Carried, Issued, Grants;
      ghost var p := kring.BufPages();
      GrantingStarts(p, kring.ptr[..], table.entries);
      var granted := GrantBuffers(table, kring.ptr, bufPg, bufRef, p);
      ghost var r1, e0, e1 := bufRef[..granted], old(table.entries), table.entries;
      GrantingEnds(p, kring.ptr[..], r1, e0, e1);
      GrantRingPages(table, ringPg, ringRef, nrRingPgs);
      ghost var r2 := ringRef[..nrRingPgs + 1];
      RefsTogether(e0, e1, table.entries, r1, Runs(p), r2, ringPg[..nrRingPgs + 1], nrRingPgs);
      assert r2[..nrRingPgs] == ringRef[..nrRingPgs] && ringPg[..nrRingPgs + 1][..nrRingPgs] == ringPg[..nrRingPgs];
      refs := r2 + r1;
    }

    /** xenvif_grant_ring. ringCap and bufCap are the sizes of the allocated arrays; the ring arrays need
        one entry more than there are ring pages. */
    method Grant(table: GrantTable, kring: Kring, ringCap: nat, bufCap: nat)
      requires kring.Usable() && PageOf(kring.lastSlot) - PageOf(kring.ring) + 1 < ringCap
      requires |Runs(kring.BufPages())| <= bufCap
      modifies this, table, kring.ptr
      ensures Valid() && fresh(ringRef) && fresh(bufRef)
      ensures kring.Usable() && kring.BufPages() == old(kring.BufPages())
      ensures 0 < nrRingPgs == |kring.RingPages()| && nrBufPgs + 1 == |Runs(kring.BufPages())|
      ensures Issued(old(table.entries), table.entries, refs) && Distinct(refs)
      ensures Described(this, kring, table.entries)
      ensures nrRingPgs == kring.lastSlot / PAGE_SIZE - kring.ring / PAGE_SIZE + 1
      ensures forall k | 0 <= k < nrRingPgs ::
                ringRef[k] in table.entries && table.entries[ringRef[k]] == kring.ring / PAGE_SIZE + k
    {
      FindPages(kring, ringCap, bufCap);
      IssueRefs(table, kring);
      hide PageOf, Runs, Carried, Issued, RunStart, Distinct, Described;
      RingPagesGranted(this, kring, table.entries);
    }

    /** xenvif_revoke_ring: every reference is live when it is ended. */
    method Revoke(table: GrantTable)
      requires Valid() && nrRingPgs != 0 && Distinct(refs) && forall r | r in refs :: r in table.entries
      modifies this, table
      ensures Valid() && nrRingPgs == 0 && nrBufPgs == 0
      ensures table.entries == old(table.entries) - Members(old(refs))
    {
      ghost var e0, n := table.entries, nrRingPgs + 1;
      for i := 0 to nrRingPgs + 1
        modifies table
        invariant table.entries == e0 - Members(refs[..i])
      {
        EndOne(e0, refs, i);
        assert refs[i] == ringRef[i];
        table.End(ringRef[i]);
      }
      for i := 0 to nrBufPgs + 1
        modifies table
        invariant table.entries == e0 - Members(refs[..n + i])
      {
        EndOne(e0, refs, n + i);
        assert refs[n + i] == bufRef[i];
        table.End(bufRef[i]);
      }
      assert refs[..|refs|] == refs;
      nrBufPgs, nrRingPgs := 0, 0;
      refs := [];
    }
  }

  lemma EndOne(e: map<nat, nat>, refs: seq<nat>, i: nat)
    requires i < |refs| && Distinct(refs) && forall r | r in refs :: r in e
    ensures refs[i] in e - Members(refs[..i])
    ensures e - Members(refs[..i]) - {refs[i]} == e - Members(refs[..i + 1])
  {
    assert refs[..i + 1] == refs[..i] + [refs[i]];
  }

  lemma RefsTogether(e0: map<nat, nat>, e1: map<nat, nat>, e: map<nat, nat>, r1: seq<nat>, t1: seq<nat>,
                     r2: seq<nat>, t2: seq<nat>, n: nat)
    requires Issued(e0, e1, r1) && Grants(e1, r1, t1) && Issued(e1, e, r2) && Grants(e, r2, t2) && n <= |r2|
    ensures Issued(e0, e, r2 + r1) && Distinct(r2 + r1) && Distinct(r2)
    ensures Grants(e, r1, t1) && Grants(e, r2[..n], t2[..n])
  {
    GrantsOutlive(e1, e, r1, t1, r2);
    IssuedTwice(e0, e1, e, r1, r2);
    Reordered(e0, e, r1, r2);
  }

  lemma GrantingEnds(p: seq<nat>, pt: seq<nat>, refs: seq<nat>, e0: map<nat, nat>, e: map<nat, nat>)
    requires Granting(p, pt, refs, e0, e, |p|)
    ensures Carried(p, pt, |p|, refs) && Issued(e0, e, refs) && Grants(e, refs, Runs(p)) && |refs| == |Runs(p)|
  {
    assert p[..|p|] == p;
  }

  lemma Reordered(e0: map<nat, nat>, e: map<nat, nat>, r1: seq<nat>, r2: seq<nat>)
    requires Issued(e0, e, r1 + r2) && Distinct(r1 + r2)
    ensures Issued(e0, e, r2 + r1) && Distinct(r2 + r1)
  {
    forall j, k | 0 <= j < k < |r2 + r1|
      ensures (r2 + r1)[j] != (r2 + r1)[k]
    {
      var j', k' := (if j < |r2| then j + |r1| else j - |r2|), (if k < |r2| then k + |r1| else k - |r2|);
      assert (r1 + r2)[j'] == (r2 + r1)[j] && (r1 + r2)[k'] == (r2 + r1)[k];
    }
  }

  lemma RevokedAll(e0: map<nat, nat>, e: map<nat, nat>, r1: seq<nat>, r2: seq<nat>)
    requires Issued(e0, e, r1 + r2) && Distinct(r1 + r2)
    ensures e - Members(r1) - Members(r2) == e0 && Distinct(r1) && Distinct(r2)
    ensures (forall r | r in r1 :: r in e) && forall r | r in r2 :: r in e - Members(r1)
  {
    forall j, k | 0 <= j < |r1| && 0 <= k < |r2|
      ensures r1[j] != r2[k]
    {
      assert (r1 + r2)[j] == r1[j] && (r1 + r2)[|r1| + k] == r2[k];
    }
    assert forall k | 0 <= k < |r2| :: (r1 + r2)[|r1| + k] == r2[k];
    assert forall j | 0 <= j < |r1| :: (r1 + r2)[j] == r1[j];
    forall r | r in e && r !in e0
      ensures r in r1 || r in r2
    {
      assert r in r1 + r2;
    }
  }

  /** The interface's two grant descriptors and the rings they are for. */
  class Vif {
    const table: GrantTable
    const nmtx: NmGrantRing
    const nmrx: NmGrantRing
    const txRing: Kring
    const rxRing: Kring
    const ringCap: nat
    const bufCap: nat
    ghost const others: map<nat, nat>   // grants made by anybody else

    constructor (table: GrantTable, txRing: Kring, rxRing: Kring, ringCap: nat, bufCap: nat)
      requires Fits(txRing, ringCap, bufCap) && Fits(rxRing, ringCap, bufCap) && Separate(txRing, rxRing)
      ensures Valid() && !Mapped() && others == table.entries && fresh(nmtx) && fresh(nmrx)
      ensures this.table == table && this.txRing == txRing && this.rxRing == rxRing
    {
      this.table, this.txRing, this.rxRing, this.ringCap, this.bufCap := table, txRing, rxRing, ringCap, bufCap;
      var a := new NmGrantRing();
      var b := new NmGrantRing();
      nmtx, nmrx := a, b;
      others := table.entries;
    }

    static ghost predicate Fits(kring: Kring, ringCap: nat, bufCap: nat)
      reads kring, kring.bufIdx
    {
      kring.Usable() && |kring.RingPages()| < ringCap && |Runs(kring.BufPages())| <= bufCap
    }

    static ghost predicate Separate(a: Kring, b: Kring)
    {
      a.ptr != b.ptr && a.ptr != b.bufIdx && b.ptr != a.bufIdx
    }

    predicate Mapped()
      reads nmtx
    {
      nmtx.nrRingPgs != 0
    }

    /** Beside everybody else's grants exactly one set for transmit and one for receive is live while
        nr_ring_pgs is not 0, and none otherwise. */
    ghost predicate Valid()
      reads this, table, nmtx, nmrx, nmtx.ringRef, nmtx.bufRef, nmrx.ringRef, nmrx.bufRef
      reads txRing, rxRing, txRing.bufIdx, rxRing.bufIdx
    {
      && nmtx != nmrx && nmtx.Valid() && nmrx.Valid()
      && Fits(txRing, ringCap, bufCap) && Fits(rxRing, ringCap, bufCap) && Separate(txRing, rxRing)
      && (nmtx.nrRingPgs == 0 <==> nmrx.nrRingPgs == 0)
      && Issued(others, table.entries, nmtx.refs + nmrx.refs) && Distinct(nmtx.refs + nmrx.refs)
    }

    /** xenvif_netmap_map, up to the store. */
    method Map()
      requires Valid()
      modifies nmtx, nmrx, table, txRing.ptr, rxRing.ptr
      ensures Valid() && Mapped()
      ensures old(Mapped()) ==> unchanged(table, nmtx, nmrx, txRing.ptr, rxRing.ptr)
      ensures !old(Mapped()) ==> Described(nmtx, txRing, table.entries) && Described(nmrx, rxRing, table.entries)
    {
      hide Issued, Distinct, Runs, PageOf, Grants, Carried, RunStart;
      if nmtx.nrRingPgs != 0 {
        return;
      }
      ghost var e0 := table.entries;
      assert nmtx.refs + nmrx.refs == [];
      nmtx.Grant(table, txRing, ringCap, bufCap);
      ghost var e1, r1 := table.entries, nmtx.refs;
      nmrx.Grant(table, rxRing, ringCap, bufCap);
      DescriptionOutlives(e1, table.entries, nmrx.refs, nmtx, txRing);
      IssuedTwice(e0, e1, table.entries, r1, nmrx.refs);
      NothingBefore(others, e0, table.entries, nmtx.refs + nmrx.refs);
    }

    /** xenvif_netmap_unmap. */
    method Unmap()
      requires Valid()
      modifies nmtx, nmrx, table
      ensures Valid() && !Mapped() && table.entries == others
      ensures !old(Mapped()) ==> unchanged(table, nmtx, nmrx)
    {
      hide Issued, Distinct, Runs, PageOf;
      ghost var r1, r2 := nmtx.refs, nmrx.refs;
      RevokedAll(others, table.entries, r1, r2);
      if nmtx.nrRingPgs == 0 {
        NothingLive(table.entries);
        return;
      }
      nmtx.Revoke(table);
      nmrx.Revoke(table);
      NothingLive(others);
    }

    /** Any sequence of maps and unmaps. */
    method Run(calls: nat)
      requires Valid()
      modifies nmtx, nmrx, table, txRing.ptr, rxRing.ptr
      ensures Valid()
      ensures !Mapped() ==> table.entries == others
      ensures Mapped() ==> |table.entries| == |others| + (nmtx.nrRingPgs + nmtx.nrBufPgs + 2) + (nmrx.nrRingPgs + nmrx.nrBufPgs + 2)
    {
      hide Issued, Distinct, Runs, PageOf;
      for i := 0 to calls
        invariant Valid()
      {
        if * { Map(); } else { Unmap(); }
      }
      LiveCount(others, table.entries, nmtx.refs + nmrx.refs);
      RevokedAll(others, table.entries, nmtx.refs, nmrx.refs);
      NothingLive(table.entries);
    }
  }

  lemma NothingLive(e: map<nat, nat>)
    ensures Issued(e, e, [] + []) && Distinct([] + []) && e - Members([]) == e
  {
  }

  lemma NothingBefore(e0: map<nat, nat>, e1: map<nat, nat>, e: map<nat, nat>, refs: seq<nat>)
    requires Issued(e0, e1, []) && Issued(e1, e, refs)
    ensures Issued(e0, e, refs)
  {
  }
}
