/** The whole set-up of one interface: the backend grants both rings and writes the store, the guest reads
    store and slots and maps everything. */
module HandOver {
  import opened Pages
  import opened Sizes
  import opened GrantTransfer
  import opened GrantLifetime
  import opened GuestMapping
  import opened RingRefs

  /** Slot i's buffer is the i-th of consecutive buffers from a page boundary on; the slots are even in
      number, so their references fit into the guest's list. */
  ghost predicate Laid(kring: Kring, start: nat)
    reads kring, kring.bufIdx
  {
    && kring.Usable() && start % PAGE_SIZE == 0 && kring.bufIdx.Length % 2 == 0
    && forall i | 0 <= i < kring.bufIdx.Length :: kring.lut[kring.bufIdx[i]] == start + BUF_SIZE * i
  }

  lemma LaidIsContiguous(kring: Kring, start: nat)
    requires Laid(kring, start)
    ensures Contiguous(kring.BufPages(), start) && |kring.BufPages()| == kring.bufIdx.Length
  {
  }

  /** The backend sizes its buffer arrays by the length that slot 0 holds at that moment: BUFS_NR_PAGES + 1
      entries. They hold all buffer pages exactly when that length times the slots spans all pages but one,
      as the length of a full buffer does. The guest's list always has room. */
  lemma BufArraysSuffice(kring: Kring, start: nat, slot0Len: nat)
    requires Laid(kring, start)
    ensures |Runs(kring.BufPages())| <= slot0Len * kring.bufIdx.Length / PAGE_SIZE + 1
       <==> slot0Len * kring.bufIdx.Length >= BUF_SIZE * (kring.bufIdx.Length - 2)
    ensures slot0Len >= BUF_SIZE ==> |Runs(kring.BufPages())| <= slot0Len * kring.bufIdx.Length / PAGE_SIZE + 1
    ensures 1 <= |Runs(kring.BufPages())| == kring.bufIdx.Length / 2
  {
    LaidIsContiguous(kring, start);
    ContiguousRuns(kring.BufPages(), start);
    hide Runs, PageOf;
    Capacity(slot0Len, kring.bufIdx.Length);
  }

  lemma Capacity(len: nat, n: nat)
    requires n % 2 == 0 && n > 0
    ensures n / 2 <= len * n / PAGE_SIZE + 1 <==> len * n >= BUF_SIZE * (n - 2)
    ensures len >= BUF_SIZE ==> n / 2 <= len * n / PAGE_SIZE + 1
  {
    PagesIn(len * n, n / 2);
    if len >= BUF_SIZE {
      assert len * n == BUF_SIZE * n + (len - BUF_SIZE) * n;
    }
  }

  lemma PagesIn(bytes: nat, m: nat)
    requires m > 0
    ensures m <= bytes / PAGE_SIZE + 1 <==> bytes >= PAGE_SIZE * (m - 1)
  {
  }

  /** Byte o of slot i's buffer is what the guest finds at NETFRONT_BUF(bufBase, i) + o. */
  predicate FoundAt(pages: map<nat, nat>, bufBase: nat, start: nat, i: nat, o: nat)
  {
    var address := bufBase + BUF_SIZE * i + o;
    PageOf(address) in pages && Translate(pages, address) == start + BUF_SIZE * i + o
  }

  /** Byte x of the backend's ring is as far from the guest's ringBase as from the page the header is on. */
  predicate RingFoundAt(pages: map<nat, nat>, ringBase: nat, ring: nat, x: nat)
    requires ring - ring % PAGE_SIZE <= x
  {
    var address := ringBase + (x - (ring - ring % PAGE_SIZE));
    PageOf(address) in pages && Translate(pages, address) == x
  }

  /** From ringBase on the guest finds every byte of the ring, from the start of the header's page to the
      end of the last slot's, and from bufBase on every byte of every buffer. */
  ghost predicate Reaches(pages: map<nat, nat>, kring: Kring, start: nat, ringBase: nat, bufBase: nat)
    reads kring, kring.bufIdx
  {
    && (forall x | kring.ring - kring.ring % PAGE_SIZE <= x < kring.lastSlot - kring.lastSlot % PAGE_SIZE + PAGE_SIZE ::
          RingFoundAt(pages, ringBase, kring.ring, x))
    && forall i, o | 0 <= i < kring.bufIdx.Length && 0 <= o < BUF_SIZE :: FoundAt(pages, bufBase, start, i, o)
  }

  /** Two blocks of pages do not overlap. */
  predicate Apart(a: nat, an: nat, b: nat, bn: nat)
  {
    a + an <= b || b + bn <= a
  }

  /** Mappings outside a block of pages are unchanged. */
  ghost predicate Kept(before: map<nat, nat>, after: map<nat, nat>, base: nat, n: nat)
  {
    forall g | g in before && !(PageOf(base) <= g < PageOf(base) + n) :: g in after && after[g] == before[g]
  }

  lemma MappedKept(before: map<nat, nat>, after: map<nat, nat>, base: nat, n: nat, at: nat, targets: seq<nat>)
    requires MappedAt(before, at, targets) && Kept(before, after, base, n)
    requires Apart(PageOf(at), |targets|, PageOf(base), n)
    ensures MappedAt(after, at, targets)
  {
    forall k | 0 <= k < |targets|
      ensures MapsTo(after, PageOf(at), k, targets[k])
    {
      assert MapsTo(before, PageOf(at), k, targets[k]);
    }
  }

  lemma InBlock(base: nat, d: nat)
    requires base % PAGE_SIZE == 0
    ensures PageOf(base + d) == PageOf(base) + PageOf(d) && (base + d) % PAGE_SIZE == d % PAGE_SIZE
  {
  }

  lemma PageStart(address: nat)
    ensures address - address % PAGE_SIZE == PAGE_SIZE * PageOf(address)
  {
  }

  /** Byte d of the ring's pages is found where page d / PAGE_SIZE of the block shows it. */
  lemma RingFound(pages: map<nat, nat>, kring: Kring, ringBase: nat)
    requires kring.ring <= kring.lastSlot && MappedAt(pages, ringBase, kring.RingPages())
    ensures forall x | kring.ring - kring.ring % PAGE_SIZE <= x < kring.lastSlot - kring.lastSlot % PAGE_SIZE + PAGE_SIZE ::
              RingFoundAt(pages, ringBase, kring.ring, x)
  {
    PageStart(kring.ring);
    PageStart(kring.lastSlot);
    PageOfMonotone(kring.ring, kring.lastSlot);
    var first := PAGE_SIZE * PageOf(kring.ring);
    forall x | first <= x < kring.lastSlot - kring.lastSlot % PAGE_SIZE + PAGE_SIZE
      ensures RingFoundAt(pages, ringBase, kring.ring, x)
    {
      var d := x - first;
      InBlock(ringBase, d);
      InBlock(first, d);
      assert MapsTo(pages, PageOf(ringBase), PageOf(d), kring.RingPages()[PageOf(d)]);
      PageStart(x);
    }
  }

  lemma BuffersFound(pages: map<nat, nat>, kring: Kring, start: nat, bufBase: nat)
    requires Laid(kring, start) && MappedAt(pages, bufBase, Runs(kring.BufPages()))
    ensures forall i, o | 0 <= i < kring.bufIdx.Length && 0 <= o < BUF_SIZE :: FoundAt(pages, bufBase, start, i, o)
  {
    LaidIsContiguous(kring, start);
    forall i, o | 0 <= i < kring.bufIdx.Length && 0 <= o < BUF_SIZE
      ensures FoundAt(pages, bufBase, start, i, o)
    {
      ArithmeticFindsBuffers(kring.BufPages(), start, pages, bufBase, i, o);
    }
  }

  lemma RingReached(pages: map<nat, nat>, kring: Kring, start: nat, ringBase: nat, bufBase: nat)
    requires Laid(kring, start)
    requires MappedAt(pages, ringBase, kring.RingPages()) && MappedAt(pages, bufBase, Runs(kring.BufPages()))
    ensures Reaches(pages, kring, start, ringBase, bufBase)
  {
    RingFound(pages, kring, ringBase);
    BuffersFound(pages, kring, start, bufBase);
  }

  /** The guest maps one ring's pages from the store. */
  method MapRingPages(guest: Guest, table: GrantTable, store: Store, prefix: Prefix, base: nat, ghost refs: seq<nat>, ghost targets: seq<nat>)
    returns (mapped: nat)
    requires 0 < |targets| == |refs| - 1 && Grants(table.entries, refs[..|targets|], targets)
    requires HandedOver(store.kv, prefix, refs, |targets|) && base % PAGE_SIZE == 0 && |refs| <= 0x8000_0000
    modifies guest
    ensures mapped == base && MappedAt(guest.pages, base, targets)
    ensures Kept(old(guest.pages), guest.pages, base, |targets|)
  {
    hide PageOf, Distinct;
    var n, grefs := store.ReadRing(prefix);
    forall k | 0 <= k < |targets|
      ensures grefs[k] in table.entries && table.entries[grefs[k]] == targets[k]
    {
      assert ReadName(prefix, k) in store.kv && grefs[k] == refs[..|targets|][k];
    }
    var pte, count, errors := guest.GnttabMap(table, grefs, n, true, base);
    forall k | 0 <= k < |targets|
      ensures MapsTo(guest.pages, PageOf(base), k, targets[k])
    {
      assert grefs[k] in table.entries;
    }
    mapped := pte[0];
  }

  /** The guest maps one ring's buffers from the slots. */
  method MapBuffers(guest: Guest, table: GrantTable, kring: Kring, base: nat, ghost refs: seq<nat>, ghost start: nat)
    returns (mapped: nat)
    requires Laid(kring, start) && base % PAGE_SIZE == 0
    requires Grants(table.entries, refs, Runs(kring.BufPages())) && Carried(kring.BufPages(), kring.ptr[..], kring.ptr.Length, refs)
    modifies guest
    ensures mapped == base && MappedAt(guest.pages, base, Runs(kring.BufPages()))
    ensures Kept(old(guest.pages), guest.pages, base, |Runs(kring.BufPages())|)
  {
    hide PageOf, Runs, RunStart, Carried, Distinct;
    BufArraysSuffice(kring, start, BUF_SIZE);
    CollectedAreRefs(kring.BufPages(), kring.ptr[..], refs);
    var grefs, m := ReadBufsGrefs(kring.ptr);
    assert forall k | 0 <= k < m :: grefs[k] == refs[k];
    var pte, count, errors := guest.GnttabMap(table, grefs, m, false, base);
    forall k | 0 <= k < m
      ensures MapsTo(guest.pages, PageOf(base), k, Runs(kring.BufPages())[k])
    {
      assert grefs[k] in table.entries;
    }
    mapped := pte[0];
  }

  /** Blocks of pages the guest allocated for one ring, from page boundaries on. */
  datatype Blocks = Blocks(ringBase: nat, bufBase: nat)

  ghost predicate BlocksFit(b: Blocks, kring: Kring)
    requires kring.Usable()
    reads kring, kring.bufIdx
  {
    && b.ringBase % PAGE_SIZE == 0 && b.bufBase % PAGE_SIZE == 0
    && Apart(PageOf(b.ringBase), |kring.RingPages()|, PageOf(b.bufBase), |Runs(kring.BufPages())|)
  }

  ghost predicate BlocksApart(b: Blocks, kb: Kring, c: Blocks, kc: Kring)
    requires kb.Usable() && kc.Usable()
    reads kb, kb.bufIdx, kc, kc.bufIdx
  {
    && Apart(PageOf(b.ringBase), |kb.RingPages()|, PageOf(c.ringBase), |kc.RingPages()|)
    && Apart(PageOf(b.ringBase), |kb.RingPages()|, PageOf(c.bufBase), |Runs(kc.BufPages())|)
    && Apart(PageOf(b.bufBase), |Runs(kb.BufPages())|, PageOf(c.ringBase), |kc.RingPages()|)
    && Apart(PageOf(b.bufBase), |Runs(kb.BufPages())|, PageOf(c.bufBase), |Runs(kc.BufPages())|)
  }

  /** What a mapped interface promises the guest about one ring. */
  lemma Promised(g: NmGrantRing, kring: Kring, table: GrantTable)
    requires kring.Usable() && Described(g, kring, table.entries)
    ensures 0 < g.nrRingPgs == |kring.RingPages()| < g.ringRef.Length && g.nrBufPgs < g.bufRef.Length
    ensures var refs := g.ringRef[..g.nrRingPgs + 1];
            Distinct(refs) && Grants(table.entries, refs[..g.nrRingPgs], kring.RingPages())
    ensures Grants(table.entries, g.bufRef[..g.nrBufPgs + 1], Runs(kring.BufPages()))
    ensures Carried(kring.BufPages(), kring.ptr[..], kring.ptr.Length, g.bufRef[..g.nrBufPgs + 1])
  {
    hide PageOf, Runs, RunStart, Carried, Distinct, Grants;
    PageOfMonotone(kring.ring, kring.lastSlot);
    assert g.ringRef[..g.nrRingPgs + 1][..g.nrRingPgs] == g.ringRef[..g.nrRingPgs];
  }

  /** What the guest reads from the store about one ring. */
  ghost predicate InStore(store: Store, prefix: Prefix, g: NmGrantRing)
    reads store, g, g.ringRef
  {
    g.nrRingPgs < g.ringRef.Length && HandedOver(store.kv, prefix, g.ringRef[..g.nrRingPgs + 1], g.nrRingPgs)
  }

  /** The guest's half, in the order of setup_netfront_netmap: both rings, then both rings' buffers. */
  method MapAll(vif: Vif, store: Store, guest: Guest, tx: Blocks, rx: Blocks, ghost txStart: nat, ghost rxStart: nat)
    returns (txRing: nat, rxRing: nat, txBufs: nat, rxBufs: nat)
    requires Laid(vif.txRing, txStart) && Described(vif.nmtx, vif.txRing, vif.table.entries) && InStore(store, TX, vif.nmtx)
    requires Laid(vif.rxRing, rxStart) && Described(vif.nmrx, vif.rxRing, vif.table.entries) && InStore(store, RX, vif.nmrx)
    requires |vif.txRing.RingPages()| <= 99 && |vif.rxRing.RingPages()| <= 99
    requires BlocksFit(tx, vif.txRing) && BlocksFit(rx, vif.rxRing) && BlocksApart(tx, vif.txRing, rx, vif.rxRing)
    modifies guest
    ensures txRing == tx.ringBase && rxRing == rx.ringBase && txBufs == tx.bufBase && rxBufs == rx.bufBase
    ensures MappedAt(guest.pages, txRing, vif.txRing.RingPages()) && MappedAt(guest.pages, rxRing, vif.rxRing.RingPages())
    ensures MappedAt(guest.pages, txBufs, Runs(vif.txRing.BufPages())) && MappedAt(guest.pages, rxBufs, Runs(vif.rxRing.BufPages()))
  {
    hide PageOf, Runs, RunStart, Carried, Distinct, Grants, HandedOver, Kept, MappedAt, Described;
    Promised(vif.nmtx, vif.txRing, vif.table);
    Promised(vif.nmrx, vif.rxRing, vif.table);
    ghost var tr, rr, tb := vif.txRing.RingPages(), vif.rxRing.RingPages(), Runs(vif.txRing.BufPages());
    txRing := MapRingPages(guest, vif.table, store, TX, tx.ringBase, vif.nmtx.ringRef[..vif.nmtx.nrRingPgs + 1], tr);
    ghost var p1 := guest.pages;
    rxRing := MapRingPages(guest, vif.table, store, RX, rx.ringBase, vif.nmrx.ringRef[..vif.nmrx.nrRingPgs + 1], rr);
    ghost var p2 := guest.pages;
    MappedKept(p1, p2, rx.ringBase, |rr|, tx.ringBase, tr);
    txBufs := MapBuffers(guest, vif.table, vif.txRing, tx.bufBase, vif.nmtx.bufRef[..vif.nmtx.nrBufPgs + 1], txStart);
    ghost var p3 := guest.pages;
    MappedKept(p2, p3, tx.bufBase, |tb|, tx.ringBase, tr);
    MappedKept(p2, p3, tx.bufBase, |tb|, rx.ringBase, rr);
    rxBufs := MapBuffers(guest, vif.table, vif.rxRing, rx.bufBase, vif.nmrx.bufRef[..vif.nmrx.nrBufPgs + 1], rxStart);
    ghost var rb := |Runs(vif.rxRing.BufPages())|;
    MappedKept(p3, guest.pages, rx.bufBase, rb, tx.ringBase, tr);
    MappedKept(p3, guest.pages, rx.bufBase, rb, rx.ringBase, rr);
    MappedKept(p3, guest.pages, rx.bufBase, rb, tx.bufBase, tb);
  }

  /** Registration to connection: the backend grants and publishes, the guest maps. Afterwards it reaches,
      for both rings, every byte of the backend's ring pages and of every buffer, by arithmetic alone. */
  method SetUp(vif: Vif, store: Store, guest: Guest, tx: Blocks, rx: Blocks, ghost txStart: nat, ghost rxStart: nat)
    returns (txRing: nat, rxRing: nat, txBufs: nat, rxBufs: nat)
    requires vif.Valid() && !vif.Mapped() && Laid(vif.txRing, txStart) && Laid(vif.rxRing, rxStart)
    requires |vif.txRing.RingPages()| <= 99 && |vif.rxRing.RingPages()| <= 99
    requires BlocksFit(tx, vif.txRing) && BlocksFit(rx, vif.rxRing) && BlocksApart(tx, vif.txRing, rx, vif.rxRing)
    modifies vif.nmtx, vif.nmrx, vif.table, vif.txRing.ptr, vif.rxRing.ptr, store, guest
    ensures vif.Valid() && vif.Mapped()
    ensures txRing == tx.ringBase && rxRing == rx.ringBase && txBufs == tx.bufBase && rxBufs == rx.bufBase
    ensures Reaches(guest.pages, vif.txRing, txStart, txRing, txBufs)
    ensures Reaches(guest.pages, vif.rxRing, rxStart, rxRing, rxBufs)
  {
    hide PageOf, Runs, RunStart, Carried, Distinct, Grants, Issued, HandedOver, MappedAt, Reaches, RingWritten, Described;
    vif.Map();
    Promised(vif.nmtx, vif.txRing, vif.table);
    Promised(vif.nmrx, vif.rxRing, vif.table);
    store.WriteGrefs(vif.nmtx.ringRef, vif.nmtx.nrRingPgs, vif.nmrx.ringRef, vif.nmrx.nrRingPgs);
    BothRingsHandedOver(old(store.kv), vif.nmtx.ringRef[..vif.nmtx.nrRingPgs + 1], vif.nmrx.ringRef[..vif.nmrx.nrRingPgs + 1]);
    txRing, rxRing, txBufs, rxBufs := MapAll(vif, store, guest, tx, rx, txStart, rxStart);
    RingReached(guest.pages, vif.txRing, txStart, tx.ringBase, tx.bufBase);
    RingReached(guest.pages, vif.rxRing, rxStart, rx.ringBase, rx.bufBase);
  }
}
