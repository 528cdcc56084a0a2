/** The hand-over of ring and buffer pages: the backend compresses the slots' buffer pages, grants them
    and leaves the references in the slots; the guest collects the references and maps them into one
    block, where it finds every buffer by plain arithmetic. */
module GrantTransfer {
  import opened Pages
  import opened Sizes

  /** After nm_buf_pages: the slots that begin a run are marked, the others cleared. Slot 0 stays
      unmarked if the page array happened to hold its page already. */
  ghost predicate Marked(p: seq<nat>, ptr: seq<nat>, n: nat, stale: bool)
    requires n <= |p| && n <= |ptr|
  {
    forall i | 0 <= i < n :: ptr[i] == if RunStart(p, i) && !(i == 0 && stale) then 1 else 0
  }

  /** The first slot of each run among the first n carries the run's reference, the others 0. */
  ghost predicate Carried(p: seq<nat>, ptr: seq<nat>, n: nat, refs: seq<nat>)
    requires n <= |p| && n <= |ptr|
  {
    forall i | 0 <= i < n ::
      if RunStart(p, i) then 0 <= RunOf(p, i) < |refs| && ptr[i] == refs[RunOf(p, i)] else ptr[i] == 0
  }

  ghost predicate Distinct(s: seq<nat>)
  {
    forall j, k | 0 <= j < k < |s| :: s[j] != s[k]
  }

  /** References refs grant exactly the pages targets, one each. */
  ghost predicate Grants(entries: map<nat, nat>, refs: seq<nat>, targets: seq<nat>)
  {
    && |refs| == |targets| && Distinct(refs)
    && forall k | 0 <= k < |refs| :: refs[k] != 0 && refs[k] in entries && entries[refs[k]] == targets[k]
  }

  /** From e0 to e exactly the references refs were added. */
  ghost predicate Issued(e0: map<nat, nat>, e: map<nat, nat>, refs: seq<nat>)
  {
    && (forall r | r in e0 :: r in e && e[r] == e0[r])
    && (forall r | r in e :: r in e0 || r in refs)
    && (forall r | r in refs :: r in e && r !in e0)
  }

  lemma IssueOne(e0: map<nat, nat>, e: map<nat, nat>, refs: seq<nat>, targets: seq<nat>, ref: nat, page: nat)
    requires Issued(e0, e, refs) && Grants(e, refs, targets) && ref != 0 && ref !in e
    ensures Issued(e0, e[ref := page], refs + [ref]) && Grants(e[ref := page], refs + [ref], targets + [page])
  {
  }

  /** The backend's grant table, seen from one guest: reference to page. */
  class GrantTable {
    var entries: map<nat, nat>

    constructor ()
      ensures entries == map[]
    {
      entries := map[];
    }

    /** gnttab_grant_foreign_access: any reference that is not 0 and not in use. */
    method Grant(page: nat) returns (ref: nat)
      modifies this
      ensures ref != 0 && ref !in old(entries) && entries == old(entries)[ref := page]
    {
      ref := *;
      if ref == 0 {
        ref := 1;
      }
      while ref in entries
        invariant ref != 0
        decreases set k | k in entries && k >= ref
      {
        ghost var before := set k | k in entries && k >= ref;
        ref := ref + 1;
        ghost var after := set k | k in entries && k >= ref;
        assert after <= before && ref - 1 in before && ref - 1 !in after;
      }
      entries := entries[ref := page];
    }

    /** gnttab_end_foreign_access: a reference may only be ended while it is live. */
    method End(ref: nat)
      requires ref in entries
      modifies this
      ensures entries == old(entries) - {ref}
    {
      entries := entries - {ref};
    }
  }

  /** nm_buf_pages has handled the first i slots: pt and pg are the slots' marks and the page array, b the
      index of the last page written, pg0 the page array as it was found. */
  ghost predicate Scanned(p: seq<nat>, pt: seq<nat>, pg: seq<nat>, b: nat, i: nat, pg0: seq<nat>)
  {
    && i <= |p| == |pt| && 0 < |pg| == |pg0|
    && (i == 0 ==> b == 0 && pg == pg0)
    && (i > 0 ==> b < |pg| && b + 1 == |Runs(p[..i])| && pg[..b + 1] == Runs(p[..i]) && pg[b + 1..] == pg0[b + 1..])
    && Marked(p, pt, i, p != [] && pg0[0] == p[0])
  }

  lemma ScanStep(p: seq<nat>, pt: seq<nat>, pg: seq<nat>, b: nat, i: nat, pg0: seq<nat>)
    requires Scanned(p, pt, pg, b, i, pg0) && i < |p| && |Runs(p)| <= |pg|
    ensures b < |pg|
    ensures var isNew := pg[b] != p[i];
            var b' := if isNew && i > 0 then b + 1 else b;
            b' < |pg| && Scanned(p, pt[i := if isNew then 1 else 0], if isNew then pg[b' := p[i]] else pg, b', i + 1, pg0)
  {
    hide Runs;
    RunsEmpty();
    RunsSnoc(p, i);
    RunsPrefix(p, i + 1);
    if i > 0 {
      RunsLast(p[..i]);
      assert pg[..b + 1][b] == pg[b];
    } else {
      assert p[..0] == [] && Runs(p[..1]) == [] + [p[0]] == [p[0]];
      var pg' := if pg[b] != p[i] then pg[0 := p[0]] else pg;
      assert pg'[..1] == [p[0]] && pg'[1..] == pg0[1..];
    }
  }

  /** nm_buf_pages: collect the distinct pages of consecutive slots and mark the slots that begin a run;
      returns the index of the last page. */
  method NmBufPages(bufIdx: array<nat>, lut: seq<nat>, ptr: array<nat>, pages: array<nat>) returns (last: nat)
    requires bufIdx.Length == ptr.Length <= 0x10000
    requires forall i | 0 <= i < bufIdx.Length :: bufIdx[i] < |lut|
    requires |Runs(SlotPages(bufIdx[..], lut))| <= pages.Length && 0 < pages.Length
    requires ptr != pages && bufIdx != ptr && bufIdx != pages
    modifies ptr, pages
    ensures var p := SlotPages(old(bufIdx[..]), lut);
            Scanned(p, ptr[..], pages[..], last, |p|, old(pages[..]))
  {
    hide Scanned, Runs, PageOf;
    ghost var p, pt, pg, pg0 := SlotPages(bufIdx[..], lut), ptr[..], pages[..], pages[..];
    ScanStart(p, pt, pg);
    var i, b := 0, 0;
    while i < bufIdx.Length
      invariant 0 <= i <= bufIdx.Length && ptr[..] == pt && pages[..] == pg && bufIdx[..] == old(bufIdx[..])
      invariant Scanned(p, pt, pg, b, i, pg0)
    {
      ScanStep(p, pt, pg, b, i, pg0);
      var page := PageOf(lut[bufIdx[i]]);
      ghost var pt0 := pt;
      ptr[i] := 0;
      pt := pt[i := 0];
      if pages[b] != page {
        if i > 0 {
          b := b + 1;
        }
        pages[b] := page;
        ptr[i] := 1;
        pg, pt := pg[b := page], pt0[i := 1];
      }
      i := i + 1;
    }
    last := b;
  }

  lemma ScanStart(p: seq<nat>, pt: seq<nat>, pg: seq<nat>)
    requires |p| == |pt| && 0 < |pg|
    ensures Scanned(p, pt, pg, 0, 0, pg)
  {
  }

  /** The page array holds the runs, and the marks are exactly the run starts unless the array, which is
      compared before it is written, happened to hold the first page. */
  lemma MarksExactlyRunStarts(p: seq<nat>, pt: seq<nat>, pg: seq<nat>, last: nat, pg0: seq<nat>)
    requires Scanned(p, pt, pg, last, |p|, pg0) && p != []
    ensures last + 1 == |Runs(p)| <= |pg| && pg[..last + 1] == Runs(p)
    ensures (forall i | 0 <= i < |p| :: pt[i] == if RunStart(p, i) then 1 else 0) <==> pg0[0] != p[0]
  {
    assert p[..|p|] == p;
    if pg0[0] == p[0] {
      assert pt[0] == 0 && RunStart(p, 0);
    }
  }

  /** xenvif_grant_ring has handled the first i slots. */
  ghost predicate Granting(p: seq<nat>, pt: seq<nat>, refs: seq<nat>, e0: map<nat, nat>, e: map<nat, nat>, i: nat)
  {
    && i <= |p| == |pt| && Carried(p, pt, i, refs)
    && (forall k | i <= k < |p| :: pt[k] == if RunStart(p, k) then 1 else 0)
    && Issued(e0, e, refs) && Grants(e, refs, Runs(p[..i]))
  }

  lemma GrantingStarts(p: seq<nat>, pt: seq<nat>, e: map<nat, nat>)
    requires |p| == |pt| && forall k | 0 <= k < |p| :: pt[k] == if RunStart(p, k) then 1 else 0
    ensures Granting(p, pt, [], e, e, 0)
  {
    assert p[..0] == [];
  }

  lemma MarkedIsNext(p: seq<nat>, pt: seq<nat>, refs: seq<nat>, e0: map<nat, nat>, e: map<nat, nat>, i: nat)
    requires Granting(p, pt, refs, e0, e, i) && i < |p|
    ensures |refs| == |Runs(p[..i])| <= |Runs(p)|
    ensures pt[i] == (if RunStart(p, i) then 1 else 0)
    ensures pt[i] == 1 ==> |refs| < |Runs(p)| && Runs(p)[|refs|] == p[i] && Runs(p[..i + 1]) == Runs(p[..i]) + [p[i]]
    ensures pt[i] != 1 ==> Runs(p[..i + 1]) == Runs(p[..i])
  {
    hide Carried, Issued;
    RunsSnoc(p, i);
    RunsPrefix(p, i);
    RunHasPage(p, i);
  }

  lemma Unmarked(p: seq<nat>, pt: seq<nat>, refs: seq<nat>, e0: map<nat, nat>, e: map<nat, nat>, i: nat)
    requires Granting(p, pt, refs, e0, e, i) && i < |p| && pt[i] != 1
    ensures Granting(p, pt, refs, e0, e, i + 1)
  {
    hide Issued;
    MarkedIsNext(p, pt, refs, e0, e, i);
  }

  lemma GrantStep(p: seq<nat>, pt: seq<nat>, refs: seq<nat>, e0: map<nat, nat>, e: map<nat, nat>, i: nat, ref: nat)
    requires Granting(p, pt, refs, e0, e, i) && i < |p| && pt[i] == 1 && ref != 0 && ref !in e
    ensures Granting(p, pt[i := ref], refs + [ref], e0, e[ref := p[i]], i + 1)
  {
    hide Issued, Grants;
    MarkedIsNext(p, pt, refs, e0, e, i);
    IssueOne(e0, e, refs, Runs(p[..i]), ref, p[i]);
    forall k | 0 <= k < i && RunStart(p, k) ensures RunOf(p, k) < |refs| { }
  }

  /** The buffer loop of xenvif_grant_ring: grant the page of every marked slot and leave the reference in
      the slot. Page number 0 stands for the null page pointer. */
  method GrantBuffers(table: GrantTable, ptr: array<nat>, bufPg: array<nat>, bufRef: array<nat>, ghost p: seq<nat>)
    returns (granted: nat)
    requires Granting(p, ptr[..], [], table.entries, table.entries, 0)
    requires |Runs(p)| <= bufPg.Length == bufRef.Length && bufPg[..|Runs(p)|] == Runs(p)
    requires forall i | 0 <= i < |p| :: p[i] != 0
    requires ptr.Length == |p| && ptr != bufPg && ptr != bufRef && bufPg != bufRef
    modifies table, ptr, bufRef
    ensures granted <= bufRef.Length && Granting(p, ptr[..], bufRef[..granted], old(table.entries), table.entries, |p|)
  {
    hide Granting, Runs;
    var i, j := 0, 0;
    ghost var pt, refs := ptr[..], [];
    while i < ptr.Length
      invariant 0 <= i <= ptr.Length == |p| && ptr[..] == pt && j <= bufRef.Length && bufRef[..j] == refs
      invariant Granting(p, pt, refs, old(table.entries), table.entries, i)
    {
      MarkedIsNext(p, pt, refs, old(table.entries), table.entries, i);
      assert ptr[i] == 1 ==> bufPg[..|Runs(p)|][j] == p[i];
      if ptr[i] == 1 && bufPg[j] != 0 {
        ghost var before := table.entries;
        bufRef[j] := table.Grant(bufPg[j]);
        GrantStep(p, pt, refs, old(table.entries), before, i, bufRef[j]);
        ptr[i] := bufRef[j];
        pt, refs := pt[i := bufRef[j]], refs + [bufRef[j]];
        j := j + 1;
        assert bufRef[..j] == refs;
      } else {
        Unmarked(p, pt, refs, old(table.entries), table.entries, i);
      }
      i := i + 1;
    }
    granted := j;
  }

  /** The ring loop of xenvif_grant_ring: it grants one page more than nr_ring_pgs counts. */
  method GrantRingPages(table: GrantTable, ringPg: array<nat>, ringRef: array<nat>, count: nat)
    requires count < ringPg.Length == ringRef.Length && ringPg != ringRef
    modifies table, ringRef
    ensures Issued(old(table.entries), table.entries, ringRef[..count + 1])
    ensures Grants(table.entries, ringRef[..count + 1], ringPg[..count + 1])
  {
    hide Issued, Grants;
    ghost var refs: seq<nat> := [];
    NothingIssued(table.entries);
    assert ringPg[..0] == [];
    for i := 0 to count + 1
      invariant ringRef[..i] == refs && Issued(old(table.entries), table.entries, refs)
      invariant Grants(table.entries, refs, ringPg[..i])
    {
      ghost var before := table.entries;
      ringRef[i] := table.Grant(ringPg[i]);
      IssueOne(old(table.entries), before, refs, ringPg[..i], ringRef[i], ringPg[i]);
      refs := refs + [ringRef[i]];
      assert ringRef[..i + 1] == refs && ringPg[..i + 1] == ringPg[..i] + [ringPg[i]];
    }
  }

  lemma NothingIssued(e: map<nat, nat>)
    ensures Issued(e, e, []) && Grants(e, [], [])
  {
  }

  /** nm_ring_pages: every page from the ring header to the last slot, in order; returns their number. */
  method NmRingPages(ring: nat, lastSlot: nat, pages: array<nat>) returns (count: nat)
    requires ring <= lastSlot && PageOf(lastSlot) - PageOf(ring) < pages.Length
    requires PageOf(lastSlot) - PageOf(ring) < 0xffff
    modifies pages
    ensures count == PageOf(lastSlot) - PageOf(ring) + 1
    ensures pages[..count] == PagesFrom(PageOf(ring), count)
    ensures pages[count..] == old(pages[count..])
  {
    hide PageOf;
    assert PageOf(ring) <= PageOf(lastSlot) by { PageOfMonotone(ring, lastSlot); }
    var page, k := PageOf(ring), 0;
    while page <= PageOf(lastSlot)
      invariant page == PageOf(ring) + k <= PageOf(lastSlot) + 1
      invariant pages[..k] == PagesFrom(PageOf(ring), k) && pages[k..] == old(pages[..])[k..]
    {
      pages[k] := page;
      page := page + 1;
      k := k + 1;
      assert pages[..k] == PagesFrom(PageOf(ring), k);
    }
    count := PageOf(lastSlot) - PageOf(ring) + 1;
    assert pages[k..] == old(pages[k..]);
  }

  lemma NextPage(x: nat, size: nat)
    requires 0 < size <= PAGE_SIZE
    ensures (x + size) / PAGE_SIZE > x / PAGE_SIZE <==> (x + size) % PAGE_SIZE < size
  {
  }

  /** The backend's ring arrays hold RING_NR_PAGES + 1 entries, and its loops use one more than there are
      pages from the header to the last slot. That fits exactly when the ring's size spans more pages than
      lie between its start and its last slot; for a page-aligned ring, when the last slot reaches a page's end. */
  lemma RingArraysSuffice(ring: nat, header: nat, slotSize: nat, n: nat)
    requires 0 < slotSize <= PAGE_SIZE && 1 <= n
    ensures var lastSlot := ring + header + slotSize * (n - 1);
            var size := header + slotSize * n;
            && (PageOf(lastSlot) - PageOf(ring) + 1 < size / PAGE_SIZE + 1
                <==> (ring % PAGE_SIZE + size - slotSize) / PAGE_SIZE < size / PAGE_SIZE)
            && (ring % PAGE_SIZE == 0 ==>
                  (PageOf(lastSlot) - PageOf(ring) + 1 < size / PAGE_SIZE + 1 <==> size % PAGE_SIZE < slotSize))
  {
    var x := header + slotSize * (n - 1);
    assert header + slotSize * n == x + slotSize;
    NextPage(x, slotSize);
    PageBehind(ring, x);
  }

  lemma PageBehind(ring: nat, x: nat)
    ensures PageOf(ring + x) == PageOf(ring) + (ring % PAGE_SIZE + x) / PAGE_SIZE
  {
    assert ring + x == PAGE_SIZE * (ring / PAGE_SIZE) + (ring % PAGE_SIZE + x);
  }

  /** With the default of 1024 slots of 16 bytes each it does not fit, unless the header ends within 16
      bytes of a page boundary. */
  lemma DefaultRingOverflows(ring: nat, header: nat)
    requires ring % PAGE_SIZE == 0
    ensures var lastSlot := ring + header + 16 * 1023;
            var capacity := (header + 16 * 1024) / PAGE_SIZE + 1;
            PageOf(lastSlot) - PageOf(ring) + 1 >= capacity <==> header % PAGE_SIZE >= 16
  {
    RingArraysSuffice(ring, header, 16, 1024);
  }

  lemma PageOfMonotone(a: nat, b: nat)
    requires a <= b
    ensures PageOf(a) <= PageOf(b)
  {
  }

  function PagesFrom(first: nat, count: nat): (s: seq<nat>)
    ensures |s| == count && forall k | 0 <= k < count :: s[k] == first + k
  {
    seq(count, k requires 0 <= k < count => first + k)
  }
}
