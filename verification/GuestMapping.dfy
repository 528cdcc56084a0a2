/** The guest's half of the hand-over: collecting references out of the slots, sizing the block of pages
    and mapping one granted page per block page. */
module GuestMapping {
  import opened Pages
  import opened Sizes
  import opened GrantTransfer

  /** The references collected from the slots are the backend's list, in its order. */
  lemma CollectedStep(p: seq<nat>, pt: seq<nat>, refs: seq<nat>, i: nat)
    requires i < |p| == |pt| && Carried(p, pt, |p|, refs) && |refs| == |Runs(p)|
    requires forall k | 0 <= k < |refs| :: refs[k] != 0
    requires |Runs(p[..i])| <= |refs| && NonZero(pt[..i]) == refs[..|Runs(p[..i])|]
    ensures |Runs(p[..i + 1])| <= |refs| && NonZero(pt[..i + 1]) == refs[..|Runs(p[..i + 1])|]
  {
    hide Runs, NonZero;
    NonZeroGrows(pt, i);
    RunsSnoc(p, i);
    RunHasPage(p, i);
    var n := |Runs(p[..i])|;
    if RunStart(p, i) {
      assert pt[i] == refs[n] != 0;
      assert refs[..n + 1] == refs[..n] + [refs[n]];
    } else {
      assert pt[i] == 0;
    }
  }

  lemma {:induction false} CollectedPrefix(p: seq<nat>, pt: seq<nat>, refs: seq<nat>, i: nat)
    requires i <= |p| == |pt| && Carried(p, pt, |p|, refs) && |refs| == |Runs(p)|
    requires forall k | 0 <= k < |refs| :: refs[k] != 0
    ensures |Runs(p[..i])| <= |refs| && NonZero(pt[..i]) == refs[..|Runs(p[..i])|]
  {
    if i == 0 {
      assert p[..0] == [] && pt[..0] == [];
    } else {
      hide Carried;
      CollectedPrefix(p, pt, refs, i - 1);
      CollectedStep(p, pt, refs, i - 1);
    }
  }

  lemma CollectedAreRefs(p: seq<nat>, pt: seq<nat>, refs: seq<nat>)
    requires |p| == |pt| && Carried(p, pt, |p|, refs) && |refs| == |Runs(p)|
    requires forall k | 0 <= k < |refs| :: refs[k] != 0
    ensures NonZero(pt) == refs
  {
    CollectedPrefix(p, pt, refs, |p|);
    assert p[..|p|] == p && pt[..|pt|] == pt;
  }

  /** The guest reserves room for half as many references as there are slots. For contiguous buffers that
      is enough exactly when the number of slots is even. */
  lemma HalfTheSlotsSuffice(p: seq<nat>, start: nat)
    requires Contiguous(p, start)
    ensures |Runs(p)| <= |p| / 2 <==> |p| % 2 == 0
  {
    ContiguousRuns(p, start);
  }

  /** xenbus_read_bufs_grefs. */
  method ReadBufsGrefs(ptr: array<nat>) returns (grefs: array<nat>, n: nat)
    requires |NonZero(ptr[..])| <= ptr.Length / 2
    ensures fresh(grefs) && n <= grefs.Length && grefs[..n] == NonZero(ptr[..])
  {
    grefs := new nat[ptr.Length / 2];
    n := 0;
    assert ptr[..0] == [];
    for i := 0 to ptr.Length
      invariant n <= grefs.Length && grefs[..n] == NonZero(ptr[..i])
    {
      NonZeroGrows(ptr[..], i);
      if ptr[i] != 0 {
        grefs[n] := ptr[i];
        n := n + 1;
        assert grefs[..n] == NonZero(ptr[..i]) + [ptr[i]];
      }
    }
    assert ptr[..ptr.Length] == ptr[..];
  }

  lemma NonZeroGrows(s: seq<nat>, i: nat)
    requires i < |s|
    ensures NonZero(s[..i + 1]) == if s[i] != 0 then NonZero(s[..i]) + [s[i]] else NonZero(s[..i])
    ensures |NonZero(s[..i + 1])| <= |NonZero(s)|
  {
    assert s[..i + 1][..i] == s[..i];
    NonZeroMonotone(s, i + 1);
  }

  lemma {:induction false} NonZeroMonotone(s: seq<nat>, i: nat)
    requires i <= |s|
    ensures |NonZero(s[..i])| <= |NonZero(s)|
    decreases |s| - i
  {
    if i == |s| {
      assert s[..i] == s;
    } else {
      assert s[..i + 1][..i] == s[..i];
      NonZeroMonotone(s, i + 1);
    }
  }

  function Pow2(k: nat): (r: nat)
    ensures r >= 1
  {
    if k == 0 then 1 else 2 * Pow2(k - 1)
  }

  lemma {:induction false} Pow2Monotone(j: nat, k: nat)
    requires j <= k
    ensures Pow2(j) <= Pow2(k)
    decreases k
  {
    if j < k {
      Pow2Monotone(j, k - 1);
    }
  }

  lemma Pow2Of31()
    ensures Pow2(31) == 0x8000_0000
  {
    assert Pow2(8) == 256;
    assert Pow2(16) == 0x1_0000;
    assert Pow2(24) == 0x100_0000;
  }

  /** The kernel's ilog2: the position of the highest set bit. */
  function Ilog2(n: nat): (k: nat)
    requires n >= 1
    ensures Pow2(k) <= n < 2 * Pow2(k)
  {
    if n == 1 then 0 else 1 + Ilog2(n / 2)
  }

  /** pow2: repeated doubling of a 32-bit value. */
  method PowerOfTwo(order: nat) returns (val: nat)
    ensures val == Pow2(order) % 0x1_0000_0000
  {
    val := 1;
    if order == 0 {
      return;
    }
    var t := order;
    while t != 0
      invariant 0 <= t <= order && val == Pow2(order - t) % 0x1_0000_0000
      decreases t
    {
      DoubleWraps(Pow2(order - t));
      val := val * 2 % 0x1_0000_0000;
      t := t - 1;
    }
  }

  lemma DoubleWraps(x: nat)
    ensures x % 0x1_0000_0000 * 2 % 0x1_0000_0000 == 2 * x % 0x1_0000_0000
  {
    var q, r := x / 0x1_0000_0000, x % 0x1_0000_0000;
    if 2 * r < 0x1_0000_0000 {
      Remainder(2 * x, 2 * q, 2 * r);
      Remainder(2 * r, 0, 2 * r);
    } else {
      Remainder(2 * x, 2 * q + 1, 2 * r - 0x1_0000_0000);
      Remainder(2 * r, 1, 2 * r - 0x1_0000_0000);
    }
  }

  lemma Remainder(y: nat, q: nat, r: nat)
    requires y == q * 0x1_0000_0000 + r && r < 0x1_0000_0000
    ensures y % 0x1_0000_0000 == r
  {
  }

  lemma NoWrap(k: nat)
    requires k <= 31
    ensures Pow2(k) <= 0x8000_0000 && Pow2(k) % 0x1_0000_0000 == Pow2(k)
  {
    Pow2Of31();
    Pow2Monotone(k, 31);
    Remainder(Pow2(k), 0, Pow2(k));
  }

  /** What the search starts from: no smaller power is enough. */
  lemma LowEnough(n: nat)
    requires 1 <= n <= 0x8000_0000
    ensures Ilog2(n) <= 31
    ensures forall k: nat | k < Ilog2(n) :: Pow2(k) < n
  {
    Pow2Of31();
    var low := Ilog2(n);
    if low > 31 { Pow2Monotone(32, low); }
    forall k: nat | k < low
      ensures Pow2(k) < n
    {
      Pow2Monotone(k, low - 1);
      assert Pow2(low) == 2 * Pow2(low - 1);
    }
  }

  /** order: the least power of two of pages that holds n of them. */
  method Order(n: nat) returns (pgo: nat)
    requires 1 <= n <= 0x8000_0000
    ensures pgo <= 31 && n <= Pow2(pgo)
    ensures forall k: nat | k < pgo :: Pow2(k) < n
  {
    Pow2Of31();
    hide Pow2;
    pgo := Ilog2(n);
    LowEnough(n);
    var p := PowerOfTwo(pgo);
    NoWrap(pgo);
    while p < n
      invariant pgo <= 31 && p == Pow2(pgo)
      invariant forall k: nat | k < pgo :: Pow2(k) < n
      decreases 32 - pgo
    {
      assert pgo != 31;
      pgo := pgo + 1;
      p := PowerOfTwo(pgo);
      NoWrap(pgo);
    }
  }

  /** One element of the batch handed to the hypervisor. */
  datatype MapOp = MapOp(ref: nat, hostAddr: nat, okay: bool)

  class Guest {
    var pages: map<nat, nat>

    constructor ()
      ensures pages == map[]
    {
      pages := map[];
    }

    /** GNTTABOP_map_grant_ref: an operation succeeds if its reference is live, and then the guest page at
        its address is the granted page. */
    method MapGrantRefs(table: GrantTable, op: array<MapOp>, n: nat)
      requires n <= op.Length
      requires forall j, k | 0 <= j < k < n :: PageOf(op[j].hostAddr) != PageOf(op[k].hostAddr)
      modifies this, op
      ensures forall k | 0 <= k < n ::
                && op[k] == old(op[k]).(okay := old(op[k]).ref in table.entries)
                && (op[k].okay ==> PageOf(op[k].hostAddr) in pages && pages[PageOf(op[k].hostAddr)] == table.entries[op[k].ref])
      ensures forall g | g in old(pages) && (forall k | 0 <= k < n :: PageOf(op[k].hostAddr) != g) ::
                g in pages && pages[g] == old(pages[g])
    {
      for i := 0 to n
        invariant forall k | 0 <= k < i ::
                    && op[k] == old(op[k]).(okay := old(op[k]).ref in table.entries)
                    && (op[k].okay ==> PageOf(op[k].hostAddr) in pages && pages[PageOf(op[k].hostAddr)] == table.entries[op[k].ref])
        invariant forall k | i <= k < n :: op[k] == old(op[k])
        invariant forall g | g in old(pages) && (forall k | 0 <= k < i :: PageOf(op[k].hostAddr) != g) ::
                    g in pages && pages[g] == old(pages[g])
      {
        if op[i].ref in table.entries {
          pages := pages[PageOf(op[i].hostAddr) := table.entries[op[i].ref]];
        }
        op[i] := op[i].(okay := op[i].ref in table.entries);
      }
    }

    /** gnttab_map: map the references one per page into a block of order(nrGrefs) pages at base. For a
        ring the last reference is dropped; it belongs to the page past the ring's end. */
    method GnttabMap(table: GrantTable, grefs: array<nat>, nrGrefs: nat, ring: bool, base: nat)
      returns (pte: array<nat>, count: nat, errors: nat)
      requires 1 <= nrGrefs <= grefs.Length && nrGrefs <= 0x8000_0000 && base % PAGE_SIZE == 0
      modifies this
      ensures fresh(pte) && count == (if ring then nrGrefs - 1 else nrGrefs) <= pte.Length
      ensures errors == 0 <==> forall k | 0 <= k < count :: grefs[k] in table.entries
      ensures forall k | 0 <= k < count && grefs[k] in table.entries ::
                && pte[k] == base + PAGE_SIZE * k
                && PageOf(base) + k in pages && pages[PageOf(base) + k] == table.entries[grefs[k]]
      ensures forall g | g in old(pages) && !(PageOf(base) <= g < PageOf(base) + count) :: g in pages && pages[g] == old(pages[g])
    {
      hide PageOf;
      count := if ring then nrGrefs - 1 else nrGrefs;
      var pgo := Order(nrGrefs);
      var op := FillOps(grefs, nrGrefs, count, base, pgo);
      MapGrantRefs(table, op, count);
      assert forall k | 0 <= k < count :: op[k] == MapOp(grefs[k], base + PAGE_SIZE * k, grefs[k] in table.entries);
      forall k | 0 <= k < count && grefs[k] in table.entries
        ensures PageOf(base) + k in pages && pages[PageOf(base) + k] == table.entries[grefs[k]]
      {
        PageAt(base, k);
        assert op[k].okay;
      }
      forall g | g in old(pages) && !(PageOf(base) <= g < PageOf(base) + count)
        ensures g in pages && pages[g] == old(pages[g])
      {
        forall k | 0 <= k < count ensures PageOf(op[k].hostAddr) != g { PageAt(base, k); }
      }
      pte, errors := ReadStatuses(op, nrGrefs, count);
    }
  }

  /** The batch gnttab_map prepares: one host address per page of the block. */
  method FillOps(grefs: array<nat>, nrGrefs: nat, count: nat, base: nat, ghost pgo: nat) returns (op: array<MapOp>)
    requires count <= nrGrefs <= grefs.Length && nrGrefs <= Pow2(pgo) && base % PAGE_SIZE == 0
    ensures fresh(op) && op.Length == nrGrefs
    ensures forall k | 0 <= k < count ::
              && op[k] == MapOp(grefs[k], base + PAGE_SIZE * k, false)
              && PageOf(op[k].hostAddr) == PageOf(base) + k
              && base <= op[k].hostAddr && op[k].hostAddr + PAGE_SIZE <= base + PAGE_SIZE * Pow2(pgo)
  {
    hide PageOf, Pow2;
    op := new MapOp[nrGrefs](_ => MapOp(0, 0, false));
    for i := 0 to count
      invariant forall k | 0 <= k < i ::
                  && op[k] == MapOp(grefs[k], base + PAGE_SIZE * k, false)
                  && PageOf(op[k].hostAddr) == PageOf(base) + k
                  && base <= op[k].hostAddr && op[k].hostAddr + PAGE_SIZE <= base + PAGE_SIZE * Pow2(pgo)
    {
      PageAt(base, i);
      op[i] := MapOp(grefs[i], base + PAGE_SIZE * i, false);
    }
  }

  /** The status loop of gnttab_map: remember the addresses that were mapped, count the others. */
  method ReadStatuses(op: array<MapOp>, size: nat, count: nat) returns (pte: array<nat>, errors: nat)
    requires count <= size == op.Length
    ensures fresh(pte) && pte.Length == size
    ensures errors == 0 <==> forall k | 0 <= k < count :: op[k].okay
    ensures forall k | 0 <= k < count && op[k].okay :: pte[k] == op[k].hostAddr
  {
    pte := new nat[size];
    errors := 0;
    for i := 0 to count
      invariant errors == 0 <==> forall k | 0 <= k < i :: op[k].okay
      invariant forall k | 0 <= k < i && op[k].okay :: pte[k] == op[k].hostAddr
    {
      if op[i].okay {
        pte[i] := op[i].hostAddr;
      } else {
        errors := errors + 1;
      }
    }
  }

  lemma PageAt(base: nat, k: nat)
    requires base % PAGE_SIZE == 0
    ensures PageOf(base + PAGE_SIZE * k) == PageOf(base) + k
  {
  }
}
