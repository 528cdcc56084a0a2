/** Pages, runs of equal pages in a sequence of slots, and what a guest's page mapping makes of an
    address. */
module Pages {
  import opened Sizes

  /** virt_to_page. */
  function PageOf(address: nat): nat
  {
    address / PAGE_SIZE
  }

  /** The pages of the buffers in slots: slot i names buffer bufIdx[i], which lies at lut[bufIdx[i]]. */
  function SlotPages(bufIdx: seq<nat>, lut: seq<nat>): (p: seq<nat>)
    requires forall i | 0 <= i < |bufIdx| :: bufIdx[i] < |lut|
    ensures |p| == |bufIdx| && forall i | 0 <= i < |bufIdx| :: p[i] == PageOf(lut[bufIdx[i]])
  {
    seq(|bufIdx|, i requires 0 <= i < |bufIdx| => PageOf(lut[bufIdx[i]]))
  }

  /** Slot i begins a run of slots on the same page. */
  predicate RunStart(p: seq<nat>, i: nat)
    requires i < |p|
  {
    i == 0 || p[i] != p[i - 1]
  }

  /** The page sequence with adjacent repeats removed. */
  function Runs(p: seq<nat>): seq<nat>
  {
    if p == [] then []
    else if RunStart(p, |p| - 1) then Runs(p[..|p| - 1]) + [p[|p| - 1]]
    else Runs(p[..|p| - 1])
  }

  /** The run that slot i belongs to. */
  function RunOf(p: seq<nat>, i: nat): int
    requires i < |p|
  {
    |Runs(p[..i + 1])| - 1
  }

  lemma {:induction false} RunsLast(p: seq<nat>)
    requires p != []
    ensures 0 < |Runs(p)| <= |p| && Runs(p)[|Runs(p)| - 1] == p[|p| - 1]
  {
    var q := p[..|p| - 1];
    if q != [] {
      RunsLast(q);
    }
  }

  lemma RunsEmpty()
    ensures Runs([]) == []
  {
  }

  /** One slot more adds its page exactly when it begins a run. */
  lemma RunsSnoc(p: seq<nat>, i: nat)
    requires i < |p|
    ensures Runs(p[..i + 1]) == if RunStart(p, i) then Runs(p[..i]) + [p[i]] else Runs(p[..i])
  {
    var q := p[..i + 1];
    assert q[..i] == p[..i];
    assert RunStart(q, i) <==> RunStart(p, i);
  }

  lemma {:induction false} RunsPrefix(p: seq<nat>, i: nat)
    requires i <= |p|
    ensures Runs(p[..i]) <= Runs(p)
    decreases |p| - i
  {
    if i == |p| {
      assert p[..i] == p;
    } else {
      RunsSnoc(p, i);
      RunsPrefix(p, i + 1);
    }
  }

  /** The entry of the slot's run is the slot's page. */
  lemma RunHasPage(p: seq<nat>, i: nat)
    requires i < |p|
    ensures 0 <= RunOf(p, i) < |Runs(p)| && Runs(p)[RunOf(p, i)] == p[i]
    ensures RunStart(p, i) ==> RunOf(p, i) == |Runs(p[..i])|
  {
    RunsLast(p[..i + 1]);
    RunsPrefix(p, i + 1);
    RunsSnoc(p, i);
  }

  /** Neighbouring entries differ: no repeat is left. */
  lemma {:induction false} RunsHaveNoRepeats(p: seq<nat>, k: nat)
    requires k + 1 < |Runs(p)|
    ensures Runs(p)[k] != Runs(p)[k + 1]
    decreases |p|
  {
    var q := p[..|p| - 1];
    if k + 1 < |Runs(q)| {
      RunsHaveNoRepeats(q, k);
    } else {
      RunsLast(q);
    }
  }

  /** The non-zero entries of a sequence, in order. */
  function NonZero(s: seq<nat>): seq<nat>
  {
    if s == [] then []
    else if s[|s| - 1] != 0 then NonZero(s[..|s| - 1]) + [s[|s| - 1]]
    else NonZero(s[..|s| - 1])
  }

  /** Buffers of BUF_SIZE bytes laid out one after the other from a page boundary on. */
  ghost predicate Contiguous(p: seq<nat>, start: nat)
  {
    start % PAGE_SIZE == 0 && forall i | 0 <= i < |p| :: p[i] == PageOf(start + BUF_SIZE * i)
  }

  lemma TwoPerPage(start: nat, i: nat, o: nat)
    requires start % PAGE_SIZE == 0 && o < BUF_SIZE
    ensures PageOf(start + BUF_SIZE * i + o) == PageOf(start) + i / 2
    ensures (start + BUF_SIZE * i + o) % PAGE_SIZE == BUF_SIZE * (i % 2) + o
  {
    var q := start / PAGE_SIZE;
    assert start + BUF_SIZE * i + o == PAGE_SIZE * (q + i / 2) + (BUF_SIZE * (i % 2) + o);
  }

  lemma {:induction false} ContiguousRuns(p: seq<nat>, start: nat)
    requires Contiguous(p, start)
    ensures |Runs(p)| == (|p| + 1) / 2
    ensures forall k | 0 <= k < |Runs(p)| :: Runs(p)[k] == PageOf(start) + k
    decreases |p|
  {
    if p != [] {
      hide PageOf, Runs;
      var i := |p| - 1;
      ContiguousRuns(p[..i], start);
      ContiguousStart(p, start, i);
      assert p[..i + 1] == p;
      RunsSnoc(p, i);
    } else {
      RunsEmpty();
    }
  }

  /** Of contiguous slots every other one begins a run. */
  lemma ContiguousStart(p: seq<nat>, start: nat, i: nat)
    requires Contiguous(p, start) && i < |p|
    ensures p[i] == PageOf(start) + i / 2 && (RunStart(p, i) <==> i % 2 == 0)
  {
    TwoPerPage(start, i, 0);
    assert p[i] == PageOf(start) + i / 2;
    hide PageOf;
    if i > 0 {
      TwoPerPage(start, i - 1, 0);
      assert p[i - 1] == PageOf(start) + (i - 1) / 2;
    }
  }

  /** Where a guest address ends up: the machine page its page maps to, same offset. */
  function Translate(pages: map<nat, nat>, address: nat): nat
    requires PageOf(address) in pages
  {
    pages[PageOf(address)] * PAGE_SIZE + address % PAGE_SIZE
  }

  predicate MapsTo(pages: map<nat, nat>, first: nat, k: nat, target: nat)
  {
    first + k in pages && pages[first + k] == target
  }

  /** The guest has mapped the given pages one after the other from a page boundary on. */
  ghost predicate MappedAt(pages: map<nat, nat>, base: nat, targets: seq<nat>)
  {
    && base % PAGE_SIZE == 0
    && forall k | 0 <= k < |targets| :: MapsTo(pages, PageOf(base), k, targets[k])
  }

  /** If the compressed pages of contiguous buffers are mapped in order, plain arithmetic from the base
      finds every byte of every slot's buffer. */
  lemma ArithmeticFindsBuffers(p: seq<nat>, start: nat, pages: map<nat, nat>, base: nat, i: nat, o: nat)
    requires Contiguous(p, start) && MappedAt(pages, base, Runs(p)) && i < |p| && o < BUF_SIZE
    ensures PageOf(base + BUF_SIZE * i + o) in pages
    ensures Translate(pages, base + BUF_SIZE * i + o) == start + BUF_SIZE * i + o
  {
    ContiguousRuns(p, start);
    TwoPerPage(base, i, o);
    TwoPerPage(start, i, o);
    var k, x, y := i / 2, base + BUF_SIZE * i + o, start + BUF_SIZE * i + o;
    assert Runs(p)[k] == PageOf(y);
    assert MapsTo(pages, PageOf(base), k, Runs(p)[k]);
    assert y == PageOf(y) * PAGE_SIZE + y % PAGE_SIZE;
  }
}
