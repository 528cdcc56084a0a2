/** The receive direction: the bridge appends packets to the backend's ring, the ring's memory is
    shared with the guest, and netfront_netmap_rxsync copies packets out of it into the guest's own
    ring. The sync function takes no lock, so the other parties may run between any two of its
    accesses to shared state; Interfere stands for any number of their steps. */
module ReceivePath {
  import opened Circular
  import opened RingSlots
  import opened Sizes

  /** Every packet the bridge appended, every packet put into the guest's ring, and the packet number
      that each cursor stands for. */
  datatype History = History(
    sent: seq<Packet>, delivered: seq<Packet>,
    acked: nat, latched: nat, returned: nat, consumed: nat, published: nat, released: nat)

  /** The cursors of both rings: the shared header, the backend's kring with the head it has read but
      not yet applied, and the guest's kring. */
  datatype Cursors = Cursors(
    head: nat, cur: nat, tail: nat, bcur: nat, btail: nat, seenHead: nat, hwcur: nat, hwtail: nat)

  /** The FIFO property and the order of the cursors: the guest's packets are the backend's, in order,
      from the first one on, and no cursor laps another. */
  ghost predicate Fifo(h: History, n: nat, m: nat)
  {
    && h.acked <= h.latched <= h.returned <= h.consumed <= |h.delivered| <= h.published <= |h.sent| < h.acked + n
    && h.released <= |h.delivered| < h.released + m
    && h.delivered == h.sent[..|h.delivered|]
  }

  /** The cursors are where the history says. */
  ghost predicate Located(h: History, n: nat, m: nat, c: Cursors)
  {
    && 0 < n && 0 < m
    && c.head == Idx(h.returned, n) && c.cur == Idx(h.consumed, n) && c.tail == Idx(h.published, n)
    && c.bcur == Idx(h.acked, n) && c.btail == Idx(|h.sent|, n) && c.seenHead == Idx(h.latched, n)
    && c.hwcur == Idx(h.released, m) && c.hwtail == Idx(|h.delivered|, m)
  }

  /** What the other parties may do to the history while the guest is inside its sync function. */
  ghost predicate Follows(h: History, h': History)
  {
    && h.sent <= h'.sent && h.published <= h'.published
    && h' == h.(sent := h'.sent, published := h'.published, acked := h'.acked, latched := h'.latched)
  }

  ghost predicate Sound(h: History, n: nat, m: nat, c: Cursors)
  {
    Fifo(h, n, m) && Located(h, n, m, c)
  }

  lemma CursorsFit(h: History, n: nat, m: nat, c: Cursors)
    requires Sound(h, n, m, c)
    ensures Located(h, n, m, c)
    ensures h.acked <= h.latched <= |h.sent| < h.acked + n && h.released <= |h.delivered| <= h.published <= |h.sent|
    ensures h.delivered == h.sent[..|h.delivered|]
    ensures Dist(c.bcur, c.btail, n) == |h.sent| - h.acked
    ensures Dist(c.cur, c.tail, n) == h.published - h.consumed < n
    ensures Dist(c.hwcur, c.hwtail, m) == |h.delivered| - h.released < m
  {
    IdxDist(h.acked, |h.sent|, n);
    IdxDist(h.consumed, h.published, n);
    IdxDist(h.released, |h.delivered|, m);
  }

  lemma BuffersFit(slots: seq<Slot>, lo: nat, hi: nat, log: seq<Packet>)
    requires RingHolds(slots, lo, hi, log)
    ensures 0 < |slots| && FullBuffers(slots) && hi <= |log|
  {
  }

  lemma Appended(h: History, n: nat, m: nat, c: Cursors, p: Packet)
    requires Sound(h, n, m, c) && |h.sent| + 1 < h.acked + n
    ensures c.btail < n && Sound(h.(sent := h.sent + [p]), n, m, c.(btail := Next(c.btail, n)))
  {
    IdxNext(|h.sent|, n);
  }

  lemma HeadRead(h: History, n: nat, m: nat, c: Cursors)
    requires Sound(h, n, m, c)
    ensures Sound(h.(latched := h.returned), n, m, c.(seenHead := c.head))
  {
  }

  lemma Synced(h: History, n: nat, m: nat, c: Cursors)
    requires Sound(h, n, m, c)
    ensures Sound(h.(acked := h.latched, published := |h.sent|), n, m, c.(bcur := c.seenHead, tail := c.btail))
  {
  }

  /** nr_hwtail moves over packets that were already published. */
  lemma Imported(h: History, n: nat, m: nat, c: Cursors, d: nat)
    requires Sound(h, n, m, c) && |h.delivered| <= d <= h.published && d < h.released + m
    ensures Sound(h.(delivered := h.sent[..d]), n, m, c.(hwtail := Idx(d, m)))
  {
  }

  lemma CaughtUp(h: History, n: nat, m: nat, c: Cursors)
    requires Sound(h, n, m, c)
    ensures Sound(h.(consumed := |h.delivered|), n, m, c.(cur := Idx(|h.delivered|, n)))
    ensures h.consumed == |h.delivered| ==> Sound(h.(returned := h.consumed), n, m, c.(head := c.cur))
  {
  }

  lemma Released(h: History, n: nat, m: nat, c: Cursors, r: nat)
    requires Sound(h, n, m, c) && h.released <= r <= |h.delivered|
    ensures Sound(h.(released := r), n, m, c.(hwcur := Idx(r, m)))
  {
  }

  lemma SlotsHeld(slots: seq<Slot>, lo: nat, hi: nat, log: seq<Packet>)
    requires RingHolds(slots, lo, hi, log)
    ensures 0 < |slots| && hi <= |log| && forall k | lo <= k < hi :: Holds(slots[Idx(k, |slots|)], log[k])
  {
  }

  /** A smaller window over a log that agrees on it. */
  lemma SubWindow(slots: seq<Slot>, lo: nat, hi: nat, log: seq<Packet>, lo': nat, hi': nat, log': seq<Packet>)
    requires RingHolds(slots, lo, hi, log) && lo <= lo' && hi' <= hi && hi' <= |log'| && log'[..hi'] == log[..hi']
    ensures RingHolds(slots, lo', hi', log')
  {
    forall k | lo' <= k < hi'
      ensures log'[k] == log[k]
    {
      assert log'[..hi'][k] == log[..hi'][k];
    }
  }

  class RxPath {
    const shared: array<Slot>     // slots and buffers of the ring both sides have mapped
    const local: array<Slot>      // slots and buffers of the guest's netmap ring

    // Header of the shared ring.
    var head: nat
    var cur: nat
    var tail: nat

    // The backend's kring for the same ring, and the head value it has read but not yet applied.
    var bcur: nat
    var btail: nat
    var seenHead: nat

    // Flags and kring of the guest; rtail is the tail its user sees.
    var hostNeedRxkick: bool
    var guestNeedRxkick: bool
    var pendintr: bool
    var hwcur: nat
    var hwtail: nat
    var rtail: nat

    ghost var h: History
    ghost var theirs: seq<Slot>   // shared[..]
    ghost var ours: seq<Slot>     // local[..]

    function At(): Cursors
      reads this
    {
      Cursors(head, cur, tail, bcur, btail, seenHead, hwcur, hwtail)
    }

    /** What every step of every party keeps; both rings still hold the packets their cursors enclose. */
    ghost predicate Inv()
      reads this, shared, local
    {
      && shared != local && 0 < shared.Length && 0 < local.Length
      && shared[..] == theirs && local[..] == ours
      && Sound(h, shared.Length, local.Length, At())
      && RingHolds(theirs, h.acked, |h.sent|, h.sent)
      && RingHolds(ours, h.released, |h.delivered|, h.delivered)
    }

    /** No import is half done: the shared ring's cursors have caught up with the guest's ring. */
    ghost predicate Quiet()
      reads this
    {
      h.returned == h.consumed == |h.delivered|
    }

    constructor (slots: nat, localSlots: nat)
      requires 0 < slots && 0 < localSlots
      ensures Inv() && Quiet() && h.sent == [] && shared.Length == slots && local.Length == localSlots
      ensures fresh(shared) && fresh(local)
      ensures !hostNeedRxkick && guestNeedRxkick && !pendintr && h.delivered == [] && rtail == 0
    {
      var zeroes := seq(BUF_SIZE, _ => 0);
      var a := new Slot[slots](_ => Slot(0, zeroes, Flags(false, false, 0)));
      var b := new Slot[localSlots](_ => Slot(0, zeroes, Flags(false, false, 0)));
      shared, local := a, b;
      theirs, ours := a[..], b[..];
      head, cur, tail, bcur, btail, seenHead := 0, 0, 0, 0, 0, 0;
      hwcur, hwtail, rtail := 0, 0, 0;
      hostNeedRxkick, guestNeedRxkick, pendintr := false, true, false;
      h := History([], [], 0, 0, 0, 0, 0, 0);
    }

    /** netfront_rx_interrupt, which runs whenever an event arrives. */
    method Interrupt(carrierOk: bool)
      requires Inv()
      modifies this`hostNeedRxkick, this`guestNeedRxkick, this`pendintr
      ensures Inv()
      ensures hostNeedRxkick == (carrierOk || old(hostNeedRxkick)) && pendintr == (carrierOk || old(pendintr))
      ensures guestNeedRxkick == (!carrierOk && old(guestNeedRxkick))
    {
      hide Sound, RingHolds;
      if carrierOk {
        hostNeedRxkick := true;
        guestNeedRxkick := false;
        pendintr := true;
      }
    }

    /** The bridge puts one packet into the backend's ring, unless only one slot is left. */
    method Append(p: Packet) returns (ok: bool)
      requires Inv() && |p| <= BUF_SIZE
      modifies this`btail, this`h, this`theirs, shared
      ensures Inv()
      ensures h == if ok then old(h).(sent := old(h.sent) + [p]) else old(h)
      ensures ok <==> |old(h.sent)| - old(h.acked) < shared.Length - 1
    {
      hide Idx, Sound, RingHolds;
      CursorsFit(h, shared.Length, local.Length, At());
      ok := Dist(bcur, btail, shared.Length) < shared.Length - 1;
      if ok {
        BuffersFit(theirs, h.acked, |h.sent|, h.sent);
        var s := Filled(shared[btail], p, |p|, shared[btail].flags);
        RingFills(theirs, h.acked, h.sent, p, s);
        Appended(h, shared.Length, local.Length, At(), p);
        shared[btail] := s;
        theirs := theirs[btail := s];
        btail := Next(btail, shared.Length);
        h := h.(sent := h.sent + [p]);
      }
    }

    /** First shared access of xenvif_netmap_rxsync: reading the head the guest has published. The
        cursor is in range, so the reinit branch behind it is never taken. */
    method BackendReadHead()
      requires Inv()
      modifies this`seenHead, this`h
      ensures Inv() && h == old(h).(latched := old(h.returned)) && seenHead < shared.Length
    {
      hide Idx, Sound, RingHolds;
      CursorsFit(h, shared.Length, local.Length, At());
      HeadRead(h, shared.Length, local.Length, At());
      seenHead := head;
      h := h.(latched := h.returned);
    }

    /** The rest of xenvif_netmap_rxsync: take the returned slots back and publish what was appended. */
    method BackendSync()
      requires Inv()
      modifies this`bcur, this`tail, this`h, this`theirs, shared
      ensures Inv() && h == old(h).(acked := old(h.latched), published := |old(h.sent)|)
      ensures Cleared(theirs, old(h.acked), h.acked) && OnlyCleared(old(theirs), theirs, old(h.acked), h.acked)
    {
      hide Idx, RingHolds, Sound, Cleared, OnlyCleared, ClearChanged;
      ClearedEmpty(theirs, h.acked);
      NoneCleared(theirs, h.acked);
      CursorsFit(h, shared.Length, local.Length, At());
      var nm_i := bcur;
      ghost var k := h.acked;
      while nm_i != seenHead
        invariant h == old(h) && At() == old(At())
        invariant shared[..] == theirs && RingHolds(theirs, h.acked, |h.sent|, h.sent)
        invariant h.acked <= k <= h.latched && nm_i == Idx(k, shared.Length)
        invariant Cleared(theirs, h.acked, k) && OnlyCleared(old(theirs), theirs, h.acked, k)
        decreases h.latched - k
      {
        RingCleared(theirs, h.acked, |h.sent|, h.sent, k);
        OneCleared(old(theirs), theirs, h.acked, k);
        IdxNext(k, shared.Length);
        shared[nm_i] := ClearChanged(shared[nm_i]);
        theirs := theirs[nm_i := ClearChanged(theirs[nm_i])];
        nm_i := Next(nm_i, shared.Length);
        k := k + 1;
      }
      if k < h.latched { IdxApart(k, h.latched, shared.Length); }
      Synced(h, shared.Length, local.Length, At());
      SubWindow(theirs, h.acked, |h.sent|, h.sent, h.latched, |h.sent|, h.sent);
      bcur := seenHead;
      tail := btail;
      h := h.(acked := h.latched, published := |h.sent|);
    }

    /** Any number of steps by the interrupt handler, the bridge and the backend, in any order; without irqs
        no interrupt falls. */
    method Interfere(irqs: bool)
      requires Inv()
      modifies this`hostNeedRxkick, this`guestNeedRxkick, this`pendintr
      modifies this`btail, this`seenHead, this`bcur, this`tail, this`h, this`theirs, shared
      ensures Inv() && Follows(old(h), h)
      ensures old(hostNeedRxkick) ==> hostNeedRxkick
      ensures !irqs ==> hostNeedRxkick == old(hostNeedRxkick) && pendintr == old(pendintr) && guestNeedRxkick == old(guestNeedRxkick)
    {
      hide Idx, Located, RingHolds;
      var steps: nat := *;
      while steps > 0
        invariant Inv() && Follows(old(h), h)
        invariant old(hostNeedRxkick) ==> hostNeedRxkick
        invariant !irqs ==> hostNeedRxkick == old(hostNeedRxkick) && pendintr == old(pendintr) && guestNeedRxkick == old(guestNeedRxkick)
        decreases steps
      {
        if {
          case true =>
            var carrierOk: bool := *;
            if irqs { Interrupt(carrierOk); }
          case true => BackendReadHead();
          case true => BackendSync();
          case true =>
            var p: Packet := *;
            if |p| <= BUF_SIZE {
              var _ := Append(p);
            }
        }
        steps := steps - 1;
      }
    }

    /** One pass of the import loop: stop, or copy the packet at the private cursor. Packet k is the next
        one, and j is what is left of the sampled space. */
    method ImportOne(nm_i: nat, myCur: nat, j: nat, slotFlags: Flags, irqs: bool, ghost k: nat) returns (go: bool)
      requires Inv() && |h.delivered| <= k && k + j <= h.published && k + 1 < h.released + local.Length
      requires RingHolds(ours, h.released, k, h.sent)
      requires nm_i == Idx(k, local.Length) && myCur == Idx(k, shared.Length)
      modifies this`hostNeedRxkick, this`guestNeedRxkick, this`pendintr
      modifies this`btail, this`seenHead, this`bcur, this`tail, this`h, this`theirs, shared
      modifies this`ours, local
      ensures Inv() && Follows(old(h), h)
      ensures RingHolds(ours, h.released, if go then k + 1 else k, h.sent)
      ensures ours == if go then old(ours)[nm_i := ours[nm_i]] else old(ours)
      ensures go ==> j > 0 && hostNeedRxkick && ours[nm_i].flags == slotFlags
      ensures old(hostNeedRxkick) ==> hostNeedRxkick && (j > 0 ==> go)
      ensures !irqs ==> hostNeedRxkick == old(hostNeedRxkick) && pendintr == old(pendintr) && guestNeedRxkick == old(guestNeedRxkick)
    {
      hide Idx, Located;
      Interfere(irqs);
      SubWindow(ours, h.released, k, old(h.sent), h.released, k, h.sent);
      go := hostNeedRxkick && j > 0;
      if go {
        var len := shared[myCur].len;
        ghost var before := h.sent;
        Interfere(irqs);
        SubWindow(ours, h.released, k, before, h.released, k, h.sent[..k]);
        assert Holds(theirs[Idx(k, |theirs|)], h.sent[k]);
        var s := Filled(local[nm_i], shared[myCur].buf, len, slotFlags);
        RingFills(ours, h.released, h.sent[..k], h.sent[k], s);
        local[nm_i] := s;
        ours := ours[nm_i := s];
        assert h.sent[..k] + [h.sent[k]] == h.sent[..k + 1];
        SubWindow(ours, h.released, k + 1, h.sent[..k + 1], h.released, k + 1, h.sent);
        SubWindow(ours, h.released, k + 1, h.sent, h.released, |h.delivered|, h.delivered);
      }
    }

    /** The import loop, from nr_hwtail and the shared cursor on, with j packets sampled as available.
        It stops at once or goes on until a ring is exhausted: the kick flag, once seen, cannot be
        cleared by anyone else. */
    method ImportLoop(stop_i: nat, curNow: nat, space: nat, slotFlags: Flags, irqs: bool)
      returns (nm_i: nat, myCur: nat, imported: nat)
      requires Inv() && h.released <= |h.delivered| < h.released + local.Length
      requires |h.delivered| + space <= h.published <= |h.sent| && RingHolds(ours, h.released, |h.delivered|, h.sent)
      requires stop_i == Idx(h.released + local.Length - 1, local.Length)
      requires hwtail == Idx(|h.delivered|, local.Length) && curNow == Idx(|h.delivered|, shared.Length)
      modifies this`hostNeedRxkick, this`guestNeedRxkick, this`pendintr
      modifies this`btail, this`seenHead, this`bcur, this`tail, this`h, this`theirs, shared
      modifies this`ours, local
      ensures Inv() && Follows(old(h), h)
      ensures var d := |h.delivered| + imported;
              && d < h.released + local.Length && imported <= space && d <= h.published && d <= |h.sent|
              && RingHolds(ours, h.released, d, h.sent)
              && nm_i == Idx(d, local.Length) && myCur == Idx(d, shared.Length)
      ensures var all := Min(h.released + local.Length - 1 - |h.delivered|, space);
              (imported == 0 || imported == all) && (old(hostNeedRxkick) ==> imported == all)
      ensures (old(hostNeedRxkick) || imported > 0) ==> hostNeedRxkick
      ensures !irqs ==> hostNeedRxkick == old(hostNeedRxkick) && pendintr == old(pendintr) && guestNeedRxkick == old(guestNeedRxkick)
      ensures Tagged(ours, |h.delivered|, |h.delivered| + imported, slotFlags)
    {
      hide Idx, Sound, RingHolds, Tagged;
      var m := local.Length;
      ghost var d0, r := |h.delivered|, h.released;
      var j := space;
      imported, nm_i, myCur := 0, hwtail, curNow;
      TaggedEmpty(ours, d0, slotFlags);
      IdxDist(d0, r + m - 1, m);
      var go := true;
      while go && nm_i != stop_i
        invariant Inv() && Follows(old(h), h)
        invariant d0 + imported < r + m && imported <= space && j == space - imported && d0 + space <= |h.sent|
        invariant nm_i == Idx(d0 + imported, m) && myCur == Idx(d0 + imported, shared.Length)
        invariant Dist(nm_i, stop_i, m) == r + m - 1 - (d0 + imported)
        invariant RingHolds(ours, r, d0 + imported, h.sent)
        invariant (old(hostNeedRxkick) || imported > 0) ==> hostNeedRxkick
        invariant !irqs ==> hostNeedRxkick == old(hostNeedRxkick) && pendintr == old(pendintr) && guestNeedRxkick == old(guestNeedRxkick)
        invariant !go ==> j == 0 || (imported == 0 && !old(hostNeedRxkick))
        invariant Tagged(ours, d0, d0 + imported, slotFlags)
        decreases go, j
      {
        ghost var k := d0 + imported;
        ghost var before := ours;
        go := ImportOne(nm_i, myCur, j, slotFlags, irqs, k);
        if go {
          TaggedGrows(before, d0, k, ours[nm_i]);
          IdxNext(k, shared.Length);
          IdxNext(k, m);
          myCur := Next(myCur, shared.Length);
          nm_i := Next(nm_i, m);
          imported := imported + 1;
          j := j - 1;
          IdxDist(k + 1, r + m - 1, m);
        }
      }
    }

    /** First part of netfront_netmap_rxsync up to the update of nr_hwtail. `space` is the
        nm_ring_space it sampled, myCur its private copy of the shared cursor. */
    method Import(slotFlags: Flags, irqs: bool) returns (imported: nat, space: nat, myCur: nat)
      requires Inv() && Quiet()
      modifies this`hostNeedRxkick, this`guestNeedRxkick, this`pendintr
      modifies this`btail, this`seenHead, this`bcur, this`tail, this`h, this`theirs, shared
      modifies this`hwtail, this`ours, local
      ensures Inv() && Follows(old(h), h.(delivered := old(h.delivered)))
      ensures |h.delivered| == |old(h.delivered)| + imported && myCur == Idx(|h.delivered|, shared.Length)
      ensures old(h.published) <= |old(h.delivered)| + space <= h.published && space < shared.Length
      ensures var all := Min(h.released + local.Length - 1 - |old(h.delivered)|, space);
              (imported == 0 || imported == all) && (old(hostNeedRxkick) ==> imported == all)
      ensures (old(hostNeedRxkick) || imported > 0) ==> hostNeedRxkick
      ensures !irqs ==> hostNeedRxkick == old(hostNeedRxkick) && pendintr == old(pendintr) && guestNeedRxkick == old(guestNeedRxkick)
      ensures Tagged(ours, |old(h.delivered)|, |h.delivered|, slotFlags)
    {
      hide Idx, RingHolds, Sound, Tagged;
      var m := local.Length;
      ghost var d0, r := |h.delivered|, h.released;
      CursorsFit(h, shared.Length, m, At());
      var stop_i := Prev(hwcur, m);
      IdxPrev(r, m);
      Interfere(irqs);
      CursorsFit(h, shared.Length, m, At());
      space := Dist(cur, tail, shared.Length);
      SubWindow(ours, r, d0, h.delivered, r, d0, h.sent);
      var nm_i;
      nm_i, myCur, imported := ImportLoop(stop_i, cur, space, slotFlags, irqs);
      ghost var d := d0 + imported;
      SubWindow(ours, r, d, h.sent, r, d, h.sent[..d]);
      Imported(h, shared.Length, m, At(), d);
      if imported > 0 {
        hwtail := nm_i;
        h := h.(delivered := h.sent[..d]);
      }
    }

    /** The two shared cursors follow, one after the other. */
    method CatchUp(myCur: nat, irqs: bool)
      requires Inv() && h.returned == h.consumed && myCur == Idx(|h.delivered|, shared.Length)
      modifies this`hostNeedRxkick, this`guestNeedRxkick, this`pendintr, this`cur, this`head
      modifies this`btail, this`seenHead, this`bcur, this`tail, this`h, this`theirs, shared
      ensures Inv() && Quiet() && cur == head == myCur
      ensures Follows(old(h), h.(consumed := old(h.consumed), returned := old(h.returned)))
      ensures old(hostNeedRxkick) ==> hostNeedRxkick
      ensures !irqs ==> hostNeedRxkick == old(hostNeedRxkick) && pendintr == old(pendintr) && guestNeedRxkick == old(guestNeedRxkick)
    {
      hide Idx, Sound, RingHolds;
      CursorsFit(h, shared.Length, local.Length, At());
      CaughtUp(h, shared.Length, local.Length, At());
      cur := myCur;
      h := h.(consumed := |h.delivered|);
      Interfere(irqs);
      CaughtUp(h, shared.Length, local.Length, At());
      head := myCur;
      h := h.(returned := h.consumed);
      CursorsFit(h, shared.Length, local.Length, At());
    }

    /** The kick block: hand the imported slots back, clear the flag, notify the backend. An interrupt
        that sets the flag just before it is cleared is lost, but the notify still follows. */
    method Kick(imported: nat, myCur: nat, irqs: bool) returns (kicked: bool)
      requires Inv() && h.returned == h.consumed && h.consumed + imported == |h.delivered|
      requires myCur == Idx(|h.delivered|, shared.Length)
      requires imported > 0 ==> hostNeedRxkick
      modifies this`hostNeedRxkick, this`guestNeedRxkick, this`pendintr, this`cur, this`head
      modifies this`btail, this`seenHead, this`bcur, this`tail, this`h, this`theirs, shared
      ensures Inv() && Quiet() && cur == head == myCur
      ensures Follows(old(h), h.(consumed := old(h.consumed), returned := old(h.returned)))
      ensures (old(hostNeedRxkick) || imported > 0) ==> kicked
      ensures !irqs ==> kicked == old(hostNeedRxkick) && !hostNeedRxkick && pendintr == old(pendintr) && guestNeedRxkick == old(guestNeedRxkick)
    {
      hide Idx, Sound, RingHolds;
      CursorsFit(h, shared.Length, local.Length, At());
      Interfere(irqs);
      kicked := hostNeedRxkick;
      if kicked {
        if imported > 0 { CatchUp(myCur, irqs); }
        Interfere(irqs);
        hostNeedRxkick := false;
        Interfere(irqs);
      }
      CursorsFit(h, shared.Length, local.Length, At());
    }

    /** Second part of netfront_netmap_rxsync: take back the slots the user has released. */
    method ReleaseTo(userHead: nat)
      requires Inv() && userHead < local.Length && hwcur < local.Length && hwtail < local.Length
      requires Dist(hwcur, userHead, local.Length) <= Dist(hwcur, hwtail, local.Length)
      modifies this`hwcur, this`h, this`ours, local
      ensures Inv() && hwcur == userHead
      ensures h == old(h).(released := old(h.released) + Dist(old(hwcur), userHead, local.Length))
      ensures Cleared(ours, old(h.released), h.released) && OnlyCleared(old(ours), ours, old(h.released), h.released)
    {
      hide Idx, Sound, RingHolds, Cleared, OnlyCleared, ClearChanged;
      var m := local.Length;
      CursorsFit(h, shared.Length, m, At());
      ghost var r := h.released;
      ghost var target := r + Dist(hwcur, userHead, m);
      IdxAdvance(r, userHead, m);
      ClearedEmpty(ours, r);
      NoneCleared(ours, r);
      var nm_i := hwcur;
      ghost var k := r;
      while nm_i != userHead
        invariant h == old(h) && At() == old(At())
        invariant local[..] == ours && RingHolds(ours, r, |h.delivered|, h.delivered)
        invariant r <= k <= target && nm_i == Idx(k, m) && Cleared(ours, r, k) && OnlyCleared(old(ours), ours, r, k)
        decreases target - k
      {
        RingCleared(ours, r, |h.delivered|, h.delivered, k);
        OneCleared(old(ours), ours, r, k);
        IdxNext(k, m);
        local[nm_i] := ClearChanged(local[nm_i]);
        ours := ours[nm_i := ClearChanged(ours[nm_i])];
        nm_i := Next(nm_i, m);
        k := k + 1;
      }
      if k < target { IdxApart(k, target, m); }
      Released(h, shared.Length, m, At(), target);
      SubWindow(ours, r, |h.delivered|, h.delivered, target, |h.delivered|, h.delivered);
      hwcur := userHead;
      h := h.(released := target);
    }

    /** nm_rxsync_prologue accepts a head between hwcur and hwtail. */
    predicate PrologueOk(userHead: nat)
      reads this, local
      requires hwcur < local.Length && hwtail < local.Length
    {
      userHead < local.Length
      && Dist(hwcur, userHead, local.Length) <= Dist(hwcur, hwtail, local.Length)
    }

    /** The whole first part: import, then kick. */
    method Poll(slotFlags: Flags, irqs: bool) returns (imported: nat, space: nat, kicked: bool)
      requires Inv() && Quiet()
      modifies this`hostNeedRxkick, this`guestNeedRxkick, this`pendintr, this`cur, this`head
      modifies this`btail, this`seenHead, this`bcur, this`tail, this`h, this`theirs, shared
      modifies this`hwtail, this`ours, local
      ensures Inv() && Quiet()
      ensures old(h.sent) <= h.sent && h.released == old(h.released)
      ensures |h.delivered| == |old(h.delivered)| + imported
      ensures old(h.published) <= |old(h.delivered)| + space && space < shared.Length
      ensures var all := Min(h.released + local.Length - 1 - |old(h.delivered)|, space);
              (imported == 0 || imported == all) && (old(hostNeedRxkick) ==> imported == all && kicked)
      ensures imported > 0 ==> kicked
      ensures !irqs ==> kicked == old(hostNeedRxkick) && !hostNeedRxkick && !pendintr && (!kicked ==> imported == 0) && guestNeedRxkick == old(guestNeedRxkick)
      ensures Tagged(ours, |old(h.delivered)|, |h.delivered|, slotFlags)
    {
      hide Idx, Sound, RingHolds, Tagged;
      var myCur;
      imported, space, myCur := Import(slotFlags, irqs);
      kicked := Kick(imported, myCur, irqs);
      pendintr := false;
      Interfere(irqs);
    }

    /** netfront_netmap_rxsync. `space` is the nm_ring_space it sampled, `kicked` whether it notified
        the backend. Whatever runs in between, the guest's ring and the shared ring advance by the same
        amount, and that amount is either nothing or everything that fits. */
    method Rxsync(userHead: nat, noPendintr: bool, force: bool, slotFlags: Flags, irqs: bool)
      returns (reinit: bool, imported: nat, space: nat, kicked: bool)
      requires Inv() && Quiet()
      modifies this, shared, local
      ensures Inv() && Quiet()
      ensures Located(h, shared.Length, local.Length, At())
      ensures reinit <==> !(userHead < local.Length &&
                            Dist(old(hwcur), userHead, local.Length) <= |old(h.delivered)| - old(h.released))
      ensures reinit ==> h == old(h)
      ensures old(h.sent) <= h.sent && |h.delivered| == |old(h.delivered)| + imported
      ensures !reinit ==> h.released == old(h.released) + Dist(old(hwcur), userHead, local.Length)
      ensures !reinit ==> hwcur == userHead && rtail == hwtail && Cleared(ours, old(h.released), h.released)
      ensures imported > 0 ==> kicked
      ensures !irqs ==>
                if !reinit && (noPendintr || force || old(pendintr)) then
                  kicked == old(hostNeedRxkick) && !hostNeedRxkick && !pendintr && (!kicked ==> imported == 0) && guestNeedRxkick == old(guestNeedRxkick)
                else
                  hostNeedRxkick == old(hostNeedRxkick) && pendintr == old(pendintr) && guestNeedRxkick == old(guestNeedRxkick)
      ensures var polled := !reinit && (noPendintr || force || old(pendintr));
              var all := Min(local.Length - 1 - (|old(h.delivered)| - old(h.released)), space);
              if polled then
                && old(h.published) - |old(h.delivered)| <= space < shared.Length
                && (imported == 0 || imported == all)
                && (old(hostNeedRxkick) ==> imported == all && kicked)
              else
                imported == 0 && !kicked
    {
      hide Idx, Sound, RingHolds, Cleared, Tagged;
      imported, space, kicked := 0, 0, false;
      CursorsFit(h, shared.Length, local.Length, At());
      var forceUpdate := force || pendintr;
      reinit := !PrologueOk(userHead);
      if reinit {
        return;
      }
      if noPendintr || forceUpdate {
        imported, space, kicked := Poll(slotFlags, irqs);
        CursorsFit(h, shared.Length, local.Length, At());
      }
      ReleaseTo(userHead);
      CursorsFit(h, shared.Length, local.Length, At());
      rtail := hwtail;
    }

    /** A call that polls leaves the flag and the pending mark clear unless an interrupt falls, so until the
        next interrupt no call imports or kicks, whatever the bridge appends meanwhile. */
    method IdleUntilInterrupt(firstHead: nat, secondHead: nat, slotFlags: Flags) returns (imported: nat, kicked: bool)
      requires Inv() && Quiet()
      requires firstHead < local.Length && hwcur < local.Length && hwtail < local.Length && PrologueOk(firstHead)
      modifies this, shared, local
      ensures Inv() && Quiet() && imported == 0 && !kicked && !hostNeedRxkick && !pendintr
    {
      hide Idx, Sound, RingHolds, Cleared, Tagged;
      CursorsFit(h, shared.Length, local.Length, At());
      var _, _, _, _ := Rxsync(firstHead, true, false, slotFlags, false);
      Interfere(false);
      var reinit, space;
      reinit, imported, space, kicked := Rxsync(secondHead, true, false, slotFlags, false);
    }

    /** The receive path run for any number of calls, with any arguments, any interference inside and
        between them. The guest has received, and its user still finds in the ring, exactly the packets
        the bridge appended: in order, unaltered, none lost, none twice. */
    method Run(calls: nat)
      requires Inv() && Quiet()
      modifies this, shared, local
      ensures Inv() && Quiet()
      ensures old(h.sent) <= h.sent && old(h.delivered) <= h.delivered && h.delivered <= h.sent
      ensures forall k | h.released <= k < |h.delivered| ::
                var s := local[Idx(k, local.Length)];
                Holds(s, h.sent[k]) && s.len == |h.sent[k]| <= |s.buf| && s.buf[..s.len] == h.sent[k]
    {
      hide Idx, Sound, RingHolds;
      CursorsFit(h, shared.Length, local.Length, At());
      for i := 0 to calls
        invariant Inv() && Quiet()
        invariant old(h.sent) <= h.sent && |old(h.delivered)| <= |h.delivered|
      {
        Interfere(true);
        var userHead: nat, noPendintr: bool, force: bool, others: nat := *, *, *, *;
        var _, _, _, _ := Rxsync(userHead, noPendintr, force, Flags(false, false, others), true);
      }
      CursorsFit(h, shared.Length, local.Length, At());
      SlotsHeld(ours, h.released, |h.delivered|, h.delivered);
    }
  }

  /** Between two quiet states the guest's tail and the shared cursor have moved by the same amount. */
  lemma CursorsMoveTogether(h: History, c: Cursors, h': History, c': Cursors, n: nat, m: nat)
    requires Sound(h, n, m, c) && Sound(h', n, m, c')
    requires h.consumed == |h.delivered| && h'.consumed == |h'.delivered|
    requires |h.delivered| <= |h'.delivered| < |h.delivered| + n && |h'.delivered| < |h.delivered| + m
    ensures Dist(c.cur, c'.cur, n) == Dist(c.hwtail, c'.hwtail, m) == |h'.delivered| - |h.delivered|
  {
    IdxDist(h.consumed, h'.consumed, n);
    IdxDist(|h.delivered|, |h'.delivered|, m);
  }
}
