/** What netfront_netmap_xmit leaves in the shared ring between two kicks. Each call writes the packet's
    length into the next slot, but its bytes into the buffer of the slot that was published last. */
module Staging {
  import opened Circular
  import opened RingSlots
  import opened Sizes

  ghost predicate Fitting(ps: seq<Packet>)
  {
    forall j | 0 <= j < |ps| :: |ps[j]| <= BUF_SIZE
  }

  /** One xmit: the length goes into the slot at txcur, the bytes into the buffer at the published cursor. */
  function Stored(slots: seq<Slot>, txcur: nat, cur: nat, p: Packet): (s: seq<Slot>)
    requires txcur < |slots| && cur < |slots| && |p| <= |slots[cur].buf|
  {
    var withBytes := slots[cur := slots[cur].(buf := Memcpy(slots[cur].buf, p, |p|))];
    withBytes[txcur := withBytes[txcur].(len := |p|)]
  }

  /** The ring after the packets ps were stored since packet number k was published. */
  ghost function Staged(base: seq<Slot>, k: nat, ps: seq<Packet>): (s: seq<Slot>)
    requires 0 < |base| && FullBuffers(base) && Fitting(ps)
    ensures |s| == |base| && FullBuffers(s)
    decreases |ps|
  {
    if ps == [] then base
    else
      var m := |ps| - 1;
      Stored(Staged(base, k, ps[..m]), Idx(k + m, |base|), Idx(k, |base|), ps[m])
  }

  lemma StagedMore(base: seq<Slot>, k: nat, ps: seq<Packet>, p: Packet)
    requires 0 < |base| && FullBuffers(base) && Fitting(ps) && |p| <= BUF_SIZE
    ensures Fitting(ps + [p])
    ensures Staged(base, k, ps + [p]) == Stored(Staged(base, k, ps), Idx(k + |ps|, |base|), Idx(k, |base|), p)
    ensures Staged(base, k, []) == base
  {
    hide Stored, FullBuffers;
    assert (ps + [p])[..|ps|] == ps;
  }

  /** A buffer that several packets were copied over, one after the other. */
  ghost function Overlay(buf: seq<Byte>, ps: seq<Packet>): (b: seq<Byte>)
    requires |buf| == BUF_SIZE && Fitting(ps)
    ensures |b| == BUF_SIZE
    decreases |ps|
  {
    if ps == [] then buf else Memcpy(Overlay(buf, ps[..|ps| - 1]), ps[|ps| - 1], |ps[|ps| - 1]|)
  }

  /** The last of the packets that is long enough to reach byte o, or -1. */
  ghost function LastWriter(ps: seq<Packet>, o: nat): (j: int)
    ensures -1 <= j < |ps| && (j >= 0 ==> o < |ps[j]|)
    ensures forall i | j < i < |ps| :: |ps[i]| <= o
  {
    if ps == [] then -1
    else if o < |ps[|ps| - 1]| then |ps| - 1
    else LastWriter(ps[..|ps| - 1], o)
  }

  lemma {:induction false} OverlayByte(buf: seq<Byte>, ps: seq<Packet>, o: nat)
    requires |buf| == BUF_SIZE && Fitting(ps) && o < BUF_SIZE
    ensures var j := LastWriter(ps, o); Overlay(buf, ps)[o] == if j < 0 then buf[o] else ps[j][o]
    decreases |ps|
  {
    if ps != [] {
      OverlayByte(buf, ps[..|ps| - 1], o);
    }
  }

  /** The packet has, at each byte, what the last packet long enough to reach it has there. */
  ghost predicate FirstCoincides(ps: seq<Packet>, p: Packet)
  {
    forall o | 0 <= o < |p| :: LastWriter(ps, o) >= 0 && ps[LastWriter(ps, o)][o] == p[o]
  }

  lemma OverlayHolds(buf: seq<Byte>, ps: seq<Packet>, p: Packet)
    requires |buf| == BUF_SIZE && Fitting(ps) && p in ps
    ensures |p| <= BUF_SIZE && (Overlay(buf, ps)[..|p|] == p <==> FirstCoincides(ps, p))
  {
    var v := Overlay(buf, ps);
    forall o | 0 <= o < |p| ensures LastWriter(ps, o) >= 0 && v[o] == ps[LastWriter(ps, o)][o] {
      OverlayByte(buf, ps, o);
    }
    hide Overlay, LastWriter;
    if FirstCoincides(ps, p) {
      assert v[..|p|] == p;
    } else {
      var o :| 0 <= o < |p| && ps[LastWriter(ps, o)][o] != p[o];
      assert v[..|p|][o] != p[o];
    }
  }

  lemma Apart(k: nat, i: nat, j: nat, n: nat)
    requires i < n && j < n
    ensures Idx(k + i, n) == Idx(k + j, n) <==> i == j
    ensures Idx(k + i, n) == Idx(k, n) <==> i == 0
  {
    hide Idx;
    if i < j { IdxApart(k + i, k + j, n); }
    if j < i { IdxApart(k + j, k + i, n); }
    if 0 < i { IdxApart(k, k + i, n); }
  }

  lemma StoredAt(slots: seq<Slot>, txcur: nat, cur: nat, p: Packet, i: nat)
    requires txcur < |slots| && cur < |slots| && |p| <= |slots[cur].buf| && i < |slots|
    ensures var s := Stored(slots, txcur, cur, p)[i];
            && s.len == (if i == txcur then |p| else slots[i].len)
            && s.buf == (if i == cur then Memcpy(slots[i].buf, p, |p|) else slots[i].buf)
            && s.flags == slots[i].flags
  {
  }

  /** What the j-th slot after the published one, first b, becomes: it gets the j-th packet's length, and if
      it is the first slot all the packets' bytes. */
  ghost predicate SlotAfter(s: Slot, b: Slot, ps: seq<Packet>, j: nat)
    requires |b.buf| == BUF_SIZE && Fitting(ps)
  {
    && s.len == (if j < |ps| then |ps[j]| else b.len)
    && s.buf == (if j == 0 then Overlay(b.buf, ps) else b.buf)
    && s.flags == b.flags
  }

  lemma SlotStep(r: Slot, b: Slot, ps: seq<Packet>, j: nat, s: Slot)
    requires |b.buf| == BUF_SIZE && Fitting(ps) && ps != [] && SlotAfter(r, b, ps[..|ps| - 1], j)
    requires s.len == (if j == |ps| - 1 then |ps[j]| else r.len) && s.flags == r.flags
    requires |r.buf| == BUF_SIZE && s.buf == (if j == 0 then Memcpy(r.buf, ps[|ps| - 1], |ps[|ps| - 1]|) else r.buf)
    ensures SlotAfter(s, b, ps, j)
  {
  }

  lemma {:induction false} StagedSlot(base: seq<Slot>, k: nat, ps: seq<Packet>, j: nat)
    requires 0 < |base| && FullBuffers(base) && Fitting(ps) && |ps| <= |base| && j < |base|
    ensures var i := Idx(k + j, |base|); SlotAfter(Staged(base, k, ps)[i], base[i], ps, j)
    decreases |ps|
  {
    if ps != [] {
      var m, i := |ps| - 1, Idx(k + j, |base|);
      hide Stored, Idx, Memcpy, SlotAfter;
      var r := Staged(base, k, ps[..m]);
      StagedSlot(base, k, ps[..m], j);
      StoredAt(r, Idx(k + m, |base|), Idx(k, |base|), ps[m], i);
      Apart(k, j, m, |base|);
      SlotStep(r[i], base[i], ps, j, Staged(base, k, ps)[i]);
    }
  }

  /** Slots of packets published less than a lap ago are not touched. */
  lemma {:induction false} StagedElsewhere(base: seq<Slot>, k: nat, ps: seq<Packet>, x: nat)
    requires 0 < |base| && FullBuffers(base) && Fitting(ps) && x < k && k + |ps| <= x + |base|
    ensures Staged(base, k, ps)[Idx(x, |base|)] == base[Idx(x, |base|)]
    decreases |ps|
  {
    if ps != [] {
      var m := |ps| - 1;
      StagedElsewhere(base, k, ps[..m], x);
      IdxApart(x, k, |base|);
      IdxApart(x, k + m, |base|);
    }
  }

  /** The slots from packet number k on hold these packets. */
  ghost predicate Delivered(slots: seq<Slot>, k: nat, ps: seq<Packet>)
    requires 0 < |slots|
  {
    forall j | 0 <= j < |ps| :: HeldAt(slots, k, ps[j], j)
  }

  predicate HeldAt(slots: seq<Slot>, k: nat, p: Packet, j: nat)
    requires 0 < |slots|
  {
    Holds(slots[Idx(k + j, |slots|)], p)
  }

  /** The first packet has what the last writers left, and the others are what their buffers held before. */
  ghost predicate Coincide(base: seq<Slot>, k: nat, ps: seq<Packet>)
    requires 0 < |base| && FullBuffers(base) && Fitting(ps) && ps != []
  {
    && FirstCoincides(ps, ps[0])
    && AllHeldBefore(base, k, ps)
  }

  ghost predicate HeldBefore(base: seq<Slot>, k: nat, p: Packet, j: nat)
    requires 0 < |base| && FullBuffers(base) && |p| <= BUF_SIZE
  {
    base[Idx(k + j, |base|)].buf[..|p|] == p
  }

  ghost predicate AllHeldBefore(base: seq<Slot>, k: nat, v: seq<Packet>)
    requires 0 < |base| && FullBuffers(base)
  {
    forall j | 1 <= j < |v| :: |v[j]| <= BUF_SIZE && HeldBefore(base, k, v[j], j)
  }

  lemma DeliveredParts(slots: seq<Slot>, base: seq<Slot>, k: nat, v: seq<Packet>)
    requires 0 < |slots| && 0 < |base| && FullBuffers(base) && v != []
    requires forall j | 1 <= j < |v| :: |v[j]| <= BUF_SIZE && (HeldAt(slots, k, v[j], j) <==> HeldBefore(base, k, v[j], j))
    ensures Delivered(slots, k, v) <==> Holds(slots[Idx(k, |slots|)], v[0]) && AllHeldBefore(base, k, v)
  {
    FirstAt(slots, k, v[0]);
    hide HeldAt, HeldBefore, Idx, FullBuffers;
  }

  lemma FirstHeld(base: seq<Slot>, k: nat, ps: seq<Packet>)
    requires 0 < |base| && FullBuffers(base) && Fitting(ps) && 0 < |ps| <= |base|
    ensures Holds(Staged(base, k, ps)[Idx(k, |base|)], ps[0]) <==> FirstCoincides(ps, ps[0])
  {
    assert k + 0 == k;
    StagedSlot(base, k, ps, 0);
    hide Staged;
    OverlayHolds(base[Idx(k, |base|)].buf, ps, ps[0]);
  }

  lemma LaterHeld(base: seq<Slot>, k: nat, ps: seq<Packet>, j: nat)
    requires 0 < |base| && FullBuffers(base) && Fitting(ps) && 0 < j < |ps| <= |base|
    ensures HeldAt(Staged(base, k, ps), k, ps[j], j) <==> HeldBefore(base, k, ps[j], j)
  {
    StagedSlot(base, k, ps, j);
  }

  /** A batch of at most a lap arrives whole exactly if it is a single packet, or the bytes coincide with
      what the wrong buffer index makes of them. */
  lemma BatchArrivesExactly(base: seq<Slot>, k: nat, ps: seq<Packet>)
    requires 0 < |base| && FullBuffers(base) && Fitting(ps) && |ps| <= |base|
    ensures Delivered(Staged(base, k, ps), k, ps) <==> |ps| <= 1 || Coincide(base, k, ps)
  {
    hide Staged, HeldBefore, HeldAt, Idx, LastWriter, FirstCoincides, Delivered, AllHeldBefore;
    if ps != [] {
      var s := Staged(base, k, ps);
      FirstHeld(base, k, ps);
      forall j | 1 <= j < |ps| ensures HeldAt(s, k, ps[j], j) <==> HeldBefore(base, k, ps[j], j) {
        LaterHeld(base, k, ps, j);
      }
      DeliveredParts(s, base, k, ps);
      if |ps| == 1 { AloneCoincides(ps); NoneLater(base, k, ps); }
    } else {
      NoneDelivered(Staged(base, k, ps), k);
    }
  }

  lemma NoneLater(base: seq<Slot>, k: nat, v: seq<Packet>)
    requires 0 < |base| && FullBuffers(base) && |v| <= 1
    ensures AllHeldBefore(base, k, v)
  {
  }

  lemma NoneDelivered(slots: seq<Slot>, k: nat)
    requires 0 < |slots|
    ensures Delivered(slots, k, [])
  {
  }

  lemma FirstAt(slots: seq<Slot>, k: nat, p: Packet)
    requires 0 < |slots|
    ensures HeldAt(slots, k, p, 0) <==> Holds(slots[Idx(k, |slots|)], p)
  {
    assert k + 0 == k;
  }

  lemma AloneCoincides(ps: seq<Packet>)
    requires |ps| == 1
    ensures FirstCoincides(ps, ps[0])
  {
    assert forall o | 0 <= o < |ps[0]| :: LastWriter(ps, o) == 0;
  }

  // Batches of any length

  /** Whole laps do not move a slot. */
  lemma {:induction false} IdxLaps(k: nat, m: nat, n: nat)
    requires 0 < n
    ensures Idx(m, n) <= m && Idx(k + (m - Idx(m, n)), n) == Idx(k, n)
    decreases m
  {
    if m >= n {
      IdxLaps(k, m - n, n);
    }
  }

  /** However often the ring went round, only the first slot's buffer got any bytes. */
  lemma {:induction false} StagedBuf(base: seq<Slot>, k: nat, ps: seq<Packet>, i: nat)
    requires 0 < |base| && FullBuffers(base) && Fitting(ps) && i < |base|
    ensures Staged(base, k, ps)[i].buf == if i == Idx(k, |base|) then Overlay(base[i].buf, ps) else base[i].buf
    decreases |ps|
  {
    if ps != [] {
      hide Stored, Idx, Memcpy;
      var m := |ps| - 1;
      StagedBuf(base, k, ps[..m], i);
      StoredAt(Staged(base, k, ps[..m]), Idx(k + m, |base|), Idx(k, |base|), ps[m], i);
    }
  }

  /** And each of the last lap's packets has its length in its slot. */
  lemma {:induction false} StagedLen(base: seq<Slot>, k: nat, ps: seq<Packet>, j: nat)
    requires 0 < |base| && FullBuffers(base) && Fitting(ps) && j < |ps| <= j + |base|
    ensures Staged(base, k, ps)[Idx(k + j, |base|)].len == |ps[j]|
    decreases |ps|
  {
    hide Stored, Idx, Memcpy, Overlay;
    var m := |ps| - 1;
    StoredAt(Staged(base, k, ps[..m]), Idx(k + m, |base|), Idx(k, |base|), ps[m], Idx(k + j, |base|));
    if j < m {
      StagedLen(base, k, ps[..m], j);
      IdxApart(k + j, k + m, |base|);
    }
  }

  /** What the backend can see of a batch: it reads from the old cursor to the new one, and whole laps
      cancel out. */
  ghost function Visible(ps: seq<Packet>, n: nat): (v: seq<Packet>)
    requires 0 < n
    ensures |v| == Idx(|ps|, n)
  {
    IdxLaps(0, |ps|, n);
    ps[|ps| - Idx(|ps|, n)..]
  }

  /** So has the first visible packet, and the others are what their buffers held before. */
  ghost predicate VisibleCoincide(base: seq<Slot>, k: nat, ps: seq<Packet>)
    requires 0 < |base| && FullBuffers(base) && Fitting(ps) && Visible(ps, |base|) != []
  {
    var v := Visible(ps, |base|);
    && FirstCoincides(ps, v[0])
    && AllHeldBefore(base, k, v)
  }

  lemma VisibleAt(ps: seq<Packet>, k: nat, n: nat, j: nat)
    requires 0 < n && j < |Visible(ps, n)|
    ensures var i := |ps| - Idx(|ps|, n) + j;
            && 0 <= i < |ps| <= i + n && Visible(ps, n)[j] == ps[i]
            && Idx(k + i, n) == Idx(k + j, n) && (Idx(k + j, n) == Idx(k, n) <==> j == 0)
  {
    IdxLaps(k + j, |ps|, n);
    Apart(k, j, 0, n);
    assert k + j + (|ps| - Idx(|ps|, n)) == k + (|ps| - Idx(|ps|, n) + j);
  }

  lemma VisibleHeld(base: seq<Slot>, k: nat, ps: seq<Packet>, j: nat)
    requires 0 < |base| && FullBuffers(base) && Fitting(ps) && j < |Visible(ps, |base|)|
    ensures var v := Visible(ps, |base|);
            var s := Staged(base, k, ps)[Idx(k + j, |base|)];
            && |v[j]| <= BUF_SIZE
            && s.len == |v[j]|
            && s.buf == (if j == 0 then Overlay(base[Idx(k, |base|)].buf, ps) else base[Idx(k + j, |base|)].buf)
  {
    hide Staged, Overlay, Idx, Visible, FullBuffers;
    VisibleAt(ps, k, |base|, j);
    StagedLen(base, k, ps, |ps| - Idx(|ps|, |base|) + j);
    StagedBuf(base, k, ps, Idx(k + j, |base|));
  }

  lemma LaterVisible(base: seq<Slot>, k: nat, ps: seq<Packet>, j: nat)
    requires 0 < |base| && FullBuffers(base) && Fitting(ps) && 0 < j < |Visible(ps, |base|)|
    ensures var p := Visible(ps, |base|)[j];
            |p| <= BUF_SIZE && (HeldAt(Staged(base, k, ps), k, p, j) <==> HeldBefore(base, k, p, j))
  {
    hide Staged, Visible, Idx;
    VisibleHeld(base, k, ps, j);
  }

  /** A batch of any length: the packets the backend can see have arrived exactly if there are none, or their
      bytes coincide with the last writers' and with what the other buffers held. */
  lemma VisibleArriveExactly(base: seq<Slot>, k: nat, ps: seq<Packet>)
    requires 0 < |base| && FullBuffers(base) && Fitting(ps)
    ensures var v := Visible(ps, |base|);
            Delivered(Staged(base, k, ps), k, v) <==> v == [] || VisibleCoincide(base, k, ps)
  {
    var v, s := Visible(ps, |base|), Staged(base, k, ps);
    hide Staged, Visible, Idx, FullBuffers, Fitting, FirstCoincides, HeldAt, HeldBefore;
    hide AllHeldBefore, Delivered;
    if v != [] {
      FirstVisible(base, k, ps);
      forall j | 1 <= j < |v| ensures |v[j]| <= BUF_SIZE && (HeldAt(s, k, v[j], j) <==> HeldBefore(base, k, v[j], j)) {
        LaterVisible(base, k, ps, j);
      }
      DeliveredParts(s, base, k, v);
    } else {
      NoneDelivered(s, k);
    }
  }

  lemma FirstVisible(base: seq<Slot>, k: nat, ps: seq<Packet>)
    requires 0 < |base| && FullBuffers(base) && Fitting(ps) && Visible(ps, |base|) != []
    ensures Holds(Staged(base, k, ps)[Idx(k, |base|)], Visible(ps, |base|)[0]) <==> FirstCoincides(ps, Visible(ps, |base|)[0])
  {
    var b, p := base[Idx(k, |base|)].buf, Visible(ps, |base|)[0];
    var s := Staged(base, k, ps)[Idx(k, |base|)];
    assert k + 0 == k;
    VisibleHeld(base, k, ps, 0);
    assert ps[|ps| - |Visible(ps, |base|)|] == p;
    hide Staged, Visible, Idx;
    OverlayHolds(b, ps, p);
  }

  /** Two packets of one length that differ: the second destroys the first before either is published. */
  lemma SecondDestroysFirst(base: seq<Slot>, k: nat, p: Packet, q: Packet)
    requires 2 <= |base| && FullBuffers(base) && Fitting([p]) && Fitting([p, q]) && |p| == |q| && p != q
    ensures Holds(Staged(base, k, [p])[Idx(k, |base|)], p)
    ensures !Holds(Staged(base, k, [p, q])[Idx(k, |base|)], p)
  {
    hide Staged, Holds;
    FirstHeld(base, k, [p]);
    FirstHeld(base, k, [p, q]);
    assert forall o | 0 <= o < |p| :: LastWriter([p], o) == 0 && LastWriter([p, q], o) == 1;
    var o :| 0 <= o < |p| && p[o] != q[o];
    assert [p, q][LastWriter([p, q], o)][o] != [p, q][0][o];
  }
}
