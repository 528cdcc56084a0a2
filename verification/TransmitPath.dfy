/** The transmit direction: netfront_netmap_txsync hands the user's slots one by one to
    netfront_netmap_xmit, which copies them into the ring shared with the backend. Transmit
    interrupts and the backend's updates of the shared tail may fall between any two accesses. */
module TransmitPath {
  import opened Circular
  import opened RingSlots
  import opened Sizes
  import opened Staging

  /** txcur and txhead of the guest's control block, and the user ring's kring. */
  datatype Cursors = Cursors(txcur: nat, txhead: nat, hwcur: nat, rhead: nat, hwtail: nat)

  /** Slots transmitted, handed over by the user, and available to the user, since the start. */
  datatype Count = Count(taken: nat, claimed: nat, limit: nat)

  /** The shared ring's write cursor and the user ring move in step, and the user ring's cursors are
      in circular order hwcur <= head <= hwtail. */
  ghost predicate Lockstep(g: Count, n: nat, c: Cursors)
  {
    && 0 < n && g.taken <= g.claimed <= g.limit < g.taken + n
    && c.txcur == c.txhead == c.hwcur == Idx(g.taken, n)
    && c.rhead == Idx(g.claimed, n) && c.hwtail == Idx(g.limit, n)
  }

  lemma CursorsFit(g: Count, n: nat, c: Cursors)
    requires Lockstep(g, n, c)
    ensures 0 < n && c.txcur == c.txhead == c.hwcur == Idx(g.taken, n)
    ensures c.rhead == Idx(g.claimed, n) && c.hwtail == Idx(g.limit, n)
    ensures g.taken <= g.claimed <= g.limit < g.taken + n
    ensures Dist(c.hwcur, c.rhead, n) == g.claimed - g.taken <= Dist(c.hwcur, c.hwtail, n) == g.limit - g.taken
  {
    IdxDist(g.taken, g.claimed, n);
    IdxDist(g.taken, g.limit, n);
  }

  lemma TakenFits(g: Count, n: nat, c: Cursors)
    requires Lockstep(g, n, c)
    ensures 0 < n && g.taken <= g.claimed
    ensures c.hwcur < n && c.hwtail < n
  {
  }

  lemma Sent(g: Count, n: nat, c: Cursors, k: nat)
    requires Lockstep(g, n, c) && g.taken + k <= g.claimed
    ensures var i := Idx(g.taken + k, n);
            Lockstep(g.(taken := g.taken + k), n, c.(txcur := i, txhead := i, hwcur := i))
  {
  }

  /** Reclaiming up to txhead gives the user every slot but one. */
  lemma Reclaimed(g: Count, n: nat, c: Cursors)
    requires Lockstep(g, n, c)
    ensures Lockstep(g.(limit := g.taken + n - 1), n, c.(hwtail := Prev(c.txhead, n)))
    ensures Dist(c.hwcur, Prev(c.txhead, n), n) == n - 1
  {
    IdxPrev(g.taken, n);
    IdxDist(g.taken, g.taken + n - 1, n);
  }

  lemma Handed(g: Count, n: nat, c: Cursors, newHead: nat)
    requires Lockstep(g, n, c) && newHead < n
    requires Dist(c.hwcur, c.rhead, n) <= Dist(c.hwcur, newHead, n) <= Dist(c.hwcur, c.hwtail, n)
    ensures Lockstep(g.(claimed := g.taken + Dist(c.hwcur, newHead, n)), n, c.(rhead := newHead))
  {
    CursorsFit(g, n, c);
    IdxAdvance(g.taken, newHead, n);
  }

  /** The slot with NS_REPORT and NS_BUF_CHANGED cleared. */
  function ClearSent(s: Slot): Slot
  {
    s.(flags := s.flags.(bufChanged := false, report := false))
  }

  function Payload(s: Slot): Packet
  {
    if s.len <= |s.buf| then s.buf[..s.len] else s.buf
  }

  lemma PayloadIs(s: Slot)
    requires s.len <= |s.buf|
    ensures Payload(s) == s.buf[..s.len]
  {
  }

  /** The packets in the m user slots from packet number lo on. */
  ghost function UserPackets(slots: seq<Slot>, lo: nat, m: nat): (ps: seq<Packet>)
    requires 0 < |slots|
    ensures |ps| == m && forall j | 0 <= j < m :: ps[j] == Payload(slots[Idx(lo + j, |slots|)])
  {
    seq(m, j requires 0 <= j < m => Payload(slots[Idx(lo + j, |slots|)]))
  }

  /** The user ring after m slots from packet number lo on were sent. */
  ghost function SentSlots(slots: seq<Slot>, lo: nat, m: nat): (s: seq<Slot>)
    requires 0 < |slots|
    ensures |s| == |slots|
  {
    if m == 0 then slots
    else
      var i := Idx(lo + m - 1, |slots|);
      SentSlots(slots, lo, m - 1)[i := ClearSent(slots[i])]
  }

  /** Exactly those slots have their flags reset; nothing else changes. */
  lemma {:induction false} SentSlotsAt(slots: seq<Slot>, lo: nat, m: nat, j: nat)
    requires m <= |slots| && j < |slots|
    ensures var i := Idx(lo + j, |slots|);
            SentSlots(slots, lo, m)[i] == if j < m then ClearSent(slots[i]) else slots[i]
  {
    if m > 0 {
      SentSlotsAt(slots, lo, m - 1, j);
      Apart(lo, j, m - 1, |slots|);
    }
  }

  lemma SlotFits(slots: seq<Slot>, i: nat)
    requires FullBuffers(slots) && UsableLengths(slots) && i < |slots|
    ensures slots[i].len <= BUF_SIZE == |slots[i].buf| && |Payload(slots[i])| == slots[i].len
    ensures var slots' := slots[i := ClearSent(slots[i])]; FullBuffers(slots') && UsableLengths(slots')
  {
  }

  // What has been sent, and what of it the backend can see

  /** All packets handed to xmit, the number of them published, the numbers of those that were published
      alone, and the shared ring as it was at the last publication. */
  datatype Log = Log(sent: seq<Packet>, published: nat, alone: set<nat>, base: seq<Slot>)

  ghost function Pending(l: Log): seq<Packet>
    requires l.published <= |l.sent|
  {
    l.sent[l.published..]
  }

  /** Packet number k was published alone and still stands in its slot, unless the ring has gone round. */
  ghost predicate StillHeld(l: Log, theirs: seq<Slot>, k: nat)
    requires 0 < |theirs|
  {
    k < l.published <= |l.sent| && (|l.sent| <= k + |theirs| ==> Holds(theirs[Idx(k, |theirs|)], l.sent[k]))
  }

  /** The shared ring is what the log makes of it. */
  ghost predicate Faithful(l: Log, theirs: seq<Slot>)
  {
    && l.published <= |l.sent| && Fitting(l.sent)
    && 0 < |l.base| == |theirs| && FullBuffers(l.base)
    && theirs == Staged(l.base, l.published, Pending(l))
    && forall k | k in l.alone :: StillHeld(l, theirs, k)
  }

  lemma PendingFits(l: Log, theirs: seq<Slot>)
    requires Faithful(l, theirs)
    ensures l.published <= |l.sent| && Fitting(Pending(l)) && FullBuffers(l.base) && FullBuffers(theirs)
    ensures 0 < |l.base| == |theirs| && theirs == Staged(l.base, l.published, Pending(l))
  {
  }

  lemma StillHeldAfter(l: Log, theirs: seq<Slot>, p: Packet, k: nat)
    requires Faithful(l, theirs) && |p| <= BUF_SIZE && k in l.alone
    ensures l.published <= |l.sent| && Fitting(Pending(l) + [p])
    ensures StillHeld(l.(sent := l.sent + [p]), Staged(l.base, l.published, Pending(l) + [p]), k)
  {
    hide Holds, Staged;
    PendingFits(l, theirs);
    StagedMore(l.base, l.published, Pending(l), p);
    assert StillHeld(l, theirs, k);
    if |l.sent| + 1 <= k + |theirs| {
      StagedElsewhere(l.base, l.published, Pending(l), k);
      StagedElsewhere(l.base, l.published, Pending(l) + [p], k);
    }
  }

  lemma LogStores(l: Log, theirs: seq<Slot>, p: Packet)
    requires Faithful(l, theirs) && |p| <= BUF_SIZE
    ensures FullBuffers(theirs) && l.published <= |l.sent| && 0 < |theirs|
    ensures Faithful(l.(sent := l.sent + [p]), Stored(theirs, Idx(|l.sent|, |theirs|), Idx(l.published, |theirs|), p))
  {
    hide Holds, Stored, Staged, StillHeld, FullBuffers;
    var l' := l.(sent := l.sent + [p]);
    PendingFits(l, theirs);
    StagedMore(l.base, l.published, Pending(l), p);
    assert Pending(l') == Pending(l) + [p];
    var theirs' := Staged(l.base, l.published, Pending(l'));
    forall k | k in l'.alone ensures StillHeld(l', theirs', k) {
      StillHeldAfter(l, theirs, p, k);
    }
  }

  /** A kick publishes everything staged. */
  ghost function Published(l: Log, theirs: seq<Slot>): Log
    requires l.published <= |l.sent|
  {
    Log(l.sent, |l.sent|, l.alone + (if |l.sent| == l.published + 1 then {l.published} else {}), theirs)
  }

  lemma LogPublishes(l: Log, theirs: seq<Slot>)
    requires Faithful(l, theirs)
    ensures l.published <= |l.sent| && Faithful(Published(l, theirs), theirs)
  {
    hide Holds, Staged;
    var l' := Published(l, theirs);
    PendingFits(l, theirs);
    StagedMore(theirs, |l.sent|, [], []);
    assert Pending(l') == [];
    forall k | k in l'.alone ensures StillHeld(l', theirs, k) {
      if k in l.alone {
        assert StillHeld(l, theirs, k);
      } else {
        assert Pending(l) == [l.sent[k]];
        BatchArrivesExactly(l.base, k, Pending(l));
        assert Delivered(theirs, k, Pending(l)) && HeldAt(theirs, k, Pending(l)[0], 0);
        FirstAt(theirs, k, Pending(l)[0]);
      }
    }
  }

  lemma PublishedIs(l: Log, theirs: seq<Slot>)
    requires l.published <= |l.sent|
    ensures Published(l, theirs).sent == l.sent && Published(l, theirs).published == |l.sent|
  {
  }

  /** Payload, exactly: the staged packets stand in their slots if and only if there is at most one, or
      their bytes coincide with what the wrong buffer index leaves. */
  ghost predicate ArrivesExactly(l: Log, theirs: seq<Slot>)
    requires Faithful(l, theirs)
  {
    Delivered(theirs, l.published, Pending(l)) <==>
      |l.sent| <= l.published + 1 || Coincide(l.base, l.published, Pending(l))
  }

  /** A longer batch: the backend sees only what is left when whole laps are taken away, and of that the same
      holds. */
  ghost predicate VisibleExactly(l: Log, theirs: seq<Slot>)
    requires Faithful(l, theirs)
  {
    var v := Visible(Pending(l), |theirs|);
    Delivered(theirs, l.published, v) <==> v == [] || VisibleCoincide(l.base, l.published, Pending(l))
  }

  lemma PublishedBatchArrivesExactly(l: Log, theirs: seq<Slot>)
    requires Faithful(l, theirs)
    ensures VisibleExactly(l, theirs)
    ensures |l.sent| <= l.published + |theirs| ==> ArrivesExactly(l, theirs)
  {
    hide Staged, Delivered, Coincide, VisibleCoincide, Visible;
    VisibleArriveExactly(l.base, l.published, Pending(l));
    if |l.sent| <= l.published + |theirs| { BatchArrivesExactly(l.base, l.published, Pending(l)); }
  }

  lemma StoredIs(slots: seq<Slot>, txcur: nat, cur: nat, buf: seq<Byte>, len: nat)
    requires txcur < |slots| && cur < |slots| && FullBuffers(slots) && len <= |buf| && len <= BUF_SIZE
    ensures |slots[cur].buf| == BUF_SIZE
    ensures var s := slots[cur := slots[cur].(buf := Memcpy(slots[cur].buf, buf, len))];
            var slots' := Stored(slots, txcur, cur, buf[..len]);
            s[txcur := s[txcur].(len := len)] == slots' && |slots'| == |slots| && FullBuffers(slots')
  {
    assert buf[..len][..len] == buf[..len];
  }

  /** While the guest may not kick, the user cannot be given so many slots that the staged packets go
      round the ring. */
  ghost predicate PacedAt(host: bool, guest: bool, limit: nat, sent: nat, published: nat, n: nat)
  {
    && (host || guest)
    && (!host ==> limit + 1 < published + n)
    && (sent == published || sent + 1 < published + n)
  }

  /** What a sync works on: the log, the user ring, the kick flags and the published tail. */
  datatype Scene = Scene(log: Log, ours: seq<Slot>, host: bool, guest: bool, tail: nat)

  /** One pass of the transmit loop over the next user slot. Without noise it stores exactly if the published
      ring has room, and kicks exactly if it was asked to. */
  ghost predicate OneSent(c: Scene, c': Scene, theirs: seq<Slot>, noise: bool, gap: bool, stored: bool, kicked: bool)
  {
    && 0 < |c.ours| && c.log.published <= |c.log.sent|
    && var i := Idx(|c.log.sent|, |c.ours|);
       var l := c.log.(sent := c.log.sent + [Payload(c.ours[i])]);
       && c'.log == (if kicked then Published(l, theirs) else if stored then l else c.log)
       && c'.ours == (if stored then c.ours[i := ClearSent(c.ours[i])] else c.ours)
       && (if kicked then stored && !c'.host && c'.guest == !gap
           else (c.host ==> c'.host && !stored) && (c'.host || c'.guest == c.guest) && (!c.guest ==> !c'.guest))
       && (!noise ==>
            && stored == (Idx(c.log.published, |c.ours|) != c.tail) && c'.tail == c.tail
            && (if kicked then c.host else c'.host == c.host && c'.guest == c.guest && (stored ==> !c.host)))
  }

  /** From c0 on, sent packets have been handed over in order, kicks of them with a kick. A packet that found
      the flag set and nothing staged was published alone. */
  ghost predicate HandedOver(c0: Scene, c: Scene, sent: nat, kicks: nat)
  {
    && kicks <= sent <= |c0.ours| == |c.ours| && 0 < |c0.ours|
    && c.log.sent == c0.log.sent + UserPackets(c0.ours, |c0.log.sent|, sent)
    && c.ours == SentSlots(c0.ours, |c0.log.sent|, sent)
    && c0.log.published <= c.log.published <= |c.log.sent|
    && (kicks == 0 ==> c.log == c0.log.(sent := c.log.sent) && (sent > 0 ==> !c0.host))
    && (kicks == 0 && !c0.guest ==> !c.guest)
    && (sent > 0 && c0.host && c0.log.published == |c0.log.sent| ==> |c0.log.sent| in c.log.alone)
  }

  /** Of the slot behind j sent packets: these bytes went out, and only the two flags are reset. */
  ghost predicate SentAt(c0: Scene, c: Scene, j: nat)
    requires 0 < |c0.ours| == |c.ours|
  {
    var i := Idx(|c0.log.sent| + j, |c0.ours|);
    var s, s' := c0.ours[i], c.ours[i];
    && s.len <= |s.buf| && |c0.log.sent| + j < |c.log.sent| && c.log.sent[|c0.log.sent| + j] == s.buf[..s.len]
    && !s'.flags.bufChanged && !s'.flags.report && s'.flags.others == s.flags.others
    && s'.len == s.len && s'.buf == s.buf
  }

  ghost predicate KeptAt(c0: Scene, c: Scene, j: nat)
    requires 0 < |c0.ours| == |c.ours|
  {
    var i := Idx(|c0.log.sent| + j, |c0.ours|);
    c.ours[i] == c0.ours[i]
  }

  lemma HandedInFields(c0: Scene, c: Scene, sent: nat, kicks: nat)
    requires HandedOver(c0, c, sent, kicks) && FullBuffers(c0.ours) && UsableLengths(c0.ours)
    ensures forall j | 0 <= j < sent :: SentAt(c0, c, j)
    ensures forall j | sent <= j < |c0.ours| :: KeptAt(c0, c, j)
  {
    forall j | 0 <= j < |c0.ours| ensures if j < sent then SentAt(c0, c, j) else KeptAt(c0, c, j) {
      SentSlotsAt(c0.ours, |c0.log.sent|, sent, j);
      if j < sent {
        assert c.log.sent[|c0.log.sent| + j] == UserPackets(c0.ours, |c0.log.sent|, sent)[j];
      }
    }
  }

  /** What is determined without noise: only the first packet can be kicked for, and nothing else changes
      the flags. */
  ghost predicate Undisturbed(c0: Scene, c: Scene, gap: bool, sent: nat, kicks: nat)
    requires 0 < |c0.ours|
  {
    && c.tail == c0.tail && kicks == (if c0.host && sent > 0 then 1 else 0)
    && (if kicks > 0 then !c.host && c.guest == !gap && c.log.published == |c0.log.sent| + 1
        else c.host == c0.host && c.guest == c0.guest && c.log.published == c0.log.published)
    && (sent > 0 ==> Idx(c0.log.published, |c0.ours|) != c.tail)
    && (sent > kicks ==> Idx(c.log.published, |c0.ours|) != c.tail)
  }

  ghost predicate ScenePaced(c: Scene, limit: nat)
  {
    PacedAt(c.host, c.guest, limit, |c.log.sent|, c.log.published, |c.ours|)
  }

  /** The transmit loop has come from c0 to c. */
  ghost predicate Progress(c0: Scene, c: Scene, limit: nat, noise: bool, gap: bool, sent: nat, kicks: nat)
  {
    && HandedOver(c0, c, sent, kicks)
    && (!noise ==> Undisturbed(c0, c, gap, sent, kicks))
    && (!gap && ScenePaced(c0, limit) ==> ScenePaced(c, limit))
    && (kicks == 0 && c0.host ==> c.host)
  }

  lemma ProgressStarts(c: Scene, limit: nat, noise: bool, gap: bool)
    requires c.log.published <= |c.log.sent| && 0 < |c.ours|
    ensures Progress(c, c, limit, noise, gap, 0, 0)
  {
  }

  lemma OneMoreSlot(slots: seq<Slot>, lo: nat, m: nat)
    requires m < |slots|
    ensures var i := Idx(lo + m, |slots|);
            var now := SentSlots(slots, lo, m);
            && now[i] == slots[i] && SentSlots(slots, lo, m + 1) == now[i := ClearSent(now[i])]
            && UserPackets(slots, lo, m + 1) == UserPackets(slots, lo, m) + [Payload(now[i])]
  {
    SentSlotsAt(slots, lo, m, m);
    hide Idx, Payload, ClearSent;
  }

  lemma OneMoreHandedOver(c0: Scene, c: Scene, c': Scene, theirs: seq<Slot>, noise: bool, gap: bool, sent: nat, kicks: nat, kicked: bool)
    requires HandedOver(c0, c, sent, kicks) && sent < |c0.ours| && OneSent(c, c', theirs, noise, gap, true, kicked)
    requires kicks == 0 && c0.host ==> c.host
    ensures HandedOver(c0, c', sent + 1, if kicked then kicks + 1 else kicks)
    ensures |c.log.sent| == |c0.log.sent| + sent && |c'.log.sent| == |c.log.sent| + 1
  {
    hide Idx, SentSlots, UserPackets, Payload, ClearSent;
    OneMoreSlot(c0.ours, |c0.log.sent|, sent);
  }

  lemma ProgressStep(c0: Scene, c: Scene, c': Scene, theirs: seq<Slot>, limit: nat, noise: bool, gap: bool,
                     sent: nat, kicks: nat, stored: bool, kicked: bool)
    requires Progress(c0, c, limit, noise, gap, sent, kicks) && OneSent(c, c', theirs, noise, gap, stored, kicked)
    requires sent < |c0.ours| && |c.log.sent| < limit < |c.log.sent| + |c.ours|
    ensures Progress(c0, c', limit, noise, gap, if stored then sent + 1 else sent, if kicked then kicks + 1 else kicks)
    ensures |c'.log.sent| == |c.log.sent| + if stored then 1 else 0
  {
    hide Idx, Payload, ClearSent, UserPackets, SentSlots;
    if stored { OneMoreHandedOver(c0, c, c', theirs, noise, gap, sent, kicks, kicked); }
  }

  lemma Refused(c: Scene, c': Scene, theirs: seq<Slot>, noise: bool, gap: bool, stored: bool, kicked: bool)
    requires OneSent(c, c', theirs, noise, gap, stored, kicked)
    ensures !stored ==> c'.log == c.log && c'.ours == c.ours && !kicked
    ensures !stored && !noise ==> c'.tail == c.tail && Idx(c.log.published, |c.ours|) == c.tail
  {
  }

  lemma Calm(c0: Scene, c: Scene, limit: nat, gap: bool, sent: nat, kicks: nat)
    requires Progress(c0, c, limit, false, gap, sent, kicks)
    ensures 0 < |c0.ours| && Undisturbed(c0, c, gap, sent, kicks)
  {
  }

  /** Interrupts behind the loop, and a tail that moves. */
  lemma ProgressIdle(c0: Scene, c: Scene, c': Scene, limit: nat, noise: bool, gap: bool, sent: nat, kicks: nat)
    requires Progress(c0, c, limit, noise, gap, sent, kicks)
    requires c'.log == c.log && c'.ours == c.ours && (c.host ==> c'.host) && (c'.host || c'.guest == c.guest)
    requires (!c.guest ==> !c'.guest) && (!noise ==> c' == c)
    ensures Progress(c0, c', limit, noise, gap, sent, kicks)
  {
    hide Idx, UserPackets, SentSlots;
  }

  lemma PaceAfter(c0: Scene, c: Scene, limit: nat, noise: bool, gap: bool, sent: nat, kicks: nat, reclaimed: bool, limit': nat)
    requires Progress(c0, c, limit, noise, gap, sent, kicks)
    requires if reclaimed then !c.guest else limit' == limit
    ensures !gap && ScenePaced(c0, limit) ==> ScenePaced(c, limit')
    ensures HandedOver(c0, c, sent, kicks) && (sent > 0 && c0.host ==> kicks > 0)
  {
    hide Undisturbed;
  }

  lemma PacedIdle(c: Scene, c': Scene, limit: nat)
    requires c'.log == c.log && |c'.ours| == |c.ours| && (c.host ==> c'.host) && (c'.host || c'.guest == c.guest)
    ensures ScenePaced(c, limit) ==> ScenePaced(c', limit)
  {
  }

  lemma PacedRoom(c: Scene, limit: nat)
    requires ScenePaced(c, limit) && 0 < |c.ours| && c.log.published <= |c.log.sent|
    ensures |c.log.sent| - c.log.published < |c.ours|
  {
  }

  lemma AloneHeld(l: Log, theirs: seq<Slot>)
    requires Faithful(l, theirs)
    ensures 0 < |theirs|
    ensures forall k | k in l.alone && |l.sent| <= k + |theirs| ::
              k < |l.sent| && Holds(theirs[Idx(k, |theirs|)], l.sent[k])
  {
    hide Staged, Holds;
    forall k | k in l.alone && |l.sent| <= k + |theirs| ensures k < |l.sent| && Holds(theirs[Idx(k, |theirs|)], l.sent[k]) {
      assert StillHeld(l, theirs, k);
    }
  }

  /** The first packet of a sync arrives if it found the flag set and nothing staged. */
  /** Slot t holds what slot s held: its length and as many bytes. */
  predicate Copied(s: Slot, t: Slot)
  {
    t.len == s.len && s.len <= |s.buf| && t.len <= |t.buf| && t.buf[..t.len] == s.buf[..s.len]
  }

  lemma Arrived(c0: Scene, c: Scene, theirs: seq<Slot>, sent: nat, kicks: nat)
    requires HandedOver(c0, c, sent, kicks) && Faithful(c.log, theirs) && |theirs| == |c0.ours|
    requires FullBuffers(c0.ours) && UsableLengths(c0.ours)
    ensures sent > 0 && c0.host && c0.log.published == |c0.log.sent| ==>
              var i := Idx(|c0.log.sent|, |theirs|);
              var s, t := c0.ours[i], theirs[i];
              Holds(t, Payload(s)) && Copied(s, t)
  {
    hide Idx;
    if sent > 0 && c0.host && c0.log.published == |c0.log.sent| {
      AloneHeld(c.log, theirs);
      assert |c0.log.sent| in c.log.alone;
      assert c.log.sent[|c0.log.sent|] == UserPackets(c0.ours, |c0.log.sent|, sent)[0];
      assert |c0.log.sent| + 0 == |c0.log.sent|;
    }
  }

  /** How many packets a sync that nobody disturbs hands over: none without room, one if the kick for it
      fills the published ring, else all. */
  function Determined(c: Scene, claimed: nat): nat
    requires 0 < |c.ours| && |c.log.sent| <= claimed
  {
    var n := |c.ours|;
    if claimed == |c.log.sent| || Idx(c.log.published, n) == c.tail then 0
    else if c.host && Idx(|c.log.sent| + 1, n) == c.tail then 1
    else claimed - |c.log.sent|
  }

  lemma DeterminedSent(c0: Scene, c: Scene, claimed: nat, gap: bool, sent: nat, kicks: nat, refused: bool)
    requires 0 < |c0.ours| && |c0.log.sent| + sent <= claimed && Undisturbed(c0, c, gap, sent, kicks)
    requires if refused then Idx(c.log.published, |c0.ours|) == c.tail && |c0.log.sent| + sent < claimed
             else |c0.log.sent| + sent == claimed
    ensures sent == Determined(c0, claimed)
  {
  }

  class TxPath {
    const shared: array<Slot>
    const local: array<Slot>

    // Header of the shared ring.
    var head: nat
    var cur: nat
    var tail: nat

    // The guest's control block.
    var txcur: nat
    var txhead: nat
    var hostNeedTxkick: bool
    var guestNeedTxkick: bool

    // The user ring's kring: rhead and rcur are the user's cursors as last validated.
    var hwcur: nat
    var hwtail: nat
    var rhead: nat
    var rcur: nat
    var rtail: nat

    ghost var g: Count
    ghost var log: Log
    ghost var read: nat           // packets the backend has taken out of the shared ring
    ghost var theirs: seq<Slot>   // shared[..]
    ghost var ours: seq<Slot>     // local[..]

    function At(): Cursors
      reads this
    {
      Cursors(txcur, txhead, hwcur, rhead, hwtail)
    }

    /** Both rings have the same size, which fits the 16-bit cursors; the shared ring is what was sent. */
    ghost predicate Shape()
      reads this, shared, local
    {
      && shared != local && shared.Length == local.Length && 0 < shared.Length <= 0x10000
      && shared[..] == theirs && local[..] == ours
      && Faithful(log, theirs) && read <= log.published <= |log.sent|
      && txcur == txhead == Idx(|log.sent|, shared.Length) && head == cur == Idx(log.published, shared.Length)
      && tail < shared.Length && rcur < shared.Length
      && FullBuffers(theirs) && FullBuffers(ours) && UsableLengths(ours)
    }

    ghost predicate Inv()
      reads this, shared, local
    {
      Shape() && Lockstep(g, shared.Length, At()) && g.taken == |log.sent|
    }

    ghost function Now(): Scene
      reads this
    {
      Scene(log, ours, hostNeedTxkick, guestNeedTxkick, tail)
    }

    ghost predicate Paced()
      reads this
    {
      ScenePaced(Now(), g.limit)
    }

    /** The user cannot be made to send so much that a packet the backend has not read is overwritten. */
    ghost predicate Kept()
      reads this
    {
      g.limit <= read + shared.Length
    }

    constructor (slots: nat)
      requires 0 < slots <= 0x10000
      ensures Inv() && Paced() && shared.Length == slots && fresh(shared) && fresh(local)
      ensures hostNeedTxkick && !guestNeedTxkick && tail == slots - 1
      ensures g == Count(0, 0, slots - 1) && log.sent == [] && log.published == read == 0
    {
      var zeroes := seq(BUF_SIZE, _ => 0);
      var a := new Slot[slots](_ => Slot(0, zeroes, Flags(false, false, 0)));
      var b := new Slot[slots](_ => Slot(0, zeroes, Flags(false, false, 0)));
      shared, local := a, b;
      theirs, ours := a[..], b[..];
      head, cur, tail := 0, 0, slots - 1;
      txcur, txhead, hostNeedTxkick, guestNeedTxkick := 0, 0, true, false;
      hwcur, hwtail, rhead, rcur, rtail := 0, slots - 1, 0, 0, slots - 1;
      g, log, read := Count(0, 0, slots - 1), Log([], 0, {}, a[..]), 0;
    }

    /** netfront_tx_interrupt. */
    method Interrupt(carrierOk: bool)
      modifies this`hostNeedTxkick, this`guestNeedTxkick
      ensures hostNeedTxkick == (carrierOk || old(hostNeedTxkick))
      ensures guestNeedTxkick == (!carrierOk && old(guestNeedTxkick))
    {
      if carrierOk {
        hostNeedTxkick := true;
        guestNeedTxkick := false;
      }
    }

    /** Any number of interrupts, of packets the backend takes out, and of new values it publishes in the
        shared tail; nothing at all if there is no noise. */
    method Interfere(noise: bool)
      requires Shape()
      modifies this`hostNeedTxkick, this`guestNeedTxkick, this`tail, this`read
      ensures Shape()
      ensures old(hostNeedTxkick) ==> hostNeedTxkick
      ensures !old(guestNeedTxkick) ==> !guestNeedTxkick
      ensures hostNeedTxkick || guestNeedTxkick == old(guestNeedTxkick)
      ensures old(read) <= read
      ensures !noise ==> hostNeedTxkick == old(hostNeedTxkick) && guestNeedTxkick == old(guestNeedTxkick)
                         && tail == old(tail) && read == old(read)
    {
      hide FullBuffers, UsableLengths, Faithful, Idx;
      if noise {
        var steps: nat := *;
        while steps > 0
          invariant Shape()
          invariant old(hostNeedTxkick) ==> hostNeedTxkick
          invariant !old(guestNeedTxkick) ==> !guestNeedTxkick
          invariant hostNeedTxkick || guestNeedTxkick == old(guestNeedTxkick)
          invariant old(read) <= read
          decreases steps
        {
          var newTail: nat, carrierOk: bool := *, *;
          ghost var newRead: nat := *;
          read := if read <= newRead <= log.published then newRead else read;
          if newTail < shared.Length {
            tail := newTail;
          } else {
            Interrupt(carrierOk);
          }
          steps := steps - 1;
        }
      }
    }

    /** End of netfront_netmap_xmit: publish everything staged and notify, if the backend asked for it. With
        gap an interrupt falls between the two flag writes. */
    method Kick(noise: bool, gap: bool) returns (kicked: bool)
      requires Shape()
      modifies this`hostNeedTxkick, this`guestNeedTxkick, this`tail, this`read, this`head, this`cur, this`log
      ensures Shape()
      ensures log == if kicked then Published(old(log), theirs) else old(log)
      ensures kicked ==> VisibleExactly(old(log), theirs)
      ensures kicked && |log.sent| <= old(log.published) + shared.Length ==> ArrivesExactly(old(log), theirs)
      ensures old(read) <= read && (!noise ==> read == old(read))
      ensures old(hostNeedTxkick) ==> kicked
      ensures kicked ==> !hostNeedTxkick && guestNeedTxkick == !gap
      ensures !kicked && !old(guestNeedTxkick) ==> !guestNeedTxkick
      ensures !kicked && !noise ==> hostNeedTxkick == old(hostNeedTxkick) && guestNeedTxkick == old(guestNeedTxkick)
      ensures !kicked ==> hostNeedTxkick || guestNeedTxkick == old(guestNeedTxkick)
      ensures !noise ==> kicked == old(hostNeedTxkick) && tail == old(tail)
    {
      hide UsableLengths, FullBuffers, Faithful, Idx, ArrivesExactly, VisibleExactly, Published;
      Interfere(noise);
      kicked := hostNeedTxkick;
      if kicked {
        LogPublishes(log, theirs);
        PublishedIs(log, theirs);
        PublishedBatchArrivesExactly(log, theirs);
        cur := txcur;
        head := cur;
        log := Published(log, theirs);
        Interfere(noise);
        guestNeedTxkick := true;
        if gap { Interrupt(true); }
        hostNeedTxkick := false;
      }
    }

    /** The part of netfront_netmap_xmit between the test for room and the test of the kick flag. */
    method Store(buf: seq<Byte>, len: nat)
      requires Shape() && len <= |buf| && len <= BUF_SIZE
      modifies this`txcur, this`txhead, this`log, this`theirs, shared
      ensures Shape() && theirs == Stored(old(theirs), old(txcur), cur, buf[..len])
      ensures log == old(log).(sent := old(log.sent) + [buf[..len]])
    {
      hide UsableLengths, Memcpy, Faithful, Idx, Stored, FullBuffers;
      LogStores(log, theirs, buf[..len]);
      IdxNext(|log.sent|, shared.Length);
      StoredIs(theirs, txcur, cur, buf, len);
      shared[cur] := shared[cur].(buf := Memcpy(shared[cur].buf, buf, len));
      shared[txcur] := shared[txcur].(len := len);
      theirs := Stored(theirs, txcur, cur, buf[..len]);
      log := log.(sent := log.sent + [buf[..len]]);
      txcur := Next(txcur, shared.Length);
      txhead := txcur;
    }

    /** netfront_netmap_xmit: refuse if the published ring is full, else store and advance txcur; kick if
        the backend asked for it. */
    method Xmit(buf: seq<Byte>, len: nat, noise: bool, gap: bool) returns (stored: bool, kicked: bool)
      requires Shape() && len <= |buf| && len <= BUF_SIZE
      modifies this`hostNeedTxkick, this`guestNeedTxkick, this`tail, this`read
      modifies this`head, this`cur, this`txcur, this`txhead, this`log, this`theirs, shared
      ensures Shape()
      ensures theirs == if stored then Stored(old(theirs), old(txcur), old(cur), buf[..len]) else old(theirs)
      ensures var l := old(log).(sent := old(log.sent) + [buf[..len]]);
              log == if kicked then Published(l, theirs) else if stored then l else old(log)
      ensures kicked ==> stored && !hostNeedTxkick && guestNeedTxkick == !gap
      ensures stored && old(hostNeedTxkick) ==> kicked
      ensures !kicked ==> (old(hostNeedTxkick) ==> hostNeedTxkick) && (hostNeedTxkick || guestNeedTxkick == old(guestNeedTxkick))
      ensures !kicked && !old(guestNeedTxkick) ==> !guestNeedTxkick
      ensures !noise ==> stored == (old(cur) != old(tail)) && tail == old(tail)
      ensures !noise && !kicked ==> hostNeedTxkick == old(hostNeedTxkick) && guestNeedTxkick == old(guestNeedTxkick)
      ensures !noise && stored ==> kicked == old(hostNeedTxkick)
      ensures old(read) <= read && (!noise ==> read == old(read))
    {
      hide UsableLengths, Faithful, Idx, Stored, FullBuffers, Published;
      Interfere(noise);
      if cur == tail {
        return false, false;
      }
      Store(buf, len);
      stored := true;
      kicked := Kick(noise, gap);
    }

    /** One pass of the transmit loop over user slot nm_i. */
    method TransmitOne(nm_i: nat, noise: bool, gap: bool) returns (stored: bool, kicked: bool)
      requires Shape() && nm_i == txcur
      modifies this`hostNeedTxkick, this`guestNeedTxkick, this`tail, this`read
      modifies this`head, this`cur, this`txcur, this`txhead, this`log, this`theirs, shared, this`ours, local
      ensures Shape() && OneSent(old(Now()), Now(), theirs, noise, gap, stored, kicked)
      ensures old(read) <= read && (!noise ==> read == old(read))
    {
      hide UsableLengths, Faithful, Idx, Stored, FullBuffers, Payload;
      SlotFits(ours, nm_i);
      PayloadIs(ours[nm_i]);
      stored, kicked := Xmit(local[nm_i].buf, local[nm_i].len, noise, gap);
      if stored {
        local[nm_i] := ClearSent(local[nm_i]);
        ours := ours[nm_i := ClearSent(ours[nm_i])];
      }
    }

    /** The transmit loop: hand the user's slots to xmit until one is refused or none is left. busy is
        guest_need_txkick as sampled behind it. Without noise the number sent is determined. */
    method TransmitLoop(noise: bool, gap: bool) returns (nm_i: nat, sent: nat, kicks: nat, busy: bool)
      requires Inv()
      modifies this`hostNeedTxkick, this`guestNeedTxkick, this`tail, this`read
      modifies this`head, this`cur, this`txcur, this`txhead, this`log, this`theirs, shared, this`ours, local
      ensures Shape() && g.taken + sent <= g.claimed && g.taken + sent == |log.sent| && nm_i == txcur
      ensures Progress(old(Now()), Now(), g.limit, noise, gap, sent, kicks) && busy == guestNeedTxkick
      ensures !noise ==> sent == Determined(old(Now()), g.claimed)
      ensures old(read) <= read && (!noise ==> read == old(read))
    {
      hide Idx, Lockstep, Faithful, FullBuffers, UsableLengths, OneSent, Progress, Undisturbed, Determined;
      var n := shared.Length;
      CursorsFit(g, n, At());
      IdxDist(g.taken, g.claimed, n);
      nm_i, sent, kicks := hwcur, 0, 0;
      ghost var c0 := Now();
      ProgressStarts(c0, g.limit, noise, gap);
      var go := true;
      while go && nm_i != rhead
        invariant Shape() && nm_i == txcur && g.taken + sent == |log.sent| && g.taken + sent <= g.claimed
        invariant Progress(c0, Now(), g.limit, noise, gap, sent, kicks)
        invariant old(read) <= read && (!noise ==> read == old(read))
        invariant !go ==> g.taken + sent < g.claimed && (!noise ==> Idx(log.published, n) == tail)
        decreases go, g.claimed - g.taken - sent
      {
        ghost var c := Now();
        var kicked;
        go, kicked := TransmitOne(nm_i, noise, gap);
        Refused(c, Now(), theirs, noise, gap, go, kicked);
        ProgressStep(c0, c, Now(), theirs, g.limit, noise, gap, sent, kicks, go, kicked);
        if go {
          IdxNext(g.taken + sent, n);
          nm_i := Next(nm_i, n);
          sent := sent + 1;
        }
        kicks := if kicked then kicks + 1 else kicks;
      }
      if !noise {
        if go && g.taken + sent < g.claimed { IdxApart(g.taken + sent, g.claimed, n); }
        Calm(c0, Now(), g.limit, gap, sent, kicks);
        DeterminedSent(c0, Now(), g.claimed, gap, sent, kicks, !go);
      }
      ghost var c1 := Now();
      Interfere(noise);
      ProgressIdle(c0, c1, Now(), g.limit, noise, gap, sent, kicks);
      busy := guestNeedTxkick;
    }

    /** First part of netfront_netmap_txsync: the loop and the update of nr_hwcur. */
    method Transmit(noise: bool, gap: bool) returns (sent: nat, kicks: nat, busy: bool)
      requires Inv()
      modifies this`hostNeedTxkick, this`guestNeedTxkick, this`tail, this`read, this`hwcur, this`g
      modifies this`head, this`cur, this`txcur, this`txhead, this`log, this`theirs, shared, this`ours, local
      ensures Inv() && g == old(g).(taken := old(g.taken) + sent) && busy == guestNeedTxkick
      ensures Progress(old(Now()), Now(), g.limit, noise, gap, sent, kicks)
      ensures !noise ==> sent == Determined(old(Now()), g.claimed)
      ensures old(read) <= read && (!noise ==> read == old(read))
    {
      hide Idx, Lockstep, Faithful, FullBuffers, UsableLengths, Progress, Undisturbed, Determined;
      CursorsFit(g, shared.Length, At());
      var nm_i;
      nm_i, sent, kicks, busy := TransmitLoop(noise, gap);
      Sent(g, shared.Length, old(At()), sent);
      hwcur := nm_i;
      g := g.(taken := g.taken + sent);
    }

    /** Everything written so far counts as sent: the user gets back all slots but one. */
    method Reclaim()
      requires Inv()
      modifies this`hwtail, this`g
      ensures Inv() && Now() == old(Now()) && g == old(g).(limit := g.taken + shared.Length - 1)
      ensures hwtail == Prev(hwcur, shared.Length) && Dist(hwcur, hwtail, shared.Length) == shared.Length - 1
    {
      hide Idx, Lockstep, FullBuffers, UsableLengths, Faithful;
      var n := shared.Length;
      CursorsFit(g, n, At());
      Reclaimed(g, n, At());
      var nic_i := if txhead >= n then txhead - n else txhead;
      hwtail := Prev(nic_i, n);
      g := g.(limit := g.taken + n - 1);
    }

    /** netfront_netmap_txsync with the carrier up; nm_kr_txempty is rcur == hwtail. */
    method Sync(forceReclaim: bool, noise: bool, gap: bool) returns (sent: nat, kicks: nat, busy: bool, reclaimed: bool)
      requires Inv()
      modifies this`hostNeedTxkick, this`guestNeedTxkick, this`tail, this`read, this`hwcur, this`hwtail, this`g
      modifies this`head, this`cur, this`txcur, this`txhead, this`log, this`theirs, shared, this`ours, local
      ensures Inv() && busy == guestNeedTxkick
      ensures Progress(old(Now()), Now(), old(g.limit), noise, gap, sent, kicks)
      ensures g.taken == old(g.taken) + sent && g.claimed == old(g.claimed)
      ensures reclaimed <==> !busy && (forceReclaim || rcur == old(hwtail))
      ensures g.limit == if reclaimed then g.taken + shared.Length - 1 else old(g.limit)
      ensures reclaimed ==> hwtail == Prev(hwcur, shared.Length) && Dist(hwcur, hwtail, shared.Length) == shared.Length - 1
      ensures !reclaimed ==> hwtail == old(hwtail)
      ensures !noise ==> sent == Determined(old(Now()), g.claimed)
      ensures old(read) <= read && (!noise ==> read == old(read))
    {
      hide Idx, Lockstep, Faithful, FullBuffers, UsableLengths, Progress, Determined;
      sent, kicks, busy := Transmit(noise, gap);
      reclaimed := if busy then false else if forceReclaim then true else rcur == hwtail;
      if reclaimed { Reclaim(); }
    }

    /** netfront_netmap_txsync. However far the loop got, the write cursor and the user ring stay in step, and
        a reclaim leaves the user all slots but one. The packets handed over are the user's, in order; one
        that finds the flag set and nothing staged arrives. */
    method Txsync(carrierOk: bool, forceReclaim: bool, noise: bool, gap: bool)
      returns (sent: nat, kicks: nat, busy: bool, reclaimed: bool)
      requires Inv()
      modifies this, shared, local
      ensures Inv()
      ensures g.taken == old(g.taken) + sent && g.claimed == old(g.claimed)
      ensures HandedOver(old(Now()), Now(), sent, kicks)
      ensures sent > 0 && old(hostNeedTxkick) && old(log.published) == |old(log.sent)| ==>
                var i := Idx(old(g.taken), shared.Length);
                Holds(theirs[i], Payload(old(ours)[i])) && Copied(old(ours)[i], theirs[i])
      ensures forall j | 0 <= j < sent :: SentAt(old(Now()), Now(), j)
      ensures forall j | sent <= j < |ours| :: KeptAt(old(Now()), Now(), j)
      ensures rhead == old(rhead) && rcur == old(rcur) && rtail == hwtail
      ensures reclaimed <==> carrierOk && !busy && (forceReclaim || rcur == old(hwtail))
      ensures g.limit == if reclaimed then g.taken + shared.Length - 1 else old(g.limit)
      ensures reclaimed ==> hwtail == Prev(hwcur, shared.Length) && Dist(hwcur, hwtail, shared.Length) == shared.Length - 1
      ensures !reclaimed ==> hwtail == old(hwtail)
      ensures sent > 0 && old(hostNeedTxkick) ==> kicks > 0
      ensures if carrierOk then busy == guestNeedTxkick else sent == kicks == 0 && Now() == old(Now())
      ensures !gap && old(Paced()) ==> Paced()
      ensures old(read) <= read && (!noise ==> read == old(read))
      ensures Kept() <== if reclaimed then g.taken <= read + 1 else old(Kept())
      ensures reclaimed && g.taken > read + 1 ==> !Kept()
      ensures carrierOk && !noise ==> sent == Determined(old(Now()), g.claimed) && Undisturbed(old(Now()), Now(), gap, sent, kicks)
    {
      hide Idx, Lockstep, Faithful, FullBuffers, UsableLengths, Progress, Undisturbed, Determined;
      hide HandedOver, Holds, Copied, Payload, ScenePaced, SentAt, KeptAt;
      ghost var c0, limit := Now(), g.limit;
      sent, kicks, busy, reclaimed := 0, 0, false, false;
      TakenFits(g, shared.Length, At());
      ProgressStarts(c0, limit, noise, gap);
      if carrierOk {
        sent, kicks, busy, reclaimed := Sync(forceReclaim, noise, gap);
        if !noise { Calm(c0, Now(), limit, gap, sent, kicks); }
      }
      PaceAfter(c0, Now(), limit, noise, gap, sent, kicks, reclaimed, g.limit);
      TakenFits(g, shared.Length, At());
      Arrived(c0, Now(), theirs, sent, kicks);
      HandedInFields(c0, Now(), sent, kicks);
      rtail := hwtail;
    }

    /** The user moves its head forward, to at most the tail; netmap refuses anything else. */
    method Advance(newHead: nat, newCur: nat) returns (ok: bool)
      requires Inv()
      modifies this`rhead, this`rcur, this`g
      ensures Inv() && Now() == old(Now()) && g.taken == old(g.taken) && g.limit == old(g.limit)
      ensures ok <==> newHead < shared.Length && newCur < shared.Length &&
                      g.claimed - g.taken <= Dist(hwcur, newHead, shared.Length) <= g.limit - g.taken
      ensures ok ==> rhead == newHead && rcur == newCur && g.claimed == g.taken + Dist(hwcur, newHead, shared.Length)
      ensures !ok ==> rhead == old(rhead) && rcur == old(rcur) && g == old(g)
    {
      hide Idx, Lockstep, FullBuffers, UsableLengths, Faithful;
      var n := shared.Length;
      CursorsFit(g, n, At());
      ok := newHead < n && newCur < n
            && Dist(hwcur, rhead, n) <= Dist(hwcur, newHead, n) <= Dist(hwcur, hwtail, n);
      if ok {
        Handed(g, n, At(), newHead);
        g := g.(claimed := g.taken + Dist(hwcur, newHead, n));
        rhead, rcur := newHead, newCur;
      }
    }

    /** The user writes a packet into a slot of its own. */
    method UserWrite(i: nat, p: Packet)
      requires Inv() && i < shared.Length && |p| <= BUF_SIZE
      modifies this`ours, local
      ensures Inv() && ours == old(ours)[i := ours[i]] && Payload(ours[i]) == p
    {
      hide Idx, Lockstep, Faithful;
      var s := Filled(local[i], p, |p|, local[i].flags);
      local[i] := s;
      ours := ours[i := s];
    }

    /** Every run of syncs, interrupts, tail updates, user writes and user moves keeps the cursors in step and
        in order, and every packet published alone in its slot until the ring goes round. As long as no
        interrupt falls between the two flag writes of a kick, the staged packets never go round. As long
        as every reclaim finds all packets read but the last (not early), no unread packet that was
        published alone is overwritten. */
    method Run(calls: nat, gaps: bool) returns (ghost early: bool)
      requires Inv()
      modifies this, shared, local
      ensures Inv() && txcur == txhead == hwcur < shared.Length && rhead < shared.Length && hwtail < shared.Length
      ensures Dist(hwcur, rhead, shared.Length) <= Dist(hwcur, hwtail, shared.Length)
      ensures old(log.sent) <= log.sent && Dist(hwcur, rhead, shared.Length) == g.claimed - g.taken
      ensures forall k | k in log.alone && |log.sent| <= k + shared.Length ::
                k < |log.sent| && Holds(theirs[Idx(k, shared.Length)], log.sent[k])
      ensures !gaps && old(Paced()) ==> Paced() && |log.sent| - log.published < shared.Length
      ensures !early && old(Kept()) ==> forall k | k in log.alone && read <= k ::
                k < |log.sent| && Holds(theirs[Idx(k, shared.Length)], log.sent[k])
    {
      hide Idx, Lockstep, FullBuffers, UsableLengths, Faithful, Undisturbed, Determined, ScenePaced;
      early := false;
      for i := 0 to calls
        invariant Inv() && old(log.sent) <= log.sent
        invariant !gaps && old(Paced()) ==> Paced()
        invariant !early && old(Kept()) ==> Kept()
      {
        ghost var c := Now();
        Interfere(true);
        var newHead: nat, newCur: nat, slot: nat, p: Packet := *, *, *, *;
        if slot < shared.Length && |p| <= BUF_SIZE { UserWrite(slot, p); }
        PacedIdle(c, Now(), g.limit);
        var _ := Advance(newHead, newCur);
        var up: bool, force: bool, gap: bool := *, *, *;
        var _, _, _, reclaimed := Txsync(up, force, true, gaps && gap);
        if reclaimed && g.taken > read + 1 { early := true; }
      }
      CursorsFit(g, shared.Length, At());
      AloneHeld(log, theirs);
      if !gaps && old(Paced()) { PacedRoom(Now(), g.limit); }
    }
  }

  lemma SecondIsDestroyed(l: Log, theirs: seq<Slot>, first: Packet, second: Packet, third: Packet)
    requires Faithful(l, theirs) && |theirs| == 4 && l.published == 1
    requires l.sent == [first, second, third] && |second| == |third| && second != third
    ensures !Holds(theirs[Idx(1, 4)], second)
  {
    hide Holds, Staged;
    PendingFits(l, theirs);
    assert Pending(l) == [second, third];
    assert l.sent[1] == second && l.sent[2] == third;
    SecondDestroysFirst(l.base, 1, second, third);
  }

  lemma ThreeUserPackets(slots: seq<Slot>, first: Packet, second: Packet, third: Packet)
    requires |slots| == 4 && Payload(slots[0]) == first && Payload(slots[1]) == second && Payload(slots[2]) == third
    ensures UserPackets(slots, 0, 3) == [first, second, third]
    ensures Idx(0, 4) == 0 && Idx(1, 4) == 1
  {
    assert Idx(0, 4) == 0 && Idx(1, 4) == 1 && Idx(2, 4) == 2;
  }

  /** A packet that was stored with nothing staged before it can still be lost: one undisturbed sync of three
      packets on a fresh ring publishes the first, stages the second, and destroys its bytes with the third. */
  method ThirdDestroysSecond(first: Packet, second: Packet, third: Packet) returns (t: TxPath)
    requires |first| <= BUF_SIZE && |second| == |third| <= BUF_SIZE && second != third
    ensures fresh(t) && t.Inv() && t.Paced() && t.log.sent == [first, second, third] && t.log.published == 1
    ensures |t.theirs| == 4 && !Holds(t.theirs[Idx(1, 4)], second)
  {
    hide Lockstep, Faithful, Holds, ScenePaced, FullBuffers, UsableLengths, Payload, UserPackets, SentSlots, Idx;
    t := new TxPath(4);
    ghost var c := t.Now();
    t.UserWrite(0, first);
    t.UserWrite(1, second);
    t.UserWrite(2, third);
    PacedIdle(c, t.Now(), t.g.limit);
    CursorsFit(t.g, 4, t.At());
    ThreeUserPackets(t.ours, first, second, third);
    var ok := t.Advance(3, 3);
    var sent, kicks, _, _ := t.Txsync(true, false, false, false);
    SecondIsDestroyed(t.log, t.theirs, first, second, third);
  }

  /** One undisturbed turn of a user who sends all it may, while both flags are clear: everything is staged,
      and the slots are given back at once. */
  method StageAll(t: TxPath)
    requires t.Inv() && !t.hostNeedTxkick && !t.guestNeedTxkick && Idx(t.log.published, t.shared.Length) != t.tail
    modifies t, t.shared, t.local
    ensures t.Inv() && !t.hostNeedTxkick && !t.guestNeedTxkick && t.tail == old(t.tail)
    ensures t.log.published == old(t.log.published) && t.read == old(t.read)
    ensures t.g.taken == old(t.g.limit) && t.g.limit == t.g.taken + t.shared.Length - 1
  {
    hide Idx, Lockstep, Faithful, FullBuffers, UsableLengths, UserPackets, SentSlots;
    CursorsFit(t.g, t.shared.Length, t.At());
    var ok := t.Advance(t.hwtail, t.hwtail);
    var sent, kicks, busy, reclaimed := t.Txsync(true, false, false, false);
  }

  /** Any ring of two slots or more with both kick flags clear and room in the published ring goes round: three
      such turns stage as many packets as there are slots, none of them published. */
  method GoRound(t: TxPath)
    requires t.Inv() && 2 <= t.shared.Length
    requires !t.hostNeedTxkick && !t.guestNeedTxkick && Idx(t.log.published, t.shared.Length) != t.tail
    modifies t, t.shared, t.local
    ensures t.Inv() && t.log.published == old(t.log.published)
    ensures |t.log.sent| - t.log.published >= t.shared.Length
  {
    hide Idx, Lockstep, Faithful, FullBuffers, UsableLengths;
    CursorsFit(t.g, t.shared.Length, t.At());
    StageAll(t);
    StageAll(t);
    StageAll(t);
  }

  /** Such a state is reached by one kick with an interrupt between its two flag writes, on a ring of any size. */
  method StagedGoRound(slots: nat) returns (t: TxPath)
    requires 3 <= slots <= 0x10000
    ensures fresh(t) && t.Inv() && t.shared.Length == slots && |t.log.sent| - t.log.published >= slots
  {
    hide Lockstep, Faithful, FullBuffers, UsableLengths, UserPackets, SentSlots;
    t := new TxPath(slots);
    assert Idx(0, slots) == 0 && Idx(1, slots) == 1;
    CursorsFit(t.g, slots, t.At());
    var ok := t.Advance(1, 1);
    var sent, kicks, busy, reclaimed := t.Txsync(true, false, false, true);
    assert sent == 1 && t.log.published == 1;
    GoRound(t);
  }

  lemma SlotReused(l: Log, theirs: seq<Slot>, p: Packet)
    requires Faithful(l, theirs) && |theirs| == 8 && l.published == 5 && |l.sent| == 11 && |l.sent[9]| != |p|
    ensures !Holds(theirs[Idx(1, 8)], p)
  {
    hide Staged;
    PendingFits(l, theirs);
    StagedLen(l.base, 5, Pending(l), 4);
    assert Idx(9, 8) == Idx(1, 8);
  }

  /** First half of the run below: four packets on a ring of eight slots, of which one is published, then an
      interrupt and a forced reclaim. */
  method ReclaimedEarly(p: Packet) returns (t: TxPath)
    requires |p| <= BUF_SIZE
    ensures fresh(t) && fresh(t.shared) && fresh(t.local) && t.Inv() && t.Paced() && t.shared.Length == 8
    ensures t.log.published == 1 && |t.log.sent| == 4 && t.log.sent[1] == p && t.read == 0
    ensures t.hostNeedTxkick && t.tail == 7 && t.g == Count(4, 4, 11)
  {
    hide Lockstep, Faithful, Holds, ScenePaced, FullBuffers, UsableLengths, Payload, SentSlots;
    assert Idx(0, 8) == 0 && Idx(1, 8) == 1 && Idx(4, 8) == 4;
    t := new TxPath(8);
    ghost var c := t.Now();
    t.UserWrite(1, p);
    PacedIdle(c, t.Now(), t.g.limit);
    CursorsFit(t.g, 8, t.At());
    var ok := t.Advance(4, 4);
    var sent, kicks, busy, reclaimed := t.Txsync(true, false, false, false);
    c := t.Now();
    t.Interrupt(true);
    PacedIdle(c, t.Now(), t.g.limit);
    sent, kicks, busy, reclaimed := t.Txsync(true, true, false, false);
  }

  /** A published packet can be overwritten before the backend has read it, without any such interrupt: the
      user gets its slots back when the backend has answered the first of four packets, and xmit tests
      the published cursor, not its own, against the tail. */
  method OverwrittenUnread(p: Packet, q: Packet) returns (t: TxPath)
    requires |p| <= BUF_SIZE && |q| <= BUF_SIZE && |p| != |q|
    ensures fresh(t) && t.Inv() && t.Paced() && t.shared.Length == 8
    ensures t.read <= 1 < t.log.published < |t.log.sent| && t.log.sent[1] == p
    ensures |t.theirs| == 8 && !Holds(t.theirs[Idx(1, 8)], p)
  {
    hide Lockstep, Faithful, Holds, ScenePaced, FullBuffers, UsableLengths, Payload, SentSlots;
    assert Idx(1, 8) == 1 && Idx(4, 8) == 4 && Idx(5, 8) == 5 && Idx(9, 8) == 1;
    t := ReclaimedEarly(p);
    ghost var c := t.Now();
    t.UserWrite(1, q);
    PacedIdle(c, t.Now(), t.g.limit);
    CursorsFit(t.g, 8, t.At());
    var ok := t.Advance(3, 3);
    var sent, kicks, busy, reclaimed := t.Txsync(true, false, false, false);
    SlotReused(t.log, t.theirs, p);
  }
}
