/** Ring slots with the buffers they name, and rings seen as windows onto a packet log. */
module RingSlots {
  import opened Circular
  import opened Sizes

  type Byte = b: int | 0 <= b < 256
  type Packet = seq<Byte>

  /** Slot flags: NS_BUF_CHANGED, NS_REPORT, and the other bits. */
  datatype Flags = Flags(bufChanged: bool, report: bool, others: nat)

  /** A ring slot together with the buffer it names. */
  datatype Slot = Slot(len: nat, buf: seq<Byte>, flags: Flags)

  predicate Holds(s: Slot, p: Packet)
  {
    s.len == |p| && s.len <= |s.buf| && s.buf[..s.len] == p
  }

  /** Slots lo .. hi - 1 (packet numbers, so modulo the ring) hold the log's packets of those numbers. */
  ghost predicate Window(slots: seq<Slot>, lo: nat, hi: nat, log: seq<Packet>)
    requires 0 < |slots| && hi <= |log|
  {
    forall k | lo <= k < hi :: Holds(slots[Idx(k, |slots|)], log[k])
  }

  ghost predicate FullBuffers(slots: seq<Slot>)
  {
    forall i | 0 <= i < |slots| :: |slots[i].buf| == BUF_SIZE
  }

  ghost predicate UsableLengths(slots: seq<Slot>)
  {
    forall i | 0 <= i < |slots| :: slots[i].len <= BUF_SIZE
  }

  /** Slots lo .. hi - 1 have their NS_BUF_CHANGED flag clear. */
  ghost predicate Cleared(slots: seq<Slot>, lo: nat, hi: nat)
    requires 0 < |slots|
  {
    forall k | lo <= k < hi :: !slots[Idx(k, |slots|)].flags.bufChanged
  }

  lemma ClearedEmpty(slots: seq<Slot>, lo: nat)
    requires 0 < |slots|
    ensures Cleared(slots, lo, lo)
  {
  }

  /** A ring with full-size buffers that holds the packets lo .. hi - 1 of the log. */
  ghost predicate RingHolds(slots: seq<Slot>, lo: nat, hi: nat, log: seq<Packet>)
  {
    0 < |slots| && hi <= |log| && FullBuffers(slots) && Window(slots, lo, hi, log)
  }

  /** Slots lo .. hi - 1 carry the given flags. */
  ghost predicate Tagged(slots: seq<Slot>, lo: nat, hi: nat, flags: Flags)
  {
    0 < |slots| && forall k | lo <= k < hi :: slots[Idx(k, |slots|)].flags == flags
  }

  lemma TaggedEmpty(slots: seq<Slot>, lo: nat, flags: Flags)
    requires 0 < |slots|
    ensures Tagged(slots, lo, lo, flags)
  {
  }

  lemma TaggedGrows(slots: seq<Slot>, lo: nat, hi: nat, s: Slot)
    requires Tagged(slots, lo, hi, s.flags) && lo <= hi < lo + |slots|
    ensures Tagged(slots[Idx(hi, |slots|) := s], lo, hi + 1, s.flags)
  {
    forall k | lo <= k < hi
      ensures Idx(k, |slots|) != Idx(hi, |slots|)
    {
      IdxApart(k, hi, |slots|);
    }
  }

  /** The slot with NS_BUF_CHANGED cleared. */
  function ClearChanged(s: Slot): Slot
  {
    s.(flags := s.flags.(bufChanged := false))
  }

  /** From slot lo on, the slots up to hi have NS_BUF_CHANGED cleared and nothing else changed. */
  ghost predicate OnlyCleared(before: seq<Slot>, slots: seq<Slot>, lo: nat, hi: nat)
  {
    0 < |before| == |slots| && forall k | lo <= k < lo + |slots| :: ClearedAt(before, slots, k, hi)
  }

  predicate ClearedAt(before: seq<Slot>, slots: seq<Slot>, k: nat, hi: nat)
    requires 0 < |before| == |slots|
  {
    var s, s' := before[Idx(k, |slots|)], slots[Idx(k, |slots|)];
    && s'.len == s.len && s'.buf == s.buf && s'.flags.report == s.flags.report && s'.flags.others == s.flags.others
    && s'.flags.bufChanged == (s.flags.bufChanged && k >= hi)
  }

  lemma NoneCleared(slots: seq<Slot>, lo: nat)
    requires 0 < |slots|
    ensures OnlyCleared(slots, slots, lo, lo)
  {
  }

  lemma OneCleared(before: seq<Slot>, slots: seq<Slot>, lo: nat, k: nat)
    requires OnlyCleared(before, slots, lo, k) && lo <= k < lo + |slots|
    ensures var i := Idx(k, |slots|); OnlyCleared(before, slots[i := ClearChanged(slots[i])], lo, k + 1)
  {
    var i := Idx(k, |slots|);
    var slots', hi := slots[i := ClearChanged(slots[i])], k + 1;
    forall j | lo <= j < lo + |slots|
      ensures ClearedAt(before, slots', j, hi)
    {
      assert ClearedAt(before, slots, j, k);
      if j < k { IdxApart(j, k, |slots|); }
      if j > k { IdxApart(k, j, |slots|); }
    }
  }

  /** memcpy of len bytes over the start of a buffer. */
  function Memcpy(dst: seq<Byte>, src: seq<Byte>, len: nat): seq<Byte>
    requires len <= |src| && len <= |dst|
  {
    src[..len] + dst[len..]
  }

  /** The slot after copying the first len bytes of a source buffer into it. */
  function Filled(s: Slot, src: seq<Byte>, len: nat, flags: Flags): Slot
    requires len <= |src| && len <= |s.buf|
  {
    Slot(len, Memcpy(s.buf, src, len), flags)
  }

  /** Filling the slot behind a window that is less than a lap long extends the window. */
  lemma RingFills(slots: seq<Slot>, lo: nat, log: seq<Packet>, p: Packet, s: Slot)
    requires RingHolds(slots, lo, |log|, log) && lo <= |log| && |log| - lo < |slots|
    requires |s.buf| == BUF_SIZE && Holds(s, p)
    ensures RingHolds(slots[Idx(|log|, |slots|) := s], lo, |log| + 1, log + [p])
  {
    forall k | lo <= k < |log|
      ensures Idx(k, |slots|) != Idx(|log|, |slots|)
    {
      IdxApart(k, |log|, |slots|);
    }
  }

  /** Clearing NS_BUF_CHANGED in slot k leaves the packets alone. */
  lemma RingCleared(slots: seq<Slot>, lo: nat, hi: nat, log: seq<Packet>, k: nat)
    requires RingHolds(slots, lo, hi, log) && lo <= k && Cleared(slots, lo, k)
    ensures var i := Idx(k, |slots|);
            var slots' := slots[i := ClearChanged(slots[i])];
            RingHolds(slots', lo, hi, log) && Cleared(slots', lo, k + 1)
  {
  }
}
