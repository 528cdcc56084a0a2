/** The learning bridges: one table of 1024 entries, overwritten on collision and guarded by an address tag. */
module Learning {
  import opened Mixer
  import opened Addresses

  /** The last-byte learner's index. */
  function LastByteOf(m: Mac): (h: nat)
    ensures h < BDG_HASH
  {
    m[5] as int
  }

  lemma LastBytes(b: Buffer)
    ensures LastByteOf(b[..6]) == b[5] as int && LastByteOf(b[6..12]) == b[11] as int
  {
  }

  /** One frame given to a learner by the bridge port it came from; at is the learner's index for its source. */
  datatype Frame = Frame(buf: Buffer, port: nat, at: nat)

  // What the table approximates: the whole history

  /** The latest frame that stored its source in entry b, or -1. */
  ghost function LatestIn(h: seq<Frame>, b: nat): (i: int)
    ensures -1 <= i < |h|
  {
    if h == [] then -1
    else
      var f := h[|h| - 1];
      if !Group(Source(f.buf)) && f.at == b then |h| - 1
      else LatestIn(h[..|h| - 1], b)
  }

  /** The latest frame from an address, or -1: what an unbounded learning table would hold. */
  ghost function LatestFrom(h: seq<Frame>, m: Mac): (i: int)
    ensures -1 <= i < |h|
    ensures i >= 0 ==> Source(h[i].buf) == m
    ensures forall j :: i < j < |h| ==> Source(h[j].buf) != m
  {
    if h == [] then -1
    else if Source(h[|h| - 1].buf) == m then |h| - 1
    else LatestFrom(h[..|h| - 1], m)
  }

  ghost function Stored(h: seq<Frame>, b: nat): Entry
  {
    var i := LatestIn(h, b);
    if i < 0 then Entry(0, 0) else Entry(Pack(Source(h[i].buf)), h[i].port)
  }

  /** The forwarding decision after history h for destination d, whose index is at. */
  ghost function Answer(h: seq<Frame>, d: Mac, at: nat, default: nat): nat
  {
    var i := LatestIn(h, at);
    if Group(d) then default
    else if i < 0 then if d == NOWHERE then 0 else default
    else if Source(h[i].buf) == d then h[i].port
    else default
  }

  lemma StoredAnswers(h: seq<Frame>, d: Mac, at: nat, default: nat)
    requires !Group(d)
    ensures var e := Stored(h, at); Answer(h, d, at, default) == if e.mac == Pack(d) then e.ports else default
  {
    hide Pack, Group;
    PackNowhere();
    PackInjective(NOWHERE, d);
    var i := LatestIn(h, at);
    if i >= 0 { PackInjective(Source(h[i].buf), d); }
  }

  lemma {:induction false} LatestInStores(h: seq<Frame>, b: nat)
    ensures var i := LatestIn(h, b);
            && (i >= 0 ==> !Group(Source(h[i].buf)) && h[i].at == b)
            && forall j :: i < j < |h| && h[j].at == b ==> Group(Source(h[j].buf))
  {
    hide Group, Source;
    if h != [] && LatestIn(h, b) < |h| - 1 {
      LatestInStores(h[..|h| - 1], b);
    }
  }

  /** One learner has seen all these frames: their indices are its hash of their sources. */
  ghost predicate IndexedBy(h: seq<Frame>, hash: Mac -> nat)
  {
    forall i :: 0 <= i < |h| ==> h[i].at == hash(Source(h[i].buf))
  }

  /** Soundness and exactness, for any hash: a unicast destination gets the port of the latest frame from
      it if that frame is also the latest to store anything in the destination's entry, and the default
      otherwise. */
  lemma {:induction false} LearnedExactly(h: seq<Frame>, d: Mac, hash: Mac -> nat, default: nat)
    requires IndexedBy(h, hash) && !Group(d) && d != NOWHERE
    ensures Answer(h, d, hash(d), default)
         == if 0 <= LatestFrom(h, d) == LatestIn(h, hash(d)) then h[LatestFrom(h, d)].port else default
  {
    hide Group, Source, Pack;
    LatestInStores(h, hash(d));
  }

  /** A later unicast source with the index of d. */
  ghost predicate Overwritten(h: seq<Frame>, d: Mac, at: nat)
  {
    exists j :: LatestFrom(h, d) < j < |h| && !Group(Source(h[j].buf)) && h[j].at == at
  }

  /** The table forgets an address exactly when a later unicast source with the same index displaced it. */
  lemma {:induction false} ForgottenExactly(h: seq<Frame>, d: Mac, hash: Mac -> nat)
    requires IndexedBy(h, hash) && !Group(d) && LatestFrom(h, d) >= 0
    ensures LatestIn(h, hash(d)) != LatestFrom(h, d) <==> Overwritten(h, d, hash(d))
  {
    hide Group, Source, Pack;
    LatestInStores(h, hash(d));
  }

  /** Even when learners with different hashes take turns on one table, a non-default answer is a port
      from which the destination has been seen. */
  lemma NeverInvented(h: seq<Frame>, d: Mac, at: nat, default: nat)
    requires d != NOWHERE && Answer(h, d, at, default) != default
    ensures exists i :: 0 <= i < |h| && Source(h[i].buf) == d && h[i].port == Answer(h, d, at, default)
  {
    hide Group, Source, Pack;
    assert LatestIn(h, at) >= 0;
  }

  lemma StoredChanges(h: seq<Frame>, f: Frame, b: nat)
    ensures Stored(h + [f], b)
         == if !Group(Source(f.buf)) && f.at == b then Entry(Pack(Source(f.buf)), f.port) else Stored(h, b)
  {
    hide Group, Source, Pack;
    assert (h + [f])[..|h|] == h;
  }

  ghost predicate Holds(t: seq<Entry>, h: seq<Frame>)
  {
    |t| == BDG_HASH && forall b :: 0 <= b < BDG_HASH ==> t[b] == Stored(h, b)
  }

  lemma Learned(t: seq<Entry>, h: seq<Frame>, f: Frame)
    requires Holds(t, h) && !Group(Source(f.buf)) && f.at < BDG_HASH
    ensures Holds(t[f.at := Entry(SourceKey(f.buf), f.port)], h + [f])
  {
    hide Group, Pack, Stored, SourceKey;
    forall b | 0 <= b < BDG_HASH ensures t[f.at := Entry(SourceKey(f.buf), f.port)][b] == Stored(h + [f], b) {
      StoredChanges(h, f, b);
    }
  }

  lemma Ignored(t: seq<Entry>, h: seq<Frame>, f: Frame)
    requires Holds(t, h) && Group(Source(f.buf))
    ensures Holds(t, h + [f])
  {
    hide Group, Source, Pack, Stored;
    forall b | 0 <= b < BDG_HASH ensures t[b] == Stored(h + [f], b) {
      StoredChanges(h, f, b);
    }
  }

  lemma Decided(t: seq<Entry>, h: seq<Frame>, buf: Buffer, at: nat, default: nat)
    requires Holds(t, h) && at < BDG_HASH
    ensures Answer(h, Destination(buf), at, default)
         == if !Group(Destination(buf)) && t[at].mac == DestinationKey(buf) then t[at].ports else default
  {
    hide Pack, Stored, DestinationKey, Group;
    if !Group(Destination(buf)) { StoredAnswers(h, Destination(buf), at, default); }
  }

  /** The decision in bytes: a frame whose source, bytes 6 to 12, has the group bit clear teaches its port, until
      another one takes its entry. */
  ghost predicate Decides(h: seq<Frame>, buf: Buffer, at: nat, default: nat, dst: nat)
  {
    && (buf[0] & 1 != 0 ==> dst == default)
    && (buf[0] & 1 == 0 ==>
          && (forall i | 0 <= i < |h| && h[i].buf[6] & 1 == 0 && h[i].at == at
                         && (forall j | i < j < |h| && h[j].at == at :: h[j].buf[6] & 1 != 0) ::
                dst == if h[i].buf[6..12] == buf[..6] then h[i].port else default)
          && ((forall i | 0 <= i < |h| && h[i].at == at :: h[i].buf[6] & 1 != 0) ==>
                dst == if buf[..6] == [0, 0, 0, 0, 0, 0] then 0 else default))
  }

  lemma {:induction false} DecidedInBytes(h: seq<Frame>, buf: Buffer, at: nat, default: nat)
    ensures Decides(h, buf, at, default, Answer(h, buf[..6], at, default))
  {
    LatestInStores(h, at);
    hide Pack;
  }

  class Bridge {
    const ht: array<Entry>
    /** What the last-byte learner answers for an unknown destination: a module parameter. */
    var nodst: nat
    ghost var past: seq<Frame>

    ghost predicate Valid()
      reads this, ht
    {
      Holds(ht[..], past)
    }

    constructor (nodst: nat)
      ensures Valid() && fresh(ht) && past == [] && this.nodst == nodst
    {
      ht := new Entry[BDG_HASH](_ => Entry(0, 0));
      this.nodst := nodst;
      past := [];
    }

    /** Store the source, then decide. */
    method BdgLearning(buf: Buffer, mysrc: nat) returns (dst: nat, dstRing: nat)
      requires Valid()
      modifies `past, ht
      ensures Valid() && past == old(past) + [Frame(buf, mysrc, HashOf(buf[6..12]))]
      ensures Decides(past, buf, HashOf(buf[..6]), NM_BDG_BROADCAST, dst)
      ensures dst == Answer(past, Destination(buf), HashOf(Destination(buf)), NM_BDG_BROADCAST) && dstRing == 0
    {
      hide Pack, Stored, Answer, SourceKey, DestinationKey, Group, HashOf, Decides;
      var dmac := DestinationKey(buf);
      var smac := SourceKey(buf);
      ghost var f := Frame(buf, mysrc, HashOf(Source(buf)));
      ghost var t := ht[..];
      if !Group(Source(buf)) {
        Learned(t, past, f);
        var sh := Hash(Source(buf));
        ht[sh] := Entry(smac, mysrc);
        assert ht[..] == t[sh := Entry(smac, mysrc)];
      } else {
        Ignored(t, past, f);
      }
      past := past + [f];
      Decided(ht[..], past, buf, HashOf(Destination(buf)), NM_BDG_BROADCAST);
      DecidedInBytes(past, buf, HashOf(Destination(buf)), NM_BDG_BROADCAST);
      dst := NM_BDG_BROADCAST;
      if !Group(Destination(buf)) {
        var dh := Hash(Destination(buf));
        if ht[dh].mac == dmac {
          dst := ht[dh].ports;
        }
      }
      dstRing := 0;
    }

    method LsbLearning(buf: Buffer, mysrc: nat) returns (dst: nat, dstRing: nat)
      requires Valid()
      modifies `past, ht
      ensures Valid() && past == old(past) + [Frame(buf, mysrc, buf[11] as int)]
      ensures dst == Answer(past, buf[..6], buf[5] as int, nodst) && dstRing == 0
      ensures Decides(past, buf, buf[5] as int, nodst, dst)
    {
      hide Pack, Stored, Answer, SourceKey, DestinationKey, Group, LastByteOf, Decides;
      LastBytes(buf);
      ghost var f := Frame(buf, mysrc, LastByteOf(Source(buf)));
      ghost var t := ht[..];
      if !Group(Source(buf)) {
        Learned(t, past, f);
        var sh := LastByteOf(Source(buf));
        var smac := SourceKey(buf);
        ht[sh] := Entry(smac, mysrc);
        assert ht[..] == t[sh := Entry(smac, mysrc)];
      } else {
        Ignored(t, past, f);
      }
      past := past + [f];
      Decided(ht[..], past, buf, LastByteOf(Destination(buf)), nodst);
      DecidedInBytes(past, buf, LastByteOf(Destination(buf)), nodst);
      dst := nodst;
      if !Group(Destination(buf)) {
        var dh := LastByteOf(Destination(buf));
        var dmac := DestinationKey(buf);
        if ht[dh].mac == dmac {
          dst := ht[dh].ports;
        }
      }
      dstRing := 0;
    }
  }
}
