/** Ring references travel through the store: the backend writes one key per reference under names that
    it formats into a fixed buffer, the guest reads them back by their full names. */
module RingRefs {
  import opened GrantTransfer

  function Digit(d: nat): char
    requires d < 10
  {
    (48 + d) as char
  }

  /** The "%u" rendering of a number. */
  function Decimal(i: nat): (s: string)
    ensures 0 < |s| && '0' <= s[0] <= '9'
  {
    if i < 10 then [Digit(i)] else Decimal(i / 10) + [Digit(i % 10)]
  }

  /** Reading decimal digits. */
  function Value(s: string): int
  {
    if s == "" then 0 else 10 * Value(s[..|s| - 1]) + (s[|s| - 1] as int - 48)
  }

  /** The rendering is of that number. */
  lemma {:induction false} DecimalReads(i: nat)
    ensures Value(Decimal(i)) == i && forall k | 0 <= k < |Decimal(i)| :: '0' <= Decimal(i)[k] <= '9'
  {
    if i < 10 {
      assert Decimal(i)[..0] == "";
    } else {
      DecimalReads(i / 10);
      assert Decimal(i)[..|Decimal(i)| - 1] == Decimal(i / 10);
    }
  }

  /** Characters that fit into char name[sizeof("tx-ring-ref") + 2] beside the terminator. */
  const NAME_MAX := 13

  /** The prefixes "tx-ring-ref" and "rx-ring-ref". */
  type Prefix = s: string | |s| == 11 witness "tx-ring-ref"

  const TX: Prefix := "tx-ring-ref"
  const RX: Prefix := "rx-ring-ref"

  /** The name the backend writes reference i under: snprintf cuts it off. */
  function WrittenName(prefix: Prefix, i: nat): string
  {
    var s := prefix + Decimal(i);
    if |s| <= NAME_MAX then s else s[..NAME_MAX]
  }

  /** The name the guest reads reference i under. */
  function ReadName(prefix: Prefix, i: nat): string
  {
    prefix + Decimal(i)
  }

  lemma DecimalShape(i: nat)
    ensures i < 10 ==> Decimal(i) == [Digit(i)]
    ensures 10 <= i < 100 ==> Decimal(i) == [Digit(i / 10), Digit(i % 10)]
    ensures 100 <= i ==> |Decimal(i)| >= 3
  {
    if 100 <= i {
      assert i / 10 >= 10 && |Decimal(i / 10)| >= 2;
    } else if 10 <= i {
      assert Decimal(i / 10) == [Digit(i / 10)];
    }
  }

  /** Names of references below 100 are read as written and tell the references apart. */
  lemma ShortNames(prefix: Prefix, i: nat, j: nat)
    requires i < 100 && j < 100
    ensures WrittenName(prefix, i) == ReadName(prefix, i)
    ensures WrittenName(prefix, i) == WrittenName(prefix, j) ==> i == j
  {
    DecimalShape(i);
    DecimalShape(j);
    var a, b := prefix + Decimal(i), prefix + Decimal(j);
    assert a[11..] == Decimal(i) && b[11..] == Decimal(j);
  }

  /** The name of reference 100 is cut down to that of reference 10. */
  lemma HundredOverwritesTen(prefix: Prefix)
    ensures WrittenName(prefix, 100) == ReadName(prefix, 10) == WrittenName(prefix, 10)
  {
    DecimalShape(10);
    assert Decimal(100) == Decimal(10) + [Digit(0)];
    assert WrittenName(prefix, 100) == prefix + Decimal(10);
  }

  /** The store after the first n references were written. */
  function Written(kv: map<string, nat>, prefix: Prefix, refs: seq<nat>, n: nat): map<string, nat>
    requires n <= |refs|
  {
    if n == 0 then kv else Written(kv, prefix, refs, n - 1)[WrittenName(prefix, n - 1) := refs[n - 1]]
  }

  lemma {:induction false} WrittenShort(kv: map<string, nat>, prefix: Prefix, refs: seq<nat>, n: nat, i: nat)
    requires i < n <= |refs| && n <= 100
    ensures ReadName(prefix, i) in Written(kv, prefix, refs, n) && Written(kv, prefix, refs, n)[ReadName(prefix, i)] == refs[i]
  {
    ShortNames(prefix, i, n - 1);
    if i < n - 1 {
      WrittenShort(kv, prefix, refs, n - 1, i);
    }
  }

  lemma {:induction false} WrittenLong(kv: map<string, nat>, prefix: Prefix, refs: seq<nat>, n: nat) returns (j: nat)
    requires 100 < n <= |refs|
    ensures 100 <= j < n && ReadName(prefix, 10) in Written(kv, prefix, refs, n)
    ensures Written(kv, prefix, refs, n)[ReadName(prefix, 10)] == refs[j]
  {
    if n == 101 {
      HundredOverwritesTen(prefix);
      j := 100;
    } else if WrittenName(prefix, n - 1) == ReadName(prefix, 10) {
      j := n - 1;
    } else {
      j := WrittenLong(kv, prefix, refs, n - 1);
    }
  }

  /** The guest reads back what it will map: the first count references. */
  ghost predicate ReadsBack(kv: map<string, nat>, prefix: Prefix, refs: seq<nat>, count: nat)
    requires count <= |refs|
  {
    forall i | 0 <= i < count :: ReadName(prefix, i) in kv && kv[ReadName(prefix, i)] == refs[i]
  }

  /** With count ring pages the backend writes count + 1 references, and the guest reads the first count
      of them back right exactly if there are at most 99. */
  lemma HandOffExactlyUpTo99(kv: map<string, nat>, prefix: Prefix, refs: seq<nat>, count: nat)
    requires |refs| == count + 1 && Distinct(refs)
    ensures ReadsBack(Written(kv, prefix, refs, count + 1), prefix, refs, count) <==> count <= 99
  {
    var kv' := Written(kv, prefix, refs, count + 1);
    if count <= 99 {
      forall i | 0 <= i < count
        ensures ReadName(prefix, i) in kv' && kv'[ReadName(prefix, i)] == refs[i]
      {
        WrittenShort(kv, prefix, refs, count + 1, i);
      }
    } else {
      var j := WrittenLong(kv, prefix, refs, count + 1);
      assert kv'[ReadName(prefix, 10)] == refs[j] != refs[10];
    }
  }

  /** Writing one ring's references touches only keys made of its prefix and a digit. */
  lemma {:induction false} WrittenElsewhere(kv: map<string, nat>, prefix: Prefix, refs: seq<nat>, n: nat, key: string)
    requires n <= |refs| && |key| >= 12 && (key[..11] != prefix || !('0' <= key[11] <= '9'))
    ensures key in Written(kv, prefix, refs, n) <==> key in kv
    ensures key in kv ==> Written(kv, prefix, refs, n)[key] == kv[key]
  {
    if n > 0 {
      var name := WrittenName(prefix, n - 1);
      assert name[..11] == prefix && name[11] == Decimal(n - 1)[0];
      WrittenElsewhere(kv, prefix, refs, n - 1, key);
    }
  }

  /** One ring's part of xenbus_write_grefs: the references, then their number. */
  function RingWritten(kv: map<string, nat>, prefix: Prefix, refs: seq<nat>): map<string, nat>
  {
    Written(kv, prefix, refs, |refs|)[prefix + "s" := |refs|]
  }

  /** What the guest finds in the store for one ring of count pages. */
  ghost predicate HandedOver(kv: map<string, nat>, prefix: Prefix, refs: seq<nat>, count: nat)
    requires count <= |refs|
  {
    prefix + "s" in kv && kv[prefix + "s"] == count + 1 && ReadsBack(kv, prefix, refs, count)
  }

  /** Both rings through one store: neither disturbs the other, and each gets through exactly if its page
      count is at most 99. */
  lemma BothRingsHandedOver(kv: map<string, nat>, txRefs: seq<nat>, rxRefs: seq<nat>)
    requires Distinct(txRefs) && Distinct(rxRefs) && txRefs != [] && rxRefs != []
    ensures var kv' := RingWritten(RingWritten(kv, TX, txRefs), RX, rxRefs);
            && (HandedOver(kv', TX, txRefs, |txRefs| - 1) <==> |txRefs| - 1 <= 99)
            && (HandedOver(kv', RX, rxRefs, |rxRefs| - 1) <==> |rxRefs| - 1 <= 99)
  {
    var kv1 := RingWritten(kv, TX, txRefs);
    var kv2 := RingWritten(kv1, RX, rxRefs);
    RingAlone(kv, TX, txRefs);
    RingAlone(kv1, RX, rxRefs);
    RingKeeps(kv1, RX, rxRefs, TX, "s");
    forall i: nat
      ensures ReadName(TX, i) in kv2 <==> ReadName(TX, i) in kv1
      ensures ReadName(TX, i) in kv1 ==> kv2[ReadName(TX, i)] == kv1[ReadName(TX, i)]
    {
      RingKeeps(kv1, RX, rxRefs, TX, Decimal(i));
    }
  }

  lemma RingAlone(kv: map<string, nat>, prefix: Prefix, refs: seq<nat>)
    requires Distinct(refs) && refs != []
    ensures HandedOver(RingWritten(kv, prefix, refs), prefix, refs, |refs| - 1) <==> |refs| - 1 <= 99
  {
    HandOffExactlyUpTo99(kv, prefix, refs, |refs| - 1);
    forall i: nat
      ensures ReadName(prefix, i) != prefix + "s"
    {
      assert ReadName(prefix, i)[11] == Decimal(i)[0];
    }
  }

  lemma RingKeeps(kv: map<string, nat>, prefix: Prefix, refs: seq<nat>, other: Prefix, suffix: string)
    requires prefix != other && suffix != []
    ensures other + suffix in RingWritten(kv, prefix, refs) <==> other + suffix in kv
    ensures other + suffix in kv ==> RingWritten(kv, prefix, refs)[other + suffix] == kv[other + suffix]
  {
    var key := other + suffix;
    assert key[..11] == other && (prefix + "s")[..11] == prefix;
    WrittenElsewhere(kv, prefix, refs, |refs|, key);
  }

  /** The store of one device. */
  class Store {
    var kv: map<string, nat>

    constructor ()
      ensures kv == map[]
    {
      kv := map[];
    }

    /** xenbus_write_grefs; the descriptors' reference arrays hold count + 1 references each. */
    method WriteGrefs(txRef: array<nat>, txCount: nat, rxRef: array<nat>, rxCount: nat)
      requires txCount < txRef.Length && rxCount < rxRef.Length
      modifies this
      ensures kv == RingWritten(RingWritten(old(kv), TX, txRef[..txCount + 1]), RX, rxRef[..rxCount + 1])
    {
      WriteRing(TX, txRef, txCount);
      WriteRing(RX, rxRef, rxCount);
    }

    method WriteRing(prefix: Prefix, ref: array<nat>, count: nat)
      requires count < ref.Length
      modifies this
      ensures kv == RingWritten(old(kv), prefix, ref[..count + 1])
    {
      var i := 0;
      while i <= count
        invariant 0 <= i <= count + 1 && kv == Written(old(kv), prefix, ref[..count + 1], i)
      {
        kv := kv[WrittenName(prefix, i) := ref[i]];
        i := i + 1;
      }
      kv := kv[prefix + "s" := count + 1];
    }

    /** One ring's part of xenbus_read_ring_grefs; a key that is missing leaves its entry as it was. */
    method ReadRing(prefix: Prefix) returns (n: nat, grefs: array<nat>)
      requires prefix + "s" in kv
      ensures n == kv[prefix + "s"] && fresh(grefs) && n <= grefs.Length
      ensures forall i | 0 <= i < n && ReadName(prefix, i) in kv :: grefs[i] == kv[ReadName(prefix, i)]
    {
      n := kv[prefix + "s"];
      grefs := new nat[n];
      for i := 0 to n
        invariant forall j | 0 <= j < i && ReadName(prefix, j) in kv :: grefs[j] == kv[ReadName(prefix, j)]
      {
        if ReadName(prefix, i) in kv {
          grefs[i] := kv[ReadName(prefix, i)];
        }
      }
    }
  }
}
