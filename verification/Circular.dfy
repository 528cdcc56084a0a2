/** Cursor arithmetic of a netmap ring: cursors are slot numbers below the slot count, and the
    history they stand for is an absolute packet count taken modulo the slot count. */
module Circular {

  /** The slot that holds the packet with absolute number k: k modulo the slot count. */
  function Idx(k: nat, n: nat): (i: nat)
    requires 0 < n
    ensures i < n
  {
    if k < n then k else Idx(k - n, n)
  }

  /** nm_next and NETMAP_RING_NEXT. */
  function Next(i: nat, n: nat): nat
    requires i < n
  {
    if i + 1 == n then 0 else i + 1
  }

  /** nm_prev. */
  function Prev(i: nat, n: nat): nat
    requires i < n
  {
    if i == 0 then n - 1 else i - 1
  }

  /** Slots from a forward to b; nm_ring_space is this distance from cur to tail. */
  function Dist(a: nat, b: nat, n: nat): nat
    requires a < n && b < n
  {
    if a <= b then b - a else b + n - a
  }

  function Min(a: nat, b: nat): nat { if a <= b then a else b }

  /** It is the remainder after whole laps. */
  lemma {:induction false} IdxIs(k: nat, n: nat)
    requires 0 < n
    ensures Idx(k, n) == k % n
  {
    if k >= n {
      IdxIs(k - n, n);
      LapLess(k, n);
    }
  }

  lemma LapLess(k: nat, n: nat)
    requires 0 < n <= k
    ensures (k - n) % n == k % n
  {
    var q, r := (k - n) / n, (k - n) % n;
    assert k == n * (q + 1) + r;
    Remainder(k, n, q + 1, r);
  }

  lemma Remainder(k: nat, n: nat, q: nat, r: nat)
    requires k == n * q + r && r < n
    ensures k % n == r
  {
    var d := k / n - q;
    assert n * d == r - k % n;
  }

  lemma {:induction false} IdxNext(k: nat, n: nat)
    requires 0 < n
    ensures Idx(k + 1, n) == Next(Idx(k, n), n)
  {
    if k >= n {
      IdxNext(k - n, n);
    }
  }

  /** Two packets less than one lap apart are exactly as far apart as their slots. */
  lemma {:induction false} IdxDist(a: nat, b: nat, n: nat)
    requires 0 < n && a <= b < a + n
    ensures Dist(Idx(a, n), Idx(b, n), n) == b - a
  {
    if a >= n {
      IdxDist(a - n, b - n, n);
    }
  }

  /** Hence packets less than one lap apart never share a slot. */
  lemma IdxApart(a: nat, b: nat, n: nat)
    requires 0 < n && a < b < a + n
    ensures Idx(a, n) != Idx(b, n)
  {
    IdxDist(a, b, n);
  }

  /** The slot before the one of packet k is the slot one lap minus one further on. */
  lemma {:induction false} IdxPrev(k: nat, n: nat)
    requires 0 < n
    ensures Idx(k + n - 1, n) == Prev(Idx(k, n), n)
  {
    if k >= n {
      IdxPrev(k - n, n);
    }
  }

  /** Walking Dist slots forward from a's slot arrives at the target slot. */
  lemma {:induction false} IdxAdvance(a: nat, target: nat, n: nat)
    requires 0 < n && target < n
    ensures Idx(a + Dist(Idx(a, n), target, n), n) == target
  {
    if a >= n {
      IdxAdvance(a - n, target, n);
    }
  }
}
