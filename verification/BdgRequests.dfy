/** The control requests of the static bridges, as the kernel modules and the command-line client share them. */
module BdgRequests {
  import opened Mixer

  const ENOENT := 2

  /** A request: six address bytes, two bytes of padding, and four numbers. */
  datatype Request = Request(addr: seq<Byte>, pad: seq<Byte>, port: nat, idx: nat, dst: nat, arg: nat)

  predicate Shaped(r: Request)
  {
    |r.addr| == 6 && |r.pad| == 2
  }

  /** What one table entry shows to the client, if anything: its address bytes and its port. */
  datatype Shown = Unused | Used(bytes: seq<Byte>, port: nat)

  /** The first used entry from k on, or the table's length. */
  ghost function NextUsed(rows: seq<Shown>, k: nat): (n: nat)
    requires k <= |rows|
    ensures k <= n <= |rows|
    ensures forall j :: k <= j < n ==> rows[j].Unused?
    ensures n < |rows| ==> rows[n].Used?
    decreases |rows| - k
  {
    if k == |rows| || rows[k].Used? then k else NextUsed(rows, k + 1)
  }

  /** One list request that starts at r.arg answers with rc and the request q. */
  ghost predicate Lists(rows: seq<Shown>, r: Request, rc: int, q: Request)
  {
    if r.arg < |rows| && NextUsed(rows, r.arg) < |rows| then
      var k := NextUsed(rows, r.arg);
      && rc == 0
      && |rows[k].bytes| <= 6 == |r.addr|
      && q == r.(addr := rows[k].bytes + r.addr[|rows[k].bytes|..], port := rows[k].port, arg := k)
    else
      rc == ENOENT && q == r
  }
}
