/** The backend's network interface: binding interrupts, starting its thread and taking both down again. */
module Interface {

  /** How the frontend wants to be notified: split channels are two, a single one serves both directions. */
  datatype Channels = NoChannel | Single | Split

  /** What the outside world does during one attempt to connect. */
  datatype Attempt = Attempt(
    netmap: bool,         // the backend's feature-netmap
    ringRefs: bool,       // both ring references are published
    channels: Channels,
    features: Features,
    rings: bool,          // the frontend's rings can be mapped
    txLine: int,          // the kernel's answers to the two bind requests: a line, or an error below 0
    rxLine: int,
    thread: bool,         // the kernel thread can be created
    mac: bool,            // the interface's address can be read
    watch: bool)          // the hotplug watch can be registered

  /** What the frontend's feature keys say, as far as it can stop a connection. */
  datatype Features = Unreadable | NoRxCopy | GsoConflict | Acceptable

  /** The kernel hands out positive line numbers, and never one that is in use. */
  predicate Possible(a: Attempt)
  {
    a.txLine != 0 && a.rxLine != 0 && a.txLine != a.rxLine
  }

  predicate Mappable(a: Attempt)
  {
    a.netmap || a.rings
  }

  predicate Bindable(a: Attempt)
  {
    a.txLine > 0 && (a.channels.Split? ==> a.rxLine > 0)
  }

  /** What xenvif_connect needs to succeed. */
  predicate Connects(a: Attempt)
  {
    Mappable(a) && Bindable(a) && a.thread
  }

  /** A single channel binds one line, split channels two. */
  ghost function Lines(tx: int, rx: int, d: nat): map<int, nat>
  {
    map[tx := d, rx := d]
  }

  lemma LinesAre(tx: int, rx: int, d: nat)
    ensures Lines(tx, rx, d) == map[tx := d, rx := d]
  {
  }

  /** Does this attempt free a line twice? The unwinding after a failed thread frees both lines even
      when they are one. */
  predicate FreesTwice(a: Attempt)
  {
    Mappable(a) && Bindable(a) && !a.thread && a.channels == Single
  }

  /** The interface of one frontend. A line of depth 0 is enabled. */
  class Xenvif {
    var txIrq: int
    var rxIrq: int
    var task: bool
    var carrier: bool
    var running: bool
    var netmap: bool
    var mapped: bool
    var napi: bool
    var depth: map<int, nat>
    /** The module references this interface accounts for. */
    var refs: int
    /** Calls the kernel would reject: an unbalanced enable, or freeing a line that is not bound. */
    var faults: nat

    ghost predicate Up()
      reads this
    {
      carrier && running
    }

    /** Nothing is held. rxIrq may be stale: only txIrq is cleared. */
    ghost predicate Idle()
      reads this
    {
      txIrq == 0 && !task && !carrier && !mapped && !napi && depth == map[]
    }

    /** Both lines are bound, enabled exactly while the interface is up, and the thread exists. */
    ghost predicate Live()
      reads this
    {
      && txIrq > 0 && rxIrq > 0 && task && mapped == !netmap
      && depth == Lines(txIrq, rxIrq, if Up() then 0 else 1)
      && napi == (Up() && !netmap)
    }

    ghost predicate Valid()
      reads this
    {
      Idle() || Live()
    }

    constructor (netmap: bool)
      ensures Idle() && !running && refs == 1 && faults == 0
    {
      txIrq, rxIrq, task, carrier, running, mapped, napi := 0, 0, false, false, false, false, false;
      depth, refs, faults := map[], 1, 0;
      this.netmap := netmap;
    }

    // The kernel's side

    method Bind(line: int) returns (err: int)
      requires line !in depth
      modifies `depth
      ensures err == line
      ensures depth == if line < 0 then old(depth) else old(depth)[line := 0]
    {
      err := line;
      if line >= 0 { depth := depth[line := 0]; }
    }

    method Unbind(line: int)
      modifies `depth, `faults
      ensures depth == old(depth) - {line}
      ensures faults == old(faults) + if line in old(depth) then 0 else 1
    {
      if line !in depth { faults := faults + 1; }
      depth := depth - {line};
    }

    method DisableIrq(line: int)
      requires line in depth
      modifies `depth
      ensures depth == old(depth)[line := old(depth)[line] + 1]
    {
      depth := depth[line := depth[line] + 1];
    }

    method EnableIrq(line: int)
      requires line in depth
      modifies `depth, `faults
      ensures depth == old(depth)[line := if old(depth)[line] == 0 then 0 else old(depth)[line] - 1]
      ensures faults == old(faults) + if old(depth)[line] == 0 then 1 else 0
    {
      if depth[line] == 0 { faults := faults + 1; } else { depth := depth[line := depth[line] - 1]; }
    }

    /** Enabling polling twice is one of the kernel's own BUGs. */
    method NapiEnable()
      requires !napi
      modifies `napi
      ensures napi
    {
      napi := true;
    }

    method NapiDisable()
      requires napi
      modifies `napi
      ensures !napi
    {
      napi := false;
    }

    // The driver

    /** Whatever was disabled once is enabled once: with balanced calls the kernel has nothing to reject. */
    method XenvifUp()
      requires depth == Lines(txIrq, rxIrq, 1) && !napi
      modifies `depth, `faults, `napi
      ensures depth == Lines(txIrq, rxIrq, 0) && napi == !netmap && faults == old(faults)
    {
      if !netmap { NapiEnable(); }
      EnableIrq(txIrq);
      if txIrq != rxIrq { EnableIrq(rxIrq); }
    }

    method XenvifDown()
      requires depth == Lines(txIrq, rxIrq, 0) && napi == !netmap
      modifies `depth, `napi
      ensures depth == Lines(txIrq, rxIrq, 1) && !napi
    {
      if !netmap { NapiDisable(); }
      DisableIrq(txIrq);
      if txIrq != rxIrq { DisableIrq(rxIrq); }
    }

    /** The kernel marks the device running before it calls ndo_open, and not running before ndo_stop. */
    method Open()
      requires Valid() && !running
      modifies this
      ensures Valid() && running && (Live() <==> old(Live())) && carrier == old(carrier)
      ensures depth.Keys == old(depth.Keys) && (carrier ==> forall line | line in depth :: depth[line] == 0)
      ensures napi == (carrier && !netmap)
      ensures netmap == old(netmap) && refs == old(refs) && faults == old(faults)
    {
      running := true;
      if carrier { XenvifUp(); }
    }

    method Close()
      requires Valid() && running
      modifies this
      ensures Valid() && !running && (Live() <==> old(Live())) && carrier == old(carrier)
      ensures depth.Keys == old(depth.Keys) && (forall line | line in depth :: depth[line] == 1) && !napi
      ensures netmap == old(netmap) && refs == old(refs) && faults == old(faults)
    {
      running := false;
      if carrier { XenvifDown(); }
    }

    /** Bind one line or two, each left disabled, or none. */
    method BindLines(a: Attempt) returns (ok: bool)
      requires depth == map[] && txIrq == 0 && Possible(a) && !a.channels.NoChannel?
      modifies `depth, `faults, `txIrq, `rxIrq
      ensures ok == Bindable(a) && faults == old(faults)
      ensures if ok then txIrq == a.txLine && rxIrq == (if a.channels.Single? then a.txLine else a.rxLine)
                         && depth == Lines(txIrq, rxIrq, 1)
              else depth == map[] && txIrq == 0
    {
      ok := false;
      var err := Bind(a.txLine);
      if err < 0 { return; }
      txIrq := err;
      if a.channels == Single { rxIrq := err; }
      DisableIrq(txIrq);
      if a.channels == Split {
        err := Bind(a.rxLine);
        if err < 0 {
          Unbind(txIrq);
          txIrq := 0;
          return;
        }
        rxIrq := err;
        DisableIrq(rxIrq);
      }
      ok := true;
    }

    /** The unwinding after the thread could not be created. */
    method UnbindLines()
      requires depth == Lines(txIrq, rxIrq, 1)
      modifies `depth, `faults, `txIrq, `rxIrq
      ensures depth == map[] && txIrq == 0
      ensures faults == old(faults) + if old(txIrq == rxIrq) then 1 else 0
    {
      Unbind(rxIrq);
      rxIrq := 0;
      Unbind(txIrq);
      txIrq := 0;
    }

    /** Bind the lines, disabled, and start the thread, or undo the part that was done. Idle() is what the
        two BUG_ON lines at the start ask for. */
    method Connect(a: Attempt) returns (ok: bool)
      requires Idle() && Possible(a) && !a.channels.NoChannel? && netmap == a.netmap
      modifies this
      ensures ok == Connects(a)
      ensures if ok then Live() && carrier else Idle()
      ensures ok <==> (netmap || a.rings) && a.txLine > 0 && (a.channels == Split ==> a.rxLine > 0) && a.thread
      ensures ok ==> txIrq == a.txLine && rxIrq == (if a.channels == Split then a.rxLine else a.txLine)
      ensures ok ==> depth == map[txIrq := if running then 0 else 1, rxIrq := if running then 0 else 1]
      ensures ok ==> task && mapped == !netmap && napi == (running && !netmap)
      ensures !ok ==> depth == map[] && txIrq == 0 && !task && !carrier && !mapped && !napi
      ensures running == old(running) && netmap == old(netmap)
      ensures refs == old(refs) - if ok then 0 else 1
      ensures faults == old(faults) + if FreesTwice(a) then 1 else 0
      ensures faults > old(faults) <==> (netmap || a.rings) && a.txLine > 0 && a.channels == Single && !a.thread
    {
      hide Lines;
      ok := netmap || a.rings;
      if ok {
        mapped := !netmap;
        ok := BindLines(a);
        if ok && !a.thread {
          ok := false;
          UnbindLines();
        }
        if !ok { mapped := false; }
      }
      if !ok {
        refs := refs - 1;
        return;
      }
      task := true;
      carrier := true;
      if running { XenvifUp(); }
      LinesAre(txIrq, rxIrq, if running then 0 else 1);
    }

    method CarrierOff()
      requires Live() && carrier
      modifies this
      ensures Live() && !carrier && running == old(running) && netmap == old(netmap)
      ensures refs == old(refs) && faults == old(faults)
    {
      carrier := false;
      if running { XenvifDown(); }
    }

    /** From any state, and without a fault. */
    method Disconnect()
      requires Valid()
      modifies this
      ensures Idle() && running == old(running) && netmap == old(netmap)
      ensures depth == map[] && txIrq == 0 && !task && !carrier && !mapped && !napi
      ensures refs == old(refs) && faults == old(faults)
    {
      if carrier { CarrierOff(); }
      if task { task := false; }
      if txIrq != 0 {
        if txIrq == rxIrq {
          Unbind(txIrq);
        } else {
          Unbind(txIrq);
          Unbind(rxIrq);
        }
        txIrq := 0;
      }
      mapped := false;
    }

    /** Unregistering the device closes it first if it is running. */
    method Free()
      requires Idle()
      modifies this
      ensures Idle() && !running && refs == old(refs) - 1 && faults == old(faults)
    {
      if running { Close(); }
      refs := refs - 1;
    }
  }
}
