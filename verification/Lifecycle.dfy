/** The backend's state machine, driven by the frontend's states. */
module Lifecycle {
  import opened Interface

  datatype XenbusState = Unknown | Initialising | InitWait | Initialised | Connected
                       | Closing | Closed | Reconfiguring | Reconfigured

  /** The four states a backend is ever in. */
  predicate Own(s: XenbusState)
  {
    s == InitWait || s == Connected || s == Closing || s == Closed
  }

  /** The allowed transitions. */
  predicate Allowed(s: XenbusState, t: XenbusState)
  {
    || (s == InitWait && (t == Connected || t == Closing))
    || (s == Connected && t == Closing)
    || (s == Closing && t == Closed)
    || (s == Closed && (t == Closing || t == InitWait))
  }

  /** A walk along allowed transitions. */
  ghost predicate Walk(w: seq<XenbusState>)
  {
    forall k :: 0 < k < |w| ==> Allowed(w[k - 1], w[k])
  }

  /** The states passed on the way from s to t, without s. */
  ghost function Route(s: XenbusState, t: XenbusState): seq<XenbusState>
    requires Own(s) && Own(t)
  {
    match (s, t)
    case (InitWait, Closed) => [Closing, Closed]
    case (Connected, InitWait) => [Closing, Closed, InitWait]
    case (Connected, Closed) => [Closing, Closed]
    case (Closing, InitWait) => [Closed, InitWait]
    case (Closing, Connected) => [Closed, InitWait, Connected]
    case (Closed, Connected) => [InitWait, Connected]
    case _ => if s == t then [] else [t]
  }

  lemma RouteIsAWalk(s: XenbusState, t: XenbusState)
    requires Own(s) && Own(t)
    ensures Walk([s] + Route(s, t)) && ([s] + Route(s, t))[|Route(s, t)|] == t
  {
  }

  lemma {:induction false} NoShorterWalk(w: seq<XenbusState>, t: XenbusState)
    requires w != [] && Walk(w) && Own(w[0]) && Own(t) && w[|w| - 1] == t
    ensures |w| - 1 >= |Route(w[0], t)|
  {
    if |w| > 1 {
      assert Allowed(w[0], w[1]);
      assert Walk(w[1..]) by {
        forall k | 0 < k < |w[1..]| ensures Allowed(w[1..][k - 1], w[1..][k]) {
          assert Allowed(w[k], w[k + 1]);
        }
      }
      NoShorterWalk(w[1..], t);
    }
  }

  /** The route is an allowed walk from s to t, and no allowed walk from s to t is shorter. */
  lemma RouteIsShortest(s: XenbusState, t: XenbusState)
    requires Own(s) && Own(t)
    ensures Walk([s] + Route(s, t)) && ([s] + Route(s, t))[|Route(s, t)|] == t
    ensures forall w | Walk(w) && w != [] && w[0] == s && w[|w| - 1] == t :: |w| >= |[s] + Route(s, t)|
  {
    RouteIsAWalk(s, t);
    hide Walk, Route;
    forall w | Walk(w) && w != [] && w[0] == s && w[|w| - 1] == t ensures |w| >= |[s] + Route(s, t)| {
      NoShorterWalk(w, t);
    }
  }

  datatype Call = ConnectCall | DisconnectCall

  /** Connects and disconnects take turns, starting with a connect. */
  ghost predicate Alternating(calls: seq<Call>)
  {
    forall k :: 0 <= k < |calls| ==> calls[k] == if k % 2 == 0 then ConnectCall else DisconnectCall
  }

  ghost predicate TakingTurns(calls: seq<Call>, s: XenbusState)
  {
    Alternating(calls) && (|calls| % 2 == 1 <==> s == Connected)
  }

  /** The backend went from InitWait to s along this walk. */
  ghost predicate Visited(trail: seq<XenbusState>, s: XenbusState)
  {
    trail != [] && trail[0] == InitWait && trail[|trail| - 1] == s && Walk(trail)
  }

  lemma Moved(trail: seq<XenbusState>, calls: seq<Call>, s: XenbusState, t: XenbusState)
    requires Visited(trail, s) && TakingTurns(calls, s) && Allowed(s, t)
    ensures Visited(trail + [t], t)
    ensures t == Connected ==> TakingTurns(calls + [ConnectCall], t)
    ensures s == Connected ==> TakingTurns(calls + [DisconnectCall], t)
    ensures s != Connected && t != Connected ==> TakingTurns(calls, t)
  {
  }

  /** The first state on the way from s to t. */
  ghost function Hop(s: XenbusState, t: XenbusState): (u: XenbusState)
    requires Own(s) && Own(t) && s != t
    ensures Allowed(s, u) && Own(u) && Route(s, t) == [u] + Route(u, t)
  {
    Route(s, t)[0]
  }

  /** Does a connection attempt get as far as xenvif_connect? A netmap backend needs only event channels. */
  predicate Reaches(a: Attempt)
  {
    a.channels != NoChannel && (a.netmap || (a.ringRefs && a.features == Acceptable))
  }

  /** The one failure without an error report: a frontend without rx-copy. */
  predicate Silent(a: Attempt)
  {
    !a.netmap && a.ringRefs && a.channels != NoChannel && a.features == NoRxCopy
  }

  /** What one call may cost the interface: a failed xenvif_connect gives a module reference away,
      and unwinding a single channel frees its line twice. */
  ghost function RefsLost(s: XenbusState, t: XenbusState, a: Attempt): nat
  {
    if s != Connected && t == Connected && Reaches(a) && !Connects(a) then 1 else 0
  }

  ghost function Faults(s: XenbusState, t: XenbusState, a: Attempt): nat
  {
    if s != Connected && t == Connected && Reaches(a) && FreesTwice(a) then 1 else 0
  }

  /** Only the last hop of a route, into Connected, costs anything. */
  lemma CostsOnce(s: XenbusState, t: XenbusState, a: Attempt)
    requires Own(s) && Own(t)
    ensures s == t ==> Route(s, t) == [] && RefsLost(s, t, a) == Faults(s, t, a) == 0
    ensures s != t && Hop(s, t) == Connected ==>
              && t == Connected && RefsLost(s, t, a) == RefsLost(InitWait, t, a) && Faults(s, t, a) == Faults(InitWait, t, a)
    ensures s != t && Hop(s, t) != Connected ==>
              RefsLost(s, t, a) == RefsLost(Hop(s, t), t, a) && Faults(s, t, a) == Faults(Hop(s, t), t, a)
  {
    hide Reaches, Connects, FreesTwice;
  }

  /** The state a frontend state sends the backend to; other frontend states leave it where it is. */
  function Target(f: XenbusState, s: XenbusState): XenbusState
  {
    match f
    case Initialising => InitWait
    case Connected => Connected
    case Closing => Closing
    case Closed => Closed
    case Unknown => Closed
    case _ => s
  }

  /** A frontend that is gone, or closed and not coming back, ends the device. */
  predicate Ends(f: XenbusState, online: bool)
  {
    f == Unknown || (f == Closed && !online)
  }

  /** Everything that can happen to a backend between its probe and its removal. */
  datatype Event = Frontend(f: XenbusState, online: bool, a: Attempt)
                 | Hotplug(connected: bool)
                 | OpenDevice
                 | CloseDevice

  /** The module references and the faults that a run of events from state s costs. */
  ghost function Cost(s: XenbusState, events: seq<Event>): (nat, nat)
    requires Own(s)
    decreases |events|
  {
    if events == [] then (0, 0)
    else if events[0].Frontend? then
      var Frontend(f, online, a) := events[0];
      var t := Target(f, s);
      var rest := if Ends(f, online) then (0, 0) else Cost(t, events[1..]);
      (RefsLost(s, t, a) + rest.0, Faults(s, t, a) + rest.1)
    else
      Cost(s, events[1..])
  }

  /** Without a single channel whose thread fails, no run makes the kernel reject a call. */
  lemma {:induction false} SplitChannelsAreSafe(s: XenbusState, events: seq<Event>)
    requires Own(s)
    requires forall k :: 0 <= k < |events| && events[k].Frontend? ==> events[k].a.channels == Single ==> events[k].a.thread
    ensures Cost(s, events).1 == 0
    decreases |events|
  {
    if events != [] {
      var t := if events[0].Frontend? then Target(events[0].f, s) else s;
      SplitChannelsAreSafe(t, events[1..]);
    }
  }

  class Backend {
    var state: XenbusState
    var frontendState: XenbusState
    /** have_hotplug_status_watch */
    var watching: bool
    /** What the other side reads, unless an error report has overwritten it. */
    var published: XenbusState
    var overwritten: bool
    var vif: Xenvif?
    var registered: bool
    ghost var trail: seq<XenbusState>
    ghost var calls: seq<Call>

    ghost predicate Valid()
      reads this, vif
    {
      && Own(state)
      && (vif != null ==> vif.Valid() && (state != Connected ==> vif.Idle()))
      && (watching || overwritten || published == state)
      && Visited(trail, state)
      && TakingTurns(calls, state)
    }

    /** The end of a successful probe: InitWait is published, then the interface is created if it can be. */
    constructor (created: bool)
      ensures Valid() && state == InitWait && registered && !watching
      ensures (vif != null <==> created) && (vif != null ==> fresh(vif) && vif.refs == 1 && vif.faults == 0)
      ensures trail == [InitWait] && calls == []
    {
      state, frontendState, watching := InitWait, Unknown, false;
      published, overwritten, registered := InitWait, !created, true;
      vif := null;
      trail, calls := [InitWait], [];
      new;
      if created { vif := new Xenvif(false); }
    }

    /** xenbus_switch_state */
    method Publish(s: XenbusState)
      modifies `published, `overwritten
      ensures published == s && !overwritten
    {
      published, overwritten := s, false;
    }

    /** xenbus_dev_fatal reports an error, which changes the published state. */
    method DevFatal()
      modifies `overwritten
      ensures overwritten
    {
      overwritten := true;
    }

    method SwitchState(t: XenbusState)
      modifies `state, `trail, `published, `overwritten
      ensures state == t && trail == old(trail) + [t]
      ensures if watching then published == old(published) && overwritten == old(overwritten)
              else published == t && !overwritten
    {
      state := t;
      trail := trail + [t];
      if !watching { Publish(t); }
    }

    method ConnectRings(a: Attempt) returns (ok: bool)
      requires vif != null && vif.Idle() && Possible(a)
      modifies `overwritten, vif
      ensures ok == (Reaches(a) && Connects(a))
      ensures ok <==>
                && a.channels != NoChannel && (a.netmap || (a.ringRefs && a.features == Acceptable && a.rings))
                && a.txLine > 0 && (a.channels == Split ==> a.rxLine > 0) && a.thread
      ensures if ok then vif.Live() && vif.carrier else vif.Idle()
      ensures vif.running == old(vif.running)
      ensures vif.refs == old(vif.refs) - if Reaches(a) && !Connects(a) then 1 else 0
      ensures vif.refs < old(vif.refs) <==>
                !ok && a.channels != NoChannel && (a.netmap || (a.ringRefs && a.features == Acceptable))
      ensures vif.faults == old(vif.faults) + if Reaches(a) && FreesTwice(a) then 1 else 0
      ensures overwritten == (old(overwritten) || (!ok && !Silent(a)))
      ensures !old(overwritten) ==>
                (overwritten <==> !ok && (a.netmap || !a.ringRefs || a.channels == NoChannel || a.features != NoRxCopy))
    {
      ok := false;
      vif.netmap := a.netmap;
      if !a.ringRefs && !vif.netmap { DevFatal(); return; }
      if a.channels == NoChannel { DevFatal(); return; }
      if !vif.netmap {
        match a.features
        case Unreadable => DevFatal(); return;
        case NoRxCopy => return;
        case GsoConflict => DevFatal(); return;
        case Acceptable =>
      }
      ok := vif.Connect(a);
      if !ok { DevFatal(); }
    }

    method UnregisterHotplugWatch()
      modifies `watching
      ensures !watching
    {
      watching := false;
    }

    /** After the rings, the address is read and the watch renewed; failing to read the address leaves the
        connection standing. */
    method Connect(a: Attempt)
      requires vif != null && vif.Idle() && Possible(a)
      modifies `overwritten, `watching, vif
      ensures if Reaches(a) && Connects(a) then vif.Live() && vif.carrier else vif.Idle()
      ensures vif.running == old(vif.running)
      ensures vif.refs == old(vif.refs) - if Reaches(a) && !Connects(a) then 1 else 0
      ensures vif.faults == old(vif.faults) + if Reaches(a) && FreesTwice(a) then 1 else 0
      ensures watching == if Reaches(a) && Connects(a) && a.mac then a.watch else old(watching)
      ensures overwritten == (old(overwritten) || if Reaches(a) && Connects(a) then !a.mac else !Silent(a))
    {
      var ok := ConnectRings(a);
      if !ok { return; }
      if !a.mac { DevFatal(); return; }
      UnregisterHotplugWatch();
      if a.watch { watching := true; }
    }

    method BackendConnect(a: Attempt)
      requires Possible(a) && (vif != null ==> vif.Idle())
      modifies `overwritten, `watching, `calls, vif
      ensures calls == old(calls) + [ConnectCall]
      ensures watching == if vif != null && Reaches(a) && Connects(a) && a.mac then a.watch else old(watching)
      ensures vif == null ==> overwritten == old(overwritten)
      ensures vif != null ==>
                && (if Reaches(a) && Connects(a) then vif.Live() && vif.carrier else vif.Idle())
                && vif.running == old(vif.running)
                && vif.refs == old(vif.refs) - (if Reaches(a) && !Connects(a) then 1 else 0)
                && vif.faults == old(vif.faults) + (if Reaches(a) && FreesTwice(a) then 1 else 0)
    {
      if vif != null { Connect(a); }
      calls := calls + [ConnectCall];
    }

    method BackendDisconnect()
      requires vif != null ==> vif.Valid()
      modifies `calls, vif
      ensures calls == old(calls) + [DisconnectCall]
      ensures vif != null ==> vif.Idle() && vif.running == old(vif.running)
                              && vif.refs == old(vif.refs) && vif.faults == old(vif.faults)
    {
      if vif != null { vif.Disconnect(); }
      calls := calls + [DisconnectCall];
    }

    /** One transition towards t. The driver's targets are the four states of its own, and from any of
        them none of the BUG branches is reached. */
    method Step(t: XenbusState, a: Attempt)
      requires Valid() && Own(t) && Possible(a) && state != t
      modifies `state, `trail, `calls, `published, `overwritten, `watching, vif
      ensures Valid() && state == Hop(old(state), t) && trail == old(trail) + [state]
      ensures old(state) == Closed ==> state == if t == Closing then Closing else InitWait
      ensures old(state) == InitWait ==> state == if t == Connected then Connected else Closing
      ensures old(state) == Connected ==> state == Closing
      ensures old(state) == Closing ==> state == Closed
      ensures watching == if state == Connected && vif != null && Reaches(a) && Connects(a) && a.mac then a.watch else old(watching)
      ensures if watching then published == old(published) else published == state && !overwritten
      ensures vif != null ==>
                && vif.running == old(vif.running)
                && vif.refs == old(vif.refs) - (if state == Connected then RefsLost(InitWait, t, a) else 0)
                && vif.faults == old(vif.faults) + (if state == Connected then Faults(InitWait, t, a) else 0)
                && (state == Connected ==> (vif.Live() <==> Reaches(a) && Connects(a)))
    {
      hide Walk, Visited, TakingTurns, Reaches, Connects, FreesTwice, Possible;
      Moved(trail, calls, state, Hop(state, t));
      match state
      case Closed =>
        if t == InitWait || t == Connected {
          SwitchState(InitWait);
        } else if t == Closing {
          SwitchState(Closing);
        } else {
          assert false;
        }
      case InitWait =>
        if t == Connected {
          BackendConnect(a);
          SwitchState(Connected);
        } else if t == Closing || t == Closed {
          SwitchState(Closing);
        } else {
          assert false;
        }
      case Connected =>
        if t == InitWait || t == Closing || t == Closed {
          BackendDisconnect();
          SwitchState(Closing);
        } else {
          assert false;
        }
      case Closing =>
        if t == InitWait || t == Connected || t == Closed {
          SwitchState(Closed);
        } else {
          assert false;
        }
      case _ =>
        assert false;
    }

    /** Walk the shortest route. While a hotplug watch is pending nothing but a new connection publishes
        anything, so a frontend that closes before the hotplug script is done never sees the backend close. */
    method SetBackendState(t: XenbusState, a: Attempt)
      requires Valid() && Own(t) && Possible(a)
      modifies `state, `trail, `calls, `published, `overwritten, `watching, vif
      ensures Valid() && state == t
      ensures trail == old(trail) + Route(old(state), t)
      ensures watching == if old(state) != t == Connected && vif != null && Reaches(a) && Connects(a) && a.mac then a.watch
                          else old(watching)
      ensures t != Connected && watching ==> published == old(published)
      ensures old(state) != t && !watching ==> published == t && !overwritten
      ensures vif != null ==>
                && vif.running == old(vif.running)
                && vif.refs == old(vif.refs) - RefsLost(old(state), t, a)
                && vif.faults == old(vif.faults) + Faults(old(state), t, a)
                && (old(state) != Connected && t == Connected ==> (vif.Live() <==> Reaches(a) && Connects(a)))
    {
      hide Walk, Visited, TakingTurns, Reaches, Connects, FreesTwice, Possible, Allowed, Lines, RefsLost, Faults;
      hide Route, Hop, Xenvif.Live, Xenvif.Idle;
      CostsOnce(t, t, a);
      while state != t
        invariant Valid()
        invariant t != Connected && watching ==> published == old(published)
        invariant old(state) == t ==> state == t
        invariant watching == if old(state) != t == Connected == state && vif != null && Reaches(a) && Connects(a) && a.mac
                              then a.watch else old(watching)
        invariant old(state) != t == state && !watching ==> published == t && !overwritten
        invariant trail + Route(state, t) == old(trail) + Route(old(state), t)
        invariant vif != null ==>
                    && vif.running == old(vif.running)
                    && vif.refs == old(vif.refs) - RefsLost(old(state), t, a) + RefsLost(state, t, a)
                    && vif.faults == old(vif.faults) + Faults(old(state), t, a) - Faults(state, t, a)
                    && (old(state) != Connected && t == Connected == state ==> (vif.Live() <==> Reaches(a) && Connects(a)))
        decreases |Route(state, t)|
      {
        CostsOnce(state, t, a);
        Step(t, a);
      }
    }

    method FrontendChanged(f: XenbusState, online: bool, a: Attempt)
      requires Valid() && registered && Possible(a)
      modifies this, vif
      ensures Valid() && vif == old(vif) && frontendState == f
      ensures f == Connected || f == Closing || f == Closed ==> state == f
      ensures f == Initialising ==> state == InitWait
      ensures f == Unknown ==> state == Closed
      ensures f == InitWait || f == Initialised || f == Reconfiguring || f == Reconfigured ==>
                state == old(state) && trail == old(trail)
      ensures trail == old(trail) + Route(old(state), state)
      ensures registered == !(f == Unknown || (f == Closed && !online))
      ensures f == InitWait || f == Reconfiguring || f == Reconfigured ==> overwritten
      ensures f == Initialised ==> unchanged(`published, `overwritten)
      ensures watching == if old(state) != Connected == state && vif != null && Reaches(a) && Connects(a) && a.mac
                          then a.watch else old(watching)
      ensures vif != null ==>
                && vif.running == old(vif.running)
                && vif.refs == old(vif.refs) - RefsLost(old(state), state, a)
                && vif.faults == old(vif.faults) + Faults(old(state), state, a)
                && (old(state) != Connected == state ==> (vif.Live() <==> Reaches(a) && Connects(a)))
                && (state != Connected ==> vif.Idle())
    {
      hide Visited, TakingTurns, Reaches, Connects, FreesTwice, Possible, Walk, Allowed, Lines;
      hide Route, RefsLost, Faults, Xenvif.Live, Xenvif.Idle;
      CostsOnce(state, state, a);
      CostsOnce(Closed, Closed, a);
      frontendState := f;
      match f
      case Initialising => SetBackendState(InitWait, a);
      case Initialised =>
      case Connected => SetBackendState(Connected, a);
      case Closing => SetBackendState(Closing, a);
      case Closed =>
        SetBackendState(Closed, a);
        if !online {
          SetBackendState(Closed, a);
          registered := false;
        }
      case Unknown =>
        SetBackendState(Closed, a);
        registered := false;
      case _ => DevFatal();
    }

    /** The hotplug script is done: complete the state change that was held back for it. */
    method HotplugStatusChanged(connected: bool)
      requires Valid() && watching
      modifies `published, `overwritten, `watching
      ensures Valid()
      ensures connected ==> published == state && !overwritten && !watching
      ensures !connected ==> published == old(published) && watching
    {
      if connected {
        Publish(state);
        UnregisterHotplugWatch();
      }
    }

    method Remove(a: Attempt)
      requires Valid() && Possible(a)
      modifies this, vif
      ensures vif == null && state == Closed && !watching
      ensures old(vif) != null ==> old(vif).Idle() && !old(vif).running
                                   && old(vif).refs == old(vif.refs) - 1 && old(vif).faults == old(vif.faults)
    {
      SetBackendState(Closed, a);
      UnregisterHotplugWatch();
      if vif != null {
        vif.Free();
        vif := null;
      }
    }

    /** Any sequence of events, until one of them ends the device. */
    method Run(events: seq<Event>)
      requires Valid() && registered
      requires forall k :: 0 <= k < |events| && events[k].Frontend? ==> Possible(events[k].a)
      modifies this, vif
      ensures Valid() && vif == old(vif)
      ensures vif != null ==>
                && vif.refs == old(vif.refs) - Cost(old(state), events).0
                && vif.faults == old(vif.faults) + Cost(old(state), events).1
    {
      hide Visited, TakingTurns, Reaches, Connects, FreesTwice, Possible, RefsLost, Faults, Route;
      var i := 0;
      while i < |events| && registered
        invariant i <= |events| && Valid() && vif == old(vif)
        invariant vif != null ==>
                    && vif.refs == old(vif.refs) - Cost(old(state), events).0
                                   + (if registered then Cost(state, events[i..]).0 else 0)
                    && vif.faults == old(vif.faults) + Cost(old(state), events).1
                                     - (if registered then Cost(state, events[i..]).1 else 0)
        decreases |events| - i
      {
        assert events[i..][0] == events[i] && events[i..][1..] == events[i + 1..];
        match events[i] {
          case Frontend(f, online, a) => FrontendChanged(f, online, a);
          case Hotplug(connected) => if watching { HotplugStatusChanged(connected); }
          case OpenDevice => if vif != null && !vif.running { vif.Open(); }
          case CloseDevice => if vif != null && vif.running { vif.Close(); }
        }
        i := i + 1;
      }
    }
  }
}
