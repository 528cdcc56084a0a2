/** Who may wake whom: the four kick flags, the two event channels in both directions, both interrupt
    handlers on each side, the backend's kthread, the bridge's notify callback and the guest's two sync
    functions, interleaved at every access to a shared flag. Carriers are up, the bridge is attached and
    both interrupts are bound; rings never fill up. An event that is already pending absorbs another. */
module KickProtocol {
  import opened Circular

  /** An interrupt handler: idle, before its first and before its second action. */
  datatype Irq = Quiet | First | Second

  /** netfront_netmap_xmit: idle, then before the test of host_need_txkick, the cursor update, the
      setting of guest_need_txkick, the clearing of host_need_txkick and the notify. */
  datatype Xmit = XIdle | XTest | XPublish | XBusy | XClear | XNotify

  /** netfront_netmap_rxsync: idle, then before the import loop, the test of host_need_rxkick, the
      cursor update, the clearing of the flag and the notify. */
  datatype Sync = SIdle | SImport | STest | SMove | SClear | SNotify

  /** xenvif_notify, called after each append: idle, then before the test of guest_need_rxkick, its
      clearing and the notify. */
  datatype Bridge = BIdle | BTest | BClear | BNotify

  /** xenvif_netmap_kthread: asleep, before the wait condition, the tx test, the prologue's read of the
      ring head, the bridge's txsync, the clearing of guest_need_txkick, the notify, the rx test and the
      re-arming of guest_need_rxkick. */
  datatype Kthread = KAsleep | KWait | KTx | KRead | KDrain | KClear | KNotify | KRx | KArm

  /** Transmit. Guest: control block flags, packets staged and published, xmit, interrupt handler.
      Backend: vwna->guest_need_txkick, packets seen and drained, interrupt handler. Pending events. */
  datatype Tx = Tx(
    host: bool, guest: bool, staged: nat, pub: nat, xmit: Xmit, front: Irq,
    need: bool, seen: nat, drained: nat, back: Irq, toBack: bool, toFront: bool)

  /** Receive. Backend: vwna->guest_need_rxkick, packets made available, callback, interrupt handler.
      Guest: control block flags, packets taken, the sync call in progress, handler. Pending events. */
  datatype Rx = Rx(
    need: bool, avail: nat, bridge: Bridge, back: Irq,
    host: bool, guest: bool, taken: nat, sync: Sync, space: nat, got: nat, front: Irq,
    toBack: bool, toFront: bool)

  datatype State = State(t: Tx, r: Rx, k: Kthread)

  datatype Step =
    | XmitStep | DeliverTxToBack | BackTxStep | KthreadStep | DeliverTxToFront | FrontTxStep
    | BridgeStep | DeliverRxToFront | FrontRxStep | SyncStep(free: nat) | DeliverRxToBack | BackRxStep

  predicate Enabled(s: State, a: Step)
  {
    match a
    case DeliverTxToBack => s.t.toBack && s.t.back.Quiet?
    case DeliverTxToFront => s.t.toFront && s.t.front.Quiet?
    case DeliverRxToFront => s.r.toFront && s.r.front.Quiet?
    case DeliverRxToBack => s.r.toBack && s.r.back.Quiet?
    case BackTxStep => !s.t.back.Quiet?
    case FrontTxStep => !s.t.front.Quiet?
    case BackRxStep => !s.r.back.Quiet?
    case FrontRxStep => !s.r.front.Quiet?
    case KthreadStep => !s.k.KAsleep?
    case XmitStep => true
    case BridgeStep => true
    case SyncStep(_) => true
  }

  function DoXmit(t: Tx): Tx
  {
    match t.xmit
    case XIdle => t.(staged := t.staged + 1, xmit := XTest)
    case XTest => t.(xmit := if t.host then XPublish else XIdle)
    case XPublish => t.(pub := t.staged, xmit := XBusy)
    case XBusy => t.(guest := true, xmit := XClear)
    case XClear => t.(host := false, xmit := XNotify)
    case XNotify => t.(toBack := true, xmit := XIdle)
  }

  function DoFrontTx(t: Tx): Tx
  {
    if t.front.First? then t.(host := true, front := Second) else t.(guest := false, front := Quiet)
  }

  function DoKthread(s: State): State
  {
    match s.k
    case KAsleep => s
    case KWait => s.(k := if s.t.need || !s.r.need then KTx else KAsleep)
    case KTx => s.(k := if s.t.need then KRead else KRx)
    case KRead => s.(t := s.t.(seen := s.t.pub), k := KDrain)
    case KDrain => s.(t := s.t.(drained := s.t.seen), k := KClear)
    case KClear => s.(t := s.t.(need := false), k := KNotify)
    case KNotify => s.(t := s.t.(toFront := true), k := KRx)
    case KRx => s.(k := if s.r.need then KWait else KArm)
    case KArm => s.(r := s.r.(need := true), k := KWait)
  }

  function DoBridge(r: Rx): Rx
  {
    match r.bridge
    case BIdle => r.(avail := r.avail + 1, bridge := BTest)
    case BTest => r.(bridge := if r.need then BClear else BIdle)
    case BClear => r.(need := false, bridge := BNotify)
    case BNotify => r.(toFront := true, bridge := BIdle)
  }

  function DoSync(r: Rx, free: nat): Rx
  {
    match r.sync
    case SIdle => r.(space := if r.taken <= r.avail then r.avail - r.taken else 0, got := 0, sync := SImport)
    case SImport => r.(got := if r.host then Min(free, r.space) else 0, sync := STest)
    case STest => r.(sync := if r.host then SMove else SIdle)
    case SMove => r.(taken := r.taken + r.got, sync := SClear)
    case SClear => r.(host := false, sync := SNotify)
    case SNotify => r.(toBack := true, sync := SIdle)
  }

  function DoFrontRx(r: Rx): Rx
  {
    if r.front.First? then r.(host := true, front := Second) else r.(guest := false, front := Quiet)
  }

  /** wake_up on the kthread's wait queue. */
  function Wake(k: Kthread): Kthread
  {
    if k.KAsleep? then KWait else k
  }

  /** One step; a step that is not enabled changes nothing. */
  function Do(s: State, a: Step): State
  {
    if !Enabled(s, a) then s else
    match a
    case XmitStep => s.(t := DoXmit(s.t))
    case FrontTxStep => s.(t := DoFrontTx(s.t))
    case KthreadStep => DoKthread(s)
    case BridgeStep => s.(r := DoBridge(s.r))
    case SyncStep(free) => s.(r := DoSync(s.r, free))
    case FrontRxStep => s.(r := DoFrontRx(s.r))
    case DeliverTxToBack => s.(t := s.t.(toBack := false, back := First))
    case DeliverTxToFront => s.(t := s.t.(toFront := false, front := First))
    case DeliverRxToFront => s.(r := s.r.(toFront := false, front := First))
    case DeliverRxToBack => s.(r := s.r.(toBack := false, back := First))
    case BackTxStep =>
      if s.t.back.First? then s.(t := s.t.(need := true, back := Second))
      else s.(t := s.t.(back := Quiet), k := Wake(s.k))
    case BackRxStep => s.(r := s.r.(back := Quiet), k := Wake(s.k))
  }

  /** The state after a schedule of steps; every schedule is a run. */
  function Exec(s: State, run: seq<Step>): State
    decreases |run|
  {
    if run == [] then s else Exec(Do(s, run[0]), run[1..])
  }

  /** The state netfront_netmap_attach leaves behind; it notifies both channels unasked, and txKick says
      whether the transmit one of these two notifies is sent. */
  function Attach(txKick: bool): State
  {
    State(Tx(true, false, 0, 0, XIdle, Quiet, false, 0, 0, Quiet, txKick, false),
          Rx(true, 0, BIdle, Quiet, false, true, 0, SIdle, 0, 0, Quiet, true, false),
          KAsleep)
  }

  /** The places the right to kick the backend can be at: the flag itself, xmit's notify, the event, the
      backend's handler before it sets its flag, that flag, the kthread's notify, the event back, and the
      guest's handler before it sets the flag again. */
  function Tokens(t: Tx, k: Kthread): nat
  {
    (if t.host then 1 else 0) + (if t.xmit.XNotify? then 1 else 0) + (if t.toBack then 1 else 0) + (if t.back.First? then 1 else 0)
    + (if t.need then 1 else 0) + (if k.KNotify? then 1 else 0) + (if t.toFront then 1 else 0) + (if t.front.First? then 1 else 0)
  }

  /** Some place holds a token. */
  predicate TxAlive(t: Tx, k: Kthread)
  {
    t.host || t.xmit.XNotify? || t.toBack || t.back.First? || t.need || k.KNotify? || t.toFront || t.front.First?
  }

  /** A receive kick is on its way, or a side that will start one is awake. */
  predicate RxAlive(r: Rx, k: Kthread)
  {
    !k.KAsleep? || r.toFront || r.front.First? || r.host || r.sync.SNotify? || r.toBack
    || r.back.First? || r.bridge.BNotify?
  }

  ghost predicate TxInv(t: Tx, k: Kthread)
  {
    && (t.xmit.XPublish? || t.xmit.XBusy? || t.xmit.XClear? ==> t.host)
    && (k.KRead? || k.KDrain? || k.KClear? ==> t.need)
    && (t.need && k.KAsleep? ==> t.back.Second?)
    && t.drained <= t.seen <= t.pub <= t.staged
    && TxAlive(t, k)
  }

  ghost predicate RxInv(r: Rx, k: Kthread)
  {
    && (r.bridge.BClear? ==> r.need)
    && (r.sync.SMove? || r.sync.SClear? || (r.sync.STest? && r.got > 0) ==> r.host)
    && r.taken <= r.avail && (r.sync.SImport? ==> r.taken + r.space <= r.avail)
    && (r.sync.STest? || r.sync.SMove? ==> r.taken + r.got <= r.avail)
    && (!r.need ==> RxAlive(r, k))
  }

  ghost predicate Inv(s: State)
  {
    TxInv(s.t, s.k) && RxInv(s.r, s.k)
  }

  lemma XmitKeeps(t: Tx, k: Kthread)
    requires TxInv(t, k)
    ensures TxInv(DoXmit(t), k)
  {
  }

  lemma XmitTokens(t: Tx, k: Kthread)
    requires t.xmit.XClear? ==> t.host
    ensures Tokens(DoXmit(t), k) <= Tokens(t, k)
  {
  }

  lemma KthreadKeeps(s: State)
    requires TxInv(s.t, s.k)
    ensures TxInv(DoKthread(s).t, DoKthread(s).k) && Tokens(DoKthread(s).t, DoKthread(s).k) <= Tokens(s.t, s.k)
  {
  }

  lemma EventKeeps(s: State, a: Step)
    requires TxInv(s.t, s.k) && !a.XmitStep? && !a.KthreadStep?
    ensures TxInv(Do(s, a).t, Do(s, a).k)
  {
    hide DoXmit, DoKthread;
  }

  lemma EventTokens(s: State, a: Step)
    requires !a.XmitStep? && !a.KthreadStep?
    ensures Tokens(Do(s, a).t, Do(s, a).k) <= Tokens(s.t, s.k)
  {
    hide DoXmit, DoKthread, DoSync, DoBridge, DoFrontRx;
  }

  /** No step loses the last token or makes a new one; a token that arrives where one already is merges
      with it. */
  lemma TxStepKeeps(s: State, a: Step)
    requires TxInv(s.t, s.k)
    ensures TxInv(Do(s, a).t, Do(s, a).k) && Tokens(Do(s, a).t, Do(s, a).k) <= Tokens(s.t, s.k)
  {
    hide DoXmit, DoKthread, Tokens;
    match a
    case XmitStep =>
      XmitKeeps(s.t, s.k);
      XmitTokens(s.t, s.k);
    case KthreadStep =>
      KthreadKeeps(s);
    case _ =>
      EventKeeps(s, a);
      EventTokens(s, a);
  }

  lemma SyncKeeps(r: Rx, k: Kthread, free: nat)
    requires RxInv(r, k)
    ensures RxInv(DoSync(r, free), k)
  {
    SyncAlive(r, k, free);
    hide RxAlive;
  }

  lemma SyncAlive(r: Rx, k: Kthread, free: nat)
    ensures DoSync(r, free).need == r.need && (RxAlive(r, k) ==> RxAlive(DoSync(r, free), k))
  {
    SyncFrame(r, free);
    hide DoSync;
  }

  lemma SyncFrame(r: Rx, free: nat)
    ensures var r' := DoSync(r, free);
            && r'.need == r.need && r'.bridge == r.bridge && r'.back == r.back && r'.front == r.front
            && r'.toFront == r.toFront && (r.host ==> r'.host || r'.sync.SNotify?)
            && (r.sync.SNotify? || r.toBack ==> r'.toBack)
  {
  }

  lemma BridgeKeeps(r: Rx, k: Kthread)
    requires RxInv(r, k)
    ensures RxInv(DoBridge(r), k)
  {
  }

  lemma KthreadKeepsRx(s: State)
    requires RxInv(s.r, s.k)
    ensures RxInv(DoKthread(s).r, DoKthread(s).k)
  {
  }

  lemma OtherKeepsRx(s: State, a: Step)
    requires RxInv(s.r, s.k) && !a.SyncStep? && !a.BridgeStep? && !a.KthreadStep?
    ensures RxInv(Do(s, a).r, Do(s, a).k)
  {
    hide DoXmit, DoKthread, DoSync, DoBridge, DoFrontTx;
  }

  lemma RxStepKeeps(s: State, a: Step)
    requires RxInv(s.r, s.k)
    ensures RxInv(Do(s, a).r, Do(s, a).k)
  {
    hide DoXmit, DoKthread, DoSync, DoBridge, DoFrontRx, DoFrontTx, RxInv;
    match a
    case SyncStep(free) => SyncKeeps(s.r, s.k, free);
    case BridgeStep => BridgeKeeps(s.r, s.k);
    case KthreadStep => if !s.k.KAsleep? { KthreadKeepsRx(s); }
    case _ => OtherKeepsRx(s, a);
  }

  lemma {:induction false} RunKeeps(s: State, run: seq<Step>)
    requires Inv(s)
    ensures Inv(Exec(s, run)) && Tokens(Exec(s, run).t, Exec(s, run).k) <= Tokens(s.t, s.k)
    decreases |run|
  {
    if run != [] {
      TxStepKeeps(s, run[0]);
      RxStepKeeps(s, run[0]);
      RunKeeps(Do(s, run[0]), run[1..]);
    }
  }

  /** Transmit kicks never stall: on every run, when the guest may not kick, the permission is on its way
      back: an event is in flight, a backend flag or handler is pending, or a notify is about to be sent. */
  lemma TransmitKickNeverLost(txKick: bool, run: seq<Step>)
    ensures var s := Exec(Attach(txKick), run);
            !s.t.host ==> s.t.xmit.XNotify? || s.t.toBack || s.t.back.First? || s.t.need
                          || s.k.KNotify? || s.t.toFront || s.t.front.First?
  {
    RunKeeps(Attach(txKick), run);
  }

  /** Receive kicks never stall: on every run, when the backend may not kick the guest, either the kthread
      is awake and will re-arm it, or a receive event, handler, flag or notify is pending. */
  lemma ReceiveKickNeverLost(txKick: bool, run: seq<Step>)
    ensures var s := Exec(Attach(txKick), run); !s.r.need ==> RxAlive(s.r, s.k)
  {
    RunKeeps(Attach(txKick), run);
  }

  /** How many steps of whoever holds the foremost token are left until host_need_txkick is set. */
  function Rank(t: Tx, k: Kthread): nat
  {
    if t.host then 0
    else if t.front.First? then 1
    else if t.toFront then (if t.front.Quiet? then 2 else 3)
    else if k.KNotify? then 4
    else if t.need then
      match k
      case KClear => 5
      case KDrain => 6
      case KRead => 7
      case KTx => 8
      case KWait => 9
      case KArm => 10
      case KAsleep => 10
      case _ => 11
    else if t.back.First? then 12
    else if t.toBack then (if t.back.Quiet? then 13 else 14)
    else 15
  }

  /** The component whose next step moves the foremost token. */
  function Helper(t: Tx, k: Kthread): Step
  {
    if t.front.First? then FrontTxStep
    else if t.toFront then (if t.front.Quiet? then DeliverTxToFront else FrontTxStep)
    else if k.KNotify? then KthreadStep
    else if t.need then (if k.KAsleep? then BackTxStep else KthreadStep)
    else if t.back.First? then BackTxStep
    else if t.toBack then (if t.back.Quiet? then DeliverTxToBack else BackTxStep)
    else XmitStep
  }

  /** The helper can always move, its step brings the flag nearer, and nobody else's step sends it back or
      takes the turn away from the helper without bringing it nearer. */
  lemma HelperProgress(s: State, a: Step)
    requires TxInv(s.t, s.k) && !s.t.host
    ensures Enabled(s, Helper(s.t, s.k)) && 1 <= Rank(s.t, s.k) <= 15
    ensures var s' := Do(s, a);
            && Rank(s'.t, s'.k) <= Rank(s.t, s.k)
            && (a == Helper(s.t, s.k) ==> Rank(s'.t, s'.k) < Rank(s.t, s.k))
            && (Rank(s'.t, s'.k) == Rank(s.t, s.k) ==> Helper(s'.t, s'.k) == Helper(s.t, s.k))
  {
  }

  /** How often, on a run, the step taken was the one the helper of that moment had to take. */
  function Helped(s: State, run: seq<Step>): nat
    decreases |run|
  {
    if run == [] then 0 else (if run[0] == Helper(s.t, s.k) then 1 else 0) + Helped(Do(s, run[0]), run[1..])
  }

  /** Every fair run sets the flag again: while it stays clear, the helpers' steps are paid for by the
      rank, so at most fourteen of them fit in. */
  lemma {:induction false} KickReturns(s: State, run: seq<Step>)
    requires TxInv(s.t, s.k)
    ensures Helped(s, run) + Rank(Exec(s, run).t, Exec(s, run).k) <= Rank(s.t, s.k)
         || exists i | 0 <= i <= |run| :: Exec(s, run[..i]).t.host
    decreases |run|
  {
    if s.t.host {
      assert Exec(s, run[..0]).t.host;
    } else if run != [] {
      var s' := Do(s, run[0]);
      HelperProgress(s, run[0]);
      TxStepKeeps(s, run[0]);
      KickReturns(s', run[1..]);
      if i :| 0 <= i <= |run[1..]| && Exec(s', run[1..][..i]).t.host {
        assert run[..i + 1][0] == run[0] && run[..i + 1][1..] == run[1..][..i];
        assert Exec(s, run[..i + 1]).t.host;
      }
    }
  }

  /** The receive direction: whose step brings guest_need_rxkick nearer to being set again. Any call of the
      guest's sync function will do, whatever room it finds. */
  predicate RxHelps(r: Rx, k: Kthread, a: Step)
  {
    if !k.KAsleep? then a.KthreadStep?
    else if !r.back.Quiet? then a.BackRxStep?
    else if r.toBack then a.DeliverRxToBack?
    else if r.sync.SNotify? || r.host then a.SyncStep?
    else if r.front.First? then a.FrontRxStep?
    else if r.toFront then (if r.front.Quiet? then a.DeliverRxToFront? else a.FrontRxStep?)
    else a.BridgeStep?
  }

  /** How many such steps are left. */
  function RxRank(r: Rx, k: Kthread): nat
  {
    if r.need then 0
    else
      match k
      case KArm => 1
      case KRx => 2
      case KNotify => 3
      case KClear => 4
      case KDrain => 5
      case KRead => 6
      case KTx => 7
      case KWait => 8
      case KAsleep =>
        if r.back.First? then 9
        else if !r.back.Quiet? then 9
        else if r.toBack then 10
        else if r.sync.SNotify? then 11
        else if r.host then
          (match r.sync
           case SClear => 12
           case SMove => 13
           case STest => 14
           case SImport => 15
           case _ => 16)
        else if r.front.First? then 17
        else if r.toFront then (if r.front.Quiet? then 18 else 19)
        else 20
  }

  lemma SomebodyHelps(r: Rx, k: Kthread)
    ensures exists b :: RxHelps(r, k, b)
  {
    assert RxHelps(r, k, KthreadStep) || RxHelps(r, k, BackRxStep) || RxHelps(r, k, DeliverRxToBack)
        || RxHelps(r, k, SyncStep(1)) || RxHelps(r, k, FrontRxStep) || RxHelps(r, k, DeliverRxToFront)
        || RxHelps(r, k, BridgeStep);
  }

  /** While the flag is clear somebody's next step brings it nearer, and nobody's takes it further away. */
  lemma RxProgress(s: State, a: Step)
    requires RxInv(s.r, s.k) && !s.r.need
    ensures 1 <= RxRank(s.r, s.k) <= 20
    ensures (RxHelps(s.r, s.k, a) ==> Enabled(s, a)) && exists b :: RxHelps(s.r, s.k, b)
    ensures var s' := Do(s, a);
            && RxRank(s'.r, s'.k) <= RxRank(s.r, s.k)
            && (RxHelps(s.r, s.k, a) ==> RxRank(s'.r, s'.k) < RxRank(s.r, s.k))
  {
    SomebodyHelps(s.r, s.k);
    hide DoXmit, DoFrontTx;
  }

  function RxHelped(s: State, run: seq<Step>): nat
    decreases |run|
  {
    if run == [] then 0 else (if RxHelps(s.r, s.k, run[0]) then 1 else 0) + RxHelped(Do(s, run[0]), run[1..])
  }

  /** Every fair run lets the backend kick the guest again: at most nineteen helping steps fit in before. */
  lemma {:induction false} RearmReturns(s: State, run: seq<Step>)
    requires RxInv(s.r, s.k)
    ensures RxHelped(s, run) + RxRank(Exec(s, run).r, Exec(s, run).k) <= RxRank(s.r, s.k) <= 20
         || exists i | 0 <= i <= |run| :: Exec(s, run[..i]).r.need
    decreases |run|
  {
    hide RxInv, RxHelps, RxRank, Do;
    if s.r.need {
      assert Exec(s, run[..0]).r.need;
    } else {
      RxProgress(s, XmitStep);
      if run != [] {
        var s' := Do(s, run[0]);
        RxProgress(s, run[0]);
        RxStepKeeps(s, run[0]);
        RearmReturns(s', run[1..]);
        if i :| 0 <= i <= |run[1..]| && Exec(s', run[1..][..i]).r.need {
          assert run[..i + 1][0] == run[0] && run[..i + 1][1..] == run[1..][..i];
          assert Exec(s, run[..i + 1]).r.need;
        }
      }
    }
  }

  /** The backend will read the ring head again before it falls idle: xmit is bound to notify, or the event,
      the handler or the backend's flag is on the way there. */
  predicate DrainComing(t: Tx, k: Kthread)
  {
    t.xmit.XBusy? || t.xmit.XClear? || t.xmit.XNotify? || t.toBack || t.back.First?
    || (t.need && !k.KClear?) || (t.host && (t.xmit.XTest? || t.xmit.XPublish?))
  }

  ghost predicate OneToken(t: Tx, k: Kthread)
  {
    && TxInv(t, k) && Tokens(t, k) == 1 && (k.KDrain? ==> t.seen == t.pub)
    && (t.pub > t.drained ==> DrainComing(t, k))
  }

  lemma OneTokenStep(s: State, a: Step)
    requires OneToken(s.t, s.k)
    ensures OneToken(Do(s, a).t, Do(s, a).k)
  {
    TxStepKeeps(s, a);
  }

  /** With one token there is always one, and every published packet has a drain coming. */
  lemma {:induction false} OneTokenDrains(s: State, run: seq<Step>)
    requires OneToken(s.t, s.k)
    ensures OneToken(Exec(s, run).t, Exec(s, run).k)
    decreases |run|
  {
    if run != [] {
      OneTokenStep(s, run[0]);
      OneTokenDrains(Do(s, run[0]), run[1..]);
    }
  }

  /** Where the token of a one-token state is headed while a published packet waits: to the backend's read of
      the ring head. */
  function DrainHelper(t: Tx, k: Kthread): Step
  {
    if t.host then XmitStep else Helper(t, k)
  }

  function DrainRank(t: Tx, k: Kthread): nat
  {
    if t.host then 16 + XmitLeft(t.xmit) else Rank(t, k)
  }

  /** How far xmit is from sending its notify. */
  function XmitLeft(x: Xmit): nat
  {
    match x
    case XNotify => 0
    case XClear => 1
    case XBusy => 2
    case XPublish => 3
    case XTest => 4
    case XIdle => 5
  }

  lemma DrainProgress(s: State, a: Step)
    requires OneToken(s.t, s.k) && s.t.drained < s.t.pub
    ensures Enabled(s, DrainHelper(s.t, s.k)) && DrainRank(s.t, s.k) <= 20
    ensures var s' := Do(s, a);
            s'.t.drained < s'.t.pub ==>
              && DrainRank(s'.t, s'.k) <= DrainRank(s.t, s.k)
              && (a == DrainHelper(s.t, s.k) ==> DrainRank(s'.t, s'.k) < DrainRank(s.t, s.k))
    ensures Do(s, a).t.pub >= s.t.pub
  {
    if !s.t.host { HelperProgress(s, a); }
  }

  /** How often, on a run, the step taken was the one that brings the waiting packet's drain nearer. */
  function DrainHelped(s: State, run: seq<Step>): nat
    decreases |run|
  {
    if run == [] then 0
    else (if run[0] == DrainHelper(s.t, s.k) then 1 else 0) + DrainHelped(Do(s, run[0]), run[1..])
  }

  /** A drain that is coming comes: from a one-token state every fair run drains every published packet; at
      most twenty helping steps fit in before. */
  lemma {:induction false} DrainArrives(s: State, run: seq<Step>, p: nat)
    requires OneToken(s.t, s.k) && s.t.drained < p <= s.t.pub
    ensures DrainHelped(s, run) + DrainRank(Exec(s, run).t, Exec(s, run).k) <= DrainRank(s.t, s.k) <= 20
         || exists i | 0 <= i <= |run| :: Exec(s, run[..i]).t.drained >= p
    decreases |run|
  {
    hide OneToken, DrainHelper, DrainRank, Do;
    DrainProgress(s, XmitStep);
    if run != [] {
      var s' := Do(s, run[0]);
      DrainProgress(s, run[0]);
      OneTokenStep(s, run[0]);
      if s'.t.drained >= p {
        assert run[..1][0] == run[0] && run[..1][1..] == [];
        assert Exec(s, run[..1]).t.drained >= p;
      } else {
        DrainArrives(s', run[1..], p);
        if i :| 0 <= i <= |run[1..]| && Exec(s', run[1..][..i]).t.drained >= p {
          assert run[..i + 1][0] == run[0] && run[..i + 1][1..] == run[1..][..i];
          assert Exec(s, run[..i + 1]).t.drained >= p;
        }
      }
    }
  }

  /** The backend has read everything published whenever the guest may kick, except in the middle of one. */
  predicate CaughtUp(t: Tx)
  {
    t.host && !t.xmit.XBusy? && !t.xmit.XClear? ==> t.drained == t.pub
  }

  /** So with one token nothing the guest has published is unread when it is told to go on. */
  lemma {:induction false} KickMeansRead(s: State, run: seq<Step>)
    requires OneToken(s.t, s.k) && CaughtUp(s.t)
    ensures CaughtUp(Exec(s, run).t)
    decreases |run|
  {
    if run != [] {
      OneTokenStep(s, run[0]);
      assert CaughtUp(Do(s, run[0]).t);
      KickMeansRead(Do(s, run[0]), run[1..]);
    }
  }

  lemma {:induction false} ExecConcat(s: State, a: seq<Step>, b: seq<Step>)
    ensures Exec(s, a + b) == Exec(Exec(s, a), b)
    decreases |a|
  {
    if a == [] {
      assert a + b == b;
    } else {
      assert (a + b)[0] == a[0] && (a + b)[1..] == a[1..] + b;
      ExecConcat(Do(s, a[0]), a[1..], b);
    }
  }

  lemma ExecThree(s: State, a: Step, b: Step, c: Step)
    ensures Exec(s, [a, b, c]) == Do(Do(Do(s, a), b), c)
  {
    var s1, s2 := Do(s, a), Do(Do(s, a), b);
    assert [a, b, c][1..] == [b, c] && Exec(s, [a, b, c]) == Exec(s1, [b, c]);
    assert [b, c][1..] == [c] && Exec(s1, [b, c]) == Exec(s2, [c]);
    assert [c][1..] == [] && Exec(s2, [c]) == Exec(Do(s2, c), []);
  }

  lemma ExecSix(s: State, a: Step, b: Step, c: Step, d: Step, e: Step, f: Step)
    ensures Exec(s, [a, b, c] + [d, e, f]) == Do(Do(Do(Do(Do(Do(s, a), b), c), d), e), f)
  {
    ExecThree(s, a, b, c);
    ExecThree(Do(Do(Do(s, a), b), c), d, e, f);
    ExecConcat(s, [a, b, c], [d, e, f]);
  }

  // Whole calls that nobody disturbs

  /** A transmission that finds the flag set publishes everything staged and marks the guest busy before it
      notifies; one that finds it clear only stages. */
  lemma XmitCall(s: State)
    requires s.t.xmit.XIdle?
    ensures s.t.host ==>
              Exec(s, [XmitStep, XmitStep, XmitStep] + [XmitStep, XmitStep, XmitStep])
              == s.(t := s.t.(staged := s.t.staged + 1, pub := s.t.staged + 1, guest := true, host := false, toBack := true))
    ensures !s.t.host ==> Do(Do(s, XmitStep), XmitStep) == s.(t := s.t.(staged := s.t.staged + 1))
  {
    ExecSix(s, XmitStep, XmitStep, XmitStep, XmitStep, XmitStep, XmitStep);
  }

  /** The event of that notify sets the backend's flag and wakes its thread. */
  lemma BackTxCall(s: State)
    requires s.t.toBack && s.t.back.Quiet?
    ensures Exec(s, [DeliverTxToBack, BackTxStep, BackTxStep])
         == s.(t := s.t.(toBack := false, need := true), k := if s.k.KAsleep? then KWait else s.k)
  {
    ExecThree(s, DeliverTxToBack, BackTxStep, BackTxStep);
  }

  /** Its turn reads and drains what is published by then, clears the flag and notifies. */
  lemma DrainCall(s: State)
    requires s.k.KWait? && s.t.need
    ensures Exec(s, [KthreadStep, KthreadStep, KthreadStep] + [KthreadStep, KthreadStep, KthreadStep])
         == s.(t := s.t.(seen := s.t.pub, drained := s.t.pub, need := false, toFront := true), k := KRx)
  {
    ExecSix(s, KthreadStep, KthreadStep, KthreadStep, KthreadStep, KthreadStep, KthreadStep);
  }

  /** The event back allows the next kick and marks the guest idle. */
  lemma FrontTxCall(s: State)
    requires s.t.toFront && s.t.front.Quiet?
    ensures Exec(s, [DeliverTxToFront, FrontTxStep, FrontTxStep]) == s.(t := s.t.(toFront := false, host := true, guest := false))
  {
    ExecThree(s, DeliverTxToFront, FrontTxStep, FrontTxStep);
  }

  /** An append that finds the guest waiting takes the flag and notifies. */
  lemma BridgeCall(s: State)
    requires s.r.bridge.BIdle? && s.r.need
    ensures Do(Do(Do(Do(s, BridgeStep), BridgeStep), BridgeStep), BridgeStep)
         == s.(r := s.r.(avail := s.r.avail + 1, need := false, toFront := true))
  {
  }

  /** The handler allows the sync function to import. */
  lemma FrontRxCall(s: State)
    requires s.r.toFront && s.r.front.Quiet?
    ensures Exec(s, [DeliverRxToFront, FrontRxStep, FrontRxStep]) == s.(r := s.r.(toFront := false, host := true, guest := false))
  {
    ExecThree(s, DeliverRxToFront, FrontRxStep, FrontRxStep);
  }

  /** That takes what is there, as far as there is room, and notifies the backend. */
  lemma SyncCall(s: State, free: nat)
    requires s.r.sync.SIdle? && s.r.host && s.r.taken <= s.r.avail
    ensures var n := Min(free, s.r.avail - s.r.taken);
            Exec(s, [SyncStep(free), SyncStep(free), SyncStep(free)] + [SyncStep(free), SyncStep(free), SyncStep(free)])
            == s.(r := s.r.(space := s.r.avail - s.r.taken, got := n, taken := s.r.taken + n, host := false, toBack := true))
  {
    var a, n := SyncStep(free), Min(free, s.r.avail - s.r.taken);
    ExecSix(s, a, a, a, a, a, a);
    hide *;
    SyncImports(s, free, n);
    SyncKicks(s.(r := s.r.(space := s.r.avail - s.r.taken, got := n, sync := SMove)), free);
  }

  lemma SyncImports(s: State, free: nat, n: nat)
    requires s.r.sync.SIdle? && s.r.host && s.r.taken <= s.r.avail && n == Min(free, s.r.avail - s.r.taken)
    ensures Do(Do(Do(s, SyncStep(free)), SyncStep(free)), SyncStep(free))
         == s.(r := s.r.(space := s.r.avail - s.r.taken, got := n, sync := SMove))
  {
  }

  lemma SyncKicks(s: State, free: nat)
    requires s.r.sync.SMove?
    ensures Do(Do(Do(s, SyncStep(free)), SyncStep(free)), SyncStep(free))
         == s.(r := s.r.(taken := s.r.taken + s.r.got, host := false, toBack := true, sync := SIdle))
  {
  }

  /** The event of that notify wakes the thread, which re-arms the flag when there is nothing to transmit. */
  lemma RearmCall(s: State)
    requires s.r.toBack && s.r.back.Quiet? && s.k.KAsleep? && !s.r.need && !s.t.need
    ensures Exec(s, [DeliverRxToBack, BackRxStep, KthreadStep] + [KthreadStep, KthreadStep, KthreadStep])
         == s.(r := s.r.(toBack := false, need := true), k := KWait)
  {
    ExecSix(s, DeliverRxToBack, BackRxStep, KthreadStep, KthreadStep, KthreadStep, KthreadStep);
  }

  /** Some run leads from s to s'. */
  ghost predicate Leads(s: State, s': State)
  {
    exists run: seq<Step> :: Exec(s, run) == s'
  }

  lemma LeadsNowhere(s: State)
    ensures Leads(s, s)
  {
    assert Exec(s, []) == s;
  }

  /** One step and then a run. */
  lemma LeadsOn(s: State, a: Step, s': State)
    requires Leads(Do(s, a), s')
    ensures Leads(s, s')
  {
    var run :| Exec(Do(s, a), run) == s';
    assert ([a] + run)[1..] == run;
    assert Exec(s, [a] + run) == s';
  }

  lemma LeadsFurther(s: State, s': State, s'': State)
    requires Leads(s, s') && Leads(s', s'')
    ensures Leads(s, s'')
  {
    var r1 :| Exec(s, r1) == s';
    var r2 :| Exec(s', r2) == s'';
    ExecConcat(s, r1, r2);
  }

  /** A token between the kthread's notify and the guest's flag. */
  predicate Ahead(t: Tx, k: Kthread)
  {
    k.KNotify? || t.toFront || t.front.First?
  }

  /** A token between xmit's notify and the backend's flag. */
  predicate Behind(t: Tx)
  {
    t.xmit.XNotify? || t.toBack || t.back.First? || t.need
  }

  lemma HelperStep(s: State)
    requires TxInv(s.t, s.k) && !s.t.host
    ensures var s' := Do(s, Helper(s.t, s.k));
            && TxInv(s'.t, s'.k) && Rank(s'.t, s'.k) < Rank(s.t, s.k) && Tokens(s'.t, s'.k) == Tokens(s.t, s.k)
            && (Ahead(s.t, s.k) && Behind(s.t) ==> Behind(s'.t) && s'.t.xmit == s.t.xmit && (s'.t.host || Ahead(s'.t, s'.k)))
  {
    HelperProgress(s, Helper(s.t, s.k));
    TxStepKeeps(s, Helper(s.t, s.k));
  }

  /** The foremost token can be brought to the guest's flag. With one ahead, those behind stay there. */
  lemma {:induction false} ToHost(s: State) returns (s': State)
    requires TxInv(s.t, s.k)
    ensures Leads(s, s') && TxInv(s'.t, s'.k) && s'.t.host && Tokens(s'.t, s'.k) == Tokens(s.t, s.k)
    ensures s.t.host ==> s' == s
    ensures !s.t.host && Ahead(s.t, s.k) && Behind(s.t) ==> Behind(s'.t) && s'.t.xmit == s.t.xmit
    decreases Rank(s.t, s.k)
  {
    hide TxInv, Tokens, Do, Exec, Helper, Rank, Leads;
    if s.t.host {
      s' := s;
      LeadsNowhere(s);
    } else {
      HelperStep(s);
      s' := ToHost(Do(s, Helper(s.t, s.k)));
      LeadsOn(s, Helper(s.t, s.k), s');
    }
  }

  /** With its flag set the guest can run xmit up to the notify. The token moves behind the others. */
  lemma {:induction false} ToNotify(s: State) returns (s': State)
    requires TxInv(s.t, s.k) && s.t.host && !s.t.xmit.XNotify?
    ensures Leads(s, s') && TxInv(s'.t, s'.k) && !s'.t.host && s'.t.xmit.XNotify? && s'.k == s.k
    ensures Tokens(s'.t, s'.k) == Tokens(s.t, s.k) && s'.t.need == s.t.need
    ensures Ahead(s.t, s.k) ==> Ahead(s'.t, s'.k)
    decreases XmitLeft(s.t.xmit)
  {
    var s1 := Do(s, XmitStep);
    TxStepKeeps(s, XmitStep);
    if s1.t.xmit.XNotify? {
      s' := s1;
      LeadsNowhere(s1);
    } else {
      s' := ToNotify(s1);
    }
    LeadsOn(s, XmitStep, s');
  }

  /** How far the tokens behind are from a kthread that has read the ring and is about to clear its flag. */
  function ClearLeft(t: Tx, k: Kthread): nat
  {
    if t.need then
      match k
      case KClear => 0
      case KDrain => 1
      case KRead => 2
      case KTx => 3
      case KWait => 4
      case KArm => 5
      case KRx => 6
      case KNotify => 7
      case KAsleep => 8
    else if t.back.First? then 9
    else if t.toBack then (if t.back.Quiet? then 10 else 11)
    else 12
  }

  function Forward(t: Tx, k: Kthread): Step
  {
    if t.need then (if k.KAsleep? then BackTxStep else KthreadStep)
    else if t.back.First? then BackTxStep
    else if t.toBack then (if t.back.Quiet? then DeliverTxToBack else BackTxStep)
    else XmitStep
  }

  lemma ForwardStep(s: State)
    requires TxInv(s.t, s.k) && s.t.host && Behind(s.t) && ClearLeft(s.t, s.k) > 0
    ensures var s' := Do(s, Forward(s.t, s.k));
            && TxInv(s'.t, s'.k) && s'.t.host && Behind(s'.t) && ClearLeft(s'.t, s'.k) < ClearLeft(s.t, s.k)
            && (s'.t.xmit == s.t.xmit || (s.t.xmit.XNotify? && s'.t.xmit.XIdle?))
  {
    TxStepKeeps(s, Forward(s.t, s.k));
  }

  lemma {:induction false} ToClear(s: State) returns (s': State)
    requires TxInv(s.t, s.k) && s.t.host && Behind(s.t)
    ensures Leads(s, s') && TxInv(s'.t, s'.k) && s'.t.host && s'.t.need && s'.k.KClear?
    ensures s'.t.xmit == s.t.xmit || (s.t.xmit.XNotify? && s'.t.xmit.XIdle?)
    decreases ClearLeft(s.t, s.k)
  {
    hide TxInv, Do, Exec, Forward, Leads;
    if ClearLeft(s.t, s.k) == 0 {
      s' := s;
      LeadsNowhere(s);
    } else {
      ForwardStep(s);
      s' := ToClear(Do(s, Forward(s.t, s.k)));
      LeadsOn(s, Forward(s.t, s.k), s');
    }
  }

  /** A published packet is left behind: xmit is idle and no drain is coming. */
  ghost predicate Stuck(s: State)
  {
    s.t.pub > s.t.drained && s.t.xmit.XIdle? && !DrainComing(s.t, s.k)
  }

  /** It stays behind until the guest transmits again: no other step drains anything. */
  lemma {:induction false} StuckStays(s: State, run: seq<Step>)
    requires TxInv(s.t, s.k) && Stuck(s) && XmitStep !in run
    ensures Stuck(Exec(s, run)) && Exec(s, run).t.drained == s.t.drained && Exec(s, run).t.pub == s.t.pub
    decreases |run|
  {
    if run != [] {
      assert run[0] in run && XmitStep !in run[1..];
      TxStepKeeps(s, run[0]);
      StuckStep(s, run[0]);
      StuckStays(Do(s, run[0]), run[1..]);
    }
  }

  lemma StuckStep(s: State, a: Step)
    requires TxInv(s.t, s.k) && Stuck(s) && !a.XmitStep?
    ensures var s' := Do(s, a); Stuck(s') && s'.t.drained == s.t.drained && s'.t.pub == s.t.pub
  {
    hide DoXmit, DoSync, DoBridge, DoFrontRx;
  }

  /** The kthread has read the ring and not yet cleared its flag while the guest publishes and kicks. */
  lemma PublishBehindRead(s: State) returns (s': State)
    requires TxInv(s.t, s.k) && s.t.host && s.t.xmit.XIdle?
    ensures Leads(s, s') && s'.t.pub > s.t.drained && s'.t.drained == s.t.drained && s'.k == s.k
    ensures s'.t.xmit.XIdle? && s'.t.need == s.t.need && s'.t.back == s.t.back && s'.t.toBack
  {
    var x := XmitStep;
    var s3 := Do(Do(Do(s, x), x), x);
    assert s3.t.pub > s.t.drained && s3.t.xmit.XBusy?;
    s' := Do(Do(Do(s3, x), x), x);
    ExecSix(s, x, x, x, x, x, x);
  }

  /** The event arrives while the flag is still set and is forgotten with it. */
  lemma {:induction false} Forgotten(s: State) returns (s': State)
    requires s.t.pub > s.t.drained && s.k.KClear? && s.t.xmit.XIdle? && s.t.need
    ensures Leads(s, s') && Stuck(s')
    decreases (if s.t.toBack then 3 else 0) + (match s.t.back case Quiet => 0 case Second => 1 case First => 2)
  {
    if s.t.back.First? || (s.t.toBack && s.t.back.Second?) {
      s' := Forgotten(Do(s, BackTxStep));
      LeadsOn(s, BackTxStep, s');
    } else if s.t.toBack {
      s' := Forgotten(Do(s, DeliverTxToBack));
      LeadsOn(s, DeliverTxToBack, s');
    } else {
      s' := Do(s, KthreadStep);
      LeadsNowhere(s');
      LeadsOn(s, KthreadStep, s');
    }
  }

  lemma ClearedBehind(s: State) returns (s': State)
    requires TxInv(s.t, s.k) && s.t.host && s.t.need && s.k.KClear? && (s.t.xmit.XIdle? || s.t.xmit.XNotify?)
    ensures Leads(s, s') && Stuck(s')
  {
    var s1 := s;
    LeadsNowhere(s);
    if s.t.xmit.XNotify? {
      s1 := Do(s, XmitStep);
      TxStepKeeps(s, XmitStep);
      LeadsNowhere(s1);
      LeadsOn(s, XmitStep, s1);
    }
    var s2 := PublishBehindRead(s1);
    s' := Forgotten(s2);
    LeadsFurther(s, s1, s2);
    LeadsFurther(s, s2, s');
  }

  /** One token at the guest's flag and one behind are enough to lose a drain. If xmit is half way through,
      it finishes first and the kthread's token takes its place. */
  lemma HostAndBehindLose(s: State) returns (s': State)
    requires TxInv(s.t, s.k) && s.t.host && Behind(s.t)
    ensures Leads(s, s') && Stuck(s')
  {
    hide TxInv, Exec, Leads, Stuck, Tokens, DoXmit;
    var s1 := ToClear(s);
    if s1.t.xmit.XIdle? || s1.t.xmit.XNotify? {
      s' := ClearedBehind(s1);
    } else {
      var s2 := ToNotify(s1);
      var s3 := Do(s2, KthreadStep);
      TxStepKeeps(s2, KthreadStep);
      var s4 := ToHost(s3);
      var s5 := ToClear(s4);
      s' := ClearedBehind(s5);
      LeadsFurther(s4, s5, s');
      LeadsFurther(s3, s4, s');
      LeadsOn(s2, KthreadStep, s');
      LeadsFurther(s1, s2, s');
    }
    LeadsFurther(s, s1, s');
  }

  /** So are any two tokens. */
  lemma TwoTokensLose(s: State) returns (s': State)
    requires TxInv(s.t, s.k) && Tokens(s.t, s.k) >= 2
    ensures Leads(s, s') && Stuck(s')
  {
    var s1 := ToHost(s);
    if Behind(s1.t) {
      s' := HostAndBehindLose(s1);
    } else {
      assert Ahead(s1.t, s1.k);
      var s2 := ToNotify(s1);
      var s3 := ToHost(s2);
      s' := HostAndBehindLose(s3);
      LeadsFurther(s2, s3, s');
      LeadsFurther(s1, s2, s');
    }
    LeadsFurther(s, s1, s');
  }

  /** Whatever happens from s on, no published packet is left behind. */
  ghost predicate NeverStuck(s: State)
  {
    forall run: seq<Step> :: !Stuck(Exec(s, run))
  }

  /** Exactly the states with one token, and nothing already missed, are safe. Every state with two can be
      steered to a published packet that only another transmission brings the backend to read. */
  lemma NeverStuckIffOneToken(s: State)
    requires TxInv(s.t, s.k)
    ensures NeverStuck(s) <==> OneToken(s.t, s.k)
  {
    if OneToken(s.t, s.k) {
      forall run: seq<Step> ensures !Stuck(Exec(s, run)) {
        OneTokenDrains(s, run);
      }
    } else {
      var s' := MissedLeads(s);
      var run :| Exec(s, run) == s';
      assert Stuck(Exec(s, run));
    }
  }

  /** Without one token, or with something missed, some run leaves a packet behind. */
  lemma MissedLeads(s: State) returns (s': State)
    requires TxInv(s.t, s.k) && !OneToken(s.t, s.k)
    ensures Leads(s, s') && Stuck(s')
  {
    if Tokens(s.t, s.k) >= 2 {
      s' := TwoTokensLose(s);
    } else {
      var s1 := if s.t.xmit.XIdle? then s else Do(s, XmitStep);
      s' := if s.k.KDrain? then Do(s1, KthreadStep) else s1;
      LeadsNowhere(s');
      if s.k.KDrain? { LeadsOn(s1, KthreadStep, s'); }
      if !s.t.xmit.XIdle? { LeadsOn(s, XmitStep, s'); }
    }
  }

  /** Attach notifies the transmit channel unasked. That makes a second token beside the guest's flag, so
      what the code leaves behind is not safe; without that one notify it would be. */
  lemma AttachIsNotSafe()
    ensures !NeverStuck(Attach(true)) && NeverStuck(Attach(false))
  {
    hide NeverStuck;
    NeverStuckIffOneToken(Attach(true));
    NeverStuckIffOneToken(Attach(false));
  }

  /** How many packets the bridge appends on a run: its other steps only finish a callback. */
  function Appends(s: State, run: seq<Step>): nat
    decreases |run|
  {
    if run == [] then 0
    else (if run[0].BridgeStep? && s.r.bridge.BIdle? then 1 else 0) + Appends(Do(s, run[0]), run[1..])
  }

  lemma {:induction false} AppendsConcat(s: State, a: seq<Step>, b: seq<Step>)
    ensures Appends(s, a + b) == Appends(s, a) + Appends(Exec(s, a), b)
    decreases |a|
  {
    if a == [] {
      assert a + b == b;
    } else {
      assert (a + b)[0] == a[0] && (a + b)[1..] == a[1..] + b;
      AppendsConcat(Do(s, a[0]), a[1..], b);
    }
  }

  /** Some run without an append leads from s to s'. */
  ghost predicate Reaches(s: State, s': State)
  {
    exists run: seq<Step> :: Appends(s, run) == 0 && Exec(s, run) == s'
  }

  lemma ReachesItself(s: State)
    ensures Reaches(s, s)
  {
    assert Appends(s, []) == 0 && Exec(s, []) == s;
  }

  lemma ReachesOn(s: State, a: Step, s': State)
    requires Reaches(Do(s, a), s') && !(a.BridgeStep? && s.r.bridge.BIdle?)
    ensures Reaches(s, s')
  {
    var run :| Appends(Do(s, a), run) == 0 && Exec(Do(s, a), run) == s';
    assert ([a] + run)[1..] == run;
    assert Appends(s, [a] + run) == 0 && Exec(s, [a] + run) == s';
  }

  /** The guest may import, or a kick that will let it is on its way. */
  predicate Kicked(r: Rx)
  {
    r.host || r.front.First? || r.toFront
  }

  /** Nothing will let the guest import: no kick is on its way, and no callback that might still send one. */
  predicate NoRxKick(r: Rx)
  {
    !Kicked(r) && r.bridge.BIdle? && (r.sync.SImport? || r.sync.SIdle? || (r.sync.STest? && r.got == 0))
  }

  lemma {:induction false} StuckWithoutAppend(s: State, run: seq<Step>)
    requires NoRxKick(s.r) && Appends(s, run) == 0
    ensures Exec(s, run).r.taken == s.r.taken
    decreases |run|
  {
    if run != [] {
      assert NoRxKick(Do(s, run[0]).r) && Do(s, run[0]).r.taken == s.r.taken;
      StuckWithoutAppend(Do(s, run[0]), run[1..]);
    }
  }

  /** How far a callback that is past its append is from its notify: if it has still to test the flag, the
      kthread first sets it again. */
  function KickLeft(s: State): nat
  {
    if s.r.bridge.BNotify? then 1
    else if s.r.bridge.BClear? then 2
    else if s.r.need then 3
    else
      match s.k
      case KArm => 4
      case KRx => 5
      case KNotify => 6
      case KClear => 7
      case KDrain => 8
      case KRead => 9
      case KTx => 10
      case KWait => 11
      case KAsleep => if s.r.toBack && s.r.back.Quiet? then 13 else if s.r.toBack then 14 else 12
  }

  function TowardsKick(s: State): Step
  {
    if !s.r.bridge.BTest? || s.r.need then BridgeStep
    else if !s.k.KAsleep? then KthreadStep
    else if !s.r.back.Quiet? then BackRxStep
    else DeliverRxToBack
  }

  lemma KickNearer(s: State)
    requires RxInv(s.r, s.k) && s.r.sync.SIdle? && !Kicked(s.r) && !s.r.bridge.BIdle?
    ensures var a := TowardsKick(s);
            var s' := Do(s, a);
            && RxInv(s'.r, s'.k) && s'.r.sync.SIdle? && s'.r.taken == s.r.taken && s'.r.avail == s.r.avail
            && !(a.BridgeStep? && s.r.bridge.BIdle?)
            && KickLeft(s) > 0 && (Kicked(s'.r) || (!s'.r.bridge.BIdle? && KickLeft(s') < KickLeft(s)))
  {
    RxStepKeeps(s, TowardsKick(s));
  }

  /** A callback past its append can always go on to kick. */
  lemma {:induction false} CallbackKicks(s: State) returns (s': State)
    requires RxInv(s.r, s.k) && s.r.sync.SIdle? && (Kicked(s.r) || !s.r.bridge.BIdle?)
    ensures Reaches(s, s') && Kicked(s'.r) && s'.r.sync.SIdle? && s'.r.taken == s.r.taken && s'.r.avail == s.r.avail
    decreases if Kicked(s.r) then 0 else KickLeft(s)
  {
    hide RxInv, Do, Exec, Appends, Reaches, TowardsKick, KickLeft;
    if Kicked(s.r) {
      s' := s;
      ReachesItself(s);
    } else {
      KickNearer(s);
      s' := CallbackKicks(Do(s, TowardsKick(s)));
      ReachesOn(s, TowardsKick(s), s');
    }
  }

  /** A kick on its way arrives. */
  function KickTransit(r: Rx): nat
  {
    if r.host then 0 else if r.front.First? then 1 else if r.front.Quiet? then 2 else 3
  }

  lemma {:induction false} KickArrives(s: State) returns (s': State)
    requires Kicked(s.r) && s.r.sync.SIdle?
    ensures Reaches(s, s') && s'.r.host && s'.r.sync.SIdle? && s'.r.taken == s.r.taken && s'.r.avail == s.r.avail
    decreases KickTransit(s.r)
  {
    hide Exec, Appends, Reaches;
    if s.r.host {
      s' := s;
      ReachesItself(s);
    } else {
      var a := if s.r.front.Quiet? then DeliverRxToFront else FrontRxStep;
      s' := KickArrives(Do(s, a));
      ReachesOn(s, a, s');
    }
  }

  /** With the flag set one call of the guest's sync function takes a waiting packet. */
  lemma ImportRuns(s: State) returns (s': State)
    requires s.r.sync.SIdle? && s.r.host && s.r.taken < s.r.avail
    ensures Reaches(s, s') && s'.r.taken == s.r.taken + 1
  {
    hide Exec, Appends, Reaches;
    var a := SyncStep(1);
    var s1 := Do(s, a);
    var s2 := Do(s1, a);
    var s3 := Do(s2, a);
    assert s3 == s.(r := s.r.(space := s.r.avail - s.r.taken, got := 1, sync := SMove));
    s' := Do(s3, a);
    ReachesItself(s');
    ReachesOn(s3, a, s');
    ReachesOn(s2, a, s');
    ReachesOn(s1, a, s');
    ReachesOn(s, a, s');
  }

  lemma ReachesFurther(s: State, s': State, s'': State)
    requires Reaches(s, s') && Reaches(s', s'')
    ensures Reaches(s, s'')
  {
    var r1 :| Appends(s, r1) == 0 && Exec(s, r1) == s';
    var r2 :| Appends(s', r2) == 0 && Exec(s', r2) == s'';
    ExecConcat(s, r1, r2);
    AppendsConcat(s, r1, r2);
  }

  /** On this run the guest takes a packet, and the bridge appends none. */
  ghost predicate TakesWithoutAppend(s: State, run: seq<Step>)
  {
    Appends(s, run) == 0 && Exec(s, run).r.taken > s.r.taken
  }

  /** Packets wait in the shared ring while the guest is not inside its sync function. The guest can get
      at them without another append exactly when a receive kick has been given, or the callback of an
      earlier append has not returned. */
  lemma WaitingPacketsReachableIffKicked(s: State)
    requires RxInv(s.r, s.k) && s.r.sync.SIdle? && s.r.taken < s.r.avail
    ensures (exists run: seq<Step> :: TakesWithoutAppend(s, run))
       <==> s.r.host || s.r.front.First? || s.r.toFront || !s.r.bridge.BIdle?
  {
    if Kicked(s.r) || !s.r.bridge.BIdle? {
      var s1 := CallbackKicks(s);
      var s2 := KickArrives(s1);
      var s3 := ImportRuns(s2);
      ReachesFurther(s1, s2, s3);
      ReachesFurther(s, s1, s3);
      var run :| Appends(s, run) == 0 && Exec(s, run) == s3;
      assert TakesWithoutAppend(s, run);
    } else {
      forall run: seq<Step> ensures !TakesWithoutAppend(s, run) {
        if Appends(s, run) == 0 { StuckWithoutAppend(s, run); }
      }
    }
  }

  /** Two packets; the second is appended after the guest sampled the ring and before it re-arms the
      backend, so it is announced to nobody. */
  function StrandingRun(): seq<Step>
  {
    [BridgeStep, BridgeStep, BridgeStep] + [BridgeStep, DeliverRxToFront, FrontRxStep]
    + ([FrontRxStep, SyncStep(1), SyncStep(1)] + [SyncStep(1), SyncStep(1), BridgeStep])
    + ([BridgeStep, SyncStep(1), SyncStep(1)] + [DeliverRxToBack, BackRxStep, KthreadStep])
    + ([KthreadStep, KthreadStep, KthreadStep] + [KthreadStep, KthreadStep, KthreadStep])
  }

  function RxState(r: Rx, k: Kthread): State
  {
    State(Attach(true).t, r, k)
  }

  lemma FirstDelivered()
    ensures Exec(Attach(true), [BridgeStep, BridgeStep, BridgeStep] + [BridgeStep, DeliverRxToFront, FrontRxStep])
         == RxState(Rx(false, 1, BIdle, Quiet, true, true, 0, SIdle, 0, 0, Second, true, false), KAsleep)
  {
    hide Exec;
    ExecSix(Attach(true), BridgeStep, BridgeStep, BridgeStep, BridgeStep, DeliverRxToFront, FrontRxStep);
  }

  lemma FirstImported(s: State)
    requires s == RxState(Rx(false, 1, BIdle, Quiet, true, true, 0, SIdle, 0, 0, Second, true, false), KAsleep)
    ensures Exec(s, [FrontRxStep, SyncStep(1), SyncStep(1)] + [SyncStep(1), SyncStep(1), BridgeStep])
         == RxState(Rx(false, 2, BTest, Quiet, true, false, 1, SClear, 1, 1, Quiet, true, false), KAsleep)
  {
    hide Exec;
    ExecSix(s, FrontRxStep, SyncStep(1), SyncStep(1), SyncStep(1), SyncStep(1), BridgeStep);
  }

  lemma SecondUnannounced(s: State)
    requires s == RxState(Rx(false, 2, BTest, Quiet, true, false, 1, SClear, 1, 1, Quiet, true, false), KAsleep)
    ensures Exec(s, [BridgeStep, SyncStep(1), SyncStep(1)] + [DeliverRxToBack, BackRxStep, KthreadStep])
         == RxState(Rx(false, 2, BIdle, Quiet, false, false, 1, SIdle, 1, 1, Quiet, false, false), KTx)
  {
    hide Exec;
    ExecSix(s, BridgeStep, SyncStep(1), SyncStep(1), DeliverRxToBack, BackRxStep, KthreadStep);
  }

  lemma BackendRearms(s: State)
    requires s == RxState(Rx(false, 2, BIdle, Quiet, false, false, 1, SIdle, 1, 1, Quiet, false, false), KTx)
    ensures Exec(s, [KthreadStep, KthreadStep, KthreadStep] + [KthreadStep, KthreadStep, KthreadStep])
         == RxState(Rx(true, 2, BIdle, Quiet, false, false, 1, SIdle, 1, 1, Quiet, false, false), KAsleep)
  {
    hide Exec;
    ExecSix(s, KthreadStep, KthreadStep, KthreadStep, KthreadStep, KthreadStep, KthreadStep);
  }

  /** Kicks never stall, yet a packet can: it is published, nothing on the receive channel is pending, the
      guest's flag is clear, and by the lemma above only another append can free it. */
  lemma PacketCanBeStranded()
    ensures var s := Exec(Attach(true), StrandingRun());
            && s == RxState(Rx(true, 2, BIdle, Quiet, false, false, 1, SIdle, 1, 1, Quiet, false, false), KAsleep)
            && forall run: seq<Step> | Appends(s, run) == 0 :: Exec(s, run).r.taken == 1
  {
    hide Exec, Do, Appends;
    var s0, y, k := Attach(true), SyncStep(1), KthreadStep;
    var r1 := [BridgeStep, BridgeStep, BridgeStep] + [BridgeStep, DeliverRxToFront, FrontRxStep];
    var r2 := [FrontRxStep, y, y] + [y, y, BridgeStep];
    var r3 := [BridgeStep, y, y] + [DeliverRxToBack, BackRxStep, k];
    var r4 := [k, k, k] + [k, k, k];
    FirstDelivered();
    FirstImported(Exec(s0, r1));
    SecondUnannounced(Exec(Exec(s0, r1), r2));
    BackendRearms(Exec(Exec(Exec(s0, r1), r2), r3));
    ExecConcat(s0, r1, r2);
    ExecConcat(s0, r1 + r2, r3);
    ExecConcat(s0, r1 + r2 + r3, r4);
    assert StrandingRun() == r1 + r2 + r3 + r4;
    var s := Exec(s0, StrandingRun());
    forall run: seq<Step> | Appends(s, run) == 0 ensures Exec(s, run).r.taken == 1 {
      StuckWithoutAppend(s, run);
    }
  }
}
