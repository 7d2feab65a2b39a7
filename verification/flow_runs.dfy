/** Every interleaving of the packet thread, the proxy's own finish calls and one waiter. */
module FlowRuns {
  import opened Flow
  import opened Handler
  import opened Interceptor
  import opened Wrappers

  // One handled packet: what it was, what was answered, and the mode it met.
  datatype Event = Event(pkt: PacketView, verdict: Verdict, fragmentAll: bool, settled: bool)

  datatype BypassProgress = Complete(outcome: BypassOutcome) | ReadyForData

  // Initial waits for either signal, Completion only for the completion signal.
  datatype WaitKind = Initial | Completion

  // Where the waiter is; a subscription remembers how often each signal had been sent.
  datatype Waiter =
    | Starting
    | HalfSubscribed(finished: nat)
    | Subscribed(finished: nat, ready: nat)
    | Parked(finished: nat, ready: nat)
    | Returned(progress: BypassProgress)
    | TimedOut

  datatype System = System(
    flow: Signals,
    after: Settlement,
    kind: WaitKind,
    waiter: Waiter,
    trace: seq<Event>,
    panicked: bool)

  datatype Step =
    | Packet(pkt: PacketView, action: MethodAction)
    | Settle
    | ProxyFinish
    | SubscribeFinished
    | SubscribeReady
    | Check
    | Wake
    | Timeout

  function Start(kind: WaitKind): System {
    System(Signals(INITIAL, 0, 0), Nothing, kind, Starting, [], false)
  }

  function CurrentProgress(kind: WaitKind, s: FlowState): Option<BypassProgress> {
    if s.outcome.Some? then Some(Complete(s.outcome.value))
    else if kind == Initial && s.waitingForData then Some(ReadyForData)
    else None
  }

  function AfterPacket(y: System, pkt: PacketView, result: Locked): System {
    match result
    case Panicked => y.(panicked := true)
    case Locked(next, verdict, after) =>
      y.(flow := next, after := after,
         trace := y.trace + [Event(pkt, verdict, y.flow.state.fragmentAllData, y.flow.state.outcome.Some?)])
  }

  function WaiterStep(y: System, step: Step): Waiter {
    match (step, y.waiter)
    case (SubscribeFinished, Starting) =>
      if y.kind == Initial then HalfSubscribed(y.flow.notified) else Subscribed(y.flow.notified, y.flow.readied)
    case (SubscribeReady, HalfSubscribed(finished)) => Subscribed(finished, y.flow.readied)
    case (Check, Subscribed(finished, ready)) =>
      var progress := CurrentProgress(y.kind, y.flow.state);
      if progress.Some? then Returned(progress.value) else Parked(finished, ready)
    case (Wake, Parked(finished, ready)) =>
      if y.flow.notified > finished || (y.kind == Initial && y.flow.readied > ready) then Starting else y.waiter
    case (Timeout, _) => if y.waiter.Returned? then y.waiter else TimedOut
    case _ => y.waiter
  }

  // A step that is not enabled changes nothing. The packet thread handles one packet at a time.
  function Next(y: System, step: Step): System {
    match step
    case Packet(pkt, action) =>
      if y.after == Nothing && !y.panicked then AfterPacket(y, pkt, OnLocked(y.flow, pkt, action)) else y
    case Settle => y.(flow := Settled(y.flow, y.after), after := Nothing)
    case ProxyFinish => y.(flow := Finished(y.flow, UnexpectedClose))
    case _ => y.(waiter := WaiterStep(y, step))
  }

  function Run(y: System, steps: seq<Step>): System
    decreases |steps|
  {
    if steps == [] then y else Run(Next(y, steps[0]), steps[1..])
  }

  // ---- what every step keeps ----

  // Fragment-all mode has reported its outcome by the time the next packet is handled.
  ghost predicate SettlementInv(y: System) {
    && (y.after.Nothing? && y.flow.state.fragmentAllData ==> y.flow.state.outcome.Some?)
    && (y.after.SignalWith? ==> y.after.outcome == FakeDataAcked)
    && (y.after.SignalWith? && y.flow.state.monitor ==> y.flow.state.fragmentAllData)
  }

  ghost predicate OutcomeInv(y: System) {
    && y.flow.notified == (if y.flow.state.outcome.Some? then 1 else 0)
    && (!y.flow.state.monitor ==> y.flow.state.outcome.Some?)
    && (y.flow.state.monitor && y.flow.state.outcome.Some? ==> y.flow.state.fragmentAllData)
  }

  ghost predicate ControlInv(y: System) {
    Sane(y.flow.state) && !y.panicked && SettlementInv(y) && OutcomeInv(y)
  }

  // Every sequence number in use was announced by the packets of the trace, in order.
  predicate IsSyn(pkt: PacketView, s: u32) {
    pkt.direction.Outbound? && pkt.IsBareSyn() && pkt.seqNum == s && pkt.ack == 0
  }

  predicate IsSynAckTo(pkt: PacketView, s: u32, a: u32) {
    pkt.direction.Inbound? && pkt.IsSynAck() && pkt.seqNum == a && pkt.ack == Succ(s)
  }

  predicate IsFinalAck(pkt: PacketView, s: u32, a: u32) {
    pkt.direction.Outbound? && pkt.IsBareAck() && pkt.seqNum == Succ(s) && pkt.ack == Succ(a)
  }

  ghost predicate SawSyn(trace: seq<Event>, s: u32) {
    exists i :: 0 <= i < |trace| && IsSyn(trace[i].pkt, s)
  }

  ghost predicate SawSynAck(trace: seq<Event>, s: u32, a: u32) {
    exists j :: 0 <= j < |trace| && IsSynAckTo(trace[j].pkt, s, a) && SawSyn(trace[..j], s)
  }

  ghost predicate SawHandshake(trace: seq<Event>, s: u32, a: u32) {
    exists k :: 0 <= k < |trace| && IsFinalAck(trace[k].pkt, s, a) && SawSynAck(trace[..k], s, a)
  }

  // The bypass has begun, has succeeded, or is about to be reported as a success.
  predicate Succeeding(y: System) {
    || PastHandshake(y.flow.state)
    || y.flow.state.outcome == Some(FakeDataAcked)
    || (!y.after.Nothing? && y.after.outcome == FakeDataAcked)
    || y.waiter == Returned(ReadyForData)
  }

  ghost predicate HandshakeInv(y: System) {
    var s, a := y.flow.state.synSeq, y.flow.state.synAckSeq;
    && (s.Some? ==> SawSyn(y.trace, s.value))
    && (a.Some? ==> s.Some? && SawSynAck(y.trace, s.value, a.value))
    && (Succeeding(y) ==> a.Some? && s.Some? && SawHandshake(y.trace, s.value, a.value))
  }

  lemma TraceGrows(trace: seq<Event>, e: Event)
    ensures forall s :: SawSyn(trace, s) ==> SawSyn(trace + [e], s)
    ensures forall s, a :: SawSynAck(trace, s, a) ==> SawSynAck(trace + [e], s, a)
    ensures forall s, a :: SawHandshake(trace, s, a) ==> SawHandshake(trace + [e], s, a)
    ensures forall s :: IsSyn(e.pkt, s) ==> SawSyn(trace + [e], s)
    ensures forall s, a :: IsSynAckTo(e.pkt, s, a) && SawSyn(trace, s) ==> SawSynAck(trace + [e], s, a)
    ensures forall s, a :: IsFinalAck(e.pkt, s, a) && SawSynAck(trace, s, a) ==> SawHandshake(trace + [e], s, a)
  {
    var longer := trace + [e];
    assert longer[..|trace|] == trace && longer[|trace|] == e;
    assert forall n | 0 <= n <= |trace| :: longer[..n] == trace[..n];
    forall s | SawSyn(trace, s) ensures SawSyn(longer, s) {
      var i :| 0 <= i < |trace| && IsSyn(trace[i].pkt, s);
      assert IsSyn(longer[i].pkt, s);
    }
    forall s, a | SawSynAck(trace, s, a) ensures SawSynAck(longer, s, a) {
      var j :| 0 <= j < |trace| && IsSynAckTo(trace[j].pkt, s, a) && SawSyn(trace[..j], s);
      assert IsSynAckTo(longer[j].pkt, s, a);
    }
    forall s, a | SawHandshake(trace, s, a) ensures SawHandshake(longer, s, a) {
      var k :| 0 <= k < |trace| && IsFinalAck(trace[k].pkt, s, a) && SawSynAck(trace[..k], s, a);
      assert IsFinalAck(longer[k].pkt, s, a);
    }
  }

  // How often the handler has rewritten a packet without, or with, payload.
  function RewrittenAcks(trace: seq<Event>): nat {
    if trace == [] then 0
    else RewrittenAcks(trace[..|trace| - 1])
         + (if Rewrote(Last(trace)) && Last(trace).pkt.payloadLen == 0 then 1 else 0)
  }

  function RewrittenFirstData(trace: seq<Event>): nat {
    if trace == [] then 0
    else RewrittenFirstData(trace[..|trace| - 1])
         + (if Rewrote(Last(trace)) && Last(trace).pkt.payloadLen > 0 && !Last(trace).fragmentAll then 1 else 0)
  }

  function Last(trace: seq<Event>): Event
    requires trace != []
  {
    trace[|trace| - 1]
  }

  predicate Rewrote(e: Event) { e.verdict == AcceptModified }

  predicate AllowedRewrite(e: Event) {
    Rewrote(e) ==> e.pkt.direction.Outbound? && (e.settled ==> e.fragmentAll && e.pkt.payloadLen > 0)
  }

  ghost predicate BudgetInv(y: System) {
    && RewrittenAcks(y.trace) == (if y.flow.state.fakeSent then 1 else 0)
    && RewrittenFirstData(y.trace) <= (if y.flow.state.firstDataModified then 1 else 0)
    && (forall i :: 0 <= i < |y.trace| ==> AllowedRewrite(y.trace[i]))
  }

  // A subscription never remembers more than has been sent, a parked waiter has been
  // notified of everything it waits for, and a returned waiter has read the final outcome.
  ghost predicate WaiterInv(y: System) {
    match y.waiter
    case HalfSubscribed(finished) => finished <= y.flow.notified
    case Subscribed(finished, ready) => finished <= y.flow.notified && ready <= y.flow.readied
    case Parked(finished, ready) =>
      && finished <= y.flow.notified && ready <= y.flow.readied
      && (y.flow.state.outcome.Some? ==> y.flow.notified > finished)
      && (y.kind == Initial && y.flow.state.waitingForData ==> y.flow.readied > ready)
    case Returned(Complete(outcome)) => y.flow.state.outcome == Some(outcome)
    case _ => true
  }

  ghost predicate Inv(y: System) {
    ControlInv(y) && HandshakeInv(y) && BudgetInv(y) && WaiterInv(y)
  }

  // ---- what one packet can do to a flow, whatever the bypass method answers ----

  predicate Rejected(s: Signals, r: Locked)
    requires r.Locked?
  {
    && s.state.outcome.None? && r.next.state.outcome == Some(UnexpectedClose)
    && !r.next.state.monitor && r.next.notified == s.notified + 1 && r.after.Nothing? && r.verdict == Accept
  }

  predicate OutcomeEffect(s: Signals, r: Locked)
    requires r.Locked?
  {
    var st, ns := s.state, r.next.state;
    && ((ns.outcome == st.outcome && r.next.notified == s.notified) || Rejected(s, r))
    && (ns.monitor ==> st.monitor)
    && (!ns.monitor ==> Rejected(s, r) || st.fragmentAllData || !st.monitor)
    && (r.after.SignalWith? ==> ns.fragmentAllData && ns.monitor && r.after.outcome == FakeDataAcked)
    && (ns.fragmentAllData && !st.fragmentAllData ==> r.after.SignalWith?)
    && (st.fragmentAllData && ns.monitor ==> ns.fragmentAllData)
  }

  predicate HandshakeEffect(s: Signals, pkt: PacketView, r: Locked)
    requires r.Locked?
  {
    var st, ns := s.state, r.next.state;
    && (ns.synSeq == st.synSeq || (st.synSeq.None? && ns.synSeq == Some(pkt.seqNum) && IsSyn(pkt, pkt.seqNum)))
    && (ns.synAckSeq == st.synAckSeq
        || (st.synAckSeq.None? && ns.synAckSeq == Some(pkt.seqNum)
            && st.synSeq.Some? && IsSynAckTo(pkt, st.synSeq.value, pkt.seqNum)))
    && (PastHandshake(ns) || (!r.after.Nothing? && r.after.outcome == FakeDataAcked)
        ==> PastHandshake(st)
            || (st.synSeq.Some? && st.synAckSeq.Some? && IsFinalAck(pkt, st.synSeq.value, st.synAckSeq.value)))
  }

  predicate RewriteEffect(s: Signals, pkt: PacketView, r: Locked)
    requires r.Locked?
  {
    var st, ns := s.state, r.next.state;
    var rewrote := r.verdict == AcceptModified;
    && (rewrote ==> st.monitor && pkt.direction.Outbound?)
    && (ns.fakeSent <==> st.fakeSent || (rewrote && pkt.payloadLen == 0))
    && (rewrote && pkt.payloadLen == 0 ==> !st.fakeSent && !st.fragmentAllData)
    && (rewrote && pkt.payloadLen > 0 && !st.fragmentAllData ==> !st.firstDataModified && ns.firstDataModified)
    && (st.firstDataModified ==> ns.firstDataModified)
  }

  predicate WakeEffect(s: Signals, r: Locked)
    requires r.Locked?
  {
    && r.next.readied >= s.readied
    && (r.next.state.waitingForData && !s.state.waitingForData ==> r.next.readied > s.readied)
  }

  predicate Effect(s: Signals, pkt: PacketView, r: Locked) {
    && r.Locked? && Sane(r.next.state)
    && OutcomeEffect(s, r) && HandshakeEffect(s, pkt, r) && RewriteEffect(s, pkt, r) && WakeEffect(s, r)
  }

  lemma SynEffect(s: Signals, pkt: PacketView)
    requires Sane(s.state) && s.state.monitor && pkt.direction.Outbound? && pkt.IsBareSyn()
    ensures Effect(s, pkt, OnSyn(s, pkt))
  {}

  lemma OutboundAckEffect(s: Signals, pkt: PacketView, action: MethodAction)
    requires Sane(s.state) && s.state.monitor && pkt.direction.Outbound? && pkt.IsBareAck()
    ensures Effect(s, pkt, OnOutboundAck(s, pkt, action))
  {}

  lemma DataEffect(s: Signals, pkt: PacketView, action: MethodAction)
    requires Sane(s.state) && s.state.monitor && pkt.direction.Outbound? && pkt.payloadLen > 0
    requires (s.state.waitingForData && !s.state.firstDataModified) || s.state.fragmentAllData
    ensures Effect(s, pkt, OnData(s, action))
  {}

  lemma OutboundEffect(s: Signals, pkt: PacketView, action: MethodAction)
    requires Sane(s.state) && s.state.monitor && pkt.direction.Outbound?
    ensures Effect(s, pkt, OnOutbound(s, pkt, action))
  {
    if pkt.IsBareSyn() {
      SynEffect(s, pkt);
    } else if pkt.IsBareAck() {
      OutboundAckEffect(s, pkt, action);
    } else if pkt.payloadLen > 0
              && ((s.state.waitingForData && !s.state.firstDataModified) || s.state.fragmentAllData) {
      DataEffect(s, pkt, action);
    }
  }

  lemma InboundEffect(s: Signals, pkt: PacketView)
    requires Sane(s.state) && s.state.monitor && pkt.direction.Inbound?
    ensures Effect(s, pkt, OnInbound(s, pkt))
  {}

  lemma PacketEffect(s: Signals, pkt: PacketView, action: MethodAction)
    requires Sane(s.state)
    ensures Effect(s, pkt, OnLocked(s, pkt, action))
  {
    if s.state.monitor {
      if pkt.direction.Outbound? {
        OutboundEffect(s, pkt, action);
      } else {
        InboundEffect(s, pkt);
      }
    }
  }

  lemma ControlAfterPacket(y: System, pkt: PacketView, r: Locked)
    requires ControlInv(y) && y.after.Nothing? && Effect(y.flow, pkt, r)
    ensures ControlInv(AfterPacket(y, pkt, r))
  {}

  lemma HandshakeAfterPacket(y: System, pkt: PacketView, r: Locked)
    requires ControlInv(y) && y.after.Nothing? && HandshakeInv(y) && Effect(y.flow, pkt, r)
    ensures HandshakeInv(AfterPacket(y, pkt, r))
  {
    TraceGrows(y.trace, Last(AfterPacket(y, pkt, r).trace));
  }

  lemma BudgetAfterPacket(y: System, pkt: PacketView, r: Locked)
    requires ControlInv(y) && BudgetInv(y) && Effect(y.flow, pkt, r)
    ensures BudgetInv(AfterPacket(y, pkt, r))
  {
    RewritesGrow(y.trace, Last(AfterPacket(y, pkt, r).trace));
  }

  lemma RewritesGrow(trace: seq<Event>, e: Event)
    ensures RewrittenAcks(trace + [e]) == RewrittenAcks(trace) + (if Rewrote(e) && e.pkt.payloadLen == 0 then 1 else 0)
    ensures RewrittenFirstData(trace + [e])
         == RewrittenFirstData(trace) + (if Rewrote(e) && e.pkt.payloadLen > 0 && !e.fragmentAll then 1 else 0)
  {
    assert (trace + [e])[..|trace|] == trace;
  }

  lemma WaiterAfterPacket(y: System, pkt: PacketView, r: Locked)
    requires WaiterInv(y) && Effect(y.flow, pkt, r)
    ensures WaiterInv(AfterPacket(y, pkt, r))
  {}

  lemma FinishKeeps(y: System, outcome: BypassOutcome)
    requires Inv(y) && (outcome == FakeDataAcked ==> Succeeding(y))
    ensures Inv(y.(flow := Finished(y.flow, outcome)))
  {}

  lemma SignalKeeps(y: System)
    requires Inv(y) && y.after == SignalWith(FakeDataAcked)
    ensures Inv(y.(flow := Signalled(y.flow, FakeDataAcked)))
  {}

  lemma SettledKeeps(y: System)
    requires Inv(y) && y.flow.state.outcome.Some?
    ensures Inv(y.(after := Nothing))
  {}

  lemma FinishStep(y: System, step: Step)
    requires Inv(y) && (step.Settle? || step.ProxyFinish?)
    ensures Inv(Next(y, step))
  {
    if step.ProxyFinish? {
      FinishKeeps(y, UnexpectedClose);
    } else {
      match y.after
      case Nothing =>
      case FinishWith(outcome) =>
        FinishKeeps(y, outcome);
        SettledKeeps(y.(flow := Finished(y.flow, outcome)));
      case SignalWith(outcome) =>
        SignalKeeps(y);
        SettledKeeps(y.(flow := Signalled(y.flow, outcome)));
    }
  }

  lemma WaiterOnlyStep(y: System, step: Step)
    requires Inv(y) && !step.Packet? && !step.Settle? && !step.ProxyFinish?
    ensures Inv(Next(y, step))
  {}

  lemma EveryStep(y: System, step: Step)
    requires Inv(y)
    ensures Inv(Next(y, step))
  {
    if step.Packet? {
      if y.after == Nothing {
        var r := OnLocked(y.flow, step.pkt, step.action);
        PacketEffect(y.flow, step.pkt, step.action);
        ControlAfterPacket(y, step.pkt, r);
        HandshakeAfterPacket(y, step.pkt, r);
        BudgetAfterPacket(y, step.pkt, r);
        WaiterAfterPacket(y, step.pkt, r);
      }
    } else if step.Settle? || step.ProxyFinish? {
      FinishStep(y, step);
    } else {
      WaiterOnlyStep(y, step);
    }
  }

  lemma {:induction false} EveryRun(y: System, steps: seq<Step>)
    requires Inv(y)
    ensures Inv(Run(y, steps))
    decreases |steps|
  {
    if steps != [] {
      EveryStep(y, steps[0]);
      EveryRun(Next(y, steps[0]), steps[1..]);
    }
  }

  lemma Reachable(kind: WaitKind, steps: seq<Step>)
    ensures Inv(Run(Start(kind), steps))
  {
    EveryRun(Start(kind), steps);
  }

  // ---- the main results, over every interleaving ----

  // No unwrap in the handler ever fails, whatever packets arrive and whatever the method answers.
  lemma NeverPanics(kind: WaitKind, steps: seq<Step>)
    ensures !Run(Start(kind), steps).panicked
  {
    Reachable(kind, steps);
  }

  // A success is reported only after a complete three-way handshake for the recorded numbers.
  lemma SuccessIsSound(kind: WaitKind, steps: seq<Step>)
    ensures var y := Run(Start(kind), steps);
            y.flow.state.outcome == Some(FakeDataAcked) ==>
              && y.flow.state.synSeq.Some? && y.flow.state.synAckSeq.Some?
              && SawHandshake(y.trace, y.flow.state.synSeq.value, y.flow.state.synAckSeq.value)
  {
    Reachable(kind, steps);
  }

  // So is the go-ahead to send the first data packet.
  lemma ReadyIsSound(kind: WaitKind, steps: seq<Step>)
    ensures var y := Run(Start(kind), steps);
            y.waiter == Returned(ReadyForData) ==>
              && y.flow.state.synSeq.Some? && y.flow.state.synAckSeq.Some?
              && SawHandshake(y.trace, y.flow.state.synSeq.value, y.flow.state.synAckSeq.value)
  {
    Reachable(kind, steps);
  }

  // The notification count is the outcome; an untracked flow has one; a flow that is still
  // tracked after its outcome is in fragment-all mode.
  lemma OutcomeAndMonitoring(kind: WaitKind, steps: seq<Step>)
    ensures var y := Run(Start(kind), steps);
            && y.flow.notified == (if y.flow.state.outcome.Some? then 1 else 0)
            && (!y.flow.state.monitor ==> y.flow.state.outcome.Some?)
            && (y.flow.state.monitor && y.flow.state.outcome.Some? ==> y.flow.state.fragmentAllData)
  {
    Reachable(kind, steps);
  }

  // What is decided stays decided: sequence numbers, outcome, and release of the flow.
  predicate Keeps(before: System, after: System) {
    var s, t := before.flow.state, after.flow.state;
    && (s.synSeq.Some? ==> t.synSeq == s.synSeq)
    && (s.synAckSeq.Some? ==> t.synAckSeq == s.synAckSeq)
    && (s.outcome.Some? ==> t.outcome == s.outcome && after.flow.notified == before.flow.notified)
    && (!s.monitor ==> after.flow == before.flow)
    && |before.trace| <= |after.trace| && after.trace[..|before.trace|] == before.trace
    && (!s.monitor ==> forall i :: |before.trace| <= i < |after.trace| ==> after.trace[i].verdict == Accept)
  }

  lemma FrozenPacket(s: Signals, pkt: PacketView, action: MethodAction)
    requires !s.state.monitor
    ensures OnLocked(s, pkt, action) == Pass(s)
  {}

  lemma PacketKeeps(y: System, pkt: PacketView, r: Locked)
    requires Effect(y.flow, pkt, r) && (!y.flow.state.monitor ==> r == Pass(y.flow))
    ensures Keeps(y, AfterPacket(y, pkt, r))
  {}

  lemma StepKeeps(y: System, step: Step)
    requires Inv(y)
    ensures Keeps(y, Next(y, step))
  {
    if step.Packet? && y.after == Nothing {
      PacketEffect(y.flow, step.pkt, step.action);
      if !y.flow.state.monitor {
        FrozenPacket(y.flow, step.pkt, step.action);
      }
      PacketKeeps(y, step.pkt, OnLocked(y.flow, step.pkt, step.action));
    }
  }

  lemma KeepsIsTransitive(x: System, y: System, z: System)
    requires Keeps(x, y) && Keeps(y, z)
    ensures Keeps(x, z)
  {
    assert z.trace[..|x.trace|] == z.trace[..|y.trace|][..|x.trace|];
    forall i | !x.flow.state.monitor && |x.trace| <= i < |z.trace| ensures z.trace[i].verdict == Accept {
      if i < |y.trace| {
        assert z.trace[i] == z.trace[..|y.trace|][i];
      }
    }
  }

  lemma {:induction false} DecisionsLast(y: System, more: seq<Step>)
    requires Inv(y)
    ensures Keeps(y, Run(y, more))
    decreases |more|
  {
    if more != [] {
      var z := Next(y, more[0]);
      EveryStep(y, more[0]);
      StepKeeps(y, more[0]);
      DecisionsLast(z, more[1..]);
      KeepsIsTransitive(y, z, Run(z, more[1..]));
    }
  }

  lemma DecisionsLastInEveryRun(kind: WaitKind, steps: seq<Step>, more: seq<Step>)
    ensures Keeps(Run(Start(kind), steps), Run(Run(Start(kind), steps), more))
  {
    Reachable(kind, steps);
    DecisionsLast(Run(Start(kind), steps), more);
  }

  // The rewriting budget of one flow: one empty packet, one data packet before fragment-all
  // mode, nothing inbound, nothing after the outcome except data in fragment-all mode.
  lemma RewriteBudget(kind: WaitKind, steps: seq<Step>)
    ensures var trace := Run(Start(kind), steps).trace;
            && RewrittenAcks(trace) <= 1
            && RewrittenFirstData(trace) <= 1
            && forall i :: 0 <= i < |trace| ==> AllowedRewrite(trace[i])
  {
    Reachable(kind, steps);
  }

  // A waiter parked while there is progress to report has already been notified of it.
  lemma NoLostWakeup(kind: WaitKind, steps: seq<Step>)
    ensures var y := Run(Start(kind), steps);
            y.waiter.Parked? && CurrentProgress(kind, y.flow.state).Some? ==>
              Next(y, Wake).waiter == Starting
  {
    Reachable(kind, steps);
    RunKeepsKind(Start(kind), steps);
  }

  lemma {:induction false} RunKeepsKind(y: System, steps: seq<Step>)
    ensures Run(y, steps).kind == y.kind
    decreases |steps|
  {
    if steps != [] {
      RunKeepsKind(Next(y, steps[0]), steps[1..]);
    }
  }

  // The four steps that take a parked waiter back to its check.
  const COME_ROUND := [Wake, SubscribeFinished, SubscribeReady, Check]

  lemma FourSteps(y: System)
    ensures Run(y, COME_ROUND) == Next(Next(Next(Next(y, Wake), SubscribeFinished), SubscribeReady), Check)
  {
    var a, b, c := COME_ROUND[1..], COME_ROUND[2..], COME_ROUND[3..];
    assert a[1..] == b && b[1..] == c && c[1..] == [];
    var z := Next(Next(Next(y, Wake), SubscribeFinished), SubscribeReady);
    assert Run(z, c) == Next(z, Check);
    assert Run(Next(Next(y, Wake), SubscribeFinished), b) == Run(z, c);
    assert Run(Next(y, Wake), a) == Run(Next(Next(y, Wake), SubscribeFinished), b);
  }

  lemma WakesUp(y: System)
    requires WaiterInv(y) && y.flow.state.outcome.Some? && y.waiter.Parked?
    ensures Next(y, Wake) == y.(waiter := Starting)
  {}

  lemma Resubscribes(y: System)
    requires y.waiter.Starting?
    ensures var z := Next(Next(y, SubscribeFinished), SubscribeReady);
            z.waiter.Subscribed? && z.flow == y.flow && z.kind == y.kind
  {}

  lemma ChecksOutcome(y: System)
    requires y.waiter.Subscribed? && y.flow.state.outcome.Some?
    ensures Next(y, Check).waiter == Returned(Complete(y.flow.state.outcome.value))
  {}

  lemma ParkedWaiterReports(y: System)
    requires WaiterInv(y) && y.flow.state.outcome.Some? && y.waiter.Parked?
    ensures Run(y, COME_ROUND).waiter == Returned(Complete(y.flow.state.outcome.value))
  {
    var a := y.(waiter := Starting);
    WakesUp(y);
    Resubscribes(a);
    ChecksOutcome(Next(Next(a, SubscribeFinished), SubscribeReady));
    FourSteps(y);
  }

  // Once the outcome is set, a waiter that has neither returned nor timed out reports it
  // as soon as it runs, and never reports another.
  lemma WaiterReportsTheOutcome(kind: WaitKind, steps: seq<Step>, more: seq<Step>)
    ensures var y := Run(Start(kind), steps);
            && (y.flow.state.outcome.Some? && y.waiter.Parked? ==>
                  Run(y, COME_ROUND).waiter == Returned(Complete(y.flow.state.outcome.value)))
            && (y.waiter.Returned? && y.waiter.progress.Complete? ==>
                  Run(y, more).flow.state.outcome == Some(y.waiter.progress.outcome))
  {
    var y := Run(Start(kind), steps);
    Reachable(kind, steps);
    DecisionsLast(y, more);
    if y.flow.state.outcome.Some? && y.waiter.Parked? {
      ParkedWaiterReports(y);
    }
  }

  // A parked initial waiter of a flow that may send data, and has no outcome, reports just that.
  lemma ReadyWaiterReports(kind: WaitKind, steps: seq<Step>)
    ensures var y := Run(Start(kind), steps);
            kind == Initial && y.waiter.Parked? && y.flow.state.waitingForData && y.flow.state.outcome.None? ==>
              Run(y, COME_ROUND).waiter == Returned(ReadyForData)
  {
    var y := Run(Start(kind), steps);
    Reachable(kind, steps);
    RunKeepsKind(Start(kind), steps);
    if kind == Initial && y.waiter.Parked? && y.flow.state.waitingForData && y.flow.state.outcome.None? {
      WakesForData(y);
      Resubscribes(y.(waiter := Starting));
      FourSteps(y);
    }
  }

  // Only the initial wait ends before there is an outcome.
  lemma {:induction false} CompletionWaitsForOutcome(y: System, steps: seq<Step>)
    requires y.kind == Completion && y.waiter != Returned(ReadyForData)
    ensures Run(y, steps).waiter != Returned(ReadyForData)
    decreases |steps|
  {
    if steps != [] {
      CompletionWaitsForOutcome(Next(y, steps[0]), steps[1..]);
    }
  }

  lemma WakesForData(y: System)
    requires WaiterInv(y) && y.kind == Initial && y.flow.state.waitingForData && y.waiter.Parked?
    ensures Next(y, Wake) == y.(waiter := Starting)
  {}

  // ---- single packets, exactly ----

  // What the handshake leads to, for every pair of initial sequence numbers.
  lemma CleanHandshake(kind: WaitKind, syn: PacketView, synAck: PacketView, ack: PacketView,
                       action: MethodAction, s: u32, a: u32)
    requires IsSyn(syn, s) && IsSynAckTo(synAck, s, a) && IsFinalAck(ack, s, a)
    ensures var y := Next(Next(Next(Next(Start(kind), Packet(syn, PassThrough)), Packet(synAck, PassThrough)),
                               Packet(ack, action)), Settle);
            var st := y.flow.state;
            && st.synSeq == Some(s) && st.synAckSeq == Some(a)
            && st.outcome == (match action
                              case EmitFakeAndAccept(immediately, withData) =>
                                if immediately && !withData then Some(FakeDataAcked) else None
                              case PassThrough => None
                              case CompleteAndAccept => Some(FakeDataAcked)
                              case AbortAndAccept => Some(UnexpectedClose))
            && (st.waitingForData <==> action.PassThrough? || (action.EmitFakeAndAccept? && action.continueWithData))
            && (Last(y.trace).verdict == AcceptModified <==> action.EmitFakeAndAccept?)
            && st.monitor == st.outcome.None?
  {}

  predicate IsServerAck(pkt: PacketView, a: u32) {
    pkt.direction.Inbound? && pkt.IsBareAck() && pkt.seqNum == Succ(a)
  }

  // An acknowledgement number advances past the handshake exactly when it is not s + 1.
  lemma Advances(ack: u32, s: u32)
    ensures WrappingSub(ack, Succ(s)) > 0 <==> ack != Succ(s)
  {}

  // While a rewritten first data packet waits for its acknowledgement, a server ACK that
  // acknowledges data completes the bypass exactly when no fake was injected before it.
  lemma DataAckCompletes(s: Signals, pkt: PacketView, action: MethodAction)
    requires Sane(s.state) && s.state.monitor && s.state.outcome.None?
    requires s.state.waitingForFirstDataAck && !s.state.fragmentAllData
    requires IsServerAck(pkt, s.state.synAckSeq.value) && pkt.ack != Succ(s.state.synSeq.value)
    ensures var r := OnLocked(s, pkt, action);
            && r.Locked?
            && (Settled(r.next, r.after).state.outcome == Some(FakeDataAcked) <==> !s.state.fakeSent)
            && (Settled(r.next, r.after).state.outcome == Some(UnexpectedClose) <==> s.state.fakeSent)
  {}

  // Such a flow exists: a fake followed by a staged data packet. The server's
  // acknowledgement of the data then closes the flow instead of completing it.
  lemma DataAckAfterFakeCloses(kind: WaitKind, syn: PacketView, synAck: PacketView, ack: PacketView,
                               data: PacketView, dataAck: PacketView, s: u32, a: u32)
    requires IsSyn(syn, s) && IsSynAckTo(synAck, s, a) && IsFinalAck(ack, s, a)
    requires data.direction.Outbound? && data.payloadLen > 0
    requires IsServerAck(dataAck, a) && dataAck.ack != Succ(s)
    ensures var ready := Next(Next(Next(Start(kind), Packet(syn, PassThrough)), Packet(synAck, PassThrough)),
                              Packet(ack, EmitFakeAndAccept(false, true)));
            var waiting := Next(ready, Packet(data, EmitFakeAndAccept(false, false)));
            && waiting.flow.state.waitingForFirstDataAck && waiting.flow.state.outcome.None?
            && Next(waiting, Packet(dataAck, PassThrough)).flow.state.outcome == Some(UnexpectedClose)
  {}
}
