/** The packet handler: the per-flow state machine and the methods that run it. */
module Handler {
  import opened Flow
  import opened Interceptor
  import opened Wrappers

  // What the handler still does with the flow once it has let go of the lock.
  datatype Settlement = Nothing | FinishWith(outcome: BypassOutcome) | SignalWith(outcome: BypassOutcome)

  // The effect of the section that runs under the lock; Panicked is a failed unwrap.
  datatype Locked = Locked(next: Signals, verdict: Verdict, after: Settlement) | Panicked

  function FlowKeyFor(pkt: PacketView): (key: FlowKey)
  {
    match pkt.direction
    case Outbound => FlowKey(pkt.srcIp, pkt.srcPort, pkt.dstIp, pkt.dstPort)
    case Inbound => FlowKey(pkt.dstIp, pkt.dstPort, pkt.srcIp, pkt.srcPort)
  }

  // Flows are known by the local end first, whichever way a packet goes.
  lemma KeyIsLocalFirst(pkt: PacketView)
    ensures var key := FlowKeyFor(pkt);
            if pkt.direction.Outbound?
            then && key.srcIp == pkt.srcIp && key.srcPort == pkt.srcPort
                 && key.dstIp == pkt.dstIp && key.dstPort == pkt.dstPort
            else && key.srcIp == pkt.dstIp && key.srcPort == pkt.dstPort
                 && key.dstIp == pkt.srcIp && key.dstPort == pkt.srcPort
  {}

  // An inbound packet belongs to the flow of an outbound one exactly when its addresses are swapped.
  lemma RepliesShareTheFlow(sent: PacketView, received: PacketView)
    requires sent.direction.Outbound? && received.direction.Inbound?
    ensures FlowKeyFor(sent) == FlowKeyFor(received)
       <==> FlowKey(received.srcIp, received.srcPort, received.dstIp, received.dstPort) == FlowKeyFor(sent).Reversed()
  {}

  function Unexpected(s: Signals): Locked { Locked(Finished(s, UnexpectedClose), Accept, Nothing) }

  function Pass(s: Signals): Locked { Locked(s, Accept, Nothing) }

  function OnSyn(s: Signals, pkt: PacketView): Locked {
    if pkt.ack != 0 || (s.state.synSeq.Some? && s.state.synSeq.value != pkt.seqNum) then Unexpected(s)
    else Pass(s.(state := s.state.(synSeq := Some(pkt.seqNum))))
  }

  function Readied(s: Signals, state: FlowState): Signals {
    Signals(state.(waitingForData := true), s.notified, s.readied + 1)
  }

  function OnHandshakeAck(s: Signals, action: MethodAction): Locked {
    match action
    case EmitFakeAndAccept(completeImmediately, continueWithData) =>
      var sent := s.state.(fakeSent := true);
      if continueWithData then Locked(Readied(s, sent), AcceptModified, Nothing)
      else Locked(s.(state := sent), AcceptModified, if completeImmediately then FinishWith(FakeDataAcked) else Nothing)
    case PassThrough => Locked(Readied(s, s.state), Accept, Nothing)
    case CompleteAndAccept => Locked(s, Accept, FinishWith(FakeDataAcked))
    case AbortAndAccept => Locked(s, Accept, FinishWith(UnexpectedClose))
  }

  function OnOutboundAck(s: Signals, pkt: PacketView, action: MethodAction): Locked {
    var st := s.state;
    if st.fragmentAllData then Pass(s)
    else if st.fakeSent || st.waitingForData then Unexpected(s)
    else if st.synSeq.None? || pkt.seqNum != Succ(st.synSeq.value) then Unexpected(s)
    else if st.synAckSeq.None? || pkt.ack != Succ(st.synAckSeq.value) then Unexpected(s)
    else OnHandshakeAck(s, action)
  }

  function OnData(s: Signals, action: MethodAction): Locked {
    var staged := s.state.(firstDataModified := true, waitingForData := false);
    match action
    case EmitFakeAndAccept(completeImmediately, continueWithData) =>
      if continueWithData then
        Locked(s.(state := staged.(fragmentAllData := true)), AcceptModified, SignalWith(FakeDataAcked))
      else if completeImmediately then
        Locked(s.(state := staged), AcceptModified, FinishWith(FakeDataAcked))
      else
        Locked(s.(state := staged.(waitingForFirstDataAck := true)), AcceptModified, Nothing)
    case CompleteAndAccept =>
      Locked(s.(state := staged), Accept, if s.state.fragmentAllData then Nothing else FinishWith(FakeDataAcked))
    case PassThrough => Pass(s)
    case AbortAndAccept =>
      if s.state.fragmentAllData
      then Pass(s.(state := staged.(fragmentAllData := false, monitor := false)))
      else Locked(s.(state := staged), Accept, FinishWith(UnexpectedClose))
  }

  function OnOutbound(s: Signals, pkt: PacketView, action: MethodAction): Locked {
    var st := s.state;
    if pkt.IsBareSyn() then OnSyn(s, pkt)
    else if pkt.IsBareAck() then OnOutboundAck(s, pkt, action)
    else if pkt.payloadLen > 0 && ((st.waitingForData && !st.firstDataModified) || st.fragmentAllData) then
      OnData(s, action)
    else if st.waitingForFirstDataAck then Pass(s)
    else if st.fragmentAllData then
      if pkt.flags.fin || pkt.flags.rst then Pass(s.(state := st.(monitor := false))) else Pass(s)
    else Unexpected(s)
  }

  function OnSynAck(s: Signals, pkt: PacketView, synSeq: u32): Locked {
    if pkt.ack != Succ(synSeq) then Unexpected(s)
    else if s.state.synAckSeq.Some? && s.state.synAckSeq.value != pkt.seqNum then Unexpected(s)
    else Pass(s.(state := s.state.(synAckSeq := Some(pkt.seqNum))))
  }

  function OnFakeAck(s: Signals, pkt: PacketView, synSeq: u32): Locked {
    var st := s.state;
    if st.synAckSeq.None? then Panicked
    else if pkt.seqNum != Succ(st.synAckSeq.value) || pkt.ack != Succ(synSeq) then Unexpected(s)
    else if st.waitingForData then Pass(s)
    else Locked(s, Accept, FinishWith(FakeDataAcked))
  }

  function OnFirstDataAck(s: Signals, pkt: PacketView, synSeq: u32): Locked {
    var st := s.state;
    if st.synAckSeq.None? then Panicked
    else if pkt.seqNum != Succ(st.synAckSeq.value) then Unexpected(s)
    else if WrappingSub(pkt.ack, Succ(synSeq)) > 0 then
      Locked(s.(state := st.(waitingForFirstDataAck := false)), Accept, FinishWith(FakeDataAcked))
    else Pass(s)
  }

  function OnInbound(s: Signals, pkt: PacketView): Locked {
    var st := s.state;
    if st.synSeq.None? then Unexpected(s)
    else if st.fragmentAllData then Pass(s)
    else if pkt.IsSynAck() then OnSynAck(s, pkt, st.synSeq.value)
    else if pkt.IsBareAck() && st.fakeSent then OnFakeAck(s, pkt, st.synSeq.value)
    else if st.waitingForFirstDataAck && pkt.IsBareAck() then OnFirstDataAck(s, pkt, st.synSeq.value)
    else Unexpected(s)
  }

  // One packet under the lock; action is what the bypass method answers if it is asked.
  function OnLocked(s: Signals, pkt: PacketView, action: MethodAction): Locked {
    if !s.state.monitor then Pass(s)
    else match pkt.direction
      case Outbound => OnOutbound(s, pkt, action)
      case Inbound => OnInbound(s, pkt)
  }

  function Settled(s: Signals, after: Settlement): Signals {
    match after
    case Nothing => s
    case FinishWith(outcome) => Finished(s, outcome)
    case SignalWith(outcome) => Signalled(s, outcome)
  }

  // The bypass has begun, so both sequence numbers have to be known.
  predicate PastHandshake(s: FlowState) {
    s.fakeSent || s.waitingForData || s.firstDataModified || s.waitingForFirstDataAck || s.fragmentAllData
  }

  predicate Sane(s: FlowState) {
    && (s.synAckSeq.Some? ==> s.synSeq.Some?)
    && (PastHandshake(s) ==> s.synAckSeq.Some?)
  }

  class Handler {
    const table: LocalFlowController

    constructor (table: LocalFlowController)
      ensures this.table == table
    {
      this.table := table;
    }

    method Reject(entry: FlowEntry) returns (verdict: Verdict)
      modifies entry
      ensures entry.View() == Finished(old(entry.View()), UnexpectedClose)
      ensures verdict == Accept
    {
      if entry.outcome.None? {
        entry.outcome := Some(UnexpectedClose);
        entry.monitor := false;
        entry.notified := entry.notified + 1;
      }
      return Accept;
    }

    /** The section of packet handling that holds the flow's lock. */
    method HandleLocked(entry: FlowEntry, pkt: PacketView, action: MethodAction)
      returns (verdict: Verdict, after: Settlement)
      requires Sane(entry.View().state)
      modifies entry
      ensures Sane(entry.View().state)
      ensures Locked(entry.View(), verdict, after) == OnLocked(old(entry.View()), pkt, action)
    {
      verdict, after := Accept, Nothing;
      if !entry.monitor {
        return;
      }
      match pkt.direction
      case Outbound => verdict, after := HandleOutbound(entry, pkt, action);
      case Inbound => verdict, after := HandleInbound(entry, pkt);
    }

    method HandleOutbound(entry: FlowEntry, pkt: PacketView, action: MethodAction)
      returns (verdict: Verdict, after: Settlement)
      requires Sane(entry.View().state)
      modifies entry
      ensures Sane(entry.View().state)
      ensures Locked(entry.View(), verdict, after) == OnOutbound(old(entry.View()), pkt, action)
    {
      verdict, after := Accept, Nothing;
      if pkt.IsBareSyn() {
        if pkt.ack != 0 {
          verdict := Reject(entry);
          return;
        }
        if entry.synSeq.Some? {
          if entry.synSeq.value != pkt.seqNum {
            verdict := Reject(entry);
            return;
          }
        }
        entry.synSeq := Some(pkt.seqNum);
        return;
      }
      if pkt.IsBareAck() {
        verdict, after := HandleOutboundAck(entry, pkt, action);
        return;
      }
      if pkt.payloadLen > 0 && ((entry.waitingForData && !entry.firstDataModified) || entry.fragmentAllData) {
        verdict, after := DataPacket(entry, action);
        return;
      }
      if entry.waitingForFirstDataAck {
        return;
      }
      if entry.fragmentAllData {
        if pkt.flags.fin || pkt.flags.rst {
          entry.monitor := false;
        }
        return;
      }
      verdict := Reject(entry);
    }

    method HandleOutboundAck(entry: FlowEntry, pkt: PacketView, action: MethodAction)
      returns (verdict: Verdict, after: Settlement)
      requires Sane(entry.View().state)
      modifies entry
      ensures Sane(entry.View().state)
      ensures Locked(entry.View(), verdict, after) == OnOutboundAck(old(entry.View()), pkt, action)
    {
      verdict, after := Accept, Nothing;
      if entry.fragmentAllData {
        return;
      }
      if entry.fakeSent || entry.waitingForData {
        verdict := Reject(entry);
        return;
      }
      if entry.synSeq.None? {
        verdict := Reject(entry);
        return;
      }
      if pkt.seqNum != Succ(entry.synSeq.value) {
        verdict := Reject(entry);
        return;
      }
      if entry.synAckSeq.None? {
        verdict := Reject(entry);
        return;
      }
      if pkt.ack != Succ(entry.synAckSeq.value) {
        verdict := Reject(entry);
        return;
      }
      verdict, after := HandshakeComplete(entry, action);
    }

    method HandshakeComplete(entry: FlowEntry, action: MethodAction) returns (verdict: Verdict, after: Settlement)
      requires entry.synSeq.Some? && entry.synAckSeq.Some?
      modifies entry
      ensures Sane(entry.View().state)
      ensures Locked(entry.View(), verdict, after) == OnHandshakeAck(old(entry.View()), action)
    {
      verdict, after := Accept, Nothing;
      match action
      case EmitFakeAndAccept(completeImmediately, continueWithData) =>
        entry.fakeSent := true;
        if continueWithData {
          entry.waitingForData := true;
          entry.readied := entry.readied + 1;
        } else if completeImmediately {
          after := FinishWith(FakeDataAcked);
        }
        verdict := AcceptModified;
      case PassThrough =>
        entry.waitingForData := true;
        entry.readied := entry.readied + 1;
      case CompleteAndAccept =>
        after := FinishWith(FakeDataAcked);
      case AbortAndAccept =>
        after := FinishWith(UnexpectedClose);
    }

    method DataPacket(entry: FlowEntry, action: MethodAction) returns (verdict: Verdict, after: Settlement)
      requires entry.synSeq.Some? && entry.synAckSeq.Some?
      modifies entry
      ensures Sane(entry.View().state)
      ensures Locked(entry.View(), verdict, after) == OnData(old(entry.View()), action)
    {
      verdict, after := Accept, Nothing;
      match action
      case EmitFakeAndAccept(completeImmediately, continueWithData) =>
        entry.firstDataModified := true;
        entry.waitingForData := false;
        if continueWithData {
          entry.fragmentAllData := true;
          after := SignalWith(FakeDataAcked);
        } else if completeImmediately {
          after := FinishWith(FakeDataAcked);
        } else {
          entry.waitingForFirstDataAck := true;
        }
        verdict := AcceptModified;
      case CompleteAndAccept =>
        entry.firstDataModified := true;
        entry.waitingForData := false;
        if !entry.fragmentAllData {
          after := FinishWith(FakeDataAcked);
        }
      case PassThrough =>
      case AbortAndAccept =>
        entry.firstDataModified := true;
        entry.waitingForData := false;
        if entry.fragmentAllData {
          entry.fragmentAllData := false;
          entry.monitor := false;
        } else {
          after := FinishWith(UnexpectedClose);
        }
    }

    method HandleInbound(entry: FlowEntry, pkt: PacketView) returns (verdict: Verdict, after: Settlement)
      requires Sane(entry.View().state)
      modifies entry
      ensures Sane(entry.View().state)
      ensures Locked(entry.View(), verdict, after) == OnInbound(old(entry.View()), pkt)
    {
      verdict, after := Accept, Nothing;
      if entry.synSeq.None? {
        verdict := Reject(entry);
        return;
      }
      if entry.fragmentAllData {
        return;
      }
      if pkt.IsSynAck() {
        if pkt.ack != Succ(entry.synSeq.value) {
          verdict := Reject(entry);
          return;
        }
        if entry.synAckSeq.Some? {
          if entry.synAckSeq.value != pkt.seqNum {
            verdict := Reject(entry);
            return;
          }
        }
        entry.synAckSeq := Some(pkt.seqNum);
        return;
      }
      if pkt.IsBareAck() && entry.fakeSent {
        var synAckSeq := entry.synAckSeq.value;
        if pkt.seqNum != Succ(synAckSeq) {
          verdict := Reject(entry);
          return;
        }
        if pkt.ack != Succ(entry.synSeq.value) {
          verdict := Reject(entry);
          return;
        }
        if entry.waitingForData {
          return;
        }
        after := FinishWith(FakeDataAcked);
        return;
      }
      if entry.waitingForFirstDataAck && pkt.IsBareAck() {
        var synAckSeq := entry.synAckSeq.value;
        if pkt.seqNum != Succ(synAckSeq) {
          verdict := Reject(entry);
          return;
        }
        var synSeq := entry.synSeq.value;
        if WrappingSub(pkt.ack, Succ(synSeq)) > 0 {
          entry.waitingForFirstDataAck := false;
          after := FinishWith(FakeDataAcked);
        }
        return;
      }
      verdict := Reject(entry);
    }

    /** What follows the release of the lock: another thread may have run in between. */
    method Settle(entry: FlowEntry, after: Settlement)
      modifies entry
      ensures entry.View() == Settled(old(entry.View()), after)
    {
      match after
      case Nothing =>
      case FinishWith(outcome) => entry.Finish(outcome);
      case SignalWith(outcome) => entry.SignalOutcome(outcome);
    }

    ghost function Touched(pkt: PacketView): set<FlowEntry>
      reads table
    {
      var key := FlowKeyFor(pkt);
      if key in table.flows then {table.flows[key]} else {}
    }

    /** Handles one packet when no other thread intervenes. */
    method OnPacket(pkt: PacketView, action: MethodAction) returns (verdict: Verdict)
      requires table.Valid()
      requires forall k :: k in table.flows ==> Sane(table.flows[k].View().state)
      modifies Touched(pkt)
      ensures forall k :: k in table.flows ==> Sane(table.flows[k].View().state)
      ensures FlowKeyFor(pkt) !in table.flows ==> verdict == Accept
      ensures FlowKeyFor(pkt) in table.flows ==>
                var entry := table.flows[FlowKeyFor(pkt)];
                var step := OnLocked(old(entry.View()), pkt, action);
                && step.Locked? && verdict == step.verdict
                && entry.View() == Settled(step.next, step.after)
      ensures forall k :: k in table.flows && k != FlowKeyFor(pkt) ==>
                table.flows[k].View() == old(table.flows[k].View())
    {
      var key := FlowKeyFor(pkt);
      if key !in table.flows {
        return Accept;
      }
      var entry := table.flows[key];
      assert forall k :: k in table.flows && k != key ==> table.flows[k] != entry;
      var after;
      verdict, after := HandleLocked(entry, pkt, action);
      Settle(entry, after);
    }
  }
}
