/** What the handler answers to each packet, told from the packet and the flow alone. */
module FlowAnswers {
  import opened Flow
  import opened FlowRuns
  import opened Handler
  import opened Interceptor
  import opened Wrappers

  // ---- the packets a flow waits for ----

  predicate StartsFlow(st: FlowState, pkt: PacketView) {
    IsSyn(pkt, pkt.seqNum) && (st.synSeq == None || st.synSeq == Some(pkt.seqNum))
  }

  predicate AnswersSyn(st: FlowState, pkt: PacketView) {
    && !st.fragmentAllData && st.synSeq.Some? && IsSynAckTo(pkt, st.synSeq.value, pkt.seqNum)
    && (st.synAckSeq == None || st.synAckSeq == Some(pkt.seqNum))
  }

  predicate EndsHandshake(st: FlowState, pkt: PacketView) {
    && !st.fragmentAllData && !st.fakeSent && !st.waitingForData
    && st.synSeq.Some? && st.synAckSeq.Some? && IsFinalAck(pkt, st.synSeq.value, st.synAckSeq.value)
  }

  predicate CarriesData(st: FlowState, pkt: PacketView) {
    && pkt.direction.Outbound? && pkt.payloadLen > 0
    && (st.fragmentAllData || (st.waitingForData && !st.firstDataModified))
  }

  predicate AcksFake(st: FlowState, pkt: PacketView) {
    && !st.fragmentAllData && st.fakeSent && st.synSeq.Some? && st.synAckSeq.Some?
    && IsServerAck(pkt, st.synAckSeq.value) && pkt.ack == Succ(st.synSeq.value)
  }

  predicate AcksData(st: FlowState, pkt: PacketView) {
    && !st.fragmentAllData && !st.fakeSent && st.waitingForFirstDataAck && st.synSeq.Some? && st.synAckSeq.Some?
    && IsServerAck(pkt, st.synAckSeq.value)
  }

  // Outbound packets that neither carry data to rewrite nor belong to the handshake.
  predicate IsOther(st: FlowState, pkt: PacketView) {
    pkt.direction.Outbound? && !pkt.IsBareSyn() && !pkt.IsBareAck() && !CarriesData(st, pkt)
  }

  predicate EndsFragmenting(st: FlowState, pkt: PacketView) {
    st.fragmentAllData && !st.waitingForFirstDataAck && IsOther(st, pkt) && (pkt.flags.fin || pkt.flags.rst)
  }

  predicate IsTolerated(st: FlowState, pkt: PacketView) {
    || (st.fragmentAllData && pkt.direction.Outbound? && pkt.IsBareAck())
    || (st.fragmentAllData && pkt.direction.Inbound? && st.synSeq.Some?)
    || (st.waitingForFirstDataAck && IsOther(st, pkt))
    || (st.fragmentAllData && IsOther(st, pkt) && !pkt.flags.fin && !pkt.flags.rst)
  }

  predicate IsUnwanted(st: FlowState, pkt: PacketView) {
    && !StartsFlow(st, pkt) && !AnswersSyn(st, pkt) && !EndsHandshake(st, pkt) && !CarriesData(st, pkt)
    && !AcksFake(st, pkt) && !AcksData(st, pkt) && !EndsFragmenting(st, pkt) && !IsTolerated(st, pkt)
  }

  // ---- what comes of them ----

  // The flow and the verdict once a packet was handled and nothing else intervened.
  datatype Answer = Answer(flow: Signals, verdict: Verdict)

  ghost predicate Answers(s: Signals, pkt: PacketView, action: MethodAction, a: Answer) {
    var r := OnLocked(s, pkt, action);
    r.Locked? && Settled(r.next, r.after) == a.flow && r.verdict == a.verdict
  }

  function With(s: Signals, st: FlowState): Signals { s.(state := st) }

  // The flow ends with this outcome: it is released and its waiters are notified once.
  function Ended(s: Signals, outcome: BypassOutcome): Signals {
    Signals(s.state.(outcome := Some(outcome), monitor := false), s.notified + 1, s.readied)
  }

  // The flow may go on to its data stage.
  function Ready(s: Signals): Signals {
    Signals(s.state.(waitingForData := true), s.notified, s.readied + 1)
  }

  // A monitored flow has an outcome exactly in fragment-all mode.
  ghost predicate IsLive(s: Signals) {
    Sane(s.state) && s.state.monitor && (s.state.outcome.Some? <==> s.state.fragmentAllData)
  }

  lemma SynIsRecorded(s: Signals, pkt: PacketView, action: MethodAction)
    requires IsLive(s) && StartsFlow(s.state, pkt)
    ensures Answers(s, pkt, action, Answer(With(s, s.state.(synSeq := Some(pkt.seqNum))), Accept))
  {}

  lemma SynAckIsRecorded(s: Signals, pkt: PacketView, action: MethodAction)
    requires IsLive(s) && AnswersSyn(s.state, pkt)
    ensures Answers(s, pkt, action, Answer(With(s, s.state.(synAckSeq := Some(pkt.seqNum))), Accept))
  {}

  // The end of the handshake, for each answer of the bypass method.
  lemma HandshakeStage(s: Signals, pkt: PacketView, action: MethodAction)
    requires IsLive(s) && EndsHandshake(s.state, pkt)
    ensures var sent := With(s, s.state.(fakeSent := true));
            match action
            case EmitFakeAndAccept(immediately, withData) =>
              Answers(s, pkt, action,
                      Answer(if withData then Ready(sent) else if immediately then Ended(sent, FakeDataAcked) else sent,
                             AcceptModified))
            case PassThrough => Answers(s, pkt, action, Answer(Ready(s), Accept))
            case CompleteAndAccept => Answers(s, pkt, action, Answer(Ended(s, FakeDataAcked), Accept))
            case AbortAndAccept => Answers(s, pkt, action, Answer(Ended(s, UnexpectedClose), Accept))
  {}

  // The first data packet, for each answer: whether the flow fragments on, waits, completes or closes.
  lemma FirstDataStage(s: Signals, pkt: PacketView, action: MethodAction)
    requires IsLive(s) && CarriesData(s.state, pkt) && !s.state.fragmentAllData
    ensures var staged := With(s, s.state.(firstDataModified := true, waitingForData := false));
            var on := staged.state.(fragmentAllData := true, outcome := Some(FakeDataAcked));
            match action
            case EmitFakeAndAccept(immediately, withData) =>
              Answers(s, pkt, action,
                      Answer(if withData then Signals(on, s.notified + 1, s.readied)
                             else if immediately then Ended(staged, FakeDataAcked)
                             else With(staged, staged.state.(waitingForFirstDataAck := true)),
                             AcceptModified))
            case PassThrough => Answers(s, pkt, action, Answer(s, Accept))
            case CompleteAndAccept => Answers(s, pkt, action, Answer(Ended(staged, FakeDataAcked), Accept))
            case AbortAndAccept => Answers(s, pkt, action, Answer(Ended(staged, UnexpectedClose), Accept))
  {}

  // A data packet in fragment-all mode: the outcome and its notification stay, only an abort stops it.
  lemma FragmentStage(s: Signals, pkt: PacketView, action: MethodAction)
    requires IsLive(s) && CarriesData(s.state, pkt) && s.state.fragmentAllData
    ensures var staged := s.state.(firstDataModified := true, waitingForData := false);
            match action
            case EmitFakeAndAccept(immediately, withData) =>
              Answers(s, pkt, action,
                      Answer(With(s, if withData || immediately then staged
                                     else staged.(waitingForFirstDataAck := true)),
                             AcceptModified))
            case PassThrough => Answers(s, pkt, action, Answer(s, Accept))
            case CompleteAndAccept => Answers(s, pkt, action, Answer(With(s, staged), Accept))
            case AbortAndAccept =>
              Answers(s, pkt, action, Answer(With(s, staged.(fragmentAllData := false, monitor := false)), Accept))
  {}

  // The server's acknowledgement of the fake completes the bypass, unless data is still awaited.
  lemma FakeIsAcked(s: Signals, pkt: PacketView, action: MethodAction)
    requires IsLive(s) && AcksFake(s.state, pkt)
    ensures Answers(s, pkt, action, Answer(if s.state.waitingForData then s else Ended(s, FakeDataAcked), Accept))
  {}

  // The server's acknowledgement of the first data completes the bypass exactly when it advances.
  lemma DataIsAcked(s: Signals, pkt: PacketView, action: MethodAction)
    requires IsLive(s) && AcksData(s.state, pkt)
    ensures var done := With(s, s.state.(waitingForFirstDataAck := false));
            Answers(s, pkt, action,
                    Answer(if pkt.ack == Succ(s.state.synSeq.value) then s else Ended(done, FakeDataAcked), Accept))
  {}

  lemma FragmentingEnds(s: Signals, pkt: PacketView, action: MethodAction)
    requires IsLive(s) && EndsFragmenting(s.state, pkt)
    ensures Answers(s, pkt, action, Answer(With(s, s.state.(monitor := false)), Accept))
  {}

  lemma ToleratedIsPassed(s: Signals, pkt: PacketView, action: MethodAction)
    requires IsLive(s) && IsTolerated(s.state, pkt)
    ensures Answers(s, pkt, action, Answer(s, Accept))
  {}

  // Everything else closes a flow that has no outcome yet, and leaves one in fragment-all mode alone.
  lemma UnwantedCloses(s: Signals, pkt: PacketView, action: MethodAction)
    requires IsLive(s) && IsUnwanted(s.state, pkt)
    ensures Answers(s, pkt, action, Answer(if s.state.outcome.Some? then s else Ended(s, UnexpectedClose), Accept))
  {}

  // A released flow takes no notice of any packet.
  lemma ReleasedIsPassed(s: Signals, pkt: PacketView, action: MethodAction)
    requires !s.state.monitor
    ensures Answers(s, pkt, action, Answer(s, Accept))
  {}

  // A flow is only closed by a packet it did not wait for, or by its bypass method.
  lemma ClosedExactly(s: Signals, pkt: PacketView, action: MethodAction)
    requires IsLive(s) && !s.state.fragmentAllData
    ensures var r := OnLocked(s, pkt, action);
            && r.Locked?
            && (Settled(r.next, r.after).state.outcome == Some(UnexpectedClose) <==>
                  IsUnwanted(s.state, pkt)
                  || (action.AbortAndAccept? && (EndsHandshake(s.state, pkt) || CarriesData(s.state, pkt))))
            && (Settled(r.next, r.after).state.outcome == Some(FakeDataAcked) <==>
                  || (AcksFake(s.state, pkt) && !s.state.waitingForData)
                  || (AcksData(s.state, pkt) && pkt.ack != Succ(s.state.synSeq.value))
                  || (EndsHandshake(s.state, pkt)
                      && (action.CompleteAndAccept? || action == EmitFakeAndAccept(true, false)))
                  || (CarriesData(s.state, pkt)
                      && (action.CompleteAndAccept? || action == EmitFakeAndAccept(true, false)
                          || (action.EmitFakeAndAccept? && action.continueWithData))))
  {
    if IsUnwanted(s.state, pkt) {
      UnwantedCloses(s, pkt, action);
    } else if EndsHandshake(s.state, pkt) {
      HandshakeStage(s, pkt, action);
    } else if CarriesData(s.state, pkt) {
      FirstDataStage(s, pkt, action);
    }
  }

  // ---- whole exchanges ----

  // The states that the monitored flow of any run is in between packets.
  lemma RunsAreLive(kind: WaitKind, steps: seq<Step>)
    ensures var y := Run(Start(kind), steps); y.after.Nothing? && y.flow.state.monitor ==> IsLive(y.flow)
  {
    Reachable(kind, steps);
  }

  function AfterHandshake(kind: WaitKind, syn: PacketView, synAck: PacketView, ack: PacketView,
                          action: MethodAction): System
  {
    Next(Next(Next(Start(kind), Packet(syn, PassThrough)), Packet(synAck, PassThrough)), Packet(ack, action))
  }

  // After a clean handshake answered with a fake, the server's acknowledgement of the fake completes
  // the bypass, and any other acknowledgement closes the flow.
  lemma FakeExchange(kind: WaitKind, syn: PacketView, synAck: PacketView, ack: PacketView, reply: PacketView,
                     action: MethodAction, s: u32, a: u32)
    requires IsSyn(syn, s) && IsSynAckTo(synAck, s, a) && IsFinalAck(ack, s, a)
    requires reply.direction.Inbound? && reply.IsBareAck()
    ensures var sent := AfterHandshake(kind, syn, synAck, ack, EmitFakeAndAccept(false, false));
            var y := Next(Next(sent, Packet(reply, action)), Settle);
            y.flow.state.outcome
            == if reply.seqNum == Succ(a) && reply.ack == Succ(s) then Some(FakeDataAcked) else Some(UnexpectedClose)
  {}

  // While the first data packet is still awaited, the right acknowledgement changes nothing.
  lemma FakeExchangeWithData(kind: WaitKind, syn: PacketView, synAck: PacketView, ack: PacketView, reply: PacketView,
                             action: MethodAction, immediately: bool, s: u32, a: u32)
    requires IsSyn(syn, s) && IsSynAckTo(synAck, s, a) && IsFinalAck(ack, s, a)
    requires reply.direction.Inbound? && reply.IsBareAck()
    ensures var sent := AfterHandshake(kind, syn, synAck, ack, EmitFakeAndAccept(immediately, true));
            var y := Next(Next(sent, Packet(reply, action)), Settle);
            if reply.seqNum == Succ(a) && reply.ack == Succ(s) then y.flow == sent.flow
            else y.flow.state.outcome == Some(UnexpectedClose)
  {}
}
