/** Per-connection flow records and the table that holds them. */
module Flow {
  import opened Bytes
  import opened Interceptor
  import opened Wrappers

  datatype FlowKey = FlowKey(srcIp: u32, srcPort: u16, dstIp: u32, dstPort: u16) {
    function Reversed(): FlowKey { FlowKey(dstIp, dstPort, srcIp, srcPort) }
  }

  datatype BypassOutcome = FakeDataAcked | UnexpectedClose

  // The value of a flow record while nobody holds its lock.
  datatype FlowState = FlowState(
    monitor: bool,
    synSeq: Option<u32>,
    synAckSeq: Option<u32>,
    fakeSent: bool,
    waitingForData: bool,
    firstDataModified: bool,
    waitingForFirstDataAck: bool,
    fragmentAllData: bool,
    outcome: Option<BypassOutcome>)

  // A flow state together with how often its two notifications have been sent.
  datatype Signals = Signals(state: FlowState, notified: nat, readied: nat)

  const INITIAL := FlowState(true, None, None, false, false, false, false, false, None)

  function Finished(s: Signals, outcome: BypassOutcome): Signals {
    if s.state.outcome.None?
    then Signals(s.state.(outcome := Some(outcome), monitor := false), s.notified + 1, s.readied)
    else s
  }

  function Signalled(s: Signals, outcome: BypassOutcome): Signals {
    if s.state.outcome.None?
    then Signals(s.state.(outcome := Some(outcome)), s.notified + 1, s.readied)
    else s
  }

  class FlowEntry {
    var monitor: bool
    var synSeq: Option<u32>
    var synAckSeq: Option<u32>
    var fakeSent: bool
    var waitingForData: bool
    var firstDataModified: bool
    var waitingForFirstDataAck: bool
    var fragmentAllData: bool
    var outcome: Option<BypassOutcome>
    var notified: nat  // calls of notify_waiters on the completion signal
    var readied: nat   // calls of notify_waiters on the ready-for-data signal

    ghost function View(): Signals
      reads this
    {
      Signals(FlowState(monitor, synSeq, synAckSeq, fakeSent, waitingForData, firstDataModified,
                        waitingForFirstDataAck, fragmentAllData, outcome), notified, readied)
    }

    constructor ()
      ensures View() == Signals(INITIAL, 0, 0)
    {
      monitor := true;
      synSeq, synAckSeq := None, None;
      fakeSent, waitingForData := false, false;
      firstDataModified, waitingForFirstDataAck, fragmentAllData := false, false, false;
      outcome := None;
      notified, readied := 0, 0;
    }

    /** Ends the flow and wakes its waiters; only the first call has an effect. */
    method Finish(result: BypassOutcome)
      modifies this
      ensures View() == Finished(old(View()), result)
    {
      if outcome.None? {
        outcome := Some(result);
        monitor := false;
        notified := notified + 1;
      }
    }

    /** Reports the outcome and wakes waiters, but leaves the flow monitored. */
    method SignalOutcome(result: BypassOutcome)
      modifies this
      ensures View() == Signalled(old(View()), result)
    {
      if outcome.None? {
        outcome := Some(result);
        notified := notified + 1;
      }
    }
  }

  class LocalFlowController {
    var flows: map<FlowKey, FlowEntry>

    // No two keys share a record.
    ghost predicate Valid()
      reads this
    {
      forall j, k :: j in flows && k in flows && flows[j] == flows[k] ==> j == k
    }

    constructor ()
      ensures Valid() && flows == map[]
    {
      flows := map[];
    }

    method RegisterFlow(key: FlowKey) returns (entry: Option<FlowEntry>)
      requires Valid()
      modifies this
      ensures Valid()
      ensures key in old(flows) ==> entry == None && flows == old(flows)
      ensures key !in old(flows) ==>
                && entry.Some? && fresh(entry.value)
                && flows == old(flows)[key := entry.value]
                && entry.value.View() == Signals(INITIAL, 0, 0)
    {
      if key in flows {
        entry := None;
      } else {
        var created := new FlowEntry();
        flows := flows[key := created];
        entry := Some(created);
      }
    }

    method RemoveFlow(key: FlowKey)
      requires Valid()
      modifies this
      ensures Valid()
      ensures flows == map k | k in old(flows) && k != key :: old(flows)[k]
    {
      flows := map k | k in flows && k != key :: flows[k];
    }

    /** Finishes every tracked flow and empties the table. */
    method Reset()
      requires Valid()
      modifies this, flows.Values
      ensures Valid() && flows == map[]
      ensures forall k :: k in old(flows) ==>
                old(flows)[k].View() == Finished(old(flows[k].View()), UnexpectedClose)
    {
      var todo := flows.Keys;
      while todo != {}
        invariant todo <= old(flows).Keys && flows == old(flows)
        invariant forall k :: k in flows ==>
                    flows[k].View() == if k in todo then old(flows[k].View())
                                       else Finished(old(flows[k].View()), UnexpectedClose)
        decreases todo
      {
        var key :| key in todo;
        flows[key].Finish(UnexpectedClose);
        todo := todo - {key};
      }
      flows := map[];
    }
  }
}
