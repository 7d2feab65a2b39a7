/** Resetting the flow table while other threads register, remove and finish flows. */
module ResetRuns {
  import opened Flow

  // Where the reset is. While it visits, `left` are the records it still has to reach; `since` numbers
  // the first record registered after it began. Once it has cleared the table, `unfinished` are the
  // records that were dropped without an outcome.
  datatype Phase =
    | Idle
    | Visiting(since: nat, left: set<nat>)
    | Cleared(since: nat, dropped: set<nat>, unfinished: set<nat>)

  // The table, by record number; a record keeps its number for life, and no number is used twice.
  datatype System = System(rows: map<FlowKey, nat>, finished: set<nat>, next: nat, phase: Phase)

  datatype Step =
    | Register(key: FlowKey)
    | Remove(key: FlowKey)
    | FinishRecord(id: nat)
    | Begin
    | Visit(key: FlowKey)
    | Clear

  const EMPTY := System(map[], {}, 0, Idle)

  function Without(phase: Phase, id: nat): Phase {
    if phase.Visiting? then phase.(left := phase.left - {id}) else phase
  }

  // A step that is not enabled changes nothing. A visit may also meet records registered since.
  function Next(y: System, step: Step): System {
    match step
    case Register(key) =>
      if key in y.rows then y else y.(rows := y.rows[key := y.next], next := y.next + 1)
    case Remove(key) =>
      if key in y.rows then y.(rows := y.rows - {key}, phase := Without(y.phase, y.rows[key])) else y
    case FinishRecord(id) => if id < y.next then y.(finished := y.finished + {id}) else y
    case Begin => if y.phase.Idle? then y.(phase := Visiting(y.next, y.rows.Values)) else y
    case Visit(key) =>
      if y.phase.Visiting? && key in y.rows
      then y.(finished := y.finished + {y.rows[key]}, phase := Without(y.phase, y.rows[key]))
      else y
    case Clear =>
      if y.phase.Visiting? && y.phase.left == {}
      then y.(rows := map[], phase := Cleared(y.phase.since, y.rows.Values, y.rows.Values - y.finished))
      else y
  }

  function Run(y: System, steps: seq<Step>): System
    decreases |steps|
  {
    if steps == [] then y else Run(Next(y, steps[0]), steps[1..])
  }

  ghost predicate Inv(y: System) {
    && (forall k :: k in y.rows ==> y.rows[k] < y.next)
    && (forall id :: id in y.finished ==> id < y.next)
    && (forall j, k :: j in y.rows && k in y.rows && y.rows[j] == y.rows[k] ==> j == k)
    && (y.phase.Visiting? ==>
          && y.phase.since <= y.next
          && forall k :: k in y.rows && y.rows[k] < y.phase.since ==> y.rows[k] in y.phase.left + y.finished)
    && (y.phase.Cleared? ==>
          && y.phase.unfinished <= y.phase.dropped
          && forall id :: id in y.phase.unfinished ==> id >= y.phase.since)
  }

  lemma RegisterKeeps(y: System, key: FlowKey)
    requires Inv(y)
    ensures Inv(Next(y, Register(key)))
  {}

  lemma RemoveKeeps(y: System, key: FlowKey)
    requires Inv(y)
    ensures Inv(Next(y, Remove(key)))
  {}

  lemma VisitKeeps(y: System, key: FlowKey)
    requires Inv(y)
    ensures Inv(Next(y, Visit(key)))
  {}

  lemma EveryStep(y: System, step: Step)
    requires Inv(y)
    ensures Inv(Next(y, step))
  {
    match step
    case Register(key) => RegisterKeeps(y, key);
    case Remove(key) => RemoveKeeps(y, key);
    case Visit(key) => VisitKeeps(y, key);
    case _ =>
  }

  lemma {:induction false} EveryRun(y: System, steps: seq<Step>)
    requires Inv(y)
    ensures Inv(Run(y, steps))
    decreases |steps|
  {
    if steps != [] {
      EveryStep(y, steps[0]);
      EveryRun(Next(y, steps[0]), steps[1..]);
    }
  }

  // Whatever runs beside it, a reset drops no flow unfinished that was registered before it began.
  // Clearing loses nothing exactly when all flows in the table that are newer are finished.
  lemma OldFlowsAreFinished(steps: seq<Step>)
    ensures var y := Run(EMPTY, steps);
            y.phase.Cleared? ==>
              forall id :: id in y.phase.unfinished ==> id in y.phase.dropped && id >= y.phase.since
    ensures var y := Run(EMPTY, steps);
            y.phase.Visiting? && y.phase.left == {} ==>
              (Next(y, Clear).phase.unfinished == {} <==> NewFlowsAreFinished(y, y.phase.since))
  {
    var y := Run(EMPTY, steps);
    EveryRun(EMPTY, steps);
    if y.phase.Visiting? && y.phase.left == {} {
      ClearingLoses(y);
    }
  }

  predicate NewFlowsAreFinished(y: System, since: nat) {
    forall k :: k in y.rows && y.rows[k] >= since ==> y.rows[k] in y.finished
  }

  lemma ClearingLoses(y: System)
    requires Inv(y) && y.phase.Visiting? && y.phase.left == {}
    ensures Next(y, Clear).phase.unfinished == {} <==> NewFlowsAreFinished(y, y.phase.since)
  {
    var unfinished := Next(y, Clear).phase.unfinished;
    if unfinished == {} {
      forall k | k in y.rows && y.rows[k] >= y.phase.since ensures y.rows[k] in y.finished {
        assert y.rows[k] in y.rows.Values && y.rows[k] !in unfinished;
      }
    } else {
      var id :| id in unfinished;
      var k :| k in y.rows && y.rows[k] == id;
      assert k in y.rows && y.rows[k] !in y.finished;
    }
  }

  // ---- the same, told from the schedule ----

  lemma {:induction false} RunGrows(y: System, steps: seq<Step>, step: Step)
    ensures Run(y, steps + [step]) == Next(Run(y, steps), step)
    decreases |steps|
  {
    if steps == [] {
      assert [step][1..] == [];
    } else {
      assert (steps + [step])[1..] == steps[1..] + [step];
      RunGrows(Next(y, steps[0]), steps[1..], step);
    }
  }

  // The i-th step registers a new flow.
  predicate Registers(y: System, steps: seq<Step>, i: nat) {
    i < |steps| && steps[i].Register? && steps[i].key !in Run(y, steps[..i]).rows
  }

  // The number the i-th step gives to the flow it registers.
  function NumberAt(y: System, steps: seq<Step>, i: nat): nat
    requires i <= |steps|
  {
    Run(y, steps[..i]).next
  }

  // A step that takes care of this flow: it is removed, visited by the reset, or finished.
  predicate TakesCare(step: Step, key: FlowKey, id: nat) {
    step == Remove(key) || step == Visit(key) || step == FinishRecord(id)
  }

  // A later step takes care of the flow that the i-th step registers.
  predicate IsMet(y: System, steps: seq<Step>, i: nat)
    requires Registers(y, steps, i)
  {
    exists j :: i < j < |steps| && TakesCare(steps[j], steps[i].key, NumberAt(y, steps, i))
  }

  predicate IsOpen(y: System, key: FlowKey, id: nat) {
    key in y.rows && y.rows[key] == id && id !in y.finished
  }

  lemma OpenUntilMet(y: System, step: Step, key: FlowKey, id: nat)
    requires Inv(y) && id < y.next && y.phase.Visiting? && Next(y, step).phase.Visiting?
    ensures id < Next(y, step).next
    ensures IsOpen(Next(y, step), key, id) <==> IsOpen(y, key, id) && !TakesCare(step, key, id)
  {}

  lemma OpenAtFirst(y: System, key: FlowKey)
    requires Inv(y) && key !in y.rows
    ensures IsOpen(Next(y, Register(key)), key, y.next) && y.next < Next(y, Register(key)).next
  {}

  lemma StillVisiting(y: System, step: Step)
    requires Next(y, step).phase.Visiting? && !y.phase.Idle?
    ensures y.phase.Visiting?
  {}

  lemma NeverIdleAgain(y: System, steps: seq<Step>)
    requires !y.phase.Idle?
    ensures !Run(y, steps).phase.Idle?
    decreases |steps|
  {
    if steps != [] {
      NeverIdleAgain(Next(y, steps[0]), steps[1..]);
    }
  }

  // A flow registered during the visits is still open exactly when nothing took care of it since.
  lemma {:induction false} LateFlowStaysOpen(y: System, steps: seq<Step>, i: nat)
    requires Inv(y) && y.phase.Visiting? && Run(y, steps).phase.Visiting? && Registers(y, steps, i)
    ensures NumberAt(y, steps, i) < Run(y, steps).next
    ensures IsOpen(Run(y, steps), steps[i].key, NumberAt(y, steps, i)) <==> !IsMet(y, steps, i)
    decreases |steps|
  {
    var n := |steps| - 1;
    var front := steps[..n];
    var before := Run(y, front);
    assert steps == front + [steps[n]];
    RunGrows(y, front, steps[n]);
    EveryRun(y, front);
    NeverIdleAgain(y, front);
    StillVisiting(before, steps[n]);
    if i == n {
      OpenAtFirst(before, steps[i].key);
    } else {
      var key, id := steps[i].key, NumberAt(y, steps, i);
      assert front[..i] == steps[..i];
      LateFlowStaysOpen(y, front, i);
      OpenUntilMet(before, steps[n], key, id);
      MetOneStepLater(y, steps, i);
    }
  }

  lemma MetOneStepLater(y: System, steps: seq<Step>, i: nat)
    requires Registers(y, steps, i) && i < |steps| - 1 && Registers(y, steps[..|steps| - 1], i)
    ensures IsMet(y, steps, i) <==> IsMet(y, steps[..|steps| - 1], i)
                                    || TakesCare(steps[|steps| - 1], steps[i].key, NumberAt(y, steps, i))
  {
    var front := steps[..|steps| - 1];
    assert front[..i] == steps[..i];
    if IsMet(y, front, i) {
      var j :| i < j < |front| && TakesCare(front[j], front[i].key, NumberAt(y, front, i));
      assert TakesCare(steps[j], steps[i].key, NumberAt(y, steps, i));
    }
    if IsMet(y, steps, i) {
      var j :| i < j < |steps| && TakesCare(steps[j], steps[i].key, NumberAt(y, steps, i));
      assert j < |front| ==> TakesCare(front[j], front[i].key, NumberAt(y, front, i));
    }
  }

  // Every flow with a new number was registered by one of the steps.
  lemma {:induction false} NewFlowHasOrigin(y: System, steps: seq<Step>, key: FlowKey) returns (i: nat)
    requires Inv(y) && key in Run(y, steps).rows && Run(y, steps).rows[key] >= y.next
    ensures Registers(y, steps, i) && steps[i].key == key && NumberAt(y, steps, i) == Run(y, steps).rows[key]
    decreases |steps|
  {
    if steps == [] {
      assert false;
    } else {
      var n := |steps| - 1;
      var front := steps[..n];
      var before := Run(y, front);
      assert steps == front + [steps[n]];
      RunGrows(y, front, steps[n]);
      if key in before.rows && before.rows[key] == Run(y, steps).rows[key] {
        i := NewFlowHasOrigin(y, front, key);
        assert front[..i] == steps[..i];
      } else {
        i := n;
      }
    }
  }

  lemma {:induction false} NumbersGrow(y: System, steps: seq<Step>)
    ensures y.next <= Run(y, steps).next
    ensures y.phase.Visiting? && Run(y, steps).phase.Visiting? ==> Run(y, steps).phase.since == y.phase.since
    decreases |steps|
  {
    if steps != [] {
      NumbersGrow(Next(y, steps[0]), steps[1..]);
      if !Next(y, steps[0]).phase.Visiting? && y.phase.Visiting? {
        ClearedStays(Next(y, steps[0]), steps[1..]);
      }
    }
  }

  lemma {:induction false} ClearedStays(y: System, steps: seq<Step>)
    requires y.phase.Cleared?
    ensures Run(y, steps).phase == y.phase
    decreases |steps|
  {
    if steps != [] {
      ClearedStays(Next(y, steps[0]), steps[1..]);
    }
  }

  ghost predicate AllAreMet(y: System, steps: seq<Step>) {
    forall i: nat :: Registers(y, steps, i) ==> IsMet(y, steps, i)
  }

  lemma FinishedAreMet(begun: System, during: seq<Step>)
    requires Inv(begun) && begun.phase.Visiting? && Run(begun, during).phase.Visiting?
    requires NewFlowsAreFinished(Run(begun, during), begun.next)
    ensures AllAreMet(begun, during)
  {
    forall i: nat | Registers(begun, during, i) ensures IsMet(begun, during, i) {
      LateFlowStaysOpen(begun, during, i);
      NumbersGrow(begun, during[..i]);
    }
  }

  lemma MetAreFinished(begun: System, during: seq<Step>)
    requires Inv(begun) && begun.phase.Visiting? && Run(begun, during).phase.Visiting?
    requires AllAreMet(begun, during)
    ensures NewFlowsAreFinished(Run(begun, during), begun.next)
  {
    var y := Run(begun, during);
    forall key | key in y.rows && y.rows[key] >= begun.next ensures y.rows[key] in y.finished {
      var i := NewFlowHasOrigin(begun, during, key);
      LateFlowStaysOpen(begun, during, i);
    }
  }

  lemma FinishedExactlyWhenMet(begun: System, during: seq<Step>)
    requires Inv(begun) && begun.phase.Visiting? && Run(begun, during).phase.Visiting?
    ensures NewFlowsAreFinished(Run(begun, during), begun.next) <==> AllAreMet(begun, during)
  {
    if NewFlowsAreFinished(Run(begun, during), begun.next) {
      FinishedAreMet(begun, during);
    }
    if AllAreMet(begun, during) {
      MetAreFinished(begun, during);
    }
  }

  // The schedule of a whole reset, and of whatever runs before, during and after it.
  function Schedule(earlier: seq<Step>, during: seq<Step>, later: seq<Step>): seq<Step> {
    earlier + ([Begin] + (during + ([Clear] + later)))
  }

  lemma {:induction false} RunJoins(y: System, a: seq<Step>, b: seq<Step>)
    ensures Run(y, a + b) == Run(Run(y, a), b)
    decreases |a|
  {
    if a == [] {
      assert a + b == b;
    } else {
      assert (a + b)[1..] == a[1..] + b;
      RunJoins(Next(y, a[0]), a[1..], b);
    }
  }

  lemma OneThen(y: System, step: Step, steps: seq<Step>)
    ensures Run(y, [step] + steps) == Run(Next(y, step), steps)
  {
    assert ([step] + steps)[1..] == steps;
  }

  lemma ScheduleRuns(earlier: seq<Step>, during: seq<Step>, later: seq<Step>)
    ensures Run(EMPTY, Schedule(earlier, during, later))
         == Run(Next(Run(Next(Run(EMPTY, earlier), Begin), during), Clear), later)
  {
    var begun := Next(Run(EMPTY, earlier), Begin);
    RunJoins(EMPTY, earlier, [Begin] + (during + ([Clear] + later)));
    OneThen(Run(EMPTY, earlier), Begin, during + ([Clear] + later));
    RunJoins(begun, during, [Clear] + later);
    OneThen(Run(begun, during), Clear, later);
  }

  // The flows a reset loses, for every schedule: none exactly when every registration during the
  // visits is followed, before the clearing, by a removal, a visit or a finish of that flow.
  lemma LostExactlyWhenUnmet(earlier: seq<Step>, during: seq<Step>, later: seq<Step>)
    requires Run(EMPTY, earlier).phase.Idle?
    requires Run(Next(Run(EMPTY, earlier), Begin), during).phase.Visiting?
    requires Run(Next(Run(EMPTY, earlier), Begin), during).phase.left == {}
    ensures Run(EMPTY, Schedule(earlier, during, later)).phase.Cleared?
    ensures Run(EMPTY, Schedule(earlier, during, later)).phase.unfinished == {}
       <==> AllAreMet(Next(Run(EMPTY, earlier), Begin), during)
  {
    var idle := Run(EMPTY, earlier);
    var begun := Next(idle, Begin);
    var y := Run(begun, during);
    EveryRun(EMPTY, earlier);
    EveryStep(idle, Begin);
    EveryRun(begun, during);
    NumbersGrow(begun, during);
    ClearingLoses(y);
    FinishedExactlyWhenMet(begun, during);
    ScheduleRuns(earlier, during, later);
    ClearedStays(Next(y, Clear), later);
  }

  // Every run that ends with the table cleared has that shape.
  lemma {:induction false} EveryResetIsScheduled(steps: seq<Step>)
    returns (earlier: seq<Step>, during: seq<Step>, later: seq<Step>)
    requires Run(EMPTY, steps).phase.Cleared?
    ensures steps == Schedule(earlier, during, later) && Run(EMPTY, earlier).phase.Idle?
    ensures var y := Run(Next(Run(EMPTY, earlier), Begin), during); y.phase.Visiting? && y.phase.left == {}
    decreases |steps|
  {
    assert steps != [];
    var n := |steps| - 1;
    var front := steps[..n];
    assert steps == front + [steps[n]];
    RunGrows(EMPTY, front, steps[n]);
    if Run(EMPTY, front).phase.Cleared? {
      earlier, during, later := EveryResetIsScheduled(front);
      later := later + [steps[n]];
    } else {
      assert steps[n] == Clear;
      earlier, during := EveryVisitHasBegun(front);
      later := [];
    }
  }

  lemma {:induction false} EveryVisitHasBegun(steps: seq<Step>) returns (earlier: seq<Step>, during: seq<Step>)
    requires Run(EMPTY, steps).phase.Visiting?
    ensures steps == earlier + ([Begin] + during) && Run(EMPTY, earlier).phase.Idle?
    ensures Run(EMPTY, steps) == Run(Next(Run(EMPTY, earlier), Begin), during)
    decreases |steps|
  {
    assert steps != [];
    var n := |steps| - 1;
    var front := steps[..n];
    assert steps == front + [steps[n]];
    RunGrows(EMPTY, front, steps[n]);
    if Run(EMPTY, front).phase.Idle? {
      assert steps[n] == Begin;
      earlier, during := front, [];
    } else {
      StillVisiting(Run(EMPTY, front), steps[n]);
      earlier, during := EveryVisitHasBegun(front);
      RunGrows(Next(Run(EMPTY, earlier), Begin), during, steps[n]);
      during := during + [steps[n]];
    }
  }

  // A flow registered between the visits and the clearing is dropped unfinished, whatever its key.
  lemma LateFlowIsDropped(key: FlowKey)
    ensures Run(EMPTY, [Begin, Register(key), Clear]).phase == Cleared(0, {0}, {0})
  {
    var visiting := Next(EMPTY, Begin);
    var registered := Next(visiting, Register(key));
    assert visiting.phase.left == {} && registered.rows.Values == {0};
    assert [Begin, Register(key), Clear][1..] == [Register(key), Clear];
    assert [Register(key), Clear][1..] == [Clear];
    assert Run(registered, [Clear]) == Next(registered, Clear);
    assert Run(visiting, [Register(key), Clear]) == Next(registered, Clear);
  }
}
