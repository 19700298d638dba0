/** Withdrawing an armed command, by a cancel, by arming another or by the end of its association, is
    for good. */
module ControlWithdrawal {
  import opened Sequences
  import opened Octets
  import opened Data
  import opened ControlMessage
  import opened Control
  import opened ControlLedger

  lemma {:induction false} RunDueWithdrawn(plant: Plant, st: Server, due: seq<Timed>, now: Instant)
    ensures RunDue(plant, st, due, now).history.withdrawn == st.history.withdrawn
    decreases |due|
  {
    hide ModeRefusal, BehaviourOf, Apply, Ask;
    if due != [] {
      RunDueWithdrawn(plant, RunOne(plant, st, due[0], now), due[1..], now);
    }
  }

  lemma OnTimeoutWithdrawn(plant: Plant, st: Server, now: Instant)
    ensures OnTimeout(plant, st, now).history.withdrawn == st.history.withdrawn
  {
    hide RunDue;
    var live := Retain(st, (s: Selection) => now < s.expires);
    RunDueWithdrawn(plant, live.(timed := Keep(st.timed, (t: Timed) => now < t.due)),
                    Keep(st.timed, (t: Timed) => now >= t.due), now);
  }

  lemma OperateWithdrawn(plant: Plant, st: Server, k: nat, assoc: AssocId, obj: string, request: ControlRequest,
                         model: ControlModel, now: Now)
    ensures st.history.withdrawn <= OperateStep(plant, st, k, assoc, obj, request, model, now).0.history.withdrawn
  {
    hide Apply, Ask, SelectFault, WaitFor, Consume, PlusNanos, Keep, TimedSerials;
    ConsumeKeeps(st.(asked := st.asked + 1), k, assoc, obj, request, model, now);
  }

  lemma SelectWithdrawn(plant: Plant, st: Server, k: nat, assoc: AssocId, obj: string, request: ControlRequest,
                        model: ControlModel, now: Now)
    ensures st.history.withdrawn <= SelectWithValueStep(plant, st, k, assoc, obj, request, model,
                                                        now).0.history.withdrawn
  {
    hide Ask, PlusMillis, HeldByOther;
  }

  lemma CancelWithdrawn(plant: Plant, st: Server, k: nat, assoc: AssocId, obj: string, request: ControlRequest,
                        model: ControlModel)
    ensures st.history.withdrawn <= CancelStep(plant, st, k, assoc, obj, request, model).0.history.withdrawn
  {
    hide Ask, Keep, TimedSerials, Mine;
  }

  lemma ServiceWithdrawn(plant: Plant, st: Server, k: nat, assoc: AssocId, obj: string, attribute: string,
                         request: ControlRequest, model: ControlModel, now: Now)
    ensures st.history.withdrawn <= ServiceStep(plant, st, k, assoc, obj, attribute, request, model,
                                                now).0.history.withdrawn
  {
    hide OnTimeout, OperateStep, SelectWithValueStep, CancelStep, ModeRefusal, BehaviourOf;
    OnTimeoutWithdrawn(plant, st, now.mono);
    SelectWithdrawn(plant, OnTimeout(plant, st, now.mono), k, assoc, obj, request, model, now);
    CancelWithdrawn(plant, OnTimeout(plant, st, now.mono), k, assoc, obj, request, model);
    OperateWithdrawn(plant, OnTimeout(plant, st, now.mono), k, assoc, obj, request, model, now);
  }

  lemma DoWithdrawn(plant: Plant, st: Server, step: Step)
    ensures st.history.withdrawn <= Do(plant, st, step).history.withdrawn
  {
    hide OnTimeout, ServiceStep, ModelOf, RequestOfValue, ModeRefusal, BehaviourOf, Ask, Keep;
    match step
    case WriteRequest(assoc, obj, attribute, value, now) =>
      var model, request := ModelOf(st.values, obj), RequestOfValue(value);
      if model.Some? && request.Some? {
        ServiceWithdrawn(plant, st.(serial := st.serial + 1), st.serial, assoc, obj, attribute, request.value,
                         model.value, now);
      }
    case Tick(at) => OnTimeoutWithdrawn(plant, st, at);
    case _ =>
  }

  /** A command once withdrawn is never tried, whatever happens afterwards. */
  lemma {:induction false} WithdrawnNeverRuns(plant: Plant, st: Server, steps: seq<Step>, k: nat)
    requires Accounted(st, k) && Withdrawn(st, k) > 0
    ensures Tries(Run(plant, st, steps).history.attempts, k) == 0
    decreases |steps|
  {
    hide Do;
    if steps != [] {
      var next := Do(plant, st, steps[0]);
      DoAccounted(plant, st, steps[0], k);
      DoWithdrawn(plant, st, steps[0]);
      PrefixCount(st.history.withdrawn, next.history.withdrawn, k);
      WithdrawnNeverRuns(plant, next, steps[1..], k);
    }
  }

  lemma PrefixCount(a: seq<nat>, b: seq<nat>, k: nat)
    requires a <= b
    ensures multiset(a)[k] <= multiset(b)[k]
  {
    assert b == a + b[|a|..];
  }

  lemma DisarmWithdraws(st: Server, assoc: AssocId, obj: string, t: Timed)
    requires t in st.timed && Mine(t, assoc, obj)
    ensures Withdrawn(Disarm(st, assoc, obj), t.serial) > 0
    ensures forall u <- Disarm(st, assoc, obj).timed :: !Mine(u, assoc, obj)
  {
    var drop := (u: Timed) => Mine(u, assoc, obj);
    KeepMembers(st.timed, drop);
    KeepMembers(st.timed, (u: Timed) => !Mine(u, assoc, obj));
    ArmedMember(Keep(st.timed, drop), t);
    SerialsCount(Keep(st.timed, drop), t.serial);
  }

  /** A cancel the server accepts withdraws every command its client has armed on the object that
      has not fallen due by then. */
  lemma CancelWithdraws(plant: Plant, st: Server, k: nat, assoc: AssocId, obj: string, request: ControlRequest,
                        model: ControlModel, t: Timed)
    requires t in st.timed && Mine(t, assoc, obj)
    requires CancelStep(plant, st, k, assoc, obj, request, model).1 == Done
    ensures var after := CancelStep(plant, st, k, assoc, obj, request, model).0;
            Withdrawn(after, t.serial) > 0 && forall u <- after.timed :: !Mine(u, assoc, obj)
  {
    DisarmWithdraws(st.(asked := st.asked + 1), assoc, obj, t);
  }

  /** The end of an association withdraws every command it has armed. */
  lemma CloseWithdraws(st: Server, assoc: AssocId, t: Timed)
    requires t in st.timed && t.assoc == assoc
    ensures Withdrawn(OnClosed(st, assoc), t.serial) > 0
    ensures forall u <- OnClosed(st, assoc).timed :: u.assoc != assoc
  {
    var drop := (u: Timed) => u.assoc == assoc;
    KeepMembers(st.timed, drop);
    KeepMembers(st.timed, (u: Timed) => u.assoc != assoc);
    ArmedMember(Keep(st.timed, drop), t);
    SerialsCount(Keep(st.timed, drop), t.serial);
  }

  // ---- end to end ----

  /** Whatever is withdrawn by a step of a run is never tried in any continuation. */
  lemma WithdrawnForGood(plant: Plant, values: map<string, Value>, sboTimeoutMs: U64, before: seq<Step>, step: Step,
                         later: seq<Step>, k: nat)
    requires Withdrawn(Do(plant, Run(plant, Fresh(values, sboTimeoutMs), before), step), k) > 0
    ensures Tries(Run(plant, Do(plant, Run(plant, Fresh(values, sboTimeoutMs), before), step), later).history.attempts,
                  k) == 0
  {
    hide Run, Do, Tries, Withdrawn;
    FreshAccounted(values, sboTimeoutMs, k);
    RunAccounted(plant, Fresh(values, sboTimeoutMs), before, k);
    DoAccounted(plant, Run(plant, Fresh(values, sboTimeoutMs), before), step, k);
    WithdrawnNeverRuns(plant, Do(plant, Run(plant, Fresh(values, sboTimeoutMs), before), step), later, k);
  }

  /** A `Cancel` write answered "done" in any run: no command its client still has armed on the object
      after the tick of that write is ever tried, whatever happens from then on. */
  lemma CancelledNeverRuns(plant: Plant, values: map<string, Value>, sboTimeoutMs: U64, before: seq<Step>,
                           assoc: AssocId, obj: string, value: Value, now: Now, later: seq<Step>, t: Timed)
    requires var st := Run(plant, Fresh(values, sboTimeoutMs), before);
             && WriteStep(plant, st, assoc, obj, "Cancel", value, now).1 == Done
             && t in OnTimeout(plant, st.(serial := st.serial + 1), now.mono).timed && Mine(t, assoc, obj)
    ensures var st := Run(plant, Fresh(values, sboTimeoutMs), before);
            Tries(Run(plant, Do(plant, st, WriteRequest(assoc, obj, "Cancel", value, now)), later).history.attempts,
                  t.serial) == 0
  {
    hide Run, OnTimeout, CancelStep, ModelOf, RequestOfValue, Tries, ModeRefusal;
    var st := Run(plant, Fresh(values, sboTimeoutMs), before);
    var ready := OnTimeout(plant, st.(serial := st.serial + 1), now.mono);
    CancelWithdraws(plant, ready, st.serial, assoc, obj, RequestOfValue(value).value, ModelOf(st.values, obj).value, t);
    WithdrawnForGood(plant, values, sboTimeoutMs, before, WriteRequest(assoc, obj, "Cancel", value, now), later,
                     t.serial);
  }

  /** An `Oper` that is let through either leaves the queue alone or withdraws what its client had armed
      on the object. */
  lemma OperateReplaces(plant: Plant, st: Server, k: nat, assoc: AssocId, obj: string, request: ControlRequest,
                        model: ControlModel, now: Now, t: Timed)
    requires t in st.timed && Mine(t, assoc, obj)
    ensures var after := OperateStep(plant, st, k, assoc, obj, request, model, now).0;
            after.timed == st.timed || Withdrawn(after, t.serial) > 0
  {
    hide Ask, Apply, SelectFault, Disarm, Withdrawn, PlusNanos, WaitFor;
    var asked := st.(asked := st.asked + 1);
    var taken := Consume(asked, k, assoc, obj, request, model, now);
    DisarmWithdraws(taken, assoc, obj, t);
    ArmKeepsWithdrawn(taken, k, assoc, obj, request, model, now, t.serial);
  }

  lemma ArmKeepsWithdrawn(st: Server, k: nat, assoc: AssocId, obj: string, request: ControlRequest, model: ControlModel,
                          now: Now, j: nat)
    ensures forall wait: nat ::
              Withdrawn(Arm(st, k, assoc, obj, request, model, wait, now), j) == Withdrawn(Disarm(st, assoc, obj), j)
  {
  }

  /** An `Oper` write that is armed, in any run: no command its client still had armed on the object after
      the tick of that write is ever tried, whatever happens from then on. */
  lemma ReplacedNeverRuns(plant: Plant, values: map<string, Value>, sboTimeoutMs: U64, before: seq<Step>,
                          assoc: AssocId, obj: string, value: Value, now: Now, later: seq<Step>, t: Timed)
    requires var st := Run(plant, Fresh(values, sboTimeoutMs), before);
             && Armed(WriteStep(plant, st, assoc, obj, "Oper", value, now).0.timed, st.serial) > 0
             && t in OnTimeout(plant, st.(serial := st.serial + 1), now.mono).timed && Mine(t, assoc, obj)
    ensures var st := Run(plant, Fresh(values, sboTimeoutMs), before);
            Tries(Run(plant, Do(plant, st, WriteRequest(assoc, obj, "Oper", value, now)), later).history.attempts,
                  t.serial) == 0
  {
    hide Run, OnTimeout, OperateStep, ModelOf, RequestOfValue, Tries, ModeRefusal, BehaviourOf, Accounted, Untouched;
    var st := Run(plant, Fresh(values, sboTimeoutMs), before);
    var next := st.(serial := st.serial + 1);
    var ready := OnTimeout(plant, next, now.mono);
    FreshAccounted(values, sboTimeoutMs, st.serial);
    RunAccounted(plant, Fresh(values, sboTimeoutMs), before, st.serial);
    NextUntouched(st, st.serial);
    OnTimeoutCounts(plant, next, now.mono, st.serial);
    NotArmedYet(st, st.serial);
    NotArmedYet(ready, st.serial);
    if ModelOf(st.values, obj).Some? && RequestOfValue(value).Some? {
      OperateReplaces(plant, ready, st.serial, assoc, obj, RequestOfValue(value).value, ModelOf(st.values, obj).value,
                      now, t);
    }
    WithdrawnForGood(plant, values, sboTimeoutMs, before, WriteRequest(assoc, obj, "Oper", value, now), later,
                     t.serial);
  }

  lemma NotArmedYet(st: Server, k: nat)
    ensures Untouched(st, k) ==> Armed(st.timed, k) == 0
    ensures Accounted(st, k) && k >= st.serial ==> Armed(st.timed, k) == 0
  {
  }

  /** The end of an association in any run: nothing it had armed is ever tried from then on. */
  lemma ClosedNeverRuns(plant: Plant, values: map<string, Value>, sboTimeoutMs: U64, before: seq<Step>, assoc: AssocId,
                        later: seq<Step>, t: Timed)
    requires t in Run(plant, Fresh(values, sboTimeoutMs), before).timed && t.assoc == assoc
    ensures Tries(Run(plant, Do(plant, Run(plant, Fresh(values, sboTimeoutMs), before), Close(assoc)),
                      later).history.attempts, t.serial) == 0
  {
    hide Run, OnClosed, Tries;
    CloseWithdraws(Run(plant, Fresh(values, sboTimeoutMs), before), assoc, t);
    WithdrawnForGood(plant, values, sboTimeoutMs, before, Close(assoc), later, t.serial);
  }
}
