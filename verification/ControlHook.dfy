/** What the application's hook refuses does not happen: not by one request, and never in a run in which
    it refuses everything. */
module ControlHook {
  import opened Common
  import opened Octets
  import opened Data
  import opened ControlMessage
  import opened Control
  import opened ControlOutcomes

  /** Nothing is granted, let through, armed or run; the values are as they were. */
  predicate NothingDone(st: Server, after: Server) {
    && after.selections == st.selections && after.timed == st.timed && after.values == st.values
    && after.history.attempts == st.history.attempts && after.history.acts == st.history.acts
    && after.history.grants == st.history.grants
  }

  /** A write the hook would refuse, were it asked, does nothing, whether it comes to that or not. */
  lemma HookRefusalStops(plant: Plant, st: Server, assoc: AssocId, obj: string, attribute: string, value: Value,
                         request: ControlRequest, model: ControlModel, now: Now, cause: AddCause)
    requires ModelOf(st.values, obj) == Some(model) && RequestOfValue(value) == Some(request)
    requires attribute in {"SBOw", "Oper", "Cancel"} && plant.hook.Some?
    requires var stage := if attribute == "Oper" then Operate else if attribute == "SBOw" then Select else Cancel;
             plant.hook.value(Ready(plant, st, now).asked, ControlEvent(obj, stage, request, model)) == Some(cause)
    ensures NothingDone(Ready(plant, st, now), WriteStep(plant, st, assoc, obj, attribute, value, now).0)
    ensures attribute == "Cancel" ==> WriteStep(plant, st, assoc, obj, attribute, value, now).1 == Refused(3)
  {
    hide Ready, ModelOf, RequestOfValue, ModeRefusal, BehaviourOf, WriteStep, GrantSelection, Consume, Arm, CarryOut,
         Disarm, Deselect, SelectFault;
    WriteServes(plant, st, assoc, obj, attribute, value, request, model, now);
  }

  /** A read of `SBO` the hook would refuse. */
  lemma HookRefusesSelect(plant: Plant, st: Server, assoc: AssocId, obj: string, now: Now)
    requires plant.hook.Some? && forall n, e :: plant.hook.value(n, e).Some?
    ensures !SelectStep(plant, st, assoc, obj, now).1 && NothingDone(st, SelectStep(plant, st, assoc, obj, now).0)
  {
    hide ModelOf, ModeRefusal, BehaviourOf;
  }

  /** The values as the rest of the device last gave them. */
  function Given(values: map<string, Value>, steps: seq<Step>): map<string, Value> {
    if steps == [] then values
    else
      var last := steps[|steps| - 1];
      if last.Environment? then last.values else Given(values, steps[..|steps| - 1])
  }

  /** Nothing selected, armed, tried or let through. */
  predicate Untried(st: Server) {
    st.selections == map[] && st.timed == [] && st.history.attempts == [] && st.history.acts == map[]
    && st.history.grants == []
  }

  lemma TickUntried(plant: Plant, st: Server, now: Instant)
    requires Untried(st)
    ensures Untried(OnTimeout(plant, st, now)) && OnTimeout(plant, st, now).values == st.values
  {
  }

  lemma WriteUntried(plant: Plant, st: Server, assoc: AssocId, obj: string, attribute: string, value: Value, now: Now)
    requires Untried(st) && plant.hook.Some? && forall n, e :: plant.hook.value(n, e).Some?
    ensures var after := WriteStep(plant, st, assoc, obj, attribute, value, now).0;
            Untried(after) && after.values == st.values
  {
    hide OnTimeout, ModelOf, RequestOfValue, WriteStep;
    var model, request := ModelOf(st.values, obj), RequestOfValue(value);
    TickUntried(plant, st.(serial := st.serial + 1), now.mono);
    UnreadableOutcome(plant, st, assoc, obj, attribute, value, now);
    if model.Some? && request.Some? {
      if attribute in {"SBOw", "Oper", "Cancel"} {
        var stage := if attribute == "Oper" then Operate else if attribute == "SBOw" then Select else Cancel;
        var says := plant.hook.value(Ready(plant, st, now).asked, ControlEvent(obj, stage, request.value, model.value));
        HookRefusalStops(plant, st, assoc, obj, attribute, value, request.value, model.value, now, says.value);
      } else {
        OtherOutcome(plant, st, assoc, obj, attribute, value, now);
      }
    }
  }

  lemma DoUntried(plant: Plant, st: Server, step: Step)
    requires Untried(st) && plant.hook.Some? && forall n, e :: plant.hook.value(n, e).Some?
    ensures Untried(Do(plant, st, step))
    ensures Do(plant, st, step).values == if step.Environment? then step.values else st.values
  {
    hide OnTimeout, WriteStep, SelectStep;
    match step
    case SelectRequest(assoc, obj, now) => HookRefusesSelect(plant, st, assoc, obj, now);
    case WriteRequest(assoc, obj, attribute, value, now) => WriteUntried(plant, st, assoc, obj, attribute, value, now);
    case Tick(at) => TickUntried(plant, st, at);
    case _ =>
  }

  /** Behind a hook that refuses everything no run selects, arms, tries or changes anything. */
  lemma {:induction false} RefusingHookRunsNothing(plant: Plant, values: map<string, Value>, sboTimeoutMs: U64,
                                                   steps: seq<Step>)
    requires plant.hook.Some? && forall n, e :: plant.hook.value(n, e).Some?
    ensures var st := Run(plant, Fresh(values, sboTimeoutMs), steps); Untried(st) && st.values == Given(values, steps)
    decreases |steps|
  {
    hide Do, Untried;
    if steps == [] {
      assert Untried(Fresh(values, sboTimeoutMs)) by {
        FreshUntried(values, sboTimeoutMs);
      }
    } else {
      var front, last := steps[..|steps| - 1], steps[|steps| - 1];
      RefusingHookRunsNothing(plant, values, sboTimeoutMs, front);
      RunSnoc(plant, Fresh(values, sboTimeoutMs), front, last);
      assert steps == front + [last];
      DoUntried(plant, Run(plant, Fresh(values, sboTimeoutMs), front), last);
    }
  }

  lemma FreshUntried(values: map<string, Value>, sboTimeoutMs: U64)
    ensures Untried(Fresh(values, sboTimeoutMs))
  {
  }

  lemma {:induction false} RunSnoc(plant: Plant, st: Server, steps: seq<Step>, last: Step)
    ensures Run(plant, st, steps + [last]) == Do(plant, Run(plant, st, steps), last)
    decreases |steps|
  {
    hide Do;
    if steps == [] {
      assert ([last])[1..] == [] && [] + [last] == [last];
    } else {
      assert (steps + [last])[1..] == steps[1..] + [last];
      RunSnoc(plant, Do(plant, st, steps[0]), steps[1..], last);
    }
  }
}
