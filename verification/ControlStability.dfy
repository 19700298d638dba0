/** Selection ownership: before it expires, a selection is out of every other association's reach,
    with exactly one way round it. */
module ControlStability {
  import opened Sequences
  import opened ControlMessage
  import opened Control
  import opened ControlTick

  /** `obj` is selected by `s`. */
  predicate Holds(st: Server, obj: string, s: Selection) {
    obj in st.selections && st.selections[obj] == s
  }

  /** A step before the selection of `obj` expires that is not its owner's own select, operate,
      cancel or close. */
  predicate Foreign(step: Step, obj: string, s: Selection) {
    match step
    case SelectRequest(assoc, o, now) => now.mono < s.expires && (o == obj ==> assoc != s.assoc)
    case WriteRequest(assoc, o, _, _, now) => now.mono < s.expires && (o == obj ==> assoc != s.assoc)
    case Tick(at) => at < s.expires
    case Close(assoc) => assoc != s.assoc
    case _ => true
  }

  /** The one exception: an `Oper` on `obj` while its model needs no select, past the behaviour
      and the hook. */
  predicate DirectOperate(plant: Plant, st: Server, step: Step, obj: string) {
    && step.WriteRequest? && step.obj == obj && step.attribute == "Oper"
    && ModelOf(st.values, obj).Some? && ModelOf(st.values, obj).value.Direct()
    && RequestOfValue(step.value).Some?
    && var request, ready := RequestOfValue(step.value).value,
                             OnTimeout(plant, st.(serial := st.serial + 1), step.now.mono);
       && ModeRefusal(BehaviourOf(ready.values, obj), request.test).None?
       && Ask(plant, ready.asked, ControlEvent(obj, Operate, request, ModelOf(st.values, obj).value)).None?
  }

  lemma OnTimeoutHolds(plant: Plant, st: Server, now: Instant, obj: string, s: Selection)
    requires Holds(st, obj, s) && now < s.expires
    ensures Holds(OnTimeout(plant, st, now), obj, s)
  {
    hide RunDue;
    var live := Retain(st, (x: Selection) => now < x.expires);
    RunDueLeaves(plant, live.(timed := Keep(st.timed, (t: Timed) => now < t.due)),
                 Keep(st.timed, (t: Timed) => now >= t.due), now);
  }

  lemma SelectHolds(plant: Plant, st: Server, assoc: AssocId, o: string, now: Now, obj: string, s: Selection)
    requires Holds(st, obj, s) && now.mono < s.expires && (o == obj ==> assoc != s.assoc)
    ensures Holds(SelectStep(plant, st, assoc, o, now).0, obj, s)
  {
    hide ModelOf, ModeRefusal, BehaviourOf, Ask;
  }

  lemma SelectWithValueHolds(plant: Plant, st: Server, k: nat, assoc: AssocId, o: string, request: ControlRequest,
                             model: ControlModel, now: Now, obj: string, s: Selection)
    requires Holds(st, obj, s) && now.mono < s.expires && (o == obj ==> assoc != s.assoc)
    ensures Holds(SelectWithValueStep(plant, st, k, assoc, o, request, model, now).0, obj, s)
  {
    hide Ask;
  }

  lemma CancelHolds(plant: Plant, st: Server, k: nat, assoc: AssocId, o: string, request: ControlRequest,
                    model: ControlModel, obj: string, s: Selection)
    requires Holds(st, obj, s) && (o == obj ==> assoc != s.assoc)
    ensures Holds(CancelStep(plant, st, k, assoc, o, request, model).0, obj, s)
  {
    hide Ask, Keep;
  }

  /** An `Oper` by somebody else takes the selection away exactly when it goes through without
      needing one. */
  lemma OperateHolds(plant: Plant, st: Server, k: nat, assoc: AssocId, o: string, request: ControlRequest,
                     model: ControlModel, now: Now, obj: string, s: Selection)
    requires Holds(st, obj, s) && (o == obj ==> assoc != s.assoc)
    ensures Holds(OperateStep(plant, st, k, assoc, o, request, model, now).0, obj, s)
            <==> !(o == obj && model.Direct() && Ask(plant, st.asked, ControlEvent(o, Operate, request, model)).None?)
  {
    hide Ask, Apply, Keep, WaitFor, SameValue;
  }

  lemma ServiceHolds(plant: Plant, st: Server, k: nat, assoc: AssocId, o: string, attribute: string,
                     request: ControlRequest, model: ControlModel, now: Now, obj: string, s: Selection)
    requires Holds(st, obj, s) && now.mono < s.expires && (o == obj ==> assoc != s.assoc)
    ensures var ready := OnTimeout(plant, st, now.mono);
            Holds(ServiceStep(plant, st, k, assoc, o, attribute, request, model, now).0, obj, s)
            <==> !(&& o == obj && attribute == "Oper" && model.Direct()
                   && ModeRefusal(BehaviourOf(ready.values, obj), request.test).None?
                   && Ask(plant, ready.asked, ControlEvent(obj, Operate, request, model)).None?)
  {
    hide OnTimeout, Ask, ModeRefusal, BehaviourOf, OperateStep, CancelStep, SelectWithValueStep;
    OnTimeoutHolds(plant, st, now.mono, obj, s);
    var ready := OnTimeout(plant, st, now.mono);
    SelectWithValueHolds(plant, ready, k, assoc, o, request, model, now, obj, s);
    CancelHolds(plant, ready, k, assoc, o, request, model, obj, s);
    OperateHolds(plant, ready, k, assoc, o, request, model, now, obj, s);
  }

  /** One step of anybody else's, before the expiry: the selection survives it unchanged unless the
      step is an accepted `Oper` on an object that no longer needs a select. */
  lemma SelectionLostExactly(plant: Plant, st: Server, step: Step, obj: string, s: Selection)
    requires Holds(st, obj, s) && Foreign(step, obj, s)
    ensures Holds(Do(plant, st, step), obj, s) <==> !DirectOperate(plant, st, step, obj)
  {
    hide OnTimeout, ServiceStep, SelectStep, ModelOf, RequestOfValue, ModeRefusal, BehaviourOf, Ask;
    match step
    case SelectRequest(assoc, o, now) => SelectHolds(plant, st, assoc, o, now, obj, s);
    case WriteRequest(assoc, o, attribute, value, now) =>
      var model, request := ModelOf(st.values, o), RequestOfValue(value);
      if model.Some? && request.Some? {
        ServiceHolds(plant, st.(serial := st.serial + 1), st.serial, assoc, o, attribute, request.value, model.value,
                     now, obj, s);
      }
    case Tick(at) => OnTimeoutHolds(plant, st, at, obj, s);
    case _ =>
  }

  /** A run in which nobody but the owner uses the exception or touches the selection in time. */
  predicate Undisturbed(plant: Plant, st: Server, steps: seq<Step>, obj: string, s: Selection)
    decreases |steps|
  {
    steps == []
    || (&& Foreign(steps[0], obj, s) && !DirectOperate(plant, st, steps[0], obj)
        && Undisturbed(plant, Do(plant, st, steps[0]), steps[1..], obj, s))
  }

  /** Whatever sequence of steps the other associations, the clock and the device take before it
      expires, a selection stays with its owner, its value and its number. */
  lemma {:induction false} SelectionIsStable(plant: Plant, st: Server, steps: seq<Step>, obj: string, s: Selection)
    requires Holds(st, obj, s) && Undisturbed(plant, st, steps, obj, s)
    ensures Holds(Run(plant, st, steps), obj, s)
    decreases |steps|
  {
    hide Do, Foreign, DirectOperate, Holds;
    if steps != [] {
      SelectionLostExactly(plant, st, steps[0], obj, s);
      SelectionIsStable(plant, Do(plant, st, steps[0]), steps[1..], obj, s);
    }
  }

  /** Others' steps before the expiry, `obj` being served with a model that needs a select throughout. */
  predicate SelectNeeded(plant: Plant, st: Server, steps: seq<Step>, obj: string, s: Selection)
    decreases |steps|
  {
    steps == []
    || (&& Foreign(steps[0], obj, s)
        && ModelOf(st.values, obj).Some? && ModelOf(st.values, obj).value.NeedsSelect()
        && SelectNeeded(plant, Do(plant, st, steps[0]), steps[1..], obj, s))
  }

  /** While the object's model needs a select, nothing anybody else does before it expires takes a
      selection away or changes it: the exception cannot arise. */
  lemma {:induction false} StableWhileSelectNeeded(plant: Plant, st: Server, steps: seq<Step>, obj: string,
                                                   s: Selection)
    requires Holds(st, obj, s) && SelectNeeded(plant, st, steps, obj, s)
    ensures Undisturbed(plant, st, steps, obj, s) && Holds(Run(plant, st, steps), obj, s)
    decreases |steps|
  {
    hide Do, Foreign, Holds, ModelOf, OnTimeout, RequestOfValue;
    if steps != [] {
      SelectionLostExactly(plant, st, steps[0], obj, s);
      StableWhileSelectNeeded(plant, Do(plant, st, steps[0]), steps[1..], obj, s);
    }
  }
}
