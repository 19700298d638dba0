/** Time-activated commands: run at most once, never early, never once withdrawn, and only past the
    behaviour and the hook as they stand at that moment. */
module ControlTime {
  import opened Sequences
  import opened Octets
  import opened Data
  import opened ControlMessage
  import opened Control
  import opened ControlLedger
  import opened ControlLicence

  /** Nothing was carried out early, or past a refusal of the behaviour or the hook at the moment
      it was tried. */
  predicate Permitted(plant: Plant, a: Attempt) {
    && (a.due.Some? ==> a.due.value <= a.at)
    && (a.refusal.None? ==>
          && ModeRefusal(BehaviourOf(a.before, a.obj), a.request.test).None?
          && Ask(plant, a.asked, ControlEvent(a.obj, Operate, a.request, a.model)).None?)
  }

  predicate AllPermitted(plant: Plant, st: Server) {
    forall a <- st.history.attempts :: Permitted(plant, a)
  }

  lemma {:induction false} RunDuePermitted(plant: Plant, st: Server, due: seq<Timed>, now: Instant)
    requires AllPermitted(plant, st) && forall t <- due :: t.due <= now
    ensures AllPermitted(plant, RunDue(plant, st, due, now))
    decreases |due|
  {
    hide ModeRefusal, BehaviourOf, Apply, Ask;
    if due != [] {
      RunDuePermitted(plant, RunOne(plant, st, due[0], now), due[1..], now);
    }
  }

  lemma OnTimeoutPermitted(plant: Plant, st: Server, now: Instant)
    requires AllPermitted(plant, st)
    ensures AllPermitted(plant, OnTimeout(plant, st, now))
  {
    hide RunDue, Permitted;
    KeepMembers(st.timed, (t: Timed) => now >= t.due);
    var live := Retain(st, (s: Selection) => now < s.expires);
    var waiting := live.(timed := Keep(st.timed, (t: Timed) => now < t.due));
    if !(forall t <- st.timed :: now < t.due) {
      RunDuePermitted(plant, waiting, Keep(st.timed, (t: Timed) => now >= t.due), now);
    }
  }

  lemma CarryOutPermitted(plant: Plant, st: Server, k: nat, assoc: AssocId, obj: string, request: ControlRequest,
                          model: ControlModel, asked: nat, now: Now)
    requires AllPermitted(plant, st) && ModeRefusal(BehaviourOf(st.values, obj), request.test).None?
    requires Ask(plant, asked, ControlEvent(obj, Operate, request, model)).None?
    ensures AllPermitted(plant, CarryOut(plant, st, k, assoc, obj, request, model, asked, now))
  {
    hide ModeRefusal, BehaviourOf, Apply, Ask;
  }

  lemma FramePermitted(plant: Plant, st: Server, after: Server)
    requires AllPermitted(plant, st) && after.history.attempts == st.history.attempts
    ensures AllPermitted(plant, after)
  {
    hide Permitted;
  }

  lemma ArmKeepsAttempts(st: Server, k: nat, assoc: AssocId, obj: string, request: ControlRequest, model: ControlModel,
                         now: Now)
    ensures forall wait: nat ::
              Arm(st, k, assoc, obj, request, model, wait, now).history.attempts == st.history.attempts
    ensures forall stage: Stage, cause: AddCause ::
              Refuse(st, k, assoc, obj, request, model, stage, cause).0.history.attempts == st.history.attempts
  {
    hide PlusNanos, Keep, TimedSerials;
  }

  lemma OperatePermitted(plant: Plant, st: Server, k: nat, assoc: AssocId, obj: string, request: ControlRequest,
                         model: ControlModel, now: Now)
    requires AllPermitted(plant, st) && ModeRefusal(BehaviourOf(st.values, obj), request.test).None?
    ensures AllPermitted(plant, OperateStep(plant, st, k, assoc, obj, request, model, now).0)
  {
    hide ModeRefusal, BehaviourOf, Ask, SelectFault, WaitFor, AllPermitted, Consume, Arm, CarryOut, Refuse;
    var after := OperateStep(plant, st, k, assoc, obj, request, model, now).0;
    var asked := st.(asked := st.asked + 1);
    var taken := Consume(asked, k, assoc, obj, request, model, now);
    ConsumeKeeps(asked, k, assoc, obj, request, model, now);
    ArmKeepsAttempts(st, k, assoc, obj, request, model, now);
    ArmKeepsAttempts(asked, k, assoc, obj, request, model, now);
    ArmKeepsAttempts(taken, k, assoc, obj, request, model, now);
    if after.history.attempts == st.history.attempts {
      FramePermitted(plant, st, after);
    } else {
      FramePermitted(plant, st, taken);
      CarryOutPermitted(plant, taken, k, assoc, obj, request, model, st.asked, now);
    }
  }

  lemma ServicePermitted(plant: Plant, st: Server, k: nat, assoc: AssocId, obj: string, attribute: string,
                         request: ControlRequest, model: ControlModel, now: Now)
    requires AllPermitted(plant, st)
    ensures AllPermitted(plant, ServiceStep(plant, st, k, assoc, obj, attribute, request, model, now).0)
  {
    hide OnTimeout, OperateStep, ModeRefusal, BehaviourOf, Permitted, Ask;
    OnTimeoutPermitted(plant, st, now.mono);
    var ready := OnTimeout(plant, st, now.mono);
    if ModeRefusal(BehaviourOf(ready.values, obj), request.test).None? {
      OperatePermitted(plant, ready, k, assoc, obj, request, model, now);
    }
  }

  lemma DoPermitted(plant: Plant, st: Server, step: Step)
    requires AllPermitted(plant, st)
    ensures AllPermitted(plant, Do(plant, st, step))
  {
    hide OnTimeout, ServiceStep, ModelOf, RequestOfValue, Permitted, Ask, ModeRefusal;
    match step
    case WriteRequest(assoc, obj, attribute, value, now) =>
      var model, request := ModelOf(st.values, obj), RequestOfValue(value);
      if model.Some? && request.Some? {
        ServicePermitted(plant, st.(serial := st.serial + 1), st.serial, assoc, obj, attribute, request.value,
                         model.value, now);
      }
    case Tick(at) => OnTimeoutPermitted(plant, st, at);
    case _ =>
  }

  lemma {:induction false} RunPermitted(plant: Plant, st: Server, steps: seq<Step>)
    requires AllPermitted(plant, st)
    ensures AllPermitted(plant, Run(plant, st, steps))
    decreases |steps|
  {
    hide AllPermitted, Do;
    if steps != [] {
      DoPermitted(plant, st, steps[0]);
      RunPermitted(plant, Do(plant, st, steps[0]), steps[1..]);
    }
  }

  /** In every run: an accepted command is tried at most once, never while still armed and never after it
      was withdrawn; it is tried no earlier than the request that was let through asked for, counted from
      when it was let through; and it is carried out only past the behaviour and the hook of that moment. */
  lemma CommandsRunOnceWhenAllowed(plant: Plant, values: map<string, Value>, sboTimeoutMs: U64, steps: seq<Step>)
    ensures var st := Run(plant, Fresh(values, sboTimeoutMs), steps); var h := st.history;
            && (forall k: nat :: Tries(h.attempts, k) + Armed(st.timed, k) + Withdrawn(st, k) <= 1)
            && (forall a <- h.attempts :: a.serial in h.acts && OnTime(a, h.acts[a.serial]))
            && AllPermitted(plant, st)
  {
    hide Run, Licensed, Permitted, DueOf, Accounted;
    var fresh0 := Fresh(values, sboTimeoutMs);
    assert AllPermitted(plant, fresh0);
    RunPermitted(plant, fresh0, steps);
    OneShotAuthorisedOperate(plant, values, sboTimeoutMs, steps);
    var st := Run(plant, fresh0, steps);
    forall a | a in st.history.attempts
      ensures a.serial in st.history.acts && OnTime(a, st.history.acts[a.serial])
    {
      assert Tried(st.history.acts, a);
      DueIsKept(plant, st, a);
    }
    forall k: nat
      ensures Tries(st.history.attempts, k) + Armed(st.timed, k) + Withdrawn(st, k) <= 1
    {
      FreshAccounted(values, sboTimeoutMs, k);
      RunAccounted(plant, fresh0, steps, k);
      AtMostOne(st, k);
    }
  }

  /** The attempt is at the earliest when the command that was let through falls due. */
  predicate OnTime(a: Attempt, act: Act) {
    var due := DueOf(act.request, act.now);
    due.Some? ==> due.value <= a.at
  }

  lemma DueIsKept(plant: Plant, st: Server, a: Attempt)
    requires AllPermitted(plant, st) && a in st.history.attempts
    ensures a.due.Some? ==> a.due.value <= a.at
  {
    assert Permitted(plant, a);
  }

  lemma AtMostOne(st: Server, k: nat)
    requires Accounted(st, k)
    ensures Tries(st.history.attempts, k) + Armed(st.timed, k) + Withdrawn(st, k) <= 1
  {
  }
}
