/** What cancelling and leaving end for good: a selection taken away by its client's own cancel, or by the
    end of its association, lets nothing through any more. */
module ControlCancel {
  import opened Sequences
  import opened Common
  import opened Octets
  import opened Data
  import opened ControlMessage
  import opened Control
  import opened ControlTick
  import opened ControlLicence
  import opened ControlOutcomes

  /** Whatever selection of the object the client holds was granted by the request numbered `since` or a
      later one, and so was what its commands on the object from then on have used. */
  predicate GrantedSince(st: Server, assoc: AssocId, obj: string, since: nat) {
    && since <= st.serial
    && (obj in st.selections && st.selections[obj].assoc == assoc
        ==> LaterGrant(st.history, st.selections[obj].grant, since))
    && forall k <- st.history.acts :: k >= since ==> UsedSince(st.history, k, assoc, obj, since)
  }

  predicate LaterGrant(h: History, g: nat, since: nat) {
    g < |h.grants| && h.grants[g].serial >= since
  }

  /** A command that needed a select and was let through for this client on this object used a grant made
      by the request numbered `since` or a later one. */
  predicate UsedSince(h: History, k: nat, assoc: AssocId, obj: string, since: nat) {
    k in h.acts && h.acts[k].assoc == assoc && h.acts[k].obj == obj && h.acts[k].model.NeedsSelect() ==>
      k in h.used && LaterGrant(h, h.used[k], since)
  }

  /** No selection of the object is new, and nothing was granted, used or let through. */
  predicate NothingGranted(st: Server, after: Server, obj: string) {
    && after.serial == st.serial
    && (obj in after.selections ==> obj in st.selections && after.selections[obj] == st.selections[obj])
    && after.history.grants == st.history.grants && after.history.used == st.history.used
    && after.history.acts == st.history.acts
  }

  lemma FrameSince(st: Server, after: Server, assoc: AssocId, obj: string, since: nat)
    requires GrantedSince(st, assoc, obj, since) && NothingGranted(st, after, obj)
    ensures GrantedSince(after, assoc, obj, since)
  {
  }

  lemma RunDueGrantsNothing(plant: Plant, st: Server, due: seq<Timed>, now: Instant, obj: string)
    ensures NothingGranted(st, RunDue(plant, st, due, now), obj)
  {
    hide RunDue;
    RunDueLeaves(plant, st, due, now);
    RunDueRecords(plant, st, due, now);
  }

  lemma OnTimeoutGrantsNothing(plant: Plant, st: Server, now: Instant, obj: string)
    ensures NothingGranted(st, OnTimeout(plant, st, now), obj)
  {
    hide RunDue;
    var live := Retain(st, (s: Selection) => now < s.expires);
    var waiting := live.(timed := Keep(st.timed, (t: Timed) => now < t.due));
    RunDueGrantsNothing(plant, waiting, Keep(st.timed, (t: Timed) => now >= t.due), now, obj);
  }

  lemma GrantSince(st: Server, k: nat, other: AssocId, o: string, value: Option<Value>, ctlNum: U8, now: Instant,
                   assoc: AssocId, obj: string, since: nat)
    requires GrantedSince(st, assoc, obj, since) && k >= since
    ensures GrantedSince(GrantSelection(st, k, other, o, value, ctlNum, now), assoc, obj, since)
  {
    hide PlusMillis;
    var after := GrantSelection(st, k, other, o, value, ctlNum, now);
    forall j | j in after.history.acts && j >= since
      ensures UsedSince(after.history, j, assoc, obj, since)
    {
      assert UsedSince(st.history, j, assoc, obj, since);
    }
  }

  lemma ConsumeSince(st: Server, k: nat, other: AssocId, o: string, request: ControlRequest, model: ControlModel,
                     now: Now, assoc: AssocId, obj: string, since: nat)
    requires GrantedSince(st, assoc, obj, since)
    requires model.NeedsSelect() ==> o in st.selections && st.selections[o].assoc == other
    ensures GrantedSince(Consume(st, k, other, o, request, model, now), assoc, obj, since)
  {
    var after := Consume(st, k, other, o, request, model, now);
    forall j | j in after.history.acts && j >= since
      ensures UsedSince(after.history, j, assoc, obj, since)
    {
      if j != k {
        assert UsedSince(st.history, j, assoc, obj, since);
      }
    }
  }

  lemma OperateSince(plant: Plant, st: Server, k: nat, other: AssocId, o: string, request: ControlRequest,
                     model: ControlModel, now: Now, assoc: AssocId, obj: string, since: nat)
    requires GrantedSince(st, assoc, obj, since)
    ensures GrantedSince(OperateStep(plant, st, k, other, o, request, model, now).0, assoc, obj, since)
  {
    hide Ask, SelectFault, Consume, Refuse, WaitFor, Arm, CarryOut, GrantedSince;
    var asked := st.(asked := st.asked + 1);
    FrameSince(st, asked, assoc, obj, since);
    RefuseGrantsNothing(st, k, other, o, request, model, obj);
    RefuseGrantsNothing(asked, k, other, o, request, model, obj);
    FaultOwns(st, o, other, request);
    if model.NeedsSelect() && SelectFault(st, o, other, request).Some? {
      FrameSince(st, Refuse(st, k, other, o, request, model, Operate, SelectFault(st, o, other, request).value).0,
                 assoc, obj, since);
    } else if model == StatusOnly {
      FrameSince(st, Refuse(st, k, other, o, request, model, Operate, NOT_SUPPORTED).0, assoc, obj, since);
    } else if Ask(plant, st.asked, ControlEvent(o, Operate, request, model)).Some? {
      var cause := Ask(plant, st.asked, ControlEvent(o, Operate, request, model)).value;
      FrameSince(asked, Refuse(asked, k, other, o, request, model, Operate, cause).0, assoc, obj, since);
    } else {
      var taken := Consume(asked, k, other, o, request, model, now);
      ConsumeSince(asked, k, other, o, request, model, now, assoc, obj, since);
      LaterGrantsNothing(plant, taken, k, other, o, request, model, st.asked, now, obj);
      var wait := WaitFor(request, now.wall);
      FrameSince(taken, if wait.Some? then Arm(taken, k, other, o, request, model, wait.value, now)
                        else CarryOut(plant, taken, k, other, o, request, model, st.asked, now), assoc, obj, since);
    }
  }

  lemma FaultOwns(st: Server, o: string, other: AssocId, request: ControlRequest)
    ensures SelectFault(st, o, other, request).None? ==> o in st.selections && st.selections[o].assoc == other
  {
  }

  lemma RefuseGrantsNothing(st: Server, k: nat, other: AssocId, o: string, request: ControlRequest,
                            model: ControlModel, obj: string)
    ensures forall stage: Stage, cause: AddCause ::
              NothingGranted(st, Refuse(st, k, other, o, request, model, stage, cause).0, obj)
  {
  }

  lemma LaterGrantsNothing(plant: Plant, st: Server, k: nat, other: AssocId, o: string, request: ControlRequest,
                           model: ControlModel, asked: nat, now: Now, obj: string)
    ensures forall wait: nat :: NothingGranted(st, Arm(st, k, other, o, request, model, wait, now), obj)
    ensures NothingGranted(st, CarryOut(plant, st, k, other, o, request, model, asked, now), obj)
  {
    hide Apply, PlusNanos, Keep, TimedSerials;
  }

  lemma SelectSince(plant: Plant, st: Server, k: nat, other: AssocId, o: string, request: ControlRequest,
                    model: ControlModel, now: Now, assoc: AssocId, obj: string, since: nat)
    requires GrantedSince(st, assoc, obj, since) && k >= since
    ensures GrantedSince(SelectWithValueStep(plant, st, k, other, o, request, model, now).0, assoc, obj, since)
  {
    hide Ask, Refuse, GrantSelection, GrantedSince, HeldByOther;
    var asked := st.(asked := st.asked + 1);
    var after := SelectWithValueStep(plant, st, k, other, o, request, model, now).0;
    FrameSince(st, asked, assoc, obj, since);
    RefuseGrantsNothing(st, k, other, o, request, model, obj);
    RefuseGrantsNothing(asked, k, other, o, request, model, obj);
    GrantSince(asked, k, other, o, Some(request.ctlVal), request.ctlNum, now.mono, assoc, obj, since);
    if NothingGranted(st, after, obj) {
      FrameSince(st, after, assoc, obj, since);
    }
  }

  lemma CancelGrantsNothing(plant: Plant, st: Server, k: nat, other: AssocId, o: string, request: ControlRequest,
                            model: ControlModel, obj: string)
    ensures NothingGranted(st, CancelStep(plant, st, k, other, o, request, model).0, obj)
  {
    hide Ask, Keep, TimedSerials, Mine;
  }

  lemma ServiceSince(plant: Plant, st: Server, k: nat, other: AssocId, o: string, attribute: string,
                     request: ControlRequest, model: ControlModel, now: Now, assoc: AssocId, obj: string, since: nat)
    requires GrantedSince(st, assoc, obj, since) && k >= since
    ensures GrantedSince(ServiceStep(plant, st, k, other, o, attribute, request, model, now).0, assoc, obj, since)
  {
    hide OnTimeout, OperateStep, SelectWithValueStep, CancelStep, Refuse, ModeRefusal, BehaviourOf, GrantedSince;
    var ready := OnTimeout(plant, st, now.mono);
    OnTimeoutGrantsNothing(plant, st, now.mono, obj);
    FrameSince(st, ready, assoc, obj, since);
    SelectSince(plant, ready, k, other, o, request, model, now, assoc, obj, since);
    OperateSince(plant, ready, k, other, o, request, model, now, assoc, obj, since);
    RefuseGrantsNothing(ready, k, other, o, request, model, obj);
    CancelGrantsNothing(plant, ready, k, other, o, request, model, obj);
    var after := ServiceStep(plant, st, k, other, o, attribute, request, model, now).0;
    if NothingGranted(ready, after, obj) {
      FrameSince(ready, after, assoc, obj, since);
    }
  }

  lemma DoSince(plant: Plant, st: Server, step: Step, assoc: AssocId, obj: string, since: nat)
    requires GrantedSince(st, assoc, obj, since)
    ensures GrantedSince(Do(plant, st, step), assoc, obj, since)
  {
    hide OnTimeout, ServiceStep, ModelOf, RequestOfValue, Ask, ModeRefusal, BehaviourOf, GrantSelection, UsedSince;
    var after := Do(plant, st, step);
    match step
    case SelectRequest(other, o, now) =>
      var asked := st.(serial := st.serial + 1, asked := st.asked + 1);
      GrantSince(asked, st.serial, other, o, None, 0, now.mono, assoc, obj, since);
    case WriteRequest(other, o, attribute, value, now) =>
      var model, request := ModelOf(st.values, o), RequestOfValue(value);
      if model.Some? && request.Some? {
        var next := st.(serial := st.serial + 1);
        var (served, answer) := ServiceStep(plant, next, st.serial, other, o, attribute, request.value, model.value,
                                            now);
        ServiceSince(plant, next, st.serial, other, o, attribute, request.value, model.value, now, assoc, obj, since);
        FrameSince(served, Book(served, st.serial, attribute, model.value, answer), assoc, obj, since);
      }
    case Tick(at) =>
      OnTimeoutGrantsNothing(plant, st, at, obj);
      FrameSince(st, after, assoc, obj, since);
    case _ => FrameSince(st, after, assoc, obj, since);
  }

  lemma {:induction false} RunSince(plant: Plant, st: Server, steps: seq<Step>, assoc: AssocId, obj: string, since: nat)
    requires GrantedSince(st, assoc, obj, since)
    ensures GrantedSince(Run(plant, st, steps), assoc, obj, since)
    decreases |steps|
  {
    hide Do, GrantedSince;
    if steps != [] {
      DoSince(plant, st, steps[0], assoc, obj, since);
      RunSince(plant, Do(plant, st, steps[0]), steps[1..], assoc, obj, since);
    }
  }

  /** After a `Cancel` write answered "done" in any run, every `Oper` of that client's that is let through on
      the object under a model that needs a select, however much later, uses a selection granted after that
      cancel. */
  lemma CancelEndsTheGrant(plant: Plant, values: map<string, Value>, sboTimeoutMs: U64, before: seq<Step>,
                           assoc: AssocId, obj: string, value: Value, now: Now, later: seq<Step>)
    requires WriteStep(plant, Run(plant, Fresh(values, sboTimeoutMs), before), assoc, obj, "Cancel", value, now).1
             == Done
    ensures var st := Run(plant, Fresh(values, sboTimeoutMs), before);
            var cancelled := Do(plant, st, WriteRequest(assoc, obj, "Cancel", value, now));
            var h := Run(plant, cancelled, later).history;
            && !(obj in cancelled.selections && cancelled.selections[obj].assoc == assoc)
            && forall k <- h.acts ::
                 k > st.serial && h.acts[k].assoc == assoc && h.acts[k].obj == obj && h.acts[k].model.NeedsSelect() ==>
                   k in h.used && h.used[k] < |h.grants| && h.grants[h.used[k]].serial > st.serial
  {
    hide Run, WriteStep, ModelOf, RequestOfValue, Cancelled, RefusedFor, OnTimeout, Licensed;
    var st := Run(plant, Fresh(values, sboTimeoutMs), before);
    var cancelled := Do(plant, st, WriteRequest(assoc, obj, "Cancel", value, now));
    FreshIsLicensed(values, sboTimeoutMs);
    RunLicensed(plant, Fresh(values, sboTimeoutMs), before);
    DoLicensed(plant, st, WriteRequest(assoc, obj, "Cancel", value, now));
    UnreadableOutcome(plant, st, assoc, obj, "Cancel", value, now);
    CancelOutcome(plant, st, assoc, obj, value, RequestOfValue(value).value, ModelOf(st.values, obj).value, now);
    CancelledHoldsNothing(Ready(plant, st, now), cancelled, assoc, obj);
    WriteNumbers(plant, st, assoc, obj, "Cancel", value, now);
    NothingLater(cancelled, assoc, obj);
    RunSince(plant, cancelled, later, assoc, obj, st.serial + 1);
    var h := Run(plant, cancelled, later).history;
    forall k | k in h.acts && k > st.serial
      ensures UsedSince(h, k, assoc, obj, st.serial + 1)
    {
    }
  }

  lemma CancelledHoldsNothing(st: Server, after: Server, assoc: AssocId, obj: string)
    requires Cancelled(st, after, assoc, obj)
    ensures !(obj in after.selections && after.selections[obj].assoc == assoc) && after.serial == st.serial
  {
  }

  /** No request yet to come has been let through. */
  lemma NothingLater(st: Server, assoc: AssocId, obj: string)
    requires Licensed(st) && !(obj in st.selections && st.selections[obj].assoc == assoc)
    ensures GrantedSince(st, assoc, obj, st.serial)
  {
    hide Live, Used, UsedSince;
  }

  lemma WriteNumbers(plant: Plant, st: Server, assoc: AssocId, obj: string, attribute: string, value: Value, now: Now)
    requires attribute == "Cancel"
    ensures Ready(plant, st, now).serial == st.serial + 1
  {
    OnTimeoutGrantsNothing(plant, st.(serial := st.serial + 1), now.mono, obj);
  }

  // ---- the end of an association ----

  /** When an association ends none of its selections is left and none of its commands is armed, and every
      other selection and command is as it was, in order. */
  lemma ClosedLeavesNothing(st: Server, assoc: AssocId)
    ensures var after := OnClosed(st, assoc);
            && (forall o :: o in after.selections <==> o in st.selections && st.selections[o].assoc != assoc)
            && (forall o <- after.selections :: after.selections[o] == st.selections[o])
            && (forall t :: t in after.timed <==> t in st.timed && t.assoc != assoc)
            && after.timed == Keep(st.timed, (t: Timed) => t.assoc != assoc)
            && after.values == st.values && after.pending == st.pending && after.history.attempts == st.history.attempts
            && after.serial == st.serial
  {
    KeepMembers(st.timed, (t: Timed) => t.assoc != assoc);
  }

  /** Nothing let through for an association after its end uses a selection from before it. */
  lemma CloseEndsTheGrants(plant: Plant, values: map<string, Value>, sboTimeoutMs: U64, before: seq<Step>,
                           assoc: AssocId, obj: string, later: seq<Step>)
    ensures var st := Run(plant, Fresh(values, sboTimeoutMs), before);
            var h := Run(plant, OnClosed(st, assoc), later).history;
            forall k <- h.acts ::
              k >= st.serial && h.acts[k].assoc == assoc && h.acts[k].obj == obj && h.acts[k].model.NeedsSelect() ==>
                k in h.used && h.used[k] < |h.grants| && h.grants[h.used[k]].serial >= st.serial
  {
    hide Run, OnClosed, Licensed, Live, Used;
    var st := Run(plant, Fresh(values, sboTimeoutMs), before);
    FreshIsLicensed(values, sboTimeoutMs);
    RunLicensed(plant, Fresh(values, sboTimeoutMs), before);
    DoLicensed(plant, st, Close(assoc));
    ClosedLeavesNothing(st, assoc);
    NothingLater(OnClosed(st, assoc), assoc, obj);
    RunSince(plant, OnClosed(st, assoc), later, assoc, obj, st.serial);
    var h := Run(plant, OnClosed(st, assoc), later).history;
    forall k | k in h.acts && k >= st.serial
      ensures UsedSince(h, k, assoc, obj, st.serial)
    {
    }
  }
}
