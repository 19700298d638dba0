/** What one client sees of a server that others use too: how often its own commands ran, and which
    answers are on their way to it. Nothing anybody else does changes either. */
module ControlAside {
  import opened Sequences
  import opened Common
  import opened Octets
  import opened Data
  import opened ControlMessage
  import opened Control
  import opened ControlEffects

  /** A command of `me`'s, numbered `from` or later, that was applied. */
  predicate Ours(a: Attempt, me: AssocId, from: nat) {
    a.assoc == me && a.serial >= from && a.refusal.None?
  }

  /** How many times a command of `me`'s numbered `from` or later was applied. */
  function Ran(attempts: seq<Attempt>, me: AssocId, from: nat): nat {
    if attempts == [] then 0
    else Ran(attempts[..|attempts| - 1], me, from) + if Ours(attempts[|attempts| - 1], me, from) then 1 else 0
  }

  predicate Answering(t: Termination, me: AssocId, n: U8) {
    t.assoc == me && t.pdu.request.ctlNum == n
  }

  /** The answers waiting to be sent to `me` under the control number `n`. */
  function Replies(ts: seq<Termination>, me: AssocId, n: U8): seq<Pdu> {
    if ts == [] then []
    else Replies(ts[..|ts| - 1], me, n) + if Answering(ts[|ts| - 1], me, n) then [ts[|ts| - 1].pdu] else []
  }

  /** No command of `me`'s is armed under the number `n`, nor any numbered `from` or later. */
  predicate Quiet(st: Server, me: AssocId, n: U8, from: nat) {
    forall t <- st.timed :: t.assoc == me ==> t.serial < from && t.request.ctlNum != n
  }

  /** What was tried stays on record. */
  predicate Grows(st: Server, after: Server) {
    forall a <- st.history.attempts :: a in after.history.attempts
  }

  /** Between the two states, commands of `me`'s ran `ran` times more, and `told` was added to what
      it is about to be told. */
  predicate Effect(st: Server, after: Server, me: AssocId, n: U8, from: nat, ran: nat, told: seq<Pdu>) {
    && Quiet(after, me, n, from) && after.serial >= st.serial && Grows(st, after)
    && Replies(after.pending, me, n) == Replies(st.pending, me, n) + told
    && Ran(after.history.attempts, me, from) == Ran(st.history.attempts, me, from) + ran
  }

  /** As far as `me`'s commands go, nothing happened. */
  predicate Aside(st: Server, after: Server, me: AssocId, n: U8, from: nat) {
    Effect(st, after, me, n, from, 0, [])
  }

  lemma RanSnoc(attempts: seq<Attempt>, a: Attempt, me: AssocId, from: nat)
    ensures Ran(attempts + [a], me, from) == Ran(attempts, me, from) + if Ours(a, me, from) then 1 else 0
  {
    assert (attempts + [a])[..|attempts|] == attempts;
  }

  lemma RepliesSnoc(ts: seq<Termination>, t: Termination, me: AssocId, n: U8)
    ensures Replies(ts + [t], me, n) == Replies(ts, me, n) + if Answering(t, me, n) then [t.pdu] else []
  {
    assert (ts + [t])[..|ts|] == ts;
  }

  lemma RunOneAside(plant: Plant, st: Server, t: Timed, now: Instant, me: AssocId, n: U8, from: nat)
    requires Quiet(st, me, n, from) && (t.assoc == me ==> t.serial < from && t.request.ctlNum != n)
    ensures Aside(st, RunOne(plant, st, t, now), me, n, from)
  {
    hide ModeRefusal, BehaviourOf, Apply, Ask, Ran, Replies;
    var byMode := ModeRefusal(BehaviourOf(st.values, t.obj), t.request.test);
    var refusal := if byMode.Some? then byMode
                   else Ask(plant, st.asked, ControlEvent(t.obj, Operate, t.request, t.model));
    RanSnoc(st.history.attempts,
            Attempt(t.serial, t.assoc, t.obj, t.request, t.model, now, Some(t.due), st.values, st.asked, refusal), me,
            from);
    if refusal.Some? {
      RepliesSnoc(st.pending, Termination(t.assoc, Negative(t.obj, t.request, refusal.value), t.serial), me, n);
    } else {
      RepliesSnoc(st.pending, Termination(t.assoc, Positive(t.obj, t.request), t.serial), me, n);
    }
  }

  lemma {:induction false} RunDueAside(plant: Plant, st: Server, due: seq<Timed>, now: Instant, me: AssocId, n: U8,
                                       from: nat)
    requires Quiet(st, me, n, from)
    requires forall t <- due :: t.assoc == me ==> t.serial < from && t.request.ctlNum != n
    ensures Aside(st, RunDue(plant, st, due, now), me, n, from)
    decreases |due|
  {
    hide RunOne, Ran, Replies;
    if due != [] {
      RunOneAside(plant, st, due[0], now, me, n, from);
      RunDueAside(plant, RunOne(plant, st, due[0], now), due[1..], now, me, n, from);
    }
  }

  /** Commands leave the queue and bookkeeping changes: still nothing of `me`'s. */
  lemma FrameAside(st: Server, after: Server, me: AssocId, n: U8, from: nat)
    requires Quiet(st, me, n, from) && after.serial >= st.serial
    requires forall t <- after.timed :: t in st.timed || t.assoc != me
    requires after.pending == st.pending && after.history.attempts == st.history.attempts
    ensures Aside(st, after, me, n, from)
  {
  }

  lemma OnTimeoutAside(plant: Plant, st: Server, now: Instant, me: AssocId, n: U8, from: nat)
    requires Quiet(st, me, n, from)
    ensures Aside(st, OnTimeout(plant, st, now), me, n, from)
  {
    hide RunDue, Ran, Replies;
    KeepMembers(st.timed, (t: Timed) => now < t.due);
    KeepMembers(st.timed, (t: Timed) => now >= t.due);
    var live := Retain(st, (s: Selection) => now < s.expires);
    var waiting := live.(timed := Keep(st.timed, (t: Timed) => now < t.due));
    FrameAside(st, waiting, me, n, from);
    if !(forall t <- st.timed :: now < t.due) {
      RunDueAside(plant, waiting, Keep(st.timed, (t: Timed) => now >= t.due), now, me, n, from);
    }
  }

  lemma DisarmAside(st: Server, assoc: AssocId, obj: string, me: AssocId, n: U8, from: nat)
    requires Quiet(st, me, n, from)
    ensures Aside(st, Disarm(st, assoc, obj), me, n, from)
  {
    hide Ran, Replies;
    KeepMembers(st.timed, (t: Timed) => !Mine(t, assoc, obj));
  }

  lemma ConsumeAside(st: Server, k: nat, assoc: AssocId, obj: string, request: ControlRequest, model: ControlModel,
                     now: Now, me: AssocId, n: U8, from: nat)
    requires Quiet(st, me, n, from)
    ensures Aside(st, Consume(st, k, assoc, obj, request, model, now), me, n, from)
  {
    hide Ran, Replies;
  }

  lemma GrantAside(st: Server, k: nat, assoc: AssocId, obj: string, value: Option<Value>, ctlNum: U8, now: Instant,
                   me: AssocId, n: U8, from: nat)
    requires Quiet(st, me, n, from)
    ensures Aside(st, GrantSelection(st, k, assoc, obj, value, ctlNum, now), me, n, from)
  {
    hide Ran, Replies;
  }

  /** What a request numbered `k` owes `me` when it is `me`'s own, and nothing otherwise. */
  function ToMe(assoc: AssocId, pdu: Pdu, me: AssocId, n: U8): seq<Pdu> {
    if assoc == me && pdu.request.ctlNum == n then [pdu] else []
  }

  lemma RefuseEffect(st: Server, k: nat, assoc: AssocId, obj: string, request: ControlRequest, model: ControlModel,
                     stage: Stage, cause: AddCause, me: AssocId, n: U8, from: nat)
    requires Quiet(st, me, n, from)
    ensures Effect(st, Refuse(st, k, assoc, obj, request, model, stage, cause).0, me, n, from, 0,
                   ToMe(assoc, Negative(obj, request, cause), me, n))
    ensures Refuse(st, k, assoc, obj, request, model, stage, cause).0.lastCause == Some(cause)
  {
    hide Ran, Replies;
    RepliesSnoc(st.pending, Termination(assoc, Negative(obj, request, cause), k), me, n);
  }

  lemma CarryOutEffect(plant: Plant, st: Server, k: nat, assoc: AssocId, obj: string, request: ControlRequest,
                       model: ControlModel, asked: nat, now: Now, me: AssocId, n: U8, from: nat)
    requires Quiet(st, me, n, from)
    ensures Effect(st, CarryOut(plant, st, k, assoc, obj, request, model, asked, now), me, n, from,
                   if assoc == me && k >= from then 1 else 0,
                   if model.Enhanced() then ToMe(assoc, Positive(obj, request), me, n) else [])
  {
    hide Apply, Ran, Replies;
    RanSnoc(st.history.attempts, Attempt(k, assoc, obj, request, model, now.mono, None, st.values, asked, None), me,
            from);
    RepliesSnoc(st.pending, Termination(assoc, Positive(obj, request), k), me, n);
  }

  lemma ArmAside(st: Server, k: nat, assoc: AssocId, obj: string, request: ControlRequest, model: ControlModel,
                 wait: nat, now: Now, me: AssocId, n: U8, from: nat)
    requires Quiet(st, me, n, from) && assoc != me
    ensures Aside(st, Arm(st, k, assoc, obj, request, model, wait, now), me, n, from)
  {
    hide Ran, Replies, Disarm;
    DisarmAside(st, assoc, obj, me, n, from);
    DisarmKeeps(st, assoc, obj);
  }

  lemma EffectsAdd(a: Server, b: Server, c: Server, me: AssocId, n: U8, from: nat, ran: nat, told: seq<Pdu>)
    requires Aside(a, b, me, n, from) && Effect(b, c, me, n, from, ran, told)
    ensures Effect(a, c, me, n, from, ran, told)
  {
  }

  // ---- another client's requests ----

  lemma OperateAside(plant: Plant, st: Server, k: nat, assoc: AssocId, obj: string, request: ControlRequest,
                     model: ControlModel, now: Now, me: AssocId, n: U8, from: nat)
    requires Quiet(st, me, n, from) && assoc != me
    ensures Aside(st, OperateStep(plant, st, k, assoc, obj, request, model, now).0, me, n, from)
  {
    hide Ask, Apply, SelectFault, WaitFor, Effect, Quiet, Refuse, Consume, Arm, CarryOut;
    var asked := st.(asked := st.asked + 1);
    FrameAside(st, asked, me, n, from);
    QuietAfter(st, asked, me, n, from, 0, []);
    var verdict := Ask(plant, st.asked, ControlEvent(obj, Operate, request, model));
    if model == StatusOnly {
      RefuseEffect(st, k, assoc, obj, request, model, Operate, NOT_SUPPORTED, me, n, from);
    } else if model.NeedsSelect() && SelectFault(st, obj, assoc, request).Some? {
      RefuseEffect(st, k, assoc, obj, request, model, Operate, SelectFault(st, obj, assoc, request).value, me, n, from);
    } else if verdict.Some? {
      RefuseEffect(asked, k, assoc, obj, request, model, Operate, verdict.value, me, n, from);
      EffectsAdd(st, asked, Refuse(asked, k, assoc, obj, request, model, Operate, verdict.value).0, me, n, from, 0, []);
    } else {
      var taken := Consume(asked, k, assoc, obj, request, model, now);
      ConsumeAside(asked, k, assoc, obj, request, model, now, me, n, from);
      EffectsAdd(st, asked, taken, me, n, from, 0, []);
      QuietAfter(asked, taken, me, n, from, 0, []);
      var wait := WaitFor(request, now.wall);
      if wait.Some? {
        ArmAside(taken, k, assoc, obj, request, model, wait.value, now, me, n, from);
        EffectsAdd(st, taken, Arm(taken, k, assoc, obj, request, model, wait.value, now), me, n, from, 0, []);
      } else {
        CarryOutEffect(plant, taken, k, assoc, obj, request, model, st.asked, now, me, n, from);
        EffectsAdd(st, taken, CarryOut(plant, taken, k, assoc, obj, request, model, st.asked, now), me, n, from, 0, []);
      }
    }
  }

  lemma QuietAfter(st: Server, after: Server, me: AssocId, n: U8, from: nat, ran: nat, told: seq<Pdu>)
    requires Effect(st, after, me, n, from, ran, told)
    ensures Quiet(after, me, n, from)
  {
  }

  lemma CancelAside(plant: Plant, st: Server, k: nat, assoc: AssocId, obj: string, request: ControlRequest,
                    model: ControlModel, me: AssocId, n: U8, from: nat)
    requires Quiet(st, me, n, from) && assoc != me
    ensures Aside(st, CancelStep(plant, st, k, assoc, obj, request, model).0, me, n, from)
  {
    hide Ask, Disarm, Ran, Replies, Refuse, Quiet;
    var asked := st.(asked := st.asked + 1);
    FrameAside(st, asked, me, n, from);
    var bare := Disarm(asked, assoc, obj);
    DisarmAside(asked, assoc, obj, me, n, from);
    var verdict := Ask(plant, st.asked, ControlEvent(obj, Cancel, request, model));
    if verdict.Some? {
      RefuseEffect(asked, k, assoc, obj, request, model, Cancel, verdict.value, me, n, from);
    }
    RefuseEffect(bare, k, assoc, obj, request, model, Cancel, OBJECT_NOT_SELECTED, me, n, from);
    FrameAside(bare, Deselect(bare, obj), me, n, from);
  }

  lemma SelectWithValueEffect(plant: Plant, st: Server, k: nat, assoc: AssocId, obj: string, request: ControlRequest,
                              model: ControlModel, now: Now, me: AssocId, n: U8, from: nat)
    requires Quiet(st, me, n, from)
    ensures var (after, answer) := SelectWithValueStep(plant, st, k, assoc, obj, request, model, now);
            && (answer == Done ==> Aside(st, after, me, n, from))
            && (answer != Done ==>
                  after.lastCause.Some?
                  && Effect(st, after, me, n, from, 0,
                            ToMe(assoc, Negative(obj, request, after.lastCause.value), me, n)))
  {
    hide Ask, Ran, Replies, Refuse, Quiet, GrantSelection;
    var asked := st.(asked := st.asked + 1);
    FrameAside(st, asked, me, n, from);
    var verdict := Ask(plant, st.asked, ControlEvent(obj, Select, request, model));
    RefuseEffect(st, k, assoc, obj, request, model, Select, NOT_SUPPORTED, me, n, from);
    RefuseEffect(st, k, assoc, obj, request, model, Select, OBJECT_ALREADY_SELECTED, me, n, from);
    if verdict.Some? {
      RefuseEffect(asked, k, assoc, obj, request, model, Select, verdict.value, me, n, from);
    }
    SelectRefusals(st, k, assoc, obj, request, model);
    GrantAside(asked, k, assoc, obj, Some(request.ctlVal), request.ctlNum, now.mono, me, n, from);
  }

  /** A refused select is answered as refused, whatever the security model. */
  lemma SelectRefusals(st: Server, k: nat, assoc: AssocId, obj: string, request: ControlRequest, model: ControlModel)
    ensures forall s: Server, stage: Stage, cause: AddCause ::
              stage != Operate ==> Refuse(s, k, assoc, obj, request, model, stage, cause).1 == Refused(DENIED)
  {
  }

  lemma ServiceAside(plant: Plant, st: Server, k: nat, assoc: AssocId, obj: string, attribute: string,
                     request: ControlRequest, model: ControlModel, now: Now, me: AssocId, n: U8, from: nat)
    requires Quiet(st, me, n, from) && assoc != me
    ensures Aside(st, ServiceStep(plant, st, k, assoc, obj, attribute, request, model, now).0, me, n, from)
  {
    hide OnTimeout, OperateStep, SelectWithValueStep, CancelStep, ModeRefusal, BehaviourOf, Ask, Ran, Replies, Refuse,
         Quiet;
    OnTimeoutAside(plant, st, now.mono, me, n, from);
    var ready := OnTimeout(plant, st, now.mono);
    var byMode := ModeRefusal(BehaviourOf(ready.values, obj), request.test);
    if attribute != "Cancel" && byMode.Some? {
      RefuseEffect(ready, k, assoc, obj, request, model, if attribute == "Oper" then Operate else Select, byMode.value,
                   me, n, from);
    }
    SelectWithValueEffect(plant, ready, k, assoc, obj, request, model, now, me, n, from);
    CancelAside(plant, ready, k, assoc, obj, request, model, me, n, from);
    OperateAside(plant, ready, k, assoc, obj, request, model, now, me, n, from);
  }

  lemma SelectAside(plant: Plant, st: Server, assoc: AssocId, obj: string, now: Now, me: AssocId, n: U8, from: nat)
    requires Quiet(st, me, n, from)
    ensures Aside(st, SelectStep(plant, st, assoc, obj, now).0, me, n, from)
  {
    hide ModelOf, ModeRefusal, BehaviourOf, Ask, Ran, Replies;
  }

  /** A step that is neither `me`'s own request nor the end of its association, and sends nothing. */
  predicate Others(step: Step, me: AssocId) {
    match step
    case SelectRequest(assoc, _, _) => assoc != me
    case WriteRequest(assoc, _, _, _, _) => assoc != me
    case Close(assoc) => assoc != me
    case Flush => false
    case _ => true
  }

  /** Nothing the others, the clock or the device do runs a command of `me`'s or tells it anything
      under a number none of its own armed commands bears: one it is waiting for an answer to. */
  lemma OthersStandAside(plant: Plant, st: Server, step: Step, me: AssocId, n: U8, from: nat)
    requires Quiet(st, me, n, from) && Others(step, me)
    ensures Aside(st, Do(plant, st, step), me, n, from)
  {
    hide OnTimeout, ServiceStep, SelectStep, ModelOf, RequestOfValue, Ran, Replies;
    match step
    case SelectRequest(assoc, obj, now) => SelectAside(plant, st, assoc, obj, now, me, n, from);
    case WriteRequest(assoc, obj, attribute, value, now) =>
      var model, request := ModelOf(st.values, obj), RequestOfValue(value);
      var next := st.(serial := st.serial + 1);
      if model.Some? && request.Some? {
        ServiceAside(plant, next, st.serial, assoc, obj, attribute, request.value, model.value, now, me, n, from);
      }
    case Tick(at) => OnTimeoutAside(plant, st, at, me, n, from);
    case Close(assoc) => KeepMembers(st.timed, (t: Timed) => t.assoc != assoc);
    case _ =>
  }

  // ---- the client's own requests ----

  /** `me`'s request on the object is on record as applied. */
  predicate OnRecord(st: Server, obj: string, request: ControlRequest, me: AssocId, from: nat) {
    exists a <- st.history.attempts :: Ours(a, me, from) && a.obj == obj && a.request == request
  }

  /** An `Oper` of `me`'s that is not time-activated: let through, it runs once and under enhanced
      security says so; refused, it does not run and says why, with the cause the server records. */
  predicate Decided(st: Server, after: Server, answer: Answer, obj: string, request: ControlRequest,
                    model: ControlModel, me: AssocId, from: nat, through: bool) {
    if through then
      && Effect(st, after, me, request.ctlNum, from, 1, if model.Enhanced() then [Positive(obj, request)] else [])
      && answer == Done && OnRecord(after, obj, request, me, from)
    else
      && after.lastCause.Some?
      && Effect(st, after, me, request.ctlNum, from, 0, [Negative(obj, request, after.lastCause.value)])
      && answer == if model.Enhanced() then Done else Refused(DENIED)
  }

  lemma RefusalDecides(st: Server, base: Server, k: nat, obj: string, request: ControlRequest, model: ControlModel,
                       cause: AddCause, me: AssocId, from: nat)
    requires Quiet(base, me, request.ctlNum, from) && Aside(st, base, me, request.ctlNum, from)
    ensures var (after, answer) := Refuse(base, k, me, obj, request, model, Operate, cause);
            Decided(st, after, answer, obj, request, model, me, from, false)
  {
    hide Ran, Replies;
    var (after, answer) := Refuse(base, k, me, obj, request, model, Operate, cause);
    RefuseEffect(base, k, me, obj, request, model, Operate, cause, me, request.ctlNum, from);
    EffectsAdd(st, base, after, me, request.ctlNum, from, 0, [Negative(obj, request, cause)]);
  }

  lemma OwnOperate(plant: Plant, st: Server, k: nat, obj: string, request: ControlRequest, model: ControlModel,
                   now: Now, me: AssocId, from: nat)
    requires Quiet(st, me, request.ctlNum, from) && from <= k && request.operTm.None?
    requires Admits(BehaviourOf(st.values, obj), request.test)
    ensures var (after, answer) := OperateStep(plant, st, k, me, obj, request, model, now);
            Decided(st, after, answer, obj, request, model, me, from, Passes(plant, st, me, obj, request, model))
  {
    hide Ask, BehaviourOf, SelectFault, Effect, Quiet, Refuse, Consume, CarryOut, Decided, Matches, Admits;
    FaultCauses(st, obj, me, request);
    var n := request.ctlNum;
    var asked := st.(asked := st.asked + 1);
    SelfAside(st, me, n, from);
    FrameAside(st, asked, me, n, from);
    QuietAfter(st, asked, me, n, from, 0, []);
    var verdict := Ask(plant, st.asked, ControlEvent(obj, Operate, request, model));
    if model == StatusOnly {
      RefusalDecides(st, st, k, obj, request, model, NOT_SUPPORTED, me, from);
    } else if model.NeedsSelect() && SelectFault(st, obj, me, request).Some? {
      RefusalDecides(st, st, k, obj, request, model, SelectFault(st, obj, me, request).value, me, from);
    } else if verdict.Some? {
      RefusalDecides(st, asked, k, obj, request, model, verdict.value, me, from);
    } else {
      var taken := Consume(asked, k, me, obj, request, model, now);
      ConsumeAside(asked, k, me, obj, request, model, now, me, n, from);
      EffectsAdd(st, asked, taken, me, n, from, 0, []);
      QuietAfter(asked, taken, me, n, from, 0, []);
      RunDecides(plant, st, taken, k, obj, request, model, st.asked, now, me, from);
    }
  }

  lemma RunDecides(plant: Plant, st: Server, base: Server, k: nat, obj: string, request: ControlRequest,
                   model: ControlModel, asked: nat, now: Now, me: AssocId, from: nat)
    requires Quiet(base, me, request.ctlNum, from) && Aside(st, base, me, request.ctlNum, from) && from <= k
    ensures Decided(st, CarryOut(plant, base, k, me, obj, request, model, asked, now), Done, obj, request, model, me,
                    from, true)
  {
    hide Ran, Replies, CarryOut;
    CarryOutEffect(plant, base, k, me, obj, request, model, asked, now, me, request.ctlNum, from);
    CarryOutRecords(plant, base, k, me, obj, request, model, asked, now, from);
  }

  lemma CarryOutRecords(plant: Plant, st: Server, k: nat, me: AssocId, obj: string, request: ControlRequest,
                        model: ControlModel, asked: nat, now: Now, from: nat)
    requires from <= k
    ensures OnRecord(CarryOut(plant, st, k, me, obj, request, model, asked, now), obj, request, me, from)
  {
    hide Apply;
    var a := Attempt(k, me, obj, request, model, now.mono, None, st.values, asked, None);
    assert a in CarryOut(plant, st, k, me, obj, request, model, asked, now).history.attempts;
  }

  lemma SelfAside(st: Server, me: AssocId, n: U8, from: nat)
    requires Quiet(st, me, n, from)
    ensures Aside(st, st, me, n, from)
  {
  }

  /** A decision stands whatever nothing of `me`'s happened before it, and booking does not change it. */
  lemma DecidedFrom(st: Server, base: Server, after: Server, answer: Answer, obj: string, request: ControlRequest,
                    model: ControlModel, me: AssocId, from: nat,
                    through: bool, k: nat)
    requires Aside(st, base, me, request.ctlNum, from)
             && Decided(base, after, answer, obj, request, model, me, from, through)
    ensures Decided(st, Book(after, k, "Oper", model, answer), answer, obj, request, model, me, from, through)
  {
    hide Ran, Replies, Quiet;
    var n, booked := request.ctlNum, Book(after, k, "Oper", model, answer);
    assert booked.history.attempts == after.history.attempts && booked.pending == after.pending
           && booked.timed == after.timed;
    assert booked.lastCause == after.lastCause;
    QuietBooked(after, booked, me, n, from);
  }

  lemma QuietBooked(st: Server, after: Server, me: AssocId, n: U8, from: nat)
    requires after.timed == st.timed
    ensures Quiet(after, me, n, from) == Quiet(st, me, n, from)
  {
  }

  /** An `Oper` write of `me`'s, by the model the object is served with: it runs, once, exactly when its
      guard passes. */
  lemma OwnOperWrite(plant: Plant, st: Server, obj: string, request: ControlRequest, model: ControlModel, now: Now,
                     me: AssocId, from: nat)
    requires Quiet(st, me, request.ctlNum, from) && from <= st.serial && request.operTm.None?
    requires ModelOf(st.values, obj) == Some(model)
    ensures var (after, answer) := WriteStep(plant, st, me, obj, "Oper", RequestToValue(request), now);
            Decided(st, after, answer, obj, request, model, me, from,
                    Passes(plant, OnTimeout(plant, st.(serial := st.serial + 1), now.mono), me, obj, request, model))
  {
    hide OnTimeout, OperateStep, ModelOf, RequestOfValue, RequestToValue, ModeRefusal, BehaviourOf, Ran, Replies,
         Refuse, Admits, Owns, Matches, Decided, Ask, Book;
    RequestRoundTrip(request);
    var n, next := request.ctlNum, st.(serial := st.serial + 1);
    var ready := OnTimeout(plant, next, now.mono);
    OnTimeoutAside(plant, next, now.mono, me, n, from);
    var byMode := ModeRefusal(BehaviourOf(ready.values, obj), request.test);
    ModeAdmits(BehaviourOf(ready.values, obj), request.test);
    if byMode.Some? {
      RefusalDecides(st, ready, st.serial, obj, request, model, byMode.value, me, from);
      var (after, answer) := Refuse(ready, st.serial, me, obj, request, model, Operate, byMode.value);
      SelfAside(st, me, n, from);
      DecidedFrom(st, st, after, answer, obj, request, model, me, from, false, st.serial);
    } else {
      OwnOperate(plant, ready, st.serial, obj, request, model, now, me, from);
      var (after, answer) := OperateStep(plant, ready, st.serial, me, obj, request, model, now);
      DecidedFrom(st, ready, after, answer, obj, request, model, me, from,
                  Passes(plant, ready, me, obj, request, model), st.serial);
    }
  }

  /** An `SBOw` write of `me`'s runs nothing. Accepted it tells it nothing more, and refused it says why,
      with the cause the server records. */
  lemma OwnSelectWrite(plant: Plant, st: Server, obj: string, request: ControlRequest, now: Now, me: AssocId, from: nat)
    requires Quiet(st, me, request.ctlNum, from)
    ensures var (after, answer) := WriteStep(plant, st, me, obj, "SBOw", RequestToValue(request), now);
            && (answer == Done || ModelOf(st.values, obj).None? ==> Aside(st, after, me, request.ctlNum, from))
            && (answer != Done && ModelOf(st.values, obj).Some? ==>
                  after.lastCause.Some?
                  && Effect(st, after, me, request.ctlNum, from, 0, [Negative(obj, request, after.lastCause.value)]))
  {
    hide OnTimeout, SelectWithValueStep, ModelOf, RequestOfValue, RequestToValue, ModeRefusal, BehaviourOf, Ran,
         Replies, Refuse;
    RequestRoundTrip(request);
    var n, next := request.ctlNum, st.(serial := st.serial + 1);
    var model := ModelOf(st.values, obj);
    if model.Some? {
      var ready := OnTimeout(plant, next, now.mono);
      OnTimeoutAside(plant, next, now.mono, me, n, from);
      SelectRefusals(ready, st.serial, me, obj, request, model.value);
      SelectWithValueEffect(plant, ready, st.serial, me, obj, request, model.value, now, me, n, from);
      var byMode := ModeRefusal(BehaviourOf(ready.values, obj), request.test);
      if byMode.Some? {
        RefuseEffect(ready, st.serial, me, obj, request, model.value, Select, byMode.value, me, n, from);
      }
    }
  }
}
