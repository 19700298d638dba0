/** What one request does, exactly: when an `Oper` is let through, for how long a select holds, when a
    command is armed instead of run, and what carrying it out changes. */
module ControlEffects {
  import opened Sequences
  import opened Common
  import opened Octets
  import opened Time
  import opened Data
  import opened ControlMessage
  import opened Text
  import opened Control
  import opened ControlTick

  // ---- letting an Oper through ----

  /** The behaviour lets a command reach the process: on, and it is no test, or under test, and it is. */
  predicate Admits(behaviour: Behaviour, test: bool) {
    (behaviour.On? && !test) || (behaviour.Test? && test)
  }

  /** The selection is for this value and this number. */
  predicate Matches(s: Selection, request: ControlRequest) {
    && (s.value.Some? ==> SameValue(s.value.value, request.ctlVal))
    && (s.ctlNum != 0 ==> s.ctlNum == request.ctlNum)
  }

  /** The client holds the selection of the object. */
  predicate Owns(st: Server, obj: string, assoc: AssocId) {
    obj in st.selections && st.selections[obj].assoc == assoc
  }

  /** The guard of an `Oper`, in the state its write finds after everything due by then. */
  predicate Passes(plant: Plant, ready: Server, assoc: AssocId, obj: string, request: ControlRequest,
                   model: ControlModel) {
    && model != StatusOnly
    && Admits(BehaviourOf(ready.values, obj), request.test)
    && (model.NeedsSelect() ==> Owns(ready, obj, assoc) && Matches(ready.selections[obj], request))
    && Ask(plant, ready.asked, ControlEvent(obj, Operate, request, model)).None?
  }

  /** Without the client's own selection the cause is `ObjectNotSelected`; with it, another value or
      another number is `InconsistentParameters`; there is no third fault. */
  lemma FaultCauses(st: Server, obj: string, assoc: AssocId, request: ControlRequest)
    ensures SelectFault(st, obj, assoc, request) == Some(OBJECT_NOT_SELECTED) <==> !Owns(st, obj, assoc)
    ensures SelectFault(st, obj, assoc, request) == Some(INCONSISTENT_PARAMETERS)
            <==> Owns(st, obj, assoc) && !Matches(st.selections[obj], request)
    ensures SelectFault(st, obj, assoc, request).None? <==> Owns(st, obj, assoc) && Matches(st.selections[obj], request)
  {
    hide SameValue;
  }

  lemma ModeAdmits(behaviour: Behaviour, test: bool)
    ensures ModeRefusal(behaviour, test).None? <==> Admits(behaviour, test)
  {
  }

  lemma {:induction false} RunDueActs(plant: Plant, st: Server, due: seq<Timed>, now: Instant)
    ensures RunDue(plant, st, due, now).history.acts == st.history.acts
    decreases |due|
  {
    hide ModeRefusal, BehaviourOf, Apply, Ask;
    if due != [] {
      RunDueActs(plant, RunOne(plant, st, due[0], now), due[1..], now);
    }
  }

  lemma OnTimeoutActs(plant: Plant, st: Server, now: Instant)
    ensures OnTimeout(plant, st, now).history.acts == st.history.acts
  {
    hide RunDue;
    var live := Retain(st, (s: Selection) => now < s.expires);
    RunDueActs(plant, live.(timed := Keep(st.timed, (t: Timed) => now < t.due)),
               Keep(st.timed, (t: Timed) => now >= t.due), now);
  }

  lemma OperateActs(plant: Plant, st: Server, k: nat, assoc: AssocId, obj: string, request: ControlRequest,
                    model: ControlModel, now: Now)
    requires k !in st.history.acts && Admits(BehaviourOf(st.values, obj), request.test)
    ensures var acts := OperateStep(plant, st, k, assoc, obj, request, model, now).0.history.acts;
            && (k in acts <==> Passes(plant, st, assoc, obj, request, model))
            && (k in acts ==> acts[k] == Act(assoc, obj, request, model, now))
  {
    hide Ask, BehaviourOf, SelectFault, WaitFor, Arm, CarryOut, Consume, Matches, Refuse;
    FaultCauses(st, obj, assoc, request);
    var asked := st.(asked := st.asked + 1);
    var taken := Consume(asked, k, assoc, obj, request, model, now);
    ConsumeKeeps(asked, k, assoc, obj, request, model, now);
    RefuseLetsNothingThrough(st, k, assoc, obj, request, model);
    RefuseLetsNothingThrough(asked, k, assoc, obj, request, model);
    LaterKeepsActs(plant, taken, k, assoc, obj, request, model, st.asked, now);
  }

  lemma LaterKeepsActs(plant: Plant, st: Server, k: nat, assoc: AssocId, obj: string, request: ControlRequest,
                       model: ControlModel, asked: nat, now: Now)
    ensures CarryOut(plant, st, k, assoc, obj, request, model, asked, now).history.acts == st.history.acts
    ensures forall wait: nat :: Arm(st, k, assoc, obj, request, model, wait, now).history.acts == st.history.acts
  {
    hide Apply, PlusNanos, Keep, TimedSerials;
  }

  lemma RefuseLetsNothingThrough(st: Server, k: nat, assoc: AssocId, obj: string, request: ControlRequest,
                                 model: ControlModel)
    ensures forall cause: AddCause :: Refuse(st, k, assoc, obj, request, model, Operate, cause).0.history == st.history
  {
  }

  /** An `Oper` write is let through exactly when the object has a control model, the value reads as a
      request, and its guard passes: the model is not status-only, the node's behaviour admits it, any
      select the model needs is held by this client for this value and number, unexpired, and the hook
      lets it pass. What is let through is that request. */
  lemma LetThroughExactly(plant: Plant, st: Server, assoc: AssocId, obj: string, value: Value, now: Now)
    requires st.serial !in st.history.acts
    ensures var ready := OnTimeout(plant, st.(serial := st.serial + 1), now.mono);
            var model, request := ModelOf(st.values, obj), RequestOfValue(value);
            var acts := WriteStep(plant, st, assoc, obj, "Oper", value, now).0.history.acts;
            && (st.serial in acts
                <==> model.Some? && request.Some? && Passes(plant, ready, assoc, obj, request.value, model.value))
            && (st.serial in acts ==> acts[st.serial] == Act(assoc, obj, request.value, model.value, now))
  {
    hide OnTimeout, OperateStep, ModelOf, RequestOfValue, ModeRefusal, BehaviourOf, Ask, Owns, Matches, Admits;
    var next := st.(serial := st.serial + 1);
    OnTimeoutActs(plant, next, now.mono);
    if ModelOf(st.values, obj).Some? && RequestOfValue(value).Some? {
      var request, ready := RequestOfValue(value).value, OnTimeout(plant, next, now.mono);
      ModeAdmits(BehaviourOf(ready.values, obj), request.test);
      if Admits(BehaviourOf(ready.values, obj), request.test) {
        OperateActs(plant, ready, st.serial, assoc, obj, request, ModelOf(st.values, obj).value, now);
      }
    }
  }

  /** Operating another value, or under another number, than the client itself selected is answered
      with `InconsistentParameters`, as a reason and as a negative answer, and nothing runs. */
  lemma WrongValueIsInconsistent(plant: Plant, st: Server, assoc: AssocId, obj: string, request: ControlRequest,
                                 model: ControlModel, now: Now)
    requires ModelOf(st.values, obj) == Some(model) && model.NeedsSelect()
    requires var ready := OnTimeout(plant, st.(serial := st.serial + 1), now.mono);
             Admits(BehaviourOf(ready.values, obj), request.test) && Owns(ready, obj, assoc)
             && !Matches(ready.selections[obj], request)
    ensures var ready := OnTimeout(plant, st.(serial := st.serial + 1), now.mono);
            var after := WriteStep(plant, st, assoc, obj, "Oper", RequestToValue(request), now).0;
            && after.lastCause == Some(INCONSISTENT_PARAMETERS)
            && after.pending
               == ready.pending + [Termination(assoc, Negative(obj, request, INCONSISTENT_PARAMETERS), st.serial)]
            && after.values == ready.values && after.timed == ready.timed && after.selections == ready.selections
            && after.history.attempts == ready.history.attempts
  {
    hide OnTimeout, ModelOf, RequestOfValue, RequestToValue, ModeRefusal, BehaviourOf, SelectFault, Matches, Admits,
         Ask, Consume, Arm, CarryOut;
    RequestRoundTrip(request);
    var ready := OnTimeout(plant, st.(serial := st.serial + 1), now.mono);
    ModeAdmits(BehaviourOf(ready.values, obj), request.test);
    FaultCauses(ready, obj, assoc, request);
  }

  // ---- running now or later ----

  /** What an `Oper` let through comes to, once its selection is used up. */
  lemma TakenNowOrLater(plant: Plant, st: Server, k: nat, assoc: AssocId, obj: string, request: ControlRequest,
                        model: ControlModel, now: Now)
    requires k !in st.history.acts && k in OperateStep(plant, st, k, assoc, obj, request, model, now).0.history.acts
    ensures var taken, wait := Consume(st.(asked := st.asked + 1), k, assoc, obj, request, model, now),
                               WaitFor(request, now.wall);
            OperateStep(plant, st, k, assoc, obj, request, model, now).0
            == if wait.Some? then Arm(taken, k, assoc, obj, request, model, wait.value, now)
               else CarryOut(plant, taken, k, assoc, obj, request, model, st.asked, now)
  {
    hide Ask, SelectFault, Consume, Refuse, WaitFor, Arm, CarryOut;
    RefuseLetsNothingThrough(st, k, assoc, obj, request, model);
    RefuseLetsNothingThrough(st.(asked := st.asked + 1), k, assoc, obj, request, model);
  }

  lemma ArmJoins(st: Server, k: nat, assoc: AssocId, obj: string, request: ControlRequest, model: ControlModel,
                 wait: nat, now: Now)
    ensures var after := Arm(st, k, assoc, obj, request, model, wait, now);
            && after.values == st.values && after.history.attempts == st.history.attempts && after.timed != []
            && after.timed[|after.timed| - 1]
               == Timed(k, assoc, obj, request.(t := now.wall), model, PlusNanos(now.mono, wait))
  {
    hide Disarm;
    DisarmKeeps(st, assoc, obj);
  }

  lemma CarryOutRuns(plant: Plant, st: Server, k: nat, assoc: AssocId, obj: string, request: ControlRequest,
                     model: ControlModel, asked: nat, now: Now)
    ensures var after := CarryOut(plant, st, k, assoc, obj, request, model, asked, now);
            && after.values == Apply(plant, st.values, obj, request, now.wall) && after.timed == st.timed
            && |after.history.attempts| == |st.history.attempts| + 1 && st.history.attempts <= after.history.attempts
  {
    hide Apply;
  }

  /** An `Oper` let through with an `operTm` still ahead runs nothing now and is armed for exactly that
      long from now; any other runs now, once, and arms nothing. */
  lemma RunsNowOrLater(plant: Plant, st: Server, k: nat, assoc: AssocId, obj: string, request: ControlRequest,
                       model: ControlModel, now: Now)
    requires k !in st.history.acts && k in OperateStep(plant, st, k, assoc, obj, request, model, now).0.history.acts
    ensures var after := OperateStep(plant, st, k, assoc, obj, request, model, now).0;
            if request.operTm.Some? && request.operTm.value.ToUnixNanos() > now.wall.ToUnixNanos() then
              && after.values == st.values && after.history.attempts == st.history.attempts && after.timed != []
              && var t := after.timed[|after.timed| - 1];
                 && t.serial == k && t.assoc == assoc && t.obj == obj && t.request == request.(t := now.wall)
                 && t.model == model
                 && (t.due == MAX_INSTANT
                     || t.due - now.mono == request.operTm.value.ToUnixNanos() - now.wall.ToUnixNanos())
            else
              && after.values == Apply(plant, st.values, obj, request, now.wall) && after.timed == st.timed
              && |after.history.attempts| == |st.history.attempts| + 1 && st.history.attempts <= after.history.attempts
  {
    hide OperateStep, Apply, Consume, Arm, CarryOut, UtcTime.ToUnixNanos;
    var asked := st.(asked := st.asked + 1);
    var taken, wait := Consume(asked, k, assoc, obj, request, model, now), WaitFor(request, now.wall);
    ConsumeKeeps(asked, k, assoc, obj, request, model, now);
    TakenNowOrLater(plant, st, k, assoc, obj, request, model, now);
    if wait.Some? {
      ArmJoins(taken, k, assoc, obj, request, model, wait.value, now);
    } else {
      CarryOutRuns(plant, taken, k, assoc, obj, request, model, st.asked, now);
    }
  }

  // ---- selecting ----

  /** Between the two states the object's selection was granted to this client, for this value and number
      and for exactly the configured time from `now`: a tick leaves it until then and takes it from then
      on. Every other selection is as it was. */
  ghost predicate Granted(plant: Plant, st: Server, after: Server, obj: string, assoc: AssocId, value: Option<Value>,
                          ctlNum: U8, now: Instant) {
    && obj in after.selections
    && var s := after.selections[obj];
       && s.assoc == assoc && s.value == value && s.ctlNum == ctlNum
       && s.expires
          == (if now + st.sboTimeoutMs * 1_000_000 <= MAX_INSTANT then now + st.sboTimeoutMs * 1_000_000
              else MAX_INSTANT)
       && (forall at: Instant :: obj in OnTimeout(plant, after, at).selections <==> at < s.expires)
       && after.selections == st.selections[obj := s]
  }

  lemma TickDropsExpired(plant: Plant, st: Server, obj: string, at: Instant)
    requires obj in st.selections
    ensures obj in OnTimeout(plant, st, at).selections <==> at < st.selections[obj].expires
  {
    hide AnswerTo;
    ExpiryIsSilent(plant, st, at);
  }

  lemma GrantedForTheTimeout(plant: Plant, st: Server, k: nat, assoc: AssocId, obj: string, value: Option<Value>,
                             ctlNum: U8, now: Instant)
    ensures Granted(plant, st, GrantSelection(st, k, assoc, obj, value, ctlNum, now), obj, assoc, value, ctlNum, now)
  {
    hide OnTimeout;
    var granted := GrantSelection(st, k, assoc, obj, value, ctlNum, now);
    forall at: Instant
      ensures obj in OnTimeout(plant, granted, at).selections <==> at < granted.selections[obj].expires
    {
      TickDropsExpired(plant, granted, obj, at);
    }
    assert granted.selections == st.selections[obj := granted.selections[obj]];
  }

  /** Nothing is armed, disarmed or run. */
  predicate Untouched(st: Server, after: Server) {
    after.timed == st.timed && after.values == st.values && after.history.attempts == st.history.attempts
    && after.serial == st.serial
  }

  /** What the hook is asked about a `Read` of `SBO`, which carries no request. */
  function BareSelect(wall: UtcTime): ControlRequest {
    ControlRequest(Boolean(false), None, Origin(3, []), 0, wall, false, Check(false, false))
  }

  /** A `Read` of `SBO` is granted exactly when the object is served with select-before-operate under
      normal security, no other client holds it, its node is on, and the hook lets the select pass; it is
      then this client's for any value and number. Refused, it leaves the selections and the queue. */
  lemma SelectGrantedExactly(plant: Plant, st: Server, assoc: AssocId, obj: string, now: Now)
    ensures var (after, granted) := SelectStep(plant, st, assoc, obj, now);
            && (granted <==>
                  && ModelOf(st.values, obj) == Some(SboNormal) && !HeldByOther(st, obj, assoc, now.mono)
                  && Admits(BehaviourOf(st.values, obj), false)
                  && Ask(plant, st.asked, ControlEvent(obj, Select, BareSelect(now.wall), SboNormal)).None?)
            && (granted ==> Granted(plant, st, after, obj, assoc, None, 0, now.mono))
            && (!granted ==> after.selections == st.selections)
            && after.pending == st.pending && after.timed == st.timed && after.values == st.values
            && after.history.attempts == st.history.attempts
  {
    hide ModelOf, BehaviourOf, ModeRefusal, Ask, Granted, Admits, PlusMillis;
    ModeAdmits(BehaviourOf(st.values, obj), false);
    GrantedForTheTimeout(plant, st.(serial := st.serial + 1, asked := st.asked + 1), st.serial, assoc, obj, None, 0,
                         now.mono);
    GrantedFrame(plant, st, st.(serial := st.serial + 1, asked := st.asked + 1),
                 SelectStep(plant, st, assoc, obj, now).0, obj, assoc, None, 0, now.mono);
  }

  lemma GrantedFrame(plant: Plant, st: Server, same: Server, after: Server, obj: string, assoc: AssocId,
                     value: Option<Value>, ctlNum: U8, now: Instant)
    requires same.selections == st.selections && same.sboTimeoutMs == st.sboTimeoutMs
    ensures Granted(plant, same, after, obj, assoc, value, ctlNum, now)
            <==> Granted(plant, st, after, obj, assoc, value, ctlNum, now)
  {
    hide OnTimeout;
  }

  /** A `Write` of `SBOw` is granted exactly when the object is served with select-before-operate under
      enhanced security, the value reads as a request, its node's behaviour admits it, no other client
      holds the object, and the hook lets the select pass, all after everything due by then; it is then
      this client's for this value and number. Refused, it leaves the selections and the queue. */
  lemma SelectWithValueGrantedExactly(plant: Plant, st: Server, assoc: AssocId, obj: string, value: Value, now: Now)
    ensures var ready := OnTimeout(plant, st.(serial := st.serial + 1), now.mono);
            var model, request := ModelOf(st.values, obj), RequestOfValue(value);
            var (after, answer) := WriteStep(plant, st, assoc, obj, "SBOw", value, now);
            && (answer == Done <==>
                  && model == Some(SboEnhanced) && request.Some?
                  && Admits(BehaviourOf(ready.values, obj), request.value.test)
                  && !HeldByOther(ready, obj, assoc, now.mono)
                  && Ask(plant, ready.asked, ControlEvent(obj, Select, request.value, SboEnhanced)).None?)
            && (answer == Done
                ==> Granted(plant, ready, after, obj, assoc, Some(request.value.ctlVal), request.value.ctlNum,
                            now.mono))
            && (answer != Done
                ==> after.selections == if model.Some? && request.Some? then ready.selections else st.selections)
            && (model.Some? && request.Some? ==> Untouched(ready, after))
            && (answer == Done ==> after.pending == ready.pending)
  {
    hide OnTimeout, ModelOf, RequestOfValue, BehaviourOf, ModeRefusal, Ask, Granted, Admits, HeldByOther,
         GrantSelection, SelectWithValueStep;
    if ModelOf(st.values, obj).Some? && RequestOfValue(value).Some? {
      var ready := OnTimeout(plant, st.(serial := st.serial + 1), now.mono);
      var request, model := RequestOfValue(value).value, ModelOf(st.values, obj).value;
      ModeAdmits(BehaviourOf(ready.values, obj), request.test);
      ValueSelectGranted(plant, ready, st.serial, assoc, obj, request, model, now);
    }
  }

  lemma ValueSelectGranted(plant: Plant, st: Server, k: nat, assoc: AssocId, obj: string, request: ControlRequest,
                           model: ControlModel, now: Now)
    ensures var (after, answer) := SelectWithValueStep(plant, st, k, assoc, obj, request, model, now);
            && (answer == Done <==>
                  model == SboEnhanced && !HeldByOther(st, obj, assoc, now.mono)
                  && Ask(plant, st.asked, ControlEvent(obj, Select, request, model)).None?)
            && (answer == Done
                ==> Granted(plant, st, after, obj, assoc, Some(request.ctlVal), request.ctlNum, now.mono))
            && (answer != Done ==> after.selections == st.selections)
            && (answer == Done ==> after.pending == st.pending)
            && Untouched(st, after)
  {
    hide Ask, Granted, HeldByOther, PlusMillis;
    var asked := st.(asked := st.asked + 1);
    GrantedForTheTimeout(plant, asked, k, assoc, obj, Some(request.ctlVal), request.ctlNum, now.mono);
    GrantedFrame(plant, st, asked, GrantSelection(asked, k, assoc, obj, Some(request.ctlVal), request.ctlNum, now.mono),
                 obj, assoc, Some(request.ctlVal), request.ctlNum, now.mono);
  }

  // ---- carrying out ----

  /** Carrying out makes the value the object's status when it fits, stamps it, and changes nothing
      else. */
  lemma ApplyChangesTheStatus(plant: Plant, values: map<string, Value>, obj: string, request: ControlRequest,
                              wall: UtcTime, domain: string, ln: string, path: string)
    requires ControlParts(obj) == Some((domain, ln, path))
    ensures var after := Apply(plant, values, obj, request, wall);
            var status, stamp := domain + "/" + ln + "$ST$" + path + "$stVal", domain + "/" + ln + "$ST$" + path + "$t";
            && (plant.accepts(status, request.ctlVal) ==> status in after && after[status] == request.ctlVal)
            && (plant.accepts(stamp, Utc(wall)) ==> stamp in after && after[stamp] == Utc(wall))
            && (!plant.accepts(status, request.ctlVal)
                ==> (status in after <==> status in values) && (status in values ==> after[status] == values[status]))
            && forall r ::
                 r != status && r != stamp ==> (r in after <==> r in values) && (r in values ==> after[r] == values[r])
  {
    hide ControlParts;
    var base := domain + "/" + ln + "$ST$" + path;
    SuffixesDiffer(base, "$stVal", base, "$t", 1);
  }

  /** No command changes any object's control model. */
  lemma ModelSurvivesApply(plant: Plant, values: map<string, Value>, obj: string, request: ControlRequest,
                           wall: UtcTime, other: string)
    ensures ModelOf(Apply(plant, values, obj, request, wall), other) == ModelOf(values, other)
  {
    hide ControlParts;
    if ControlParts(obj).Some? && ControlParts(other).Some? {
      var (domain, ln, path) := ControlParts(obj).value;
      var (d, n, p) := ControlParts(other).value;
      ApplyChangesTheStatus(plant, values, obj, request, wall, domain, ln, path);
      var base, model := domain + "/" + ln + "$ST$" + path, d + "/" + n + "$CF$" + p;
      SuffixesDiffer(model, "$ctlModel", base, "$stVal", 2);
      SuffixesDiffer(model, "$ctlModel", base, "$t", 1);
    }
  }
}
