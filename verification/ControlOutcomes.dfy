/** What each request comes to, by the numbers the model holds and the answers the hook itself gives:
    every refusal with its cause, and everything an accepted request changes. */
module ControlOutcomes {
  import opened Sequences
  import opened Common
  import opened Octets
  import opened Time
  import opened Data
  import opened ControlMessage
  import opened Text
  import opened Device
  import opened Control
  import opened ControlEffects

  // ---- what the model holds ----

  /** The integer at a reference, in either encoding; an unsigned one past 2^63 is none. */
  predicate HoldsNumber(values: map<string, Value>, r: string, c: int) {
    && r in values
    && ((values[r].Integer? && values[r].i == c)
        || (values[r].Unsigned? && values[r].u == c && c < 0x8000_0000_0000_0000))
  }

  predicate HoldsNone(values: map<string, Value>, r: string) {
    r !in values || !(values[r].Integer? || (values[r].Unsigned? && values[r].u < 0x8000_0000_0000_0000))
  }

  /** The number that decides for a node: `Beh` when it holds one, else `Mod`, else that of "on". */
  predicate NodeNumber(values: map<string, Value>, node: string, c: int) {
    var beh, mod := node + "$ST$Beh$stVal", node + "$ST$Mod$stVal";
    || HoldsNumber(values, beh, c)
    || (HoldsNone(values, beh) && HoldsNumber(values, mod, c))
    || (HoldsNone(values, beh) && HoldsNone(values, mod) && c == 1)
  }

  /** 2 is blocked, 4 under test and blocked, 5 off; 3 is under test; anything else is on. */
  predicate Admitted(c: int, test: bool) {
    if c == 3 then test else c !in {2, 4, 5} && !test
  }

  /** The object of a data object `path` in a node of a device. */
  predicate Addresses(obj: string, domain: string, ln: string, path: string) {
    obj == domain + "/" + ln + "$CO$" + path && '/' !in domain && '$' !in ln
  }

  lemma NodeHasOneNumber(values: map<string, Value>, node: string) returns (c: int)
    ensures NodeNumber(values, node, c) && forall other :: NodeNumber(values, node, other) ==> other == c
  {
    var beh, mod := node + "$ST$Beh$stVal", node + "$ST$Mod$stVal";
    c := if CodeAt(values, beh).Some? then CodeAt(values, beh).value
         else if CodeAt(values, mod).Some? then CodeAt(values, mod).value else 1;
  }

  lemma NumberRead(values: map<string, Value>, r: string)
    ensures forall c :: HoldsNumber(values, r, c) <==> CodeAt(values, r) == Some(c)
    ensures HoldsNone(values, r) <==> CodeAt(values, r).None?
  {
  }

  lemma PartsOfAddress(obj: string, domain: string, ln: string, rest: string)
    requires obj == domain + "/" + ln + "$" + rest && '/' !in domain && '$' !in ln
    ensures SplitOnce(obj, '/') == Some((domain, ln + "$" + rest))
            && SplitOnce(ln + "$" + rest, '$') == Some((ln, rest))
  {
    hide SplitOnce;
    var item := ln + "$" + rest;
    SplitOnceOfJoin(domain, '/', item);
    SplitOnceOfJoin(ln, '$', rest);
    assert item == ln + ['$'] + rest && obj == domain + ['/'] + item;
  }

  /** An object has a domain, a node and a path exactly when its name is made of them. */
  lemma AddressesExactly(obj: string, domain: string, ln: string, path: string)
    ensures ControlParts(obj) == Some((domain, ln, path)) <==> Addresses(obj, domain, ln, path)
  {
    hide SplitOnce;
    SplitOnceParts(obj, '/');
    if SplitOnce(obj, '/').Some? {
      SplitOnceParts(SplitOnce(obj, '/').value.1, '$');
    }
    if Addresses(obj, domain, ln, path) {
      assert "CO$" + path == ['C', 'O', '$'] + path && ("CO$" + path)[3..] == path;
      assert obj == domain + "/" + ln + "$" + ("CO$" + path);
      PartsOfAddress(obj, domain, ln, "CO$" + path);
    }
  }

  /** A node's number says which commands reach it. */
  lemma BehaviourByNumber(values: map<string, Value>, obj: string, domain: string, ln: string, rest: string, c: int)
    requires obj == domain + "/" + ln + "$" + rest && '/' !in domain && '$' !in ln
    requires NodeNumber(values, domain + "/" + ln, c)
    ensures forall test :: ModeRefusal(BehaviourOf(values, obj), test) == if Admitted(c, test) then None else Some(8)
  {
    hide SplitOnce, CodeAt, HoldsNumber, HoldsNone;
    PartsOfAddress(obj, domain, ln, rest);
    NumberRead(values, domain + "/" + ln + "$ST$Beh$stVal");
    NumberRead(values, domain + "/" + ln + "$ST$Mod$stVal");
  }

  /** The control model a number stands for. */
  predicate Numbered(model: ControlModel, m: int) {
    && 0 <= m <= 4
    && (model.StatusOnly? <==> m == 0) && (model.SboNormal? <==> m == 2) && (model.SboEnhanced? <==> m == 4)
    && (model.NeedsSelect() <==> m in {2, 4}) && (model.Enhanced() <==> m in {3, 4})
  }

  /** An object is served with the model whose number its `ctlModel` holds, and with none when that is no
      number of a model, or holds no number, or there is no such object. */
  lemma ModelByNumber(values: map<string, Value>, obj: string, domain: string, ln: string, path: string)
    requires Addresses(obj, domain, ln, path)
    ensures var r := domain + "/" + ln + "$CF$" + path + "$ctlModel";
            && (forall m :: HoldsNumber(values, r, m) ==>
                  if 0 <= m <= 4 then ModelOf(values, obj).Some? && Numbered(ModelOf(values, obj).value, m)
                  else ModelOf(values, obj).None?)
            && (HoldsNone(values, r) ==> ModelOf(values, obj).None?)
  {
    hide CodeAt, HoldsNumber, HoldsNone, ControlParts;
    AddressesExactly(obj, domain, ln, path);
    NumberRead(values, domain + "/" + ln + "$CF$" + path + "$ctlModel");
  }

  // ---- refusals ----

  /** Refused for `cause`: recorded, told to the client, and nothing else. */
  predicate RefusedFor(st: Server, after: Server, k: nat, assoc: AssocId, obj: string, request: ControlRequest,
                       cause: int) {
    && -0x8000_0000_0000_0000 <= cause < 0x8000_0000_0000_0000
    && after.lastCause == Some(cause)
    && after.pending == st.pending + [Termination(assoc, Negative(obj, request, cause), k)]
    && Untouched(st, after) && after.selections == st.selections && after.history.acts == st.history.acts
  }

  /** What the hook itself answers, if there is one. */
  function HookSays(plant: Plant, asked: nat, event: ControlEvent): Option<int> {
    match plant.hook
    case Some(hook) => hook(asked, event)
    case None => None
  }

  /** What is wrong with an `Oper` before the hook is asked, in the order it is looked for: the node's number,
      the model's, somebody else's selection or none, another value or number. */
  function OperFault(st: Server, assoc: AssocId, obj: string, request: ControlRequest, c: int, m: int): Option<int> {
    if !Admitted(c, request.test) then Some(8)
    else if m == 0 then Some(1)
    else if m in {2, 4} && (obj !in st.selections || st.selections[obj].assoc != assoc) then Some(18)
    else if m in {2, 4} && st.selections[obj].value.Some?
            && !SameValue(st.selections[obj].value.value, request.ctlVal) then Some(26)
    else if m in {2, 4} && st.selections[obj].ctlNum != 0 && st.selections[obj].ctlNum != request.ctlNum then Some(26)
    else None
  }

  /** Why an `Oper` is refused, if it is: that, or what the hook says, asked only when nothing is wrong. */
  function OperRefusal(plant: Plant, st: Server, assoc: AssocId, obj: string, request: ControlRequest, c: int, m: int,
                       model: ControlModel): Option<int> {
    var fault := OperFault(st, assoc, obj, request, c, m);
    if fault.Some? then fault else HookSays(plant, st.asked, ControlEvent(obj, Operate, request, model))
  }

  /** The hook was asked, or not. */
  predicate Asked(st: Server, after: Server, once: bool) {
    after.asked == st.asked + if once then 1 else 0
  }

  /** Let through: the selection is gone; with an `operTm` still ahead the command is armed for exactly
      that long in place of any other of this client's on the object; otherwise status and time are
      written, now and once, and a positive answer follows when the model's number says so. */
  predicate WentAhead(plant: Plant, st: Server, after: Server, k: nat, assoc: AssocId, obj: string, base: string,
                      request: ControlRequest, m: int, model: ControlModel, now: Now) {
    var status, stamp, wall := base + "$stVal", base + "$t", now.wall.ToUnixNanos();
    && k in after.history.acts && after.history.acts[k] == Act(assoc, obj, request, model, now)
    && after.selections == st.selections - {obj}
    && if request.operTm.Some? && request.operTm.value.ToUnixNanos() > wall then
         var due := now.mono + request.operTm.value.ToUnixNanos() - wall;
         && after.values == st.values && after.history.attempts == st.history.attempts && after.pending == st.pending
         && after.timed == Keep(st.timed, (t: Timed) => !(t.obj == obj && t.assoc == assoc))
                           + [Timed(k, assoc, obj, request.(t := now.wall), model,
                                    if due > 0xFFFF_FFFF_FFFF_FFFF then 0xFFFF_FFFF_FFFF_FFFF else due)]
       else
         && after.values
            == Stored(plant.accepts, Stored(plant.accepts, st.values, status, request.ctlVal), stamp, Utc(now.wall))
         && after.timed == st.timed
         && |after.history.attempts| == |st.history.attempts| + 1 && st.history.attempts <= after.history.attempts
         && after.history.attempts[|st.history.attempts|].serial == k
         && after.history.attempts[|st.history.attempts|].refusal.None?
         && after.pending == st.pending + if m in {3, 4} then [Termination(assoc, Positive(obj, request), k)] else []
  }

  lemma RefuseIs(st: Server, k: nat, assoc: AssocId, obj: string, request: ControlRequest, model: ControlModel,
                 stage: Stage, cause: AddCause)
    ensures var (after, answer) := Refuse(st, k, assoc, obj, request, model, stage, cause);
            && RefusedFor(st, after, k, assoc, obj, request, cause) && after.asked == st.asked
            && answer == if model.Enhanced() && stage == Operate then Done else Refused(3)
  {
  }

  lemma RefusedFrame(st: Server, same: Server, after: Server, k: nat, assoc: AssocId, obj: string,
                     request: ControlRequest, cause: int)
    requires RefusedFor(same, after, k, assoc, obj, request, cause) && same.(asked := st.asked) == st
    ensures RefusedFor(st, after, k, assoc, obj, request, cause)
  {
  }

  lemma ConsumeIs(st: Server, k: nat, assoc: AssocId, obj: string, request: ControlRequest, model: ControlModel,
                  now: Now)
    ensures var after := Consume(st, k, assoc, obj, request, model, now);
            after.selections == st.selections - {obj} && after.asked == st.asked
  {
  }

  lemma DisarmIs(st: Server, assoc: AssocId, obj: string)
    ensures Disarm(st, assoc, obj).asked == st.asked
    ensures Disarm(st, assoc, obj).timed == Keep(st.timed, (t: Timed) => !(t.obj == obj && t.assoc == assoc))
  {
    KeepSame(st.timed, (t: Timed) => !Mine(t, assoc, obj), (t: Timed) => !(t.obj == obj && t.assoc == assoc));
  }

  /** An `Oper` in the state its write finds. */
  lemma OperateStepOutcome(plant: Plant, st: Server, k: nat, assoc: AssocId, obj: string, domain: string, ln: string,
                           path: string, request: ControlRequest, c: int, m: int, model: ControlModel, now: Now)
    requires Addresses(obj, domain, ln, path) && Numbered(model, m) && Admitted(c, request.test)
    ensures var refusal := OperRefusal(plant, st, assoc, obj, request, c, m, model);
            var (after, answer) := OperateStep(plant, st, k, assoc, obj, request, model, now);
            if refusal.Some? then
              RefusedFor(st, after, k, assoc, obj, request, refusal.value)
              && answer == if m in {3, 4} then Done else Refused(3)
            else
              answer == Done
              && WentAhead(plant, st, after, k, assoc, obj, domain + "/" + ln + "$ST$" + path, request, m, model, now)
    ensures var after := OperateStep(plant, st, k, assoc, obj, request, model, now).0;
            Asked(st, after, OperFault(st, assoc, obj, request, c, m).None?)
  {
    hide SameValue, Refuse, Consume, Arm, CarryOut, RefusedFor, WentAhead, WaitFor, Addresses;
    var asked := st.(asked := st.asked + 1);
    var refusal := OperRefusal(plant, st, assoc, obj, request, c, m, model);
    if refusal.Some? {
      RefuseIs(st, k, assoc, obj, request, model, Operate, refusal.value);
      RefuseIs(asked, k, assoc, obj, request, model, Operate, refusal.value);
      RefusedFrame(st, asked, Refuse(asked, k, assoc, obj, request, model, Operate, refusal.value).0, k, assoc, obj,
                   request, refusal.value);
    } else {
      GoesAhead(plant, st, k, assoc, obj, domain, ln, path, request, m, model, now);
    }
  }

  lemma GoesAhead(plant: Plant, st: Server, k: nat, assoc: AssocId, obj: string, domain: string, ln: string,
                  path: string, request: ControlRequest, m: int, model: ControlModel, now: Now)
    requires Addresses(obj, domain, ln, path) && Numbered(model, m)
    ensures var taken, wait := Consume(st.(asked := st.asked + 1), k, assoc, obj, request, model, now),
                               WaitFor(request, now.wall);
            var after := if wait.Some? then Arm(taken, k, assoc, obj, request, model, wait.value, now)
                         else CarryOut(plant, taken, k, assoc, obj, request, model, st.asked, now);
            WentAhead(plant, st, after, k, assoc, obj, domain + "/" + ln + "$ST$" + path, request, m, model, now)
            && Asked(st, after, true)
  {
    hide Consume, Disarm, UtcTime.ToUnixNanos, ControlParts, Addresses;
    AddressesExactly(obj, domain, ln, path);
    var asked := st.(asked := st.asked + 1);
    var taken, wait := Consume(asked, k, assoc, obj, request, model, now), WaitFor(request, now.wall);
    ConsumeKeeps(asked, k, assoc, obj, request, model, now);
    ConsumeIs(asked, k, assoc, obj, request, model, now);
    if wait.Some? {
      DisarmKeeps(taken, assoc, obj);
      DisarmIs(taken, assoc, obj);
    }
  }

  // ---- the four requests ----

  /** The state a write finds: numbered, and after everything due by then. */
  function Ready(plant: Plant, st: Server, now: Now): Server {
    OnTimeout(plant, st.(serial := st.serial + 1), now.mono)
  }

  /** A write to an object without a control model, and one whose value reads as no request. */
  lemma UnreadableOutcome(plant: Plant, st: Server, assoc: AssocId, obj: string, attribute: string, value: Value,
                          now: Now)
    ensures ModelOf(st.values, obj).None?
            ==> WriteStep(plant, st, assoc, obj, attribute, value, now) == (st.(serial := st.serial + 1), Refused(3))
    ensures ModelOf(st.values, obj).Some? && RequestOfValue(value).None?
            ==> WriteStep(plant, st, assoc, obj, attribute, value, now) == (st.(serial := st.serial + 1), Refused(11))
  {
    hide ModelOf, RequestOfValue, ServiceStep;
  }

  /** A write of anything else: always refused, and nothing done. */
  lemma OtherOutcome(plant: Plant, st: Server, assoc: AssocId, obj: string, attribute: string, value: Value, now: Now)
    requires ModelOf(st.values, obj).Some? && RequestOfValue(value).Some? && attribute !in {"SBOw", "Oper", "Cancel"}
    ensures var (after, answer) := WriteStep(plant, st, assoc, obj, attribute, value, now);
            var ready := Ready(plant, st, now);
            && answer == Refused(3) && Untouched(ready, after) && after.selections == ready.selections
            && after.history.acts == ready.history.acts && after.history.grants == ready.history.grants
  {
    hide OnTimeout, ModelOf, RequestOfValue, ModeRefusal, BehaviourOf, SelectWithValueStep, CancelStep, OperateStep;
  }

  /** Booking what is owed is all that follows an answer. */
  predicate SameButOwed(st: Server, after: Server) {
    after == st.(history := st.history.(owed := after.history.owed))
  }

  lemma WriteServes(plant: Plant, st: Server, assoc: AssocId, obj: string, attribute: string, value: Value,
                    request: ControlRequest, model: ControlModel, now: Now)
    requires ModelOf(st.values, obj) == Some(model) && RequestOfValue(value) == Some(request)
    requires attribute in {"SBOw", "Oper", "Cancel"}
    ensures var (after, answer) := WriteStep(plant, st, assoc, obj, attribute, value, now);
            var ready := Ready(plant, st, now);
            var refused := ModeRefusal(BehaviourOf(ready.values, obj), request.test);
            var stage := if attribute == "Oper" then Operate else Select;
            var (served, said) :=
              if attribute != "Cancel" && refused.Some? then
                Refuse(ready, st.serial, assoc, obj, request, model, stage, refused.value)
              else if attribute == "SBOw" then
                SelectWithValueStep(plant, ready, st.serial, assoc, obj, request, model, now)
              else if attribute == "Cancel" then CancelStep(plant, ready, st.serial, assoc, obj, request, model)
              else OperateStep(plant, ready, st.serial, assoc, obj, request, model, now);
            answer == said && SameButOwed(served, after) && (attribute != "Oper" ==> after == served)
  {
    hide OnTimeout, ModelOf, RequestOfValue, ModeRefusal, BehaviourOf, Refuse, SelectWithValueStep, CancelStep,
         OperateStep;
  }

  /** An `Oper`, whole: refused for the first reason there is, or gone ahead. */
  lemma OperateOutcome(plant: Plant, st: Server, assoc: AssocId, obj: string, domain: string, ln: string, path: string,
                       value: Value, request: ControlRequest, c: int, m: int, now: Now)
    requires Addresses(obj, domain, ln, path) && RequestOfValue(value) == Some(request)
    requires HoldsNumber(st.values, domain + "/" + ln + "$CF$" + path + "$ctlModel", m) && 0 <= m <= 4
    requires NodeNumber(Ready(plant, st, now).values, domain + "/" + ln, c)
    ensures ModelOf(st.values, obj).Some?
    ensures var ready, model := Ready(plant, st, now), ModelOf(st.values, obj).value;
            var refusal := OperRefusal(plant, ready, assoc, obj, request, c, m, model);
            var (after, answer) := WriteStep(plant, st, assoc, obj, "Oper", value, now);
            if refusal.Some? then
              RefusedFor(ready, after, st.serial, assoc, obj, request, refusal.value)
              && answer == if m in {3, 4} then Done else Refused(3)
            else
              answer == Done
              && WentAhead(plant, ready, after, st.serial, assoc, obj, domain + "/" + ln + "$ST$" + path, request, m,
                           model, now)
    ensures var ready, after := Ready(plant, st, now), WriteStep(plant, st, assoc, obj, "Oper", value, now).0;
            Asked(ready, after, OperFault(ready, assoc, obj, request, c, m).None?)
  {
    hide Ready, ModelOf, RequestOfValue, HoldsNumber, NodeNumber, BehaviourOf, ModeRefusal, WriteStep, OperateStep,
         Refuse, SelectWithValueStep, CancelStep;
    var ready := Ready(plant, st, now);
    ModelByNumber(st.values, obj, domain, ln, path);
    var model := ModelOf(st.values, obj).value;
    WriteServes(plant, st, assoc, obj, "Oper", value, request, model, now);
    assert obj == domain + "/" + ln + "$" + ("CO$" + path);
    BehaviourByNumber(ready.values, obj, domain, ln, "CO$" + path, c);
    if !Admitted(c, request.test) {
      RefuseIs(ready, st.serial, assoc, obj, request, model, Operate, 8);
    } else {
      OperateStepOutcome(plant, ready, st.serial, assoc, obj, domain, ln, path, request, c, m, model, now);
    }
  }

  /** What is wrong with an `SBOw` before the hook is asked: the node's number, the model's, another client's
      selection that has not expired. */
  function SelectFaultOf(st: Server, assoc: AssocId, obj: string, request: ControlRequest, c: int, m: int,
                         now: Now): Option<int> {
    if !Admitted(c, request.test) then Some(8)
    else if m != 4 then Some(1)
    else if obj in st.selections && st.selections[obj].assoc != assoc && now.mono < st.selections[obj].expires
         then Some(19)
    else None
  }

  function SelectWithValueRefusal(plant: Plant, st: Server, assoc: AssocId, obj: string, request: ControlRequest,
                                  c: int, m: int, now: Now): Option<int> {
    var fault := SelectFaultOf(st, assoc, obj, request, c, m, now);
    if fault.Some? then fault else HookSays(plant, st.asked, ControlEvent(obj, Select, request, SboEnhanced))
  }

  lemma GrantAsksNothing(st: Server, k: nat, assoc: AssocId, obj: string, value: Option<Value>, ctlNum: U8,
                         now: Instant)
    ensures forall asked :: GrantSelection(st.(asked := asked), k, assoc, obj, value, ctlNum, now).asked == asked
  {
  }

  /** An `SBOw`, whole: refused for the first reason there is, or granted for this value and number for
      exactly the configured time. */
  lemma SelectWithValueOutcome(plant: Plant, st: Server, assoc: AssocId, obj: string, domain: string, ln: string,
                               path: string, value: Value, request: ControlRequest, c: int, m: int, now: Now)
    requires Addresses(obj, domain, ln, path) && RequestOfValue(value) == Some(request)
    requires HoldsNumber(st.values, domain + "/" + ln + "$CF$" + path + "$ctlModel", m) && 0 <= m <= 4
    requires NodeNumber(Ready(plant, st, now).values, domain + "/" + ln, c)
    ensures var ready := Ready(plant, st, now);
            var refusal := SelectWithValueRefusal(plant, ready, assoc, obj, request, c, m, now);
            var (after, answer) := WriteStep(plant, st, assoc, obj, "SBOw", value, now);
            if refusal.Some? then
              RefusedFor(ready, after, st.serial, assoc, obj, request, refusal.value) && answer == Refused(3)
            else
              && answer == Done && Untouched(ready, after) && after.pending == ready.pending
              && Granted(plant, ready, after, obj, assoc, Some(request.ctlVal), request.ctlNum, now.mono)
    ensures var ready, after := Ready(plant, st, now), WriteStep(plant, st, assoc, obj, "SBOw", value, now).0;
            Asked(ready, after, SelectFaultOf(ready, assoc, obj, request, c, m, now).None?)
  {
    hide Ready, ModelOf, RequestOfValue, HoldsNumber, NodeNumber, BehaviourOf, ModeRefusal, WriteStep, OperateStep,
         Refuse, CancelStep, Granted, GrantSelection;
    GrantAsksNothing(Ready(plant, st, now), st.serial, assoc, obj, Some(request.ctlVal), request.ctlNum, now.mono);
    var ready := Ready(plant, st, now);
    ModelByNumber(st.values, obj, domain, ln, path);
    var model := ModelOf(st.values, obj).value;
    WriteServes(plant, st, assoc, obj, "SBOw", value, request, model, now);
    assert obj == domain + "/" + ln + "$" + ("CO$" + path);
    BehaviourByNumber(ready.values, obj, domain, ln, "CO$" + path, c);
    var refusal := SelectWithValueRefusal(plant, ready, assoc, obj, request, c, m, now);
    ValueSelectGranted(plant, ready, st.serial, assoc, obj, request, model, now);
    if refusal.Some? {
      RefuseIs(ready, st.serial, assoc, obj, request, model, Select, refusal.value);
      var asked := ready.(asked := ready.asked + 1);
      RefuseIs(asked, st.serial, assoc, obj, request, model, Select, refusal.value);
      RefusedFrame(ready, asked, Refuse(asked, st.serial, assoc, obj, request, model, Select, refusal.value).0,
                   st.serial, assoc, obj, request, refusal.value);
    }
  }

  lemma SelectAsks(plant: Plant, st: Server, assoc: AssocId, obj: string, now: Now)
    ensures Asked(st, SelectStep(plant, st, assoc, obj, now).0,
                  ModelOf(st.values, obj) == Some(SboNormal) && !HeldByOther(st, obj, assoc, now.mono)
                  && ModeRefusal(BehaviourOf(st.values, obj), false).None?)
  {
    hide ModelOf, ModeRefusal, BehaviourOf, PlusMillis;
  }

  /** A read of `SBO`, whole: granted to this client for any value exactly when the numbers, the selections
      and the hook allow it; another client's selection stands in its way until the instant it expires. */
  lemma SelectOutcome(plant: Plant, st: Server, assoc: AssocId, obj: string, domain: string, ln: string, path: string,
                      c: int, m: int, now: Now)
    requires Addresses(obj, domain, ln, path) && NodeNumber(st.values, domain + "/" + ln, c)
    requires HoldsNumber(st.values, domain + "/" + ln + "$CF$" + path + "$ctlModel", m)
    ensures var (after, granted) := SelectStep(plant, st, assoc, obj, now);
            && (granted <==>
                  && m == 2 && Admitted(c, false)
                  && !(obj in st.selections && st.selections[obj].assoc != assoc
                       && now.mono < st.selections[obj].expires)
                  && HookSays(plant, st.asked, ControlEvent(obj, Select, BareSelect(now.wall), SboNormal)).None?)
            && (granted ==> Granted(plant, st, after, obj, assoc, None, 0, now.mono))
            && (!granted ==> after.selections == st.selections)
            && after.pending == st.pending && after.timed == st.timed && after.values == st.values
            && after.history.attempts == st.history.attempts
            && Asked(st, after,
                     && m == 2 && Admitted(c, false)
                     && !(obj in st.selections && st.selections[obj].assoc != assoc
                          && now.mono < st.selections[obj].expires))
  {
    SelectAsks(plant, st, assoc, obj, now);
    hide ModelOf, HoldsNumber, NodeNumber, BehaviourOf, ModeRefusal, Granted, SelectStep, BareSelect;
    ModelByNumber(st.values, obj, domain, ln, path);
    assert obj == domain + "/" + ln + "$" + ("CO$" + path);
    BehaviourByNumber(st.values, obj, domain, ln, "CO$" + path, c);
    ModeAdmits(BehaviourOf(st.values, obj), false);
    SelectGrantedExactly(plant, st, assoc, obj, now);
  }

  /** A node that is blocked, under test and blocked, or off takes no select and no command, test or not. */
  lemma SwitchedOffTakesNothing(plant: Plant, st: Server, assoc: AssocId, obj: string, domain: string, ln: string,
                                path: string, value: Value, request: ControlRequest, c: int, m: int, now: Now)
    requires Addresses(obj, domain, ln, path) && RequestOfValue(value) == Some(request) && c in {2, 4, 5}
    requires HoldsNumber(st.values, domain + "/" + ln + "$CF$" + path + "$ctlModel", m) && 0 <= m <= 4
    requires NodeNumber(st.values, domain + "/" + ln, c)
             && NodeNumber(Ready(plant, st, now).values, domain + "/" + ln, c)
    ensures var ready, after := Ready(plant, st, now), WriteStep(plant, st, assoc, obj, "Oper", value, now).0;
            RefusedFor(ready, after, st.serial, assoc, obj, request, 8)
    ensures var (after, answer) := WriteStep(plant, st, assoc, obj, "SBOw", value, now);
            RefusedFor(Ready(plant, st, now), after, st.serial, assoc, obj, request, 8) && answer == Refused(3)
    ensures !SelectStep(plant, st, assoc, obj, now).1
  {
    hide WriteStep, SelectStep, Ready, HoldsNumber, NodeNumber, Addresses, RefusedFor, WentAhead, Granted, ModelOf,
         RequestOfValue;
    OperateOutcome(plant, st, assoc, obj, domain, ln, path, value, request, c, m, now);
    SelectWithValueOutcome(plant, st, assoc, obj, domain, ln, path, value, request, c, m, now);
    SelectOutcome(plant, st, assoc, obj, domain, ln, path, c, m, now);
  }

  /** The client has the object selected, or a command armed on it. */
  predicate Engaged(st: Server, assoc: AssocId, obj: string) {
    || (obj in st.selections && st.selections[obj].assoc == assoc)
    || exists t <- st.timed :: t.obj == obj && t.assoc == assoc
  }

  /** A `Cancel`, whole, whatever the node's behaviour: done exactly when the object is served, the value
      reads as a request, the hook agrees and the client is engaged with the object; it then neither holds
      the object nor has a command armed on it, and nothing of anybody else's has changed. Refused by the
      hook it leaves everything; refused for want of anything to cancel, likewise. */
  lemma CancelOutcome(plant: Plant, st: Server, assoc: AssocId, obj: string, value: Value, request: ControlRequest,
                      model: ControlModel, now: Now)
    requires ModelOf(st.values, obj) == Some(model) && RequestOfValue(value) == Some(request)
    ensures var ready := Ready(plant, st, now);
            var says := HookSays(plant, ready.asked, ControlEvent(obj, Cancel, request, model));
            var (after, answer) := WriteStep(plant, st, assoc, obj, "Cancel", value, now);
            && (answer == Done <==> says.None? && Engaged(ready, assoc, obj))
            && (answer == Done ==> Cancelled(ready, after, assoc, obj))
            && (answer != Done ==>
                  answer == Refused(3)
                  && RefusedFor(ready, after, st.serial, assoc, obj, request, if says.Some? then says.value else 18))
            && Asked(ready, after, true)
  {
    hide Ready, ModelOf, RequestOfValue, ModeRefusal, BehaviourOf, WriteStep, Refuse, SelectWithValueStep, OperateStep,
         Keep, TimedSerials;
    var ready := Ready(plant, st, now);
    WriteServes(plant, st, assoc, obj, "Cancel", value, request, model, now);
    var says := HookSays(plant, ready.asked, ControlEvent(obj, Cancel, request, model));
    var asked := ready.(asked := ready.asked + 1);
    var cause := if says.Some? then says.value else 18;
    RefuseIs(asked, st.serial, assoc, obj, request, model, Cancel, cause);
    RefusedFrame(ready, asked, Refuse(asked, st.serial, assoc, obj, request, model, Cancel, cause).0, st.serial, assoc,
                 obj, request, cause);
    DisarmIs(asked, assoc, obj);
    DisarmKeeps(asked, assoc, obj);
    var bare := Disarm(asked, assoc, obj);
    RefuseIs(bare, st.serial, assoc, obj, request, model, Cancel, cause);
    if !(exists t <- ready.timed :: t.obj == obj && t.assoc == assoc) {
      KeepEverything(ready.timed, (t: Timed) => !(t.obj == obj && t.assoc == assoc));
    }
    KeepMembers(ready.timed, (t: Timed) => !(t.obj == obj && t.assoc == assoc));
  }

  /** What a cancel done takes away: the client's selection of the object and what it has armed on it. */
  predicate Cancelled(st: Server, after: Server, assoc: AssocId, obj: string) {
    && !Engaged(after, assoc, obj)
    && after.selections
       == (if obj in st.selections && st.selections[obj].assoc == assoc then st.selections - {obj} else st.selections)
    && after.timed == Keep(st.timed, (t: Timed) => !(t.obj == obj && t.assoc == assoc))
    && after.values == st.values && after.pending == st.pending && after.history.attempts == st.history.attempts
    && after.serial == st.serial
  }

  // ---- a due command ----

  /** Why a due command is refused, if it is: the node's number and the hook, both as they stand now. */
  function DueRefusal(plant: Plant, st: Server, t: Timed, c: int): Option<int> {
    if !Admitted(c, t.request.test) then Some(8)
    else HookSays(plant, st.asked, ControlEvent(t.obj, Operate, t.request, t.model))
  }

  /** One due command, whole: refused it is told so under any model and changes nothing; otherwise its
      status and its own time are written, and only under enhanced security it is told so. */
  lemma DueOutcome(plant: Plant, st: Server, t: Timed, domain: string, ln: string, path: string, c: int, now: Instant)
    requires Addresses(t.obj, domain, ln, path) && NodeNumber(st.values, domain + "/" + ln, c)
    ensures var refusal, after, n := DueRefusal(plant, st, t, c), RunOne(plant, st, t, now), |st.history.attempts|;
            var base := domain + "/" + ln + "$ST$" + path;
            && |after.history.attempts| == n + 1 && after.history.attempts[..n] == st.history.attempts
            && after.history.attempts[n].refusal == refusal && after.history.attempts[n].serial == t.serial
            && after.history.attempts[n].asked == st.asked && Asked(st, after, Admitted(c, t.request.test))
            && after.timed == st.timed && after.selections == st.selections && after.lastCause == st.lastCause
            && if refusal.Some? then
                 && after.values == st.values
                 && |after.pending| == |st.pending| + 1 && after.pending[..|st.pending|] == st.pending
                 && var x := after.pending[|st.pending|];
                    x.assoc == t.assoc && x.serial == t.serial && x.pdu.Negative? && x.pdu.obj == t.obj
                    && x.pdu.request == t.request
                    && x.pdu.addCause == refusal.value
               else
                 && after.values
                    == Stored(plant.accepts, Stored(plant.accepts, st.values, base + "$stVal", t.request.ctlVal),
                                           base + "$t", Utc(t.request.t))
                 && after.pending == st.pending + if t.model.DirectEnhanced? || t.model.SboEnhanced?
                                                  then [Termination(t.assoc, Positive(t.obj, t.request), t.serial)]
                                                  else []
  {
    hide ModeRefusal, BehaviourOf, ControlParts, NodeNumber;
    AddressesExactly(t.obj, domain, ln, path);
    assert t.obj == domain + "/" + ln + "$" + ("CO$" + path);
    BehaviourByNumber(st.values, t.obj, domain, ln, "CO$" + path, c);
  }

  // ---- the other steps ----

  /** A timeout set is how long the next selection granted holds. */
  lemma TimeoutSetHolds(plant: Plant, st: Server, ms: U64, assoc: AssocId, obj: string, now: Now)
    ensures var (after, granted) := SelectStep(plant, Do(plant, st, Configure(ms)), assoc, obj, now);
            granted ==>
              && obj in after.selections
              && after.selections[obj].expires
                 == (if now.mono + ms * 1_000_000 <= 0xFFFF_FFFF_FFFF_FFFF then now.mono + ms * 1_000_000
                     else 0xFFFF_FFFF_FFFF_FFFF)
  {
    hide ModelOf, BehaviourOf, ModeRefusal, OnTimeout;
    SelectGrantedExactly(plant, Do(plant, st, Configure(ms)), assoc, obj, now);
  }

  /** A cause handed over is gone, what is flushed is sent in order and no longer pending, what the rest of
      the device writes is what the model holds, and none of these does anything else. */
  lemma OtherSteps(plant: Plant, st: Server, ms: U64, values: map<string, Value>)
    ensures Do(plant, st, TakeCause).lastCause.None? && Do(plant, st, TakeCause).(lastCause := st.lastCause) == st
    ensures var after := Do(plant, st, Flush);
            && after.pending == [] && after.history.sent == st.history.sent + st.pending
            && after.(pending := st.pending, history := after.history.(sent := st.history.sent)) == st
    ensures Do(plant, st, Environment(values)).values == values
            && Do(plant, st, Environment(values)).(values := st.values) == st
    ensures Do(plant, st, Configure(ms)).(sboTimeoutMs := st.sboTimeoutMs) == st
  {
  }
}
