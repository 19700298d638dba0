/** The control layer as the server keeps it: fields changed in place by each request, tick and
    lost association, proved against the steps of `Control`. */
module ControlServer {
  import opened Sequences
  import opened Common
  import opened Octets
  import opened Time
  import opened Data
  import opened ControlMessage
  import opened Text
  import opened Device
  import opened Control

  /** Carry a command out on the device. */
  method ApplyTo(ied: Ied, obj: string, request: ControlRequest, wall: UtcTime)
    modifies ied
    ensures forall hook :: ied.values == Control.Apply(Plant(hook, ied.accepts), old(ied.values), obj, request, wall)
  {
    var parts := ControlParts(obj);
    if parts.Some? {
      var (domain, ln, path) := parts.value;
      ied.Write(domain + "/" + ln + "$ST$" + path + "$stVal", request.ctlVal);
      ied.Write(domain + "/" + ln + "$ST$" + path + "$t", Utc(wall));
    }
  }

  /** Whether `reference` is one of the four service attributes of a controllable object. */
  function Split(reference: string): Option<(string, string)> {
    match RSplitOnce(reference, '$')
    case None => None
    case Some((obj, attribute)) => if attribute in ["Oper", "SBOw", "SBO", "Cancel"] then Some((obj, attribute))
                                   else None
  }

  /** Every service attribute of every object is found again, and nothing else is one. */
  lemma SplitExactly(reference: string, obj: string, attribute: string)
    ensures Split(reference) == Some((obj, attribute))
            <==> reference == obj + "$" + attribute && attribute in ["Oper", "SBOw", "SBO", "Cancel"]
  {
    if reference == obj + "$" + attribute && attribute in ["Oper", "SBOw", "SBO", "Cancel"] {
      RSplitOnceOfJoin(obj, '$', attribute);
    }
  }

  class Controls {
    var selections: map<string, Selection>
    var timed: seq<Timed>
    var hook: Option<(nat, ControlEvent) -> Option<AddCause>>
    var sboTimeoutMs: U64
    var pending: seq<Termination>
    var lastCause: Option<AddCause>
    /** How often the hook has been asked: all that tells its answers apart. */
    var asked: nat
    /** The number of the next request, and what has happened so far. No branch depends on either:
        they name things for the properties. */
    var serial: nat
    var history: History

    const DEFAULT_SBO_TIMEOUT_MS: U64 := 30_000

    constructor ()
      ensures hook == None && sboTimeoutMs == 30_000
      ensures forall ied: Ied :: State(ied) == Fresh(ied.values, 30_000)
    {
      selections, timed, hook, sboTimeoutMs, pending, lastCause := map[], [], None, DEFAULT_SBO_TIMEOUT_MS, [], None;
      asked, serial, history := 0, 0, History([], map[], {}, map[], [], [], {}, []);
    }

    ghost function State(ied: Ied): Server
      reads this, ied
    {
      Server(selections, timed, pending, lastCause, sboTimeoutMs, ied.values, asked, serial, history)
    }

    ghost function Behind(ied: Ied): Plant
      reads this`hook
    {
      Plant(hook, ied.accepts)
    }

    method SetSboTimeoutMs(ied: Ied, ms: U64)
      modifies this`sboTimeoutMs
      ensures State(ied) == Do(Behind(ied), old(State(ied)), Configure(ms))
    {
      sboTimeoutMs := ms;
    }

    /** The cause of the last refusal, cleared by the read. */
    method TakeLastCause(ied: Ied) returns (cause: Option<AddCause>)
      modifies this`lastCause
      ensures cause == old(lastCause) && State(ied) == Do(Behind(ied), old(State(ied)), TakeCause)
    {
      cause, lastCause := lastCause, None;
    }

    /** Hand over what is to be sent. */
    method TakePending(ied: Ied) returns (sent: seq<Termination>)
      modifies this`pending, this`history
      ensures sent == old(pending) && State(ied) == Flushed(old(State(ied)))
    {
      sent, pending := pending, [];
      history := history.(sent := history.sent + sent);
    }

    method Ask(event: ControlEvent) returns (cause: Option<AddCause>)
      modifies this`asked
      ensures forall accepts :: cause == Control.Ask(Plant(hook, accepts), old(asked), event)
      ensures asked == old(asked) + 1
    {
      match hook {
        case Some(h) => cause := h(asked, event);
        case None => cause := None;
      }
      asked := asked + 1;
    }

    method RetainSelections(ied: Ied, keep: Selection -> bool)
      modifies this`selections, this`history
      ensures State(ied) == Retain(old(State(ied)), keep)
    {
      history :=
          history.(ended := history.ended + set o | o in selections && !keep(selections[o]) :: selections[o].grant);
      selections := map o | o in selections && keep(selections[o]) :: selections[o];
    }

    method OnAssociationClosed(ied: Ied, assoc: AssocId)
      modifies this`selections, this`timed, this`history
      ensures State(ied) == OnClosed(old(State(ied)), assoc)
    {
      RetainSelections(ied, (s: Selection) => s.assoc != assoc);
      history := history.(withdrawn := history.withdrawn + TimedSerials(Keep(timed, (t: Timed) => t.assoc == assoc)));
      timed := Keep(timed, (t: Timed) => t.assoc != assoc);
    }

    method Refuse(ied: Ied, k: nat, assoc: AssocId, obj: string, request: ControlRequest, model: ControlModel,
                  stage: Stage, cause: AddCause)
      returns (answer: Answer)
      modifies this`lastCause, this`pending
      ensures (State(ied), answer) == Control.Refuse(old(State(ied)), k, assoc, obj, request, model, stage, cause)
    {
      lastCause := Some(cause);
      pending := pending + [Termination(assoc, Negative(obj, request, cause), k)];
      if model.Enhanced() && stage == Stage.Operate {
        answer := Done;
      } else {
        answer := Refused(DENIED);
      }
    }

    /** One due command: the behaviour and the hook are asked now, not when it was accepted. */
    method RunTimed(ied: Ied, t: Timed, now: Instant)
      modifies this`pending, this`asked, this`history, ied
      ensures State(ied) == RunOne(Behind(ied), old(State(ied)), t, now)
    {
      var question := asked;
      var refusal := ModeRefusal(BehaviourOf(ied.values, t.obj), t.request.test);
      if refusal.None? {
        refusal := Ask(ControlEvent(t.obj, Stage.Operate, t.request, t.model));
      }
      history := history.(attempts := history.attempts
        + [Attempt(t.serial, t.assoc, t.obj, t.request, t.model, now, Some(t.due), ied.values, question, refusal)]);
      if refusal.Some? {
        pending := pending + [Termination(t.assoc, Negative(t.obj, t.request, refusal.value), t.serial)];
      } else {
        ApplyTo(ied, t.obj, t.request, t.request.t);
        if t.model.Enhanced() {
          pending := pending + [Termination(t.assoc, Positive(t.obj, t.request), t.serial)];
        }
      }
    }

    method OnTimeout(ied: Ied, now: Instant)
      modifies this`selections, this`timed, this`pending, this`asked, this`history, ied
      ensures State(ied) == Control.OnTimeout(Behind(ied), old(State(ied)), now)
    {
      RetainSelections(ied, (s: Selection) => now < s.expires);
      if forall t <- timed :: now < t.due {
        return;
      }
      var due, waiting := Keep(timed, (t: Timed) => now >= t.due), Keep(timed, (t: Timed) => now < t.due);
      timed := waiting;
      ghost var start := State(ied);
      for i := 0 to |due|
        invariant RunDue(Behind(ied), State(ied), due[i..], now) == RunDue(Behind(ied), start, due, now)
      {
        RunTimed(ied, due[i], now);
        assert due[i..][1..] == due[i + 1..];
      }
      assert due[|due|..] == [];
    }

    /** A `Read` of `SBO`: the object's own reference when it is granted, empty when it is not. */
    method Select(ied: Ied, assoc: AssocId, obj: string, now: Now) returns (text: string)
      modifies this`selections, this`asked, this`serial, this`history
      ensures var (after, granted) := SelectStep(Behind(ied), old(State(ied)), assoc, obj, now);
              State(ied) == after && text == if granted then obj else ""
    {
      hide ModelOf, ModeRefusal, BehaviourOf, Control.Ask;
      var k := serial;
      serial := serial + 1;
      var model := ModelOf(ied.values, obj);
      if model != Some(SboNormal) {
        return "";
      }
      if HeldByOther(obj, assoc, now.mono) {
        return "";
      }
      if ModeRefusal(BehaviourOf(ied.values, obj), false).Some? {
        return "";
      }
      var request := ControlRequest(Boolean(false), None, Origin(3, []), 0, now.wall, false, Check(false, false));
      var cause := Ask(ControlEvent(obj, Stage.Select, request, SboNormal));
      if cause.Some? {
        return "";
      }
      Insert(ied, k, assoc, obj, None, 0, now.mono);
      return obj;
    }

    predicate HeldByOther(obj: string, assoc: AssocId, now: Instant)
      reads this`selections
    {
      obj in selections && selections[obj].assoc != assoc && now < selections[obj].expires
    }

    /** Put a selection in place of whatever is there. */
    method Insert(ied: Ied, k: nat, assoc: AssocId, obj: string, value: Option<Value>, ctlNum: U8, now: Instant)
      modifies this`selections, this`history
      ensures State(ied) == GrantSelection(old(State(ied)), k, assoc, obj, value, ctlNum, now)
    {
      var expires := PlusMillis(now, sboTimeoutMs);
      var grant := Grant(k, assoc, obj, value, ctlNum, expires);
      var number := |history.grants|;
      var ended := if obj in selections then history.ended + {selections[obj].grant} else history.ended;
      selections := selections[obj := Selection(assoc, value, ctlNum, expires, number)];
      history := history.(grants := history.grants + [grant], ended := ended);
    }

    /** Take a selection away unused. */
    method Remove(ied: Ied, obj: string)
      modifies this`selections, this`history
      ensures State(ied) == Deselect(old(State(ied)), obj)
    {
      if obj in selections {
        history := history.(ended := history.ended + {selections[obj].grant});
        selections := selections - {obj};
      }
    }

    /** Take one client's armed commands on one object out of the queue. */
    method Withdraw(ied: Ied, assoc: AssocId, obj: string)
      modifies this`timed, this`history
      ensures State(ied) == Disarm(old(State(ied)), assoc, obj)
    {
      var gone := Keep(timed, (t: Timed) => Mine(t, assoc, obj));
      timed := Keep(timed, (t: Timed) => !Mine(t, assoc, obj));
      history := history.(withdrawn := history.withdrawn + TimedSerials(gone));
    }

    method SelectWithValue(ied: Ied, k: nat, assoc: AssocId, obj: string, request: ControlRequest, model: ControlModel,
                           now: Now)
      returns (answer: Answer)
      modifies this
      ensures hook == old(hook)
      ensures (State(ied), answer)
              == SelectWithValueStep(Behind(ied), old(State(ied)), k, assoc, obj, request, model, now)
    {
      hide Control.Ask, GrantSelection;
      if model != SboEnhanced {
        answer := Refuse(ied, k, assoc, obj, request, model, Stage.Select, NOT_SUPPORTED);
        return;
      }
      if HeldByOther(obj, assoc, now.mono) {
        answer := Refuse(ied, k, assoc, obj, request, model, Stage.Select, OBJECT_ALREADY_SELECTED);
        return;
      }
      var cause := Ask(ControlEvent(obj, Stage.Select, request, model));
      if cause.Some? {
        answer := Refuse(ied, k, assoc, obj, request, model, Stage.Select, cause.value);
        return;
      }
      Insert(ied, k, assoc, obj, Some(request.ctlVal), request.ctlNum, now.mono);
      answer := Done;
    }

    method Cancel(ied: Ied, k: nat, assoc: AssocId, obj: string, request: ControlRequest,
                  model: ControlModel) returns (answer: Answer)
      modifies this
      ensures hook == old(hook)
      ensures (State(ied), answer) == CancelStep(Behind(ied), old(State(ied)), k, assoc, obj, request, model)
    {
      hide Control.Ask, Keep;
      var cause := Ask(ControlEvent(obj, Stage.Cancel, request, model));
      if cause.Some? {
        answer := Refuse(ied, k, assoc, obj, request, model, Stage.Cancel, cause.value);
        return;
      }
      var hadTimed := exists t <- timed :: Mine(t, assoc, obj);
      Withdraw(ied, assoc, obj);
      if obj in selections && selections[obj].assoc == assoc {
        Remove(ied, obj);
        answer := Done;
      } else if hadTimed {
        answer := Done;
      } else {
        answer := Refuse(ied, k, assoc, obj, request, model, Stage.Cancel, OBJECT_NOT_SELECTED);
      }
    }

    /** The selection checks of an `Oper`, in the order they are made. */
    method Fault(ied: Ied, assoc: AssocId, obj: string, request: ControlRequest) returns (cause: Option<AddCause>)
      ensures cause == SelectFault(State(ied), obj, assoc, request)
    {
      if obj !in selections {
        return Some(OBJECT_NOT_SELECTED);
      }
      var s := selections[obj];
      if s.assoc != assoc {
        return Some(OBJECT_NOT_SELECTED);
      }
      if s.value.Some? && !SameValue(s.value.value, request.ctlVal) {
        return Some(INCONSISTENT_PARAMETERS);
      }
      if s.ctlNum != 0 && s.ctlNum != request.ctlNum {
        return Some(INCONSISTENT_PARAMETERS);
      }
      return None;
    }

    method Operate(ied: Ied, k: nat, assoc: AssocId, obj: string, request: ControlRequest, model: ControlModel,
                   now: Now)
      returns (answer: Answer)
      modifies this, ied
      ensures hook == old(hook)
      ensures (State(ied), answer) == OperateStep(Behind(ied), old(State(ied)), k, assoc, obj, request, model, now)
    {
      hide Control.Ask, Control.Apply, SelectFault, WaitFor, Keep;
      if model == StatusOnly {
        answer := Refuse(ied, k, assoc, obj, request, model, Stage.Operate, NOT_SUPPORTED);
        return;
      }
      if model.NeedsSelect() {
        var fault := Fault(ied, assoc, obj, request);
        if fault.Some? {
          answer := Refuse(ied, k, assoc, obj, request, model, Stage.Operate, fault.value);
          return;
        }
      }
      var cause := Ask(ControlEvent(obj, Stage.Operate, request, model));
      if cause.Some? {
        answer := Refuse(ied, k, assoc, obj, request, model, Stage.Operate, cause.value);
        return;
      }
      Proceed(ied, k, assoc, obj, request, model, now);
      answer := Done;
    }

    /** What happens to an `Oper` that is let through: its selection is used up, and it is armed or
        carried out. */
    method Proceed(ied: Ied, k: nat, assoc: AssocId, obj: string, request: ControlRequest, model: ControlModel,
                   now: Now)
      requires asked > 0
      modifies this, ied
      ensures hook == old(hook)
      ensures var taken, wait := Consume(old(State(ied)), k, assoc, obj, request, model, now),
                                 WaitFor(request, now.wall);
              State(ied) == if wait.Some? then Arm(taken, k, assoc, obj, request, model, wait.value, now)
                            else CarryOut(Behind(ied), taken, k, assoc, obj, request, model, old(asked) - 1, now)
    {
      hide Control.Apply, WaitFor, Disarm;
      Use(ied, k, assoc, obj, request, model, now);
      var wait := WaitFor(request, now.wall);
      if wait.Some? {
        Withdraw(ied, assoc, obj);
        timed := timed + [Timed(k, assoc, obj, request.(t := now.wall), model, PlusNanos(now.mono, wait.value))];
        return;
      }
      history := history.(attempts := history.attempts
        + [Attempt(k, assoc, obj, request, model, now.mono, None, ied.values, asked - 1, None)]);
      ApplyTo(ied, obj, request, now.wall);
      if model.Enhanced() {
        pending := pending + [Termination(assoc, Positive(obj, request), k)];
      }
    }

    /** Remove the selection of an `Oper` that is let through, and record the act. */
    method Use(ied: Ied, k: nat, assoc: AssocId, obj: string, request: ControlRequest, model: ControlModel, now: Now)
      modifies this`selections, this`history
      ensures State(ied) == Consume(old(State(ied)), k, assoc, obj, request, model, now)
    {
      var act := Act(assoc, obj, request, model, now);
      if model.NeedsSelect() && obj in selections {
        history := history.(used := history.used[k := selections[obj].grant], acts := history.acts[k := act]);
        selections := selections - {obj};
      } else {
        Remove(ied, obj);
        history := history.(acts := history.acts[k := act]);
      }
    }

    /** A `Write` of `SBOw`, `Oper` or `Cancel`. */
    method Write(ied: Ied, assoc: AssocId, obj: string, attribute: string, value: Value,
                 now: Now) returns (answer: Answer)
      modifies this, ied
      ensures hook == old(hook)
      ensures (State(ied), answer) == WriteStep(Behind(ied), old(State(ied)), assoc, obj, attribute, value, now)
    {
      hide ModelOf, RequestOfValue, ServiceStep;
      var k := serial;
      serial := serial + 1;
      var model := ModelOf(ied.values, obj);
      if model.None? {
        return Refused(DENIED);
      }
      var request := RequestOfValue(value);
      if request.None? {
        return Refused(VALUE_INVALID);
      }
      answer := Serve(ied, k, assoc, obj, attribute, request.value, model.value, now);
      if attribute == "Oper" && answer == Done && model.value.Enhanced() {
        history := history.(owed := history.owed + {k});
      }
    }

    method Serve(ied: Ied, k: nat, assoc: AssocId, obj: string, attribute: string, request: ControlRequest,
                 model: ControlModel, now: Now)
      returns (answer: Answer)
      modifies this, ied
      ensures hook == old(hook)
      ensures (State(ied), answer)
              == ServiceStep(Behind(ied), old(State(ied)), k, assoc, obj, attribute, request, model, now)
    {
      hide Control.OnTimeout, ModeRefusal, BehaviourOf, SelectWithValueStep, CancelStep, OperateStep, Control.Refuse;
      OnTimeout(ied, now.mono);
      if attribute != "Cancel" {
        var byMode := ModeRefusal(BehaviourOf(ied.values, obj), request.test);
        if byMode.Some? {
          answer := Refuse(ied, k, assoc, obj, request, model,
                           if attribute == "Oper" then Stage.Operate else Stage.Select, byMode.value);
          return;
        }
      }
      if attribute == "SBOw" {
        answer := SelectWithValue(ied, k, assoc, obj, request, model, now);
      } else if attribute == "Cancel" {
        answer := Cancel(ied, k, assoc, obj, request, model);
      } else if attribute == "Oper" {
        answer := Operate(ied, k, assoc, obj, request, model, now);
      } else {
        answer := Refused(DENIED);
      }
    }

    /** The earliest selection expiry or due time. */
    method NextTimeout(ied: Ied) returns (next: Option<Instant>)
      ensures Control.NextTimeout(State(ied), next)
    {
      next := None;
      var left := selections.Keys;
      while left != {}
        invariant left <= selections.Keys
        invariant next.None? ==> left == selections.Keys
        invariant next.Some? ==> forall o <- selections.Keys - left :: next.value <= selections[o].expires
        invariant next.Some? ==> exists o <- selections :: next.value == selections[o].expires
        decreases left
      {
        var o :| o in left;
        if next.None? || selections[o].expires < next.value {
          next := Some(selections[o].expires);
        }
        left := left - {o};
      }
      for i := 0 to |timed|
        invariant next.None? ==> selections == map[] && i == 0
        invariant next.Some? ==> forall o <- selections :: next.value <= selections[o].expires
        invariant next.Some? ==> forall j :: 0 <= j < i ==> next.value <= timed[j].due
        invariant next.Some?
                  ==> (exists o <- selections :: next.value == selections[o].expires)
                      || (exists t <- timed :: next.value == t.due)
      {
        if next.None? || timed[i].due < next.value {
          next := Some(timed[i].due);
        }
      }
    }
  }
}
