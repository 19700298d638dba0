/** One tick: what has fallen due runs in the order it was accepted, each command seeing what the ones
    before it did, and everybody concerned is told, nobody else. */
module ControlTick {
  import opened Sequences
  import opened Common
  import opened Octets
  import opened Data
  import opened ControlMessage
  import opened Control

  /** The model's values after an attempt. */
  function After(plant: Plant, a: Attempt): map<string, Value> {
    if a.refusal.Some? then a.before else Apply(plant, a.before, a.obj, a.request, a.request.t)
  }

  /** Attempts made one after another, each seeing what the earlier ones did. */
  predicate Chained(plant: Plant, attempts: seq<Attempt>, from: map<string, Value>, to: map<string, Value>) {
    if attempts == [] then from == to
    else attempts[0].before == from && Chained(plant, attempts[1..], After(plant, attempts[0]), to)
  }

  /** `longer` is `shorter`, then one attempt, then what follows it. */
  lemma TailAfterOne(shorter: seq<Attempt>, one: Attempt, longer: seq<Attempt>)
    requires shorter + [one] <= longer
    ensures var n := |shorter|; longer[..n] == shorter && longer[n..] == [one] + longer[n + 1..]
  {
    assert longer[..|shorter| + 1] == shorter + [one];
  }

  /** The attempt is this command's, made at `now`. */
  predicate AttemptOf(a: Attempt, t: Timed, now: Instant) {
    && a.serial == t.serial && a.assoc == t.assoc && a.obj == t.obj && a.request == t.request && a.model == t.model
    && a.at == now && a.due == Some(t.due)
  }

  /** One due command is one attempt, made against the values as they are. */
  lemma RunOneTries(plant: Plant, st: Server, t: Timed, now: Instant)
    ensures var next, n := RunOne(plant, st, t, now), |st.history.attempts|;
            && |next.history.attempts| == n + 1
            && next.history.attempts == st.history.attempts + [next.history.attempts[n]]
            && AttemptOf(next.history.attempts[n], t, now) && next.history.attempts[n].before == st.values
            && After(plant, next.history.attempts[n]) == next.values
  {
    hide ModeRefusal, BehaviourOf, Apply, Ask;
  }

  lemma {:induction false} RunDueTries(plant: Plant, st: Server, due: seq<Timed>, now: Instant)
    ensures var after, n := RunDue(plant, st, due, now), |st.history.attempts|;
            && st.history.attempts <= after.history.attempts
            && |after.history.attempts| == n + |due|
            && (forall i :: 0 <= i < |due| ==> AttemptOf(after.history.attempts[n..][i], due[i], now))
            && Chained(plant, after.history.attempts[n..], st.values, after.values)
    decreases |due|
  {
    hide RunOne, After, AttemptOf;
    if due != [] {
      var next := RunOne(plant, st, due[0], now);
      RunOneTries(plant, st, due[0], now);
      RunDueTries(plant, next, due[1..], now);
      var after, n := RunDue(plant, st, due, now), |st.history.attempts|;
      TailAfterOne(st.history.attempts, next.history.attempts[n], after.history.attempts);
      assert after.history.attempts[n..][1..] == after.history.attempts[n + 1..];
    } else {
      assert st.history.attempts[|st.history.attempts|..] == [];
    }
  }

  lemma {:induction false} RunDueLeaves(plant: Plant, st: Server, due: seq<Timed>, now: Instant)
    ensures var after := RunDue(plant, st, due, now);
            after.timed == st.timed && after.selections == st.selections && after.serial == st.serial
    decreases |due|
  {
    hide ModeRefusal, BehaviourOf, Apply, Ask;
    if due != [] {
      RunDueLeaves(plant, RunOne(plant, st, due[0], now), due[1..], now);
    }
  }

  /** Of the record only what was tried grows. */
  lemma {:induction false} RunDueRecords(plant: Plant, st: Server, due: seq<Timed>, now: Instant)
    ensures RunDue(plant, st, due, now).history == st.history.(attempts := RunDue(plant, st, due, now).history.attempts)
    decreases |due|
  {
    hide RunOne;
    if due != [] {
      RunOneRecords(plant, st, due[0], now);
      RunDueRecords(plant, RunOne(plant, st, due[0], now), due[1..], now);
    }
  }

  lemma RunOneRecords(plant: Plant, st: Server, t: Timed, now: Instant)
    ensures RunOne(plant, st, t, now).history == st.history.(attempts := RunOne(plant, st, t, now).history.attempts)
  {
    hide ModeRefusal, BehaviourOf, Apply, Ask;
  }

  /** A tick leaves nothing behind that is due: the next timeout is none, or later than now. */
  lemma NextTimeoutIsLater(plant: Plant, st: Server, now: Instant, next: Option<Instant>)
    requires NextTimeout(OnTimeout(plant, st, now), next)
    ensures next.None? || next.value > now
  {
    hide RunDue;
    var live := Retain(st, (s: Selection) => now < s.expires);
    KeepMembers(st.timed, (t: Timed) => now < t.due);
    RunDueLeaves(plant, live.(timed := Keep(st.timed, (t: Timed) => now < t.due)),
                 Keep(st.timed, (t: Timed) => now >= t.due), now);
  }

  // ---- the queue is in the order of acceptance ----

  /** Numbers rise along the queue and stay below `bound`. */
  predicate Rising(ts: seq<Timed>, bound: nat) {
    && (forall i, j :: 0 <= i < j < |ts| ==> ts[i].serial < ts[j].serial)
    && forall i :: 0 <= i < |ts| ==> ts[i].serial < bound
  }

  lemma {:induction false} KeepRising(ts: seq<Timed>, p: Timed -> bool, bound: nat)
    requires Rising(ts, bound)
    ensures Rising(Keep(ts, p), bound)
  {
    if ts != [] {
      KeepRising(ts[1..], p, bound);
      KeepMembers(ts[1..], p);
      var rest := Keep(ts[1..], p);
      forall i | 0 <= i < |rest|
        ensures ts[0].serial < rest[i].serial
      {
        assert rest[i] in ts[1..];
      }
    }
  }

  lemma OnTimeoutRising(plant: Plant, st: Server, now: Instant, bound: nat)
    requires Rising(st.timed, bound)
    ensures Rising(OnTimeout(plant, st, now).timed, bound) && OnTimeout(plant, st, now).serial == st.serial
  {
    hide RunDue, Rising;
    KeepRising(st.timed, (t: Timed) => now < t.due, bound);
    var live := Retain(st, (s: Selection) => now < s.expires);
    RunDueLeaves(plant, live.(timed := Keep(st.timed, (t: Timed) => now < t.due)),
                 Keep(st.timed, (t: Timed) => now >= t.due), now);
  }

  lemma RisingFurther(ts: seq<Timed>, k: nat)
    requires Rising(ts, k)
    ensures Rising(ts, k + 1)
  {
  }

  lemma ArmRising(st: Server, k: nat, assoc: AssocId, obj: string, request: ControlRequest, model: ControlModel,
                  wait: nat, now: Now)
    requires Rising(st.timed, k)
    ensures var after := Arm(st, k, assoc, obj, request, model, wait, now);
            Rising(after.timed, k + 1) && after.serial == st.serial
  {
    hide Disarm, PlusNanos;
    DisarmKeeps(st, assoc, obj);
    KeepRising(st.timed, (t: Timed) => !Mine(t, assoc, obj), k);
  }

  lemma CarryOutRising(plant: Plant, st: Server, k: nat, assoc: AssocId, obj: string, request: ControlRequest,
                       model: ControlModel, asked: nat, now: Now)
    ensures var after := CarryOut(plant, st, k, assoc, obj, request, model, asked, now);
            after.timed == st.timed && after.serial == st.serial
  {
    hide Apply;
  }

  lemma RefuseRising(st: Server, k: nat, assoc: AssocId, obj: string, request: ControlRequest, model: ControlModel)
    ensures forall cause: AddCause :: var after := Refuse(st, k, assoc, obj, request, model, Operate, cause).0;
              after.timed == st.timed && after.serial == st.serial
  {
  }

  lemma OperateRising(plant: Plant, st: Server, k: nat, assoc: AssocId, obj: string, request: ControlRequest,
                      model: ControlModel, now: Now)
    requires Rising(st.timed, k)
    ensures var after := OperateStep(plant, st, k, assoc, obj, request, model, now).0;
            Rising(after.timed, k + 1) && after.serial == st.serial
  {
    hide Ask, SelectFault, WaitFor, Arm, CarryOut, Refuse, Consume, Rising;
    var asked := st.(asked := st.asked + 1);
    var taken := Consume(asked, k, assoc, obj, request, model, now);
    ConsumeKeeps(asked, k, assoc, obj, request, model, now);
    RisingFurther(st.timed, k);
    RefuseRising(st, k, assoc, obj, request, model);
    RefuseRising(asked, k, assoc, obj, request, model);
    var wait := WaitFor(request, now.wall);
    if wait.Some? {
      ArmRising(taken, k, assoc, obj, request, model, wait.value, now);
    } else {
      CarryOutRising(plant, taken, k, assoc, obj, request, model, st.asked, now);
    }
  }

  lemma SelectRising(plant: Plant, st: Server, k: nat, assoc: AssocId, obj: string, request: ControlRequest,
                     model: ControlModel, now: Now)
    ensures var after := SelectWithValueStep(plant, st, k, assoc, obj, request, model, now).0;
            after.timed == st.timed && after.serial == st.serial
  {
    hide Ask, PlusMillis, HeldByOther;
  }

  lemma CancelRising(plant: Plant, st: Server, k: nat, assoc: AssocId, obj: string, request: ControlRequest,
                     model: ControlModel)
    requires Rising(st.timed, k)
    ensures var after := CancelStep(plant, st, k, assoc, obj, request, model).0;
            Rising(after.timed, k) && after.serial == st.serial
  {
    hide Ask, Keep, TimedSerials, Rising;
    KeepRising(st.timed, (t: Timed) => !Mine(t, assoc, obj), k);
  }

  lemma ServiceRising(plant: Plant, st: Server, k: nat, assoc: AssocId, obj: string, attribute: string,
                      request: ControlRequest, model: ControlModel, now: Now)
    requires Rising(st.timed, k)
    ensures var after := ServiceStep(plant, st, k, assoc, obj, attribute, request, model, now).0;
            Rising(after.timed, k + 1) && after.serial == st.serial
  {
    hide OnTimeout, OperateStep, SelectWithValueStep, CancelStep, ModeRefusal, BehaviourOf;
    OnTimeoutRising(plant, st, now.mono, k);
    var ready := OnTimeout(plant, st, now.mono);
    OperateRising(plant, ready, k, assoc, obj, request, model, now);
    SelectRising(plant, ready, k, assoc, obj, request, model, now);
    CancelRising(plant, ready, k, assoc, obj, request, model);
  }

  lemma DoRising(plant: Plant, st: Server, step: Step)
    requires Rising(st.timed, st.serial)
    ensures Rising(Do(plant, st, step).timed, Do(plant, st, step).serial)
  {
    hide OnTimeout, ServiceStep, ModelOf, RequestOfValue, ModeRefusal, BehaviourOf, Ask, Keep, TimedSerials, PlusMillis;
    match step
    case WriteRequest(assoc, obj, attribute, value, now) =>
      var model, request := ModelOf(st.values, obj), RequestOfValue(value);
      if model.Some? && request.Some? {
        ServiceRising(plant, st.(serial := st.serial + 1), st.serial, assoc, obj, attribute, request.value, model.value,
                      now);
      }
    case Tick(at) => OnTimeoutRising(plant, st, at, st.serial);
    case Close(assoc) => KeepRising(st.timed, (t: Timed) => t.assoc != assoc, st.serial);
    case _ =>
  }

  lemma {:induction false} RunRising(plant: Plant, st: Server, steps: seq<Step>)
    requires Rising(st.timed, st.serial)
    ensures Rising(Run(plant, st, steps).timed, Run(plant, st, steps).serial)
    decreases |steps|
  {
    hide Rising, Do;
    if steps != [] {
      DoRising(plant, st, steps[0]);
      RunRising(plant, Do(plant, st, steps[0]), steps[1..]);
    }
  }

  // ---- the tick ----

  /** The commands of the queue that have fallen due, in the order of the queue. */
  function Due(st: Server, now: Instant): seq<Timed> {
    Keep(st.timed, (t: Timed) => now >= t.due)
  }

  /** A tick tries exactly the commands that are due, once each, in the order of the queue, each against
      the values the earlier ones of the same tick left behind. */
  lemma TickTriesTheDue(plant: Plant, st: Server, now: Instant)
    ensures var after, due, n := OnTimeout(plant, st, now), Due(st, now), |st.history.attempts|;
            && (forall t :: t in due <==> t in st.timed && t.due <= now)
            && st.history.attempts <= after.history.attempts
            && |after.history.attempts| == n + |due|
            && (forall i :: 0 <= i < |due| ==> AttemptOf(after.history.attempts[n..][i], due[i], now))
            && Chained(plant, after.history.attempts[n..], st.values, after.values)
  {
    hide RunDue, AttemptOf, After;
    KeepMembers(st.timed, (t: Timed) => now >= t.due);
    var due := Due(st, now);
    var live := Retain(st, (s: Selection) => now < s.expires);
    var waiting := live.(timed := Keep(st.timed, (t: Timed) => now < t.due));
    if forall t <- st.timed :: now < t.due {
      KeepNothing(st.timed, (t: Timed) => now >= t.due);
      assert st.history.attempts[|st.history.attempts|..] == [];
    } else {
      RunDueTries(plant, waiting, due, now);
    }
  }

  predicate InDueOrder(attempts: seq<Attempt>) {
    forall i, j ::
      0 <= i < j < |attempts| && attempts[i].due.Some? && attempts[j].due.Some?
      ==> attempts[i].due.value <= attempts[j].due.value
  }

  predicate FallDueInOrder(ts: seq<Timed>) {
    forall i, j :: 0 <= i < j < |ts| ==> ts[i].due <= ts[j].due
  }

  lemma SameDues(attempts: seq<Attempt>, ts: seq<Timed>, now: Instant)
    requires |attempts| == |ts| && forall i :: 0 <= i < |ts| ==> AttemptOf(attempts[i], ts[i], now)
    ensures InDueOrder(attempts) <==> FallDueInOrder(ts)
  {
    assert forall i :: 0 <= i < |ts| ==> attempts[i].due == Some(ts[i].due);
  }

  /** A tick tries what is due in the order in which it fell due exactly when the due commands of the
      queue stand in that order. */
  lemma TickInDueOrderExactly(plant: Plant, st: Server, now: Instant)
    ensures var after, n := OnTimeout(plant, st, now), |st.history.attempts|;
            n <= |after.history.attempts| && (InDueOrder(after.history.attempts[n..]) <==> FallDueInOrder(Due(st, now)))
  {
    hide OnTimeout, Due, AttemptOf, InDueOrder, FallDueInOrder;
    TickTriesTheDue(plant, st, now);
    SameDues(OnTimeout(plant, st, now).history.attempts[|st.history.attempts|..], Due(st, now), now);
  }

  /** In every run the commands due at a tick are tried in the order in which they were accepted. */
  lemma TickInAcceptanceOrder(plant: Plant, values: map<string, Value>, sboTimeoutMs: U64, steps: seq<Step>,
                              now: Instant)
    ensures var st := Run(plant, Fresh(values, sboTimeoutMs), steps);
            var after := OnTimeout(plant, st, now);
            forall i, j ::
              |st.history.attempts| <= i < j < |after.history.attempts|
              ==> after.history.attempts[i].serial < after.history.attempts[j].serial
  {
    hide Run, OnTimeout;
    var st := Run(plant, Fresh(values, sboTimeoutMs), steps);
    RunRising(plant, Fresh(values, sboTimeoutMs), steps);
    KeepRising(st.timed, (t: Timed) => now >= t.due, st.serial);
    TickTriesTheDue(plant, st, now);
  }

  /** The answer is to this command. */
  predicate AnswerTo(x: Termination, t: Timed) {
    x.serial == t.serial && x.assoc == t.assoc && x.pdu.obj == t.obj && x.pdu.request == t.request
  }

  predicate AnswersOneOf(x: Termination, due: seq<Timed>) {
    exists t <- due :: AnswerTo(x, t)
  }

  lemma {:induction false} RunDueTells(plant: Plant, st: Server, due: seq<Timed>, now: Instant)
    ensures var after, n := RunDue(plant, st, due, now), |st.pending|;
            && n <= |after.pending| && after.pending[..n] == st.pending
            && forall i :: n <= i < |after.pending| ==> AnswersOneOf(after.pending[i], due)
    decreases |due|
  {
    hide RunOne, AnswerTo;
    if due != [] {
      var next := RunOne(plant, st, due[0], now);
      RunDueTells(plant, next, due[1..], now);
      RunOneTells(plant, st, due[0], now);
      var after := RunDue(plant, st, due, now);
      assert after.pending[..|st.pending|] == after.pending[..|next.pending|][..|st.pending|];
      forall i | |st.pending| <= i < |after.pending|
        ensures AnswersOneOf(after.pending[i], due)
      {
        if i < |next.pending| {
          assert after.pending[i] == after.pending[..|next.pending|][i];
          assert AnswerTo(after.pending[i], due[0]);
        } else {
          assert AnswersOneOf(after.pending[i], due[1..]);
        }
      }
    } else {
      assert st.pending[..|st.pending|] == st.pending;
    }
  }

  lemma RunOneTells(plant: Plant, st: Server, t: Timed, now: Instant)
    ensures var next := RunOne(plant, st, t, now);
            && |st.pending| <= |next.pending| <= |st.pending| + 1 && next.pending[..|st.pending|] == st.pending
            && (|next.pending| > |st.pending| ==> AnswerTo(next.pending[|st.pending|], t))
  {
    hide ModeRefusal, BehaviourOf, Apply, Ask;
  }

  /** A tick drops exactly the selections that have expired, and every answer it gives is to a command
      that has fallen due: nobody is told that a selection expired. */
  lemma ExpiryIsSilent(plant: Plant, st: Server, now: Instant)
    ensures var after, n := OnTimeout(plant, st, now), |st.pending|;
            && (forall o :: o in after.selections <==> o in st.selections && now < st.selections[o].expires)
            && n <= |after.pending| && after.pending[..n] == st.pending
            && forall i ::
                 n <= i < |after.pending| ==> exists t <- st.timed :: t.due <= now && AnswerTo(after.pending[i], t)
  {
    hide RunDue, AnswerTo;
    var due := Due(st, now);
    KeepMembers(st.timed, (t: Timed) => now >= t.due);
    var live := Retain(st, (s: Selection) => now < s.expires);
    var waiting := live.(timed := Keep(st.timed, (t: Timed) => now < t.due));
    if forall t <- st.timed :: now < t.due {
      assert st.pending[..|st.pending|] == st.pending;
    } else {
      RunDueLeaves(plant, waiting, due, now);
      RunDueTells(plant, waiting, due, now);
    }
  }
}
