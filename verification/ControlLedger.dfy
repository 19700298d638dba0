/** The termination ledger: in every run, every command accepted under enhanced security is
    answered once, or still armed, or withdrawn, and never two of these. */
module ControlLedger {
  import opened Sequences
  import opened Common
  import opened Octets
  import opened Data
  import opened ControlMessage
  import opened Control

  /** How many armed commands carry the number `k`. */
  function Armed(ts: seq<Timed>, k: nat): nat {
    if ts == [] then 0 else (if ts[0].serial == k then 1 else 0) + Armed(ts[1..], k)
  }

  /** How many answers carry the number `k`. */
  function Answers(ts: seq<Termination>, k: nat): nat {
    if ts == [] then 0 else Answers(ts[..|ts| - 1], k) + if ts[|ts| - 1].serial == k then 1 else 0
  }

  /** How many attempts carry the number `k`. */
  function Tries(ts: seq<Attempt>, k: nat): nat {
    if ts == [] then 0 else Tries(ts[..|ts| - 1], k) + if ts[|ts| - 1].serial == k then 1 else 0
  }

  /** Every answer ever given, sent or still waiting to be. */
  function Told(st: Server): seq<Termination> {
    st.history.sent + st.pending
  }

  function ToldTo(st: Server, k: nat): nat {
    Answers(Told(st), k)
  }

  function Withdrawn(st: Server, k: nat): nat {
    multiset(st.history.withdrawn)[k]
  }

  /** What has become of the request numbered `k`. */
  predicate Accounted(st: Server, k: nat) {
    var told, armed, gone, tried := ToldTo(st, k), Armed(st.timed, k), Withdrawn(st, k), Tries(st.history.attempts, k);
    && (k >= st.serial ==> told + armed + gone + tried == 0 && k !in st.history.owed)
    && told + armed + gone <= 1
    && tried + armed + gone <= 1
    && (k in st.history.owed ==> told + armed + gone == 1)
    && (forall t <- st.timed :: t.serial == k ==> (k in st.history.owed <==> t.model.Enhanced()))
  }

  /** Nothing has happened to the request numbered `k` yet. */
  predicate Untouched(st: Server, k: nat) {
    ToldTo(st, k) + Armed(st.timed, k) + Withdrawn(st, k) + Tries(st.history.attempts, k) == 0
    && k !in st.history.owed
  }

  // ---- counting ----

  lemma AnswersSnoc(ts: seq<Termination>, t: Termination, k: nat)
    ensures Answers(ts + [t], k) == Answers(ts, k) + if t.serial == k then 1 else 0
  {
    assert (ts + [t])[..|ts|] == ts;
  }

  lemma TriesSnoc(ts: seq<Attempt>, t: Attempt, k: nat)
    ensures Tries(ts + [t], k) == Tries(ts, k) + if t.serial == k then 1 else 0
  {
    assert (ts + [t])[..|ts|] == ts;
  }

  lemma {:induction false} ArmedSnoc(ts: seq<Timed>, t: Timed, k: nat)
    ensures Armed(ts + [t], k) == Armed(ts, k) + if t.serial == k then 1 else 0
  {
    if ts != [] {
      assert (ts + [t])[1..] == ts[1..] + [t];
      ArmedSnoc(ts[1..], t, k);
    }
  }

  lemma {:induction false} ArmedMember(ts: seq<Timed>, t: Timed)
    requires t in ts
    ensures Armed(ts, t.serial) >= 1
  {
    if ts[0] != t {
      ArmedMember(ts[1..], t);
    }
  }

  lemma {:induction false} SerialsCount(ts: seq<Timed>, k: nat)
    ensures multiset(TimedSerials(ts))[k] == Armed(ts, k)
  {
    if ts != [] {
      SerialsCount(ts[1..], k);
      assert TimedSerials(ts) == [ts[0].serial] + TimedSerials(ts[1..]);
    }
  }

  /** Splitting a queue in two loses nothing and invents nothing. */
  lemma {:induction false} KeepSplits(ts: seq<Timed>, p: Timed -> bool, q: Timed -> bool, k: nat)
    requires forall t :: q(t) <==> !p(t)
    ensures Armed(Keep(ts, p), k) + Armed(Keep(ts, q), k) == Armed(ts, k)
    ensures forall t :: t in Keep(ts, p) <==> t in ts && p(t)
    ensures forall t :: t in Keep(ts, q) <==> t in ts && q(t)
  {
    if ts != [] {
      KeepSplits(ts[1..], p, q, k);
    }
  }

  // ---- one piece of a step at a time, for one number ----

  lemma PushCounts(st: Server, assoc: AssocId, pdu: Pdu, n: nat, k: nat)
    ensures ToldTo(Push(st, assoc, pdu, n), k) == ToldTo(st, k) + if n == k then 1 else 0
  {
    var t := Termination(assoc, pdu, n);
    AnswersSnoc(Told(st), t, k);
    assert Told(Push(st, assoc, pdu, n)) == Told(st) + [t];
  }

  lemma DisarmCounts(st: Server, assoc: AssocId, obj: string, k: nat)
    requires Accounted(st, k)
    ensures var after := Disarm(st, assoc, obj);
            && Accounted(after, k)
            && (Untouched(st, k) ==> Untouched(after, k))
  {
    var keep, drop := (t: Timed) => !Mine(t, assoc, obj), (t: Timed) => Mine(t, assoc, obj);
    KeepSplits(st.timed, keep, drop, k);
    SerialsCount(Keep(st.timed, drop), k);
  }

  lemma ClosedCounts(st: Server, assoc: AssocId, k: nat)
    requires Accounted(st, k)
    ensures Accounted(OnClosed(st, assoc), k)
  {
    var keep, drop := (t: Timed) => t.assoc != assoc, (t: Timed) => t.assoc == assoc;
    KeepSplits(st.timed, keep, drop, k);
    SerialsCount(Keep(st.timed, drop), k);
  }

  /** Running one due command answers it if it was owed, and tries it once. */
  lemma RunOneCounts(plant: Plant, st: Server, t: Timed, now: Instant, k: nat)
    ensures var after := RunOne(plant, st, t, now);
            && after.timed == st.timed && after.serial == st.serial && after.selections == st.selections
            && after.history.owed == st.history.owed && after.history.withdrawn == st.history.withdrawn
            && Tries(after.history.attempts, k) == Tries(st.history.attempts, k) + (if t.serial == k then 1 else 0)
            && ToldTo(after, k) <= ToldTo(st, k) + (if t.serial == k then 1 else 0)
            && ToldTo(st, k) <= ToldTo(after, k)
            && (t.model.Enhanced() ==> ToldTo(after, k) == ToldTo(st, k) + (if t.serial == k then 1 else 0))
  {
    hide ModeRefusal, BehaviourOf, Apply, Ask;
    var after := RunOne(plant, st, t, now);
    var byMode := ModeRefusal(BehaviourOf(st.values, t.obj), t.request.test);
    var refusal := if byMode.Some? then byMode
                   else Ask(plant, st.asked, ControlEvent(t.obj, Operate, t.request, t.model));
    TriesSnoc(st.history.attempts,
              Attempt(t.serial, t.assoc, t.obj, t.request, t.model, now, Some(t.due), st.values, st.asked, refusal), k);
    if refusal.Some? {
      PushCounts(st, t.assoc, Negative(t.obj, t.request, refusal.value), t.serial, k);
    } else {
      PushCounts(st, t.assoc, Positive(t.obj, t.request), t.serial, k);
    }
  }

  lemma {:induction false} RunDueCounts(plant: Plant, st: Server, due: seq<Timed>, now: Instant, k: nat)
    ensures var after := RunDue(plant, st, due, now);
            && after.timed == st.timed && after.serial == st.serial && after.selections == st.selections
            && after.history.owed == st.history.owed && after.history.withdrawn == st.history.withdrawn
            && Tries(after.history.attempts, k) == Tries(st.history.attempts, k) + Armed(due, k)
            && ToldTo(after, k) <= ToldTo(st, k) + Armed(due, k)
            && ToldTo(st, k) <= ToldTo(after, k)
            && ((forall t <- due :: t.serial == k ==> t.model.Enhanced())
                ==> ToldTo(after, k) == ToldTo(st, k) + Armed(due, k))
    decreases |due|
  {
    hide RunOne, ToldTo, Tries;
    if due != [] {
      RunOneCounts(plant, st, due[0], now, k);
      RunDueCounts(plant, RunOne(plant, st, due[0], now), due[1..], now, k);
    }
  }

  lemma OnTimeoutCounts(plant: Plant, st: Server, now: Instant, k: nat)
    requires Accounted(st, k)
    ensures var after := OnTimeout(plant, st, now);
            && Accounted(after, k) && after.serial == st.serial
            && (Untouched(st, k) ==> Untouched(after, k))
  {
    hide RunDue, Tries;
    var live := Retain(st, (s: Selection) => now < s.expires);
    if !(forall t <- st.timed :: now < t.due) {
      var early, late := (t: Timed) => now < t.due, (t: Timed) => now >= t.due;
      KeepSplits(st.timed, early, late, k);
      var waiting := live.(timed := Keep(st.timed, early));
      assert ToldTo(waiting, k) == ToldTo(st, k);
      RunDueCounts(plant, waiting, Keep(st.timed, late), now, k);
    }
  }

  // ---- requests ----

  /** Between the start of the request numbered `j` and its answer: every other number stays
      accounted for, and `j` is either untouched or has exactly the fate `answer` promises. */
  predicate Served(st: Server, j: nat, owes: bool, model: ControlModel, k: nat) {
    if k != j then Accounted(st, k)
    else
      var told, armed, gone, tried := ToldTo(st, k), Armed(st.timed, k), Withdrawn(st, k),
                                      Tries(st.history.attempts, k);
      && k < st.serial && k !in st.history.owed
      && gone == 0 && told + armed <= 1 && tried + armed <= 1
      && (owes ==> told + armed == 1)
      && (forall t <- st.timed :: t.serial == k ==> t.model == model && owes == model.Enhanced())
  }

  lemma RefuseServed(st: Server, j: nat, assoc: AssocId, obj: string, request: ControlRequest, model: ControlModel,
                     stage: Stage, cause: AddCause, k: nat)
    requires Accounted(st, k) && (k == j ==> Untouched(st, j) && j < st.serial)
    ensures var (after, answer) := Refuse(st, j, assoc, obj, request, model, stage, cause);
            Served(after, j, stage == Operate && answer == Done && model.Enhanced(), model, k)
  {
    PushCounts(st, assoc, Negative(obj, request, cause), j, k);
    if k == j {
      UntouchedNotArmed(st, j);
    }
  }

  lemma UntouchedNotArmed(st: Server, j: nat)
    requires Untouched(st, j)
    ensures forall t <- st.timed :: t.serial != j
  {
    forall t | t in st.timed
      ensures t.serial != j
    {
      ArmedMember(st.timed, t);
    }
  }

  lemma OperateServed(plant: Plant, st: Server, j: nat, assoc: AssocId, obj: string, request: ControlRequest,
                      model: ControlModel, now: Now, k: nat)
    requires Accounted(st, k) && (k == j ==> Untouched(st, j) && j < st.serial)
    ensures var (after, answer) := OperateStep(plant, st, j, assoc, obj, request, model, now);
            Served(after, j, answer == Done && model.Enhanced(), model, k)
  {
    hide Ask, Apply, SelectFault, WaitFor, Accounted, Untouched, Refuse, Served;
    var asked := st.(asked := st.asked + 1);
    var verdict := Ask(plant, st.asked, ControlEvent(obj, Operate, request, model));
    BookkeepingCounts(st, asked, k);
    if model == StatusOnly {
      RefuseServed(st, j, assoc, obj, request, model, Operate, NOT_SUPPORTED, k);
    } else if model.NeedsSelect() && SelectFault(st, obj, assoc, request).Some? {
      RefuseServed(st, j, assoc, obj, request, model, Operate, SelectFault(st, obj, assoc, request).value, k);
    } else if verdict.Some? {
      RefuseServed(asked, j, assoc, obj, request, model, Operate, verdict.value, k);
    } else {
      var taken := Consume(asked, j, assoc, obj, request, model, now);
      BookkeepingCounts(asked, taken, k);
      var wait := WaitFor(request, now.wall);
      if wait.Some? {
        ArmServed(taken, j, assoc, obj, request, model, wait.value, now, k);
      } else {
        CarryOutServed(plant, taken, j, assoc, obj, request, model, st.asked, now, k);
      }
    }
  }

  /** What the ledger does not look at may change freely. */
  lemma BookkeepingCounts(st: Server, after: Server, k: nat)
    requires after.timed == st.timed && after.pending == st.pending && after.serial == st.serial
    requires after.history.sent == st.history.sent && after.history.attempts == st.history.attempts
    requires after.history.withdrawn == st.history.withdrawn && after.history.owed == st.history.owed
    ensures Accounted(st, k) ==> Accounted(after, k)
    ensures Untouched(st, k) ==> Untouched(after, k)
  {
  }

  lemma ArmServed(st: Server, j: nat, assoc: AssocId, obj: string, request: ControlRequest, model: ControlModel,
                  wait: nat, now: Now, k: nat)
    requires Accounted(st, k) && (k == j ==> Untouched(st, j) && j < st.serial)
    ensures Served(Arm(st, j, assoc, obj, request, model, wait, now), j, model.Enhanced(), model, k)
  {
    var bare := Disarm(st, assoc, obj);
    DisarmCounts(st, assoc, obj, k);
    var t := Timed(j, assoc, obj, request.(t := now.wall), model, PlusNanos(now.mono, wait));
    ArmedSnoc(bare.timed, t, k);
    if k == j {
      UntouchedNotArmed(bare, j);
    }
  }

  lemma CarryOutServed(plant: Plant, st: Server, j: nat, assoc: AssocId, obj: string, request: ControlRequest,
                       model: ControlModel, asked: nat, now: Now, k: nat)
    requires Accounted(st, k) && (k == j ==> Untouched(st, j) && j < st.serial)
    ensures Served(CarryOut(plant, st, j, assoc, obj, request, model, asked, now), j, model.Enhanced(), model, k)
  {
    hide Apply;
    TriesSnoc(st.history.attempts, Attempt(j, assoc, obj, request, model, now.mono, None, st.values, asked, None), k);
    var applied := st.(
      values := Apply(plant, st.values, obj, request, now.wall),
      history := st.history.(attempts := st.history.attempts
        + [Attempt(j, assoc, obj, request, model, now.mono, None, st.values, asked, None)]));
    PushCounts(applied, assoc, Positive(obj, request), j, k);
    assert ToldTo(applied, k) == ToldTo(st, k);
    if k == j {
      UntouchedNotArmed(st, j);
    }
  }

  lemma UntouchedServed(st: Server, j: nat, model: ControlModel, k: nat)
    requires Accounted(st, k) && (k == j ==> Untouched(st, j) && j < st.serial)
    ensures Served(st, j, false, model, k)
  {
    if k == j {
      UntouchedNotArmed(st, j);
    }
  }

  lemma SelectWithValueServed(plant: Plant, st: Server, j: nat, assoc: AssocId, obj: string, request: ControlRequest,
                              model: ControlModel, now: Now, k: nat)
    requires Accounted(st, k) && (k == j ==> Untouched(st, j) && j < st.serial)
    ensures Served(SelectWithValueStep(plant, st, j, assoc, obj, request, model, now).0, j, false, model, k)
  {
    hide Ask, Accounted, Untouched, Refuse, Served;
    var asked := st.(asked := st.asked + 1);
    var verdict := Ask(plant, st.asked, ControlEvent(obj, Select, request, model));
    BookkeepingCounts(st, asked, k);
    if model != SboEnhanced {
      RefuseServed(st, j, assoc, obj, request, model, Select, NOT_SUPPORTED, k);
    } else if HeldByOther(st, obj, assoc, now.mono) {
      RefuseServed(st, j, assoc, obj, request, model, Select, OBJECT_ALREADY_SELECTED, k);
    } else if verdict.Some? {
      RefuseServed(asked, j, assoc, obj, request, model, Select, verdict.value, k);
    } else {
      var granted := GrantSelection(asked, j, assoc, obj, Some(request.ctlVal), request.ctlNum, now.mono);
      BookkeepingCounts(asked, granted, k);
      UntouchedServed(granted, j, model, k);
    }
  }

  lemma CancelServed(plant: Plant, st: Server, j: nat, assoc: AssocId, obj: string, request: ControlRequest,
                     model: ControlModel, k: nat)
    requires Accounted(st, k) && (k == j ==> Untouched(st, j) && j < st.serial)
    ensures Served(CancelStep(plant, st, j, assoc, obj, request, model).0, j, false, model, k)
  {
    hide Ask, Accounted, Untouched, Refuse, Served, Disarm;
    var asked := st.(asked := st.asked + 1);
    var verdict := Ask(plant, st.asked, ControlEvent(obj, Cancel, request, model));
    BookkeepingCounts(st, asked, k);
    if verdict.Some? {
      RefuseServed(asked, j, assoc, obj, request, model, Cancel, verdict.value, k);
    } else {
      var bare := Disarm(asked, assoc, obj);
      DisarmKeepsSerial(asked, assoc, obj);
      DisarmCounts(asked, assoc, obj, k);
      BookkeepingCounts(bare, Deselect(bare, obj), k);
      UntouchedServed(bare, j, model, k);
      UntouchedServed(Deselect(bare, obj), j, model, k);
      RefuseServed(bare, j, assoc, obj, request, model, Cancel, OBJECT_NOT_SELECTED, k);
    }
  }

  lemma DisarmKeepsSerial(st: Server, assoc: AssocId, obj: string)
    ensures Disarm(st, assoc, obj).serial == st.serial
  {
  }

  lemma ServiceServed(plant: Plant, st: Server, j: nat, assoc: AssocId, obj: string, attribute: string,
                      request: ControlRequest, model: ControlModel, now: Now, k: nat)
    requires Accounted(st, k) && (k == j ==> Untouched(st, j) && j < st.serial)
    ensures var (after, answer) := ServiceStep(plant, st, j, assoc, obj, attribute, request, model, now);
            Served(after, j, attribute == "Oper" && answer == Done && model.Enhanced(), model, k)
  {
    hide OnTimeout, ModeRefusal, BehaviourOf, OperateStep, SelectWithValueStep, CancelStep, Refuse, Served, Accounted,
         Untouched;
    var ready := OnTimeout(plant, st, now.mono);
    OnTimeoutCounts(plant, st, now.mono, k);
    var byMode := ModeRefusal(BehaviourOf(ready.values, obj), request.test);
    if attribute != "Cancel" && byMode.Some? {
      RefuseServed(ready, j, assoc, obj, request, model, if attribute == "Oper" then Operate else Select, byMode.value,
                   k);
    } else if attribute == "SBOw" {
      SelectWithValueServed(plant, ready, j, assoc, obj, request, model, now, k);
    } else if attribute == "Cancel" {
      CancelServed(plant, ready, j, assoc, obj, request, model, k);
    } else if attribute == "Oper" {
      OperateServed(plant, ready, j, assoc, obj, request, model, now, k);
    } else {
      UntouchedServed(ready, j, model, k);
    }
  }

  lemma NextUntouched(st: Server, k: nat)
    requires Accounted(st, k)
    ensures var next := st.(serial := st.serial + 1); Accounted(next, k) && (k == st.serial ==> Untouched(next, k))
  {
  }

  /** Whatever a request left, booking what it owes closes its account. */
  lemma BookAccounted(st: Server, j: nat, attribute: string, model: ControlModel, answer: Answer, k: nat)
    requires Served(st, j, attribute == "Oper" && answer == Done && model.Enhanced(), model, k)
    ensures Accounted(Book(st, j, attribute, model, answer), k)
  {
    assert ToldTo(Book(st, j, attribute, model, answer), k) == ToldTo(st, k);
  }

  lemma WriteAccounted(plant: Plant, st: Server, assoc: AssocId, obj: string, attribute: string, value: Value, now: Now,
                       k: nat)
    requires Accounted(st, k)
    ensures Accounted(WriteStep(plant, st, assoc, obj, attribute, value, now).0, k)
  {
    hide ServiceStep, ModelOf, RequestOfValue, Accounted, Untouched, Served, Book;
    var j, next := st.serial, st.(serial := st.serial + 1);
    var model, request := ModelOf(st.values, obj), RequestOfValue(value);
    NextUntouched(st, k);
    if model.Some? && request.Some? {
      ServiceServed(plant, next, j, assoc, obj, attribute, request.value, model.value, now, k);
      var (after, answer) := ServiceStep(plant, next, j, assoc, obj, attribute, request.value, model.value, now);
      BookAccounted(after, j, attribute, model.value, answer, k);
    }
  }

  lemma SelectAccounted(plant: Plant, st: Server, assoc: AssocId, obj: string, now: Now, k: nat)
    requires Accounted(st, k)
    ensures Accounted(SelectStep(plant, st, assoc, obj, now).0, k)
  {
    hide Accounted, Untouched, ModelOf, ModeRefusal, BehaviourOf, Ask, PlusMillis, HeldByOther;
    var next := st.(serial := st.serial + 1);
    NextUntouched(st, k);
    BookkeepingCounts(next, SelectStep(plant, st, assoc, obj, now).0, k);
  }

  lemma FlushAccounted(st: Server, k: nat)
    requires Accounted(st, k)
    ensures Accounted(Flushed(st), k)
  {
    hide Answers, Armed, Tries;
    assert Told(Flushed(st)) == Told(st);
  }

  lemma DoAccounted(plant: Plant, st: Server, step: Step, k: nat)
    requires Accounted(st, k)
    ensures Accounted(Do(plant, st, step), k)
  {
    hide WriteStep, SelectStep, OnTimeout, OnClosed, Flushed, Accounted, Untouched;
    match step
    case SelectRequest(assoc, obj, now) => SelectAccounted(plant, st, assoc, obj, now, k);
    case WriteRequest(assoc, obj, attribute, value, now) =>
      WriteAccounted(plant, st, assoc, obj, attribute, value, now, k);
    case Tick(at) => OnTimeoutCounts(plant, st, at, k);
    case Close(assoc) => ClosedCounts(st, assoc, k);
    case Flush => FlushAccounted(st, k);
    case _ => BookkeepingCounts(st, Do(plant, st, step), k);
  }

  lemma {:induction false} RunAccounted(plant: Plant, st: Server, steps: seq<Step>, k: nat)
    requires Accounted(st, k)
    ensures Accounted(Run(plant, st, steps), k)
    decreases |steps|
  {
    hide Accounted, Do;
    if steps != [] {
      DoAccounted(plant, st, steps[0], k);
      RunAccounted(plant, Do(plant, st, steps[0]), steps[1..], k);
    }
  }

  lemma FreshAccounted(values: map<string, Value>, sboTimeoutMs: U64, k: nat)
    ensures Accounted(Fresh(values, sboTimeoutMs), k)
  {
  }

  /** The ledger balances in every run: each `Oper` answered "accepted" under enhanced security has
      been answered for good exactly once, or is still armed, or was withdrawn; and nobody, owed or
      not, is ever answered twice. */
  lemma LedgerBalances(plant: Plant, values: map<string, Value>, sboTimeoutMs: U64, steps: seq<Step>)
    ensures var st := Run(plant, Fresh(values, sboTimeoutMs), steps);
            && (forall k :: k in st.history.owed ==> ToldTo(st, k) + Armed(st.timed, k) + Withdrawn(st, k) == 1)
            && (forall k: nat :: ToldTo(st, k) <= 1)
  {
    var st := Run(plant, Fresh(values, sboTimeoutMs), steps);
    forall k: nat
      ensures ToldTo(st, k) <= 1
      ensures k in st.history.owed ==> ToldTo(st, k) + Armed(st.timed, k) + Withdrawn(st, k) == 1
    {
      FreshAccounted(values, sboTimeoutMs, k);
      RunAccounted(plant, Fresh(values, sboTimeoutMs), steps, k);
    }
  }

  // ---- what is owed ----

  lemma OnTimeoutOwes(plant: Plant, st: Server, now: Instant)
    ensures OnTimeout(plant, st, now).history.owed == st.history.owed
  {
    hide RunDue, Tries, ToldTo;
    var live := Retain(st, (s: Selection) => now < s.expires);
    RunDueCounts(plant, live.(timed := Keep(st.timed, (t: Timed) => now < t.due)),
                 Keep(st.timed, (t: Timed) => now >= t.due), now, 0);
  }

  lemma OperateOwes(plant: Plant, st: Server, k: nat, assoc: AssocId, obj: string, request: ControlRequest,
                    model: ControlModel, now: Now)
    ensures OperateStep(plant, st, k, assoc, obj, request, model, now).0.history.owed == st.history.owed
  {
    hide Ask, Apply, SelectFault, WaitFor, Keep, PlusNanos, TimedSerials;
  }

  lemma SelectOwes(plant: Plant, st: Server, k: nat, assoc: AssocId, obj: string, request: ControlRequest,
                   model: ControlModel, now: Now)
    ensures SelectWithValueStep(plant, st, k, assoc, obj, request, model, now).0.history.owed == st.history.owed
  {
    hide Ask, PlusMillis, HeldByOther;
  }

  lemma CancelOwes(plant: Plant, st: Server, k: nat, assoc: AssocId, obj: string, request: ControlRequest,
                   model: ControlModel)
    ensures CancelStep(plant, st, k, assoc, obj, request, model).0.history.owed == st.history.owed
  {
    hide Ask, Keep, TimedSerials, Mine;
  }

  lemma ServiceOwes(plant: Plant, st: Server, k: nat, assoc: AssocId, obj: string, attribute: string,
                    request: ControlRequest, model: ControlModel, now: Now)
    ensures ServiceStep(plant, st, k, assoc, obj, attribute, request, model, now).0.history.owed == st.history.owed
  {
    hide OnTimeout, OperateStep, SelectWithValueStep, CancelStep, ModeRefusal, BehaviourOf;
    OnTimeoutOwes(plant, st, now.mono);
    var ready := OnTimeout(plant, st, now.mono);
    OperateOwes(plant, ready, k, assoc, obj, request, model, now);
    SelectOwes(plant, ready, k, assoc, obj, request, model, now);
    CancelOwes(plant, ready, k, assoc, obj, request, model);
  }

  /** What a step leaves owed besides what was owed already: the number of an `Oper` write answered
      "accepted" on an object served with enhanced security, and nothing else. */
  lemma OwedExactly(plant: Plant, st: Server, step: Step)
    ensures Do(plant, st, step).history.owed
            == st.history.owed
               + if && step.WriteRequest? && step.attribute == "Oper"
                    && ModelOf(st.values, step.obj).Some? && ModelOf(st.values, step.obj).value.Enhanced()
                    && WriteStep(plant, st, step.assoc, step.obj, step.attribute, step.value, step.now).1 == Done
                 then {st.serial} else {}
  {
    hide OnTimeout, ServiceStep, ModelOf, RequestOfValue, ModeRefusal, BehaviourOf, Ask, Keep, TimedSerials;
    match step
    case WriteRequest(assoc, obj, attribute, value, now) =>
      var model, request := ModelOf(st.values, obj), RequestOfValue(value);
      if model.Some? && request.Some? {
        ServiceOwes(plant, st.(serial := st.serial + 1), st.serial, assoc, obj, attribute, request.value, model.value,
                    now);
      }
    case Tick(at) => OnTimeoutOwes(plant, st, at);
    case _ =>
  }
}
