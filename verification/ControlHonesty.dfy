/** Terminations tell the truth: in every run a positive one answers a command that was applied, and a
    negative one a command that never was and never will be. */
module ControlHonesty {
  import opened Sequences
  import opened Common
  import opened Octets
  import opened Data
  import opened ControlMessage
  import opened Control
  import opened ControlLedger

  /** How many positive answers carry the number `k`. */
  function Positives(ts: seq<Termination>, k: nat): nat {
    if ts == [] then 0
    else Positives(ts[..|ts| - 1], k) + if ts[|ts| - 1].serial == k && ts[|ts| - 1].pdu.Positive? then 1 else 0
  }

  /** How many negative answers carry the number `k`. */
  function Negatives(ts: seq<Termination>, k: nat): nat {
    if ts == [] then 0
    else Negatives(ts[..|ts| - 1], k) + if ts[|ts| - 1].serial == k && ts[|ts| - 1].pdu.Negative? then 1 else 0
  }

  /** How often the command numbered `k` was applied. */
  function Applied(attempts: seq<Attempt>, k: nat): nat {
    if attempts == [] then 0
    else
      var last := attempts[|attempts| - 1];
      Applied(attempts[..|attempts| - 1], k) + if last.serial == k && last.refusal.None? then 1 else 0
  }

  /** What has been decided about the command numbered `k`, or may still be. */
  function Fate(st: Server, k: nat): nat {
    Negatives(Told(st), k) + Applied(st.history.attempts, k) + Armed(st.timed, k)
  }

  predicate Honest(st: Server, k: nat) {
    && Fate(st, k) <= 1
    && Positives(Told(st), k) <= Applied(st.history.attempts, k)
    && (k >= st.serial ==> Fate(st, k) == 0)
  }

  /** Fates change only as `before` allows: by at most `room`, with nothing claimed that was not done. */
  predicate Moves(st: Server, after: Server, k: nat, room: nat) {
    && after.serial == st.serial
    && Fate(after, k) <= Fate(st, k) + room
    && Positives(Told(after), k) + Applied(st.history.attempts, k) <= Positives(Told(st), k)
       + Applied(after.history.attempts, k)
  }

  lemma PositivesSnoc(ts: seq<Termination>, t: Termination, k: nat)
    ensures Positives(ts + [t], k) == Positives(ts, k) + if t.serial == k && t.pdu.Positive? then 1 else 0
    ensures Negatives(ts + [t], k) == Negatives(ts, k) + if t.serial == k && t.pdu.Negative? then 1 else 0
  {
    assert (ts + [t])[..|ts|] == ts;
  }

  lemma AppliedSnoc(attempts: seq<Attempt>, a: Attempt, k: nat)
    ensures Applied(attempts + [a], k) == Applied(attempts, k) + if a.serial == k && a.refusal.None? then 1 else 0
  {
    assert (attempts + [a])[..|attempts|] == attempts;
  }

  lemma PushTold(st: Server, assoc: AssocId, pdu: Pdu, j: nat, k: nat)
    ensures var after := Push(st, assoc, pdu, j);
            && Positives(Told(after), k) == Positives(Told(st), k) + (if j == k && pdu.Positive? then 1 else 0)
            && Negatives(Told(after), k) == Negatives(Told(st), k) + (if j == k && pdu.Negative? then 1 else 0)
  {
    var t := Termination(assoc, pdu, j);
    assert st.history.sent + (st.pending + [t]) == Told(st) + [t];
    PositivesSnoc(Told(st), t, k);
  }

  /** What fates do not depend on may change freely. */
  lemma FrameMoves(st: Server, after: Server, k: nat)
    requires after.serial == st.serial && after.timed == st.timed && after.pending == st.pending
    requires after.history.sent == st.history.sent && after.history.attempts == st.history.attempts
    ensures Moves(st, after, k, 0)
  {
  }

  lemma MovesAdd(a: Server, b: Server, c: Server, k: nat, room: nat)
    requires Moves(a, b, k, 0) && Moves(b, c, k, room)
    ensures Moves(a, c, k, room)
  {
  }

  lemma RunOneMoves(plant: Plant, st: Server, t: Timed, now: Instant, k: nat)
    ensures Moves(st, RunOne(plant, st, t, now), k, if t.serial == k then 1 else 0)
    ensures RunOne(plant, st, t, now).timed == st.timed
  {
    hide ModeRefusal, BehaviourOf, Apply, Ask, Positives, Negatives, Applied, Armed;
    var byMode := ModeRefusal(BehaviourOf(st.values, t.obj), t.request.test);
    var refusal := if byMode.Some? then byMode
                   else Ask(plant, st.asked, ControlEvent(t.obj, Operate, t.request, t.model));
    AppliedSnoc(st.history.attempts,
                Attempt(t.serial, t.assoc, t.obj, t.request, t.model, now, Some(t.due), st.values, st.asked, refusal),
                k);
    if refusal.Some? {
      PushTold(st, t.assoc, Negative(t.obj, t.request, refusal.value), t.serial, k);
    } else {
      PushTold(st, t.assoc, Positive(t.obj, t.request), t.serial, k);
    }
  }

  lemma {:induction false} RunDueMoves(plant: Plant, st: Server, due: seq<Timed>, now: Instant, k: nat)
    ensures Moves(st, RunDue(plant, st, due, now), k, Armed(due, k)) && RunDue(plant, st, due, now).timed == st.timed
    decreases |due|
  {
    hide RunOne, Fate, Positives, Applied;
    if due != [] {
      RunOneMoves(plant, st, due[0], now, k);
      RunDueMoves(plant, RunOne(plant, st, due[0], now), due[1..], now, k);
    }
  }

  lemma OnTimeoutMoves(plant: Plant, st: Server, now: Instant, k: nat)
    ensures Moves(st, OnTimeout(plant, st, now), k, 0)
  {
    hide RunDue, Positives, Negatives, Applied, Armed;
    var early, late := (t: Timed) => now < t.due, (t: Timed) => now >= t.due;
    var live := Retain(st, (s: Selection) => now < s.expires);
    if !(forall t <- st.timed :: now < t.due) {
      KeepSplits(st.timed, early, late, k);
      var waiting := live.(timed := Keep(st.timed, early));
      RunDueMoves(plant, waiting, Keep(st.timed, late), now, k);
    }
  }

  lemma DisarmMoves(st: Server, assoc: AssocId, obj: string, k: nat)
    ensures Moves(st, Disarm(st, assoc, obj), k, 0)
  {
    hide Positives, Negatives, Applied, Armed;
    var keep, drop := (t: Timed) => !Mine(t, assoc, obj), (t: Timed) => Mine(t, assoc, obj);
    KeepSplits(st.timed, keep, drop, k);
  }

  lemma RefuseMoves(st: Server, j: nat, assoc: AssocId, obj: string, request: ControlRequest, model: ControlModel,
                    stage: Stage, cause: AddCause, k: nat)
    ensures Moves(st, Refuse(st, j, assoc, obj, request, model, stage, cause).0, k, if j == k then 1 else 0)
  {
    hide Positives, Negatives, Applied, Armed;
    PushTold(st, assoc, Negative(obj, request, cause), j, k);
  }

  lemma ArmMoves(st: Server, j: nat, assoc: AssocId, obj: string, request: ControlRequest, model: ControlModel,
                 wait: nat, now: Now, k: nat)
    ensures Moves(st, Arm(st, j, assoc, obj, request, model, wait, now), k, if j == k then 1 else 0)
  {
    hide Positives, Negatives, Applied, Armed, Disarm, PlusNanos;
    DisarmMoves(st, assoc, obj, k);
    var bare := Disarm(st, assoc, obj);
    ArmedSnoc(bare.timed, Timed(j, assoc, obj, request.(t := now.wall), model, PlusNanos(now.mono, wait)), k);
  }

  lemma CarryOutMoves(plant: Plant, st: Server, j: nat, assoc: AssocId, obj: string, request: ControlRequest,
                      model: ControlModel, asked: nat, now: Now, k: nat)
    ensures Moves(st, CarryOut(plant, st, j, assoc, obj, request, model, asked, now), k, if j == k then 1 else 0)
  {
    hide Apply, Positives, Negatives, Applied, Armed;
    AppliedSnoc(st.history.attempts, Attempt(j, assoc, obj, request, model, now.mono, None, st.values, asked, None), k);
    PushTold(st, assoc, Positive(obj, request), j, k);
  }

  lemma OperateMoves(plant: Plant, st: Server, j: nat, assoc: AssocId, obj: string, request: ControlRequest,
                     model: ControlModel, now: Now, k: nat)
    ensures Moves(st, OperateStep(plant, st, j, assoc, obj, request, model, now).0, k, if j == k then 1 else 0)
  {
    hide Ask, Apply, SelectFault, WaitFor, Moves, Refuse, Arm, CarryOut;
    var asked := st.(asked := st.asked + 1);
    FrameMoves(st, asked, k);
    var verdict := Ask(plant, st.asked, ControlEvent(obj, Operate, request, model));
    var room := if j == k then 1 else 0;
    if model == StatusOnly {
      RefuseMoves(st, j, assoc, obj, request, model, Operate, NOT_SUPPORTED, k);
    } else if model.NeedsSelect() && SelectFault(st, obj, assoc, request).Some? {
      RefuseMoves(st, j, assoc, obj, request, model, Operate, SelectFault(st, obj, assoc, request).value, k);
    } else if verdict.Some? {
      RefuseMoves(asked, j, assoc, obj, request, model, Operate, verdict.value, k);
      MovesAdd(st, asked, Refuse(asked, j, assoc, obj, request, model, Operate, verdict.value).0, k, room);
    } else {
      var taken := Consume(asked, j, assoc, obj, request, model, now);
      FrameMoves(st, taken, k);
      var wait := WaitFor(request, now.wall);
      if wait.Some? {
        ArmMoves(taken, j, assoc, obj, request, model, wait.value, now, k);
        MovesAdd(st, taken, Arm(taken, j, assoc, obj, request, model, wait.value, now), k, room);
      } else {
        CarryOutMoves(plant, taken, j, assoc, obj, request, model, st.asked, now, k);
        MovesAdd(st, taken, CarryOut(plant, taken, j, assoc, obj, request, model, st.asked, now), k, room);
      }
    }
  }

  lemma SelectWithValueMoves(plant: Plant, st: Server, j: nat, assoc: AssocId, obj: string, request: ControlRequest,
                             model: ControlModel, now: Now, k: nat)
    ensures Moves(st, SelectWithValueStep(plant, st, j, assoc, obj, request, model, now).0, k, if j == k then 1 else 0)
  {
    hide Ask, Refuse, Positives, Negatives, Applied, Armed;
    var asked := st.(asked := st.asked + 1);
    var verdict := Ask(plant, st.asked, ControlEvent(obj, Select, request, model));
    RefuseMoves(st, j, assoc, obj, request, model, Select, NOT_SUPPORTED, k);
    RefuseMoves(st, j, assoc, obj, request, model, Select, OBJECT_ALREADY_SELECTED, k);
    if verdict.Some? {
      RefuseMoves(asked, j, assoc, obj, request, model, Select, verdict.value, k);
    }
  }

  lemma CancelMoves(plant: Plant, st: Server, j: nat, assoc: AssocId, obj: string, request: ControlRequest,
                    model: ControlModel, k: nat)
    ensures Moves(st, CancelStep(plant, st, j, assoc, obj, request, model).0, k, if j == k then 1 else 0)
  {
    hide Ask, Refuse, Disarm, Positives, Negatives, Applied, Armed;
    var asked := st.(asked := st.asked + 1);
    var bare := Disarm(asked, assoc, obj);
    DisarmMoves(asked, assoc, obj, k);
    FrameMoves(bare, Deselect(bare, obj), k);
    var verdict := Ask(plant, st.asked, ControlEvent(obj, Cancel, request, model));
    if verdict.Some? {
      RefuseMoves(asked, j, assoc, obj, request, model, Cancel, verdict.value, k);
    }
    RefuseMoves(bare, j, assoc, obj, request, model, Cancel, OBJECT_NOT_SELECTED, k);
  }

  lemma ServiceMoves(plant: Plant, st: Server, j: nat, assoc: AssocId, obj: string, attribute: string,
                     request: ControlRequest, model: ControlModel, now: Now, k: nat)
    ensures Moves(st, ServiceStep(plant, st, j, assoc, obj, attribute, request, model, now).0, k,
                  if j == k then 1 else 0)
  {
    hide OnTimeout, ModeRefusal, BehaviourOf, OperateStep, SelectWithValueStep, CancelStep, Refuse, Fate, Positives,
         Applied, Told;
    var ready := OnTimeout(plant, st, now.mono);
    OnTimeoutMoves(plant, st, now.mono, k);
    var byMode := ModeRefusal(BehaviourOf(ready.values, obj), request.test);
    if attribute != "Cancel" && byMode.Some? {
      RefuseMoves(ready, j, assoc, obj, request, model, if attribute == "Oper" then Operate else Select, byMode.value,
                  k);
    }
    SelectWithValueMoves(plant, ready, j, assoc, obj, request, model, now, k);
    CancelMoves(plant, ready, j, assoc, obj, request, model, k);
    OperateMoves(plant, ready, j, assoc, obj, request, model, now, k);
  }

  lemma WriteHonest(plant: Plant, st: Server, assoc: AssocId, obj: string, attribute: string, value: Value, now: Now,
                    k: nat)
    requires Honest(st, k)
    ensures Honest(WriteStep(plant, st, assoc, obj, attribute, value, now).0, k)
  {
    hide ServiceStep, ModelOf, RequestOfValue, Positives, Negatives, Applied, Armed;
    var j, next := st.serial, st.(serial := st.serial + 1);
    var model, request := ModelOf(st.values, obj), RequestOfValue(value);
    assert Fate(next, k) == Fate(st, k) && Told(next) == Told(st);
    if model.Some? && request.Some? {
      ServiceMoves(plant, next, j, assoc, obj, attribute, request.value, model.value, now, k);
      var (after, answer) := ServiceStep(plant, next, j, assoc, obj, attribute, request.value, model.value, now);
      FrameMoves(after, Book(after, j, attribute, model.value, answer), k);
    }
  }

  lemma DoHonest(plant: Plant, st: Server, step: Step, k: nat)
    requires Honest(st, k)
    ensures Honest(Do(plant, st, step), k)
  {
    hide WriteStep, OnTimeout, Positives, Negatives, Applied, Armed, ModelOf, ModeRefusal, BehaviourOf, Ask;
    match step
    case SelectRequest(assoc, obj, now) =>
      var next := st.(serial := st.serial + 1);
      FrameMoves(next, SelectStep(plant, st, assoc, obj, now).0, k);
    case WriteRequest(assoc, obj, attribute, value, now) =>
      WriteHonest(plant, st, assoc, obj, attribute, value, now, k);
    case Tick(at) => OnTimeoutMoves(plant, st, at, k);
    case Close(assoc) => KeepSplits(st.timed, (t: Timed) => t.assoc != assoc, (t: Timed) => t.assoc == assoc, k);
    case Flush => assert Told(Flushed(st)) == Told(st);
    case _ =>
  }

  lemma {:induction false} RunHonest(plant: Plant, st: Server, steps: seq<Step>, k: nat)
    requires Honest(st, k)
    ensures Honest(Run(plant, st, steps), k)
    decreases |steps|
  {
    hide Honest, Do;
    if steps != [] {
      DoHonest(plant, st, steps[0], k);
      RunHonest(plant, Do(plant, st, steps[0]), steps[1..], k);
    }
  }

  lemma {:induction false} Counted(ts: seq<Termination>, t: Termination)
    requires t in ts
    ensures if t.pdu.Positive? then Positives(ts, t.serial) > 0 else Negatives(ts, t.serial) > 0
    decreases |ts|
  {
    if ts[|ts| - 1] != t {
      assert ts == ts[..|ts| - 1] + [ts[|ts| - 1]];
      Counted(ts[..|ts| - 1], t);
    }
  }

  /** Whatever happens: a client told that its command succeeded had it applied, exactly once; a client
      told that it failed had it applied not at all, and nothing of it is left armed. */
  lemma TerminationsTellTheTruth(plant: Plant, values: map<string, Value>, sboTimeoutMs: U64, steps: seq<Step>,
                                 t: Termination)
    requires t in Told(Run(plant, Fresh(values, sboTimeoutMs), steps))
    ensures var st := Run(plant, Fresh(values, sboTimeoutMs), steps);
            && Applied(st.history.attempts, t.serial) == (if t.pdu.Positive? then 1 else 0)
            && Armed(st.timed, t.serial) == 0
  {
    hide Run;
    assert Honest(Fresh(values, sboTimeoutMs), t.serial);
    RunHonest(plant, Fresh(values, sboTimeoutMs), steps, t.serial);
    Counted(Told(Run(plant, Fresh(values, sboTimeoutMs), steps)), t);
  }
}
