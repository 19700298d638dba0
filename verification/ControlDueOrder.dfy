/** Commands armed together run in the order in which they were accepted, even where that is against
    the order in which they fall due. */
module ControlDueOrder {
  import opened Sequences
  import opened Common
  import opened Octets
  import opened Data
  import opened ControlMessage
  import opened Control
  import opened ControlTick

  /** The entry an `Oper` accepted at `now` for later makes in the queue. */
  function Entry(k: nat, assoc: AssocId, obj: string, request: ControlRequest, wait: nat, now: Now): Timed {
    Timed(k, assoc, obj, request.(t := now.wall), DirectNormal, PlusNanos(now.mono, wait))
  }

  /** A server nothing is selected on, with `obj` under direct control, switched on. */
  predicate Idle(plant: Plant, st: Server, obj: string) {
    plant.hook.None? && st.selections == map[] && ModelOf(st.values, obj) == Some(DirectNormal)
    && BehaviourOf(st.values, obj).On?
  }

  lemma NothingDueYet(plant: Plant, st: Server, now: Instant)
    requires st.selections == map[] && forall t <- st.timed :: now < t.due
    ensures var after := OnTimeout(plant, st, now);
            && after.selections == map[] && after.timed == st.timed && after.values == st.values
            && after.asked == st.asked
            && after.history.attempts == st.history.attempts && after.serial == st.serial
  {
  }

  lemma OperArms(plant: Plant, st: Server, k: nat, assoc: AssocId, obj: string, request: ControlRequest, wait: nat,
                 now: Now)
    requires plant.hook.None? && st.selections == map[] && WaitFor(request, now.wall) == Some(wait)
    requires forall t <- st.timed :: !Mine(t, assoc, obj)
    ensures var after := OperateStep(plant, st, k, assoc, obj, request, DirectNormal, now).0;
            && after.timed == st.timed + [Entry(k, assoc, obj, request, wait, now)] && after.selections == map[]
            && after.values == st.values && after.history.attempts == st.history.attempts && after.serial == st.serial
  {
    hide WaitFor, PlusNanos, Disarm, Keep;
    var asked := st.(asked := st.asked + 1);
    var taken := Consume(asked, k, assoc, obj, request, DirectNormal, now);
    DisarmKeeps(taken, assoc, obj);
    KeepEverything(st.timed, (t: Timed) => !Mine(t, assoc, obj));
  }

  /** On an idle server an `Oper` for later only joins the queue. */
  lemma WriteArms(plant: Plant, st: Server, assoc: AssocId, obj: string, request: ControlRequest, wait: nat, now: Now)
    requires Idle(plant, st, obj) && !request.test && WaitFor(request, now.wall) == Some(wait)
    requires forall t <- st.timed :: now.mono < t.due && !Mine(t, assoc, obj)
    ensures var after := Do(plant, st, WriteRequest(assoc, obj, "Oper", RequestToValue(request), now));
            && Idle(plant, after, obj) && after.timed == st.timed + [Entry(st.serial, assoc, obj, request, wait, now)]
            && after.serial == st.serial + 1 && after.history.attempts == st.history.attempts
  {
    hide OnTimeout, OperateStep, ModelOf, BehaviourOf, RequestOfValue, RequestToValue, WaitFor, Entry;
    RequestRoundTrip(request);
    var next := st.(serial := st.serial + 1);
    NothingDueYet(plant, next, now.mono);
    OperArms(plant, OnTimeout(plant, next, now.mono), st.serial, assoc, obj, request, wait, now);
  }

  /** Two clients arm one object, one after the other. */
  lemma TwoArm(plant: Plant, st: Server, obj: string, first: AssocId, second: AssocId, long: ControlRequest,
               short: ControlRequest, now: Now, longWait: nat, shortWait: nat)
    requires Idle(plant, st, obj) && st.timed == [] && first != second && !long.test && !short.test
    requires WaitFor(long, now.wall) == Some(longWait) && WaitFor(short, now.wall) == Some(shortWait)
    requires 0 < shortWait < longWait && now.mono + longWait <= MAX_INSTANT
    ensures var one := Do(plant, st, WriteRequest(first, obj, "Oper", RequestToValue(long), now));
            var two := Do(plant, one, WriteRequest(second, obj, "Oper", RequestToValue(short), now));
            && two.timed
               == [Entry(st.serial, first, obj, long, longWait, now),
                   Entry(st.serial + 1, second, obj, short, shortWait, now)]
            && two.history.attempts == st.history.attempts
  {
    hide Do, Idle, WaitFor, RequestToValue;
    WriteArms(plant, st, first, obj, long, longWait, now);
    WriteArms(plant, Do(plant, st, WriteRequest(first, obj, "Oper", RequestToValue(long), now)), second, obj, short,
              shortWait, now);
  }

  /** One tick after both are due tries both, in the order of the queue. */
  lemma BothTried(plant: Plant, st: Server, x: Timed, y: Timed, at: Instant)
    requires st.timed == [x, y] && st.history.attempts == [] && x.due <= at && y.due <= at
    ensures var a := OnTimeout(plant, st, at).history.attempts;
            |a| == 2 && a[0].due == Some(x.due) && a[1].due == Some(y.due)
  {
    hide OnTimeout;
    KeepEverything([x, y], (t: Timed) => at >= t.due);
    TickTriesTheDue(plant, st, at);
    var after := OnTimeout(plant, st, at);
    assert after.history.attempts[0..] == after.history.attempts;
  }

  /** Two clients arm one object, the first for later than the second; one tick after both are due runs
      the first one first. */
  lemma LaterDueRunsFirst(plant: Plant, values: map<string, Value>, sboTimeoutMs: U64, obj: string, first: AssocId,
                          second: AssocId,
                          long: ControlRequest, short: ControlRequest, now: Now, longWait: nat, shortWait: nat,
                          at: Instant)
    requires Idle(plant, Fresh(values, sboTimeoutMs), obj) && first != second && !long.test && !short.test
    requires WaitFor(long, now.wall) == Some(longWait) && WaitFor(short, now.wall) == Some(shortWait)
    requires 0 < shortWait < longWait && now.mono + longWait <= at
    ensures var steps :=
              [WriteRequest(first, obj, "Oper", RequestToValue(long), now),
               WriteRequest(second, obj, "Oper", RequestToValue(short), now), Tick(at)];
            var a := Run(plant, Fresh(values, sboTimeoutMs), steps).history.attempts;
            && |a| == 2 && a[0].due == Some(now.mono + longWait) && a[1].due == Some(now.mono + shortWait)
  {
    hide OnTimeout, Idle, WaitFor, RequestToValue, WriteStep, Run;
    var one, two := WriteRequest(first, obj, "Oper", RequestToValue(long), now),
                    WriteRequest(second, obj, "Oper", RequestToValue(short), now);
    var zero := Fresh(values, sboTimeoutMs);
    TwoArm(plant, zero, obj, first, second, long, short, now, longWait, shortWait);
    BothTried(plant, Do(plant, Do(plant, zero, one), two), Entry(0, first, obj, long, longWait, now),
              Entry(1, second, obj, short, shortWait, now), at);
    RunThree(plant, zero, one, two, Tick(at));
  }

  lemma RunThree(plant: Plant, st: Server, a: Step, b: Step, c: Step)
    ensures Run(plant, st, [a, b, c]) == Do(plant, Do(plant, Do(plant, st, a), b), c)
  {
    hide Do;
    assert [a, b, c][1..] == [b, c] && [b, c][1..] == [c] && [c][1..] == [];
    assert Run(plant, Do(plant, Do(plant, st, a), b), [c]) == Do(plant, Do(plant, Do(plant, st, a), b), c);
  }
}
