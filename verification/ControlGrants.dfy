/** The balance of grants: in every run each grant ever made is held, or was used, or was ended. */
module ControlGrants {
  import opened Sequences
  import opened Common
  import opened Octets
  import opened Data
  import opened ControlMessage
  import opened Control
  import opened ControlTick
  import opened ControlLicence

  predicate HeldNow(st: Server, g: nat) {
    exists o <- st.selections :: st.selections[o].grant == g
  }

  predicate UsedUp(st: Server, g: nat) {
    exists k <- st.history.used :: st.history.used[k] == g
  }

  /** No grant has got lost. */
  predicate NoneLost(st: Server) {
    forall g | 0 <= g < |st.history.grants| :: HeldNow(st, g) || UsedUp(st, g) || g in st.history.ended
  }

  /** What this does not look at may change. */
  lemma FrameNoneLost(st: Server, after: Server)
    requires NoneLost(st) && after.selections == st.selections
    requires after.history.grants == st.history.grants && after.history.used == st.history.used
             && after.history.ended == st.history.ended
    ensures NoneLost(after)
  {
    forall g | 0 <= g < |after.history.grants|
      ensures HeldNow(after, g) || UsedUp(after, g) || g in after.history.ended
    {
      assert HeldNow(st, g) || UsedUp(st, g) || g in st.history.ended;
    }
  }

  lemma RetainNoneLost(st: Server, keep: Selection -> bool)
    requires NoneLost(st)
    ensures NoneLost(Retain(st, keep))
  {
    var after := Retain(st, keep);
    forall g | 0 <= g < |after.history.grants|
      ensures HeldNow(after, g) || UsedUp(after, g) || g in after.history.ended
    {
      if HeldNow(st, g) {
        var o :| o in st.selections && st.selections[o].grant == g;
        if keep(st.selections[o]) {
          assert o in after.selections && after.selections[o].grant == g;
        }
      } else {
        assert UsedUp(st, g) || g in st.history.ended;
      }
    }
  }

  lemma DeselectNoneLost(st: Server, obj: string)
    requires NoneLost(st)
    ensures NoneLost(Deselect(st, obj))
  {
    var after := Deselect(st, obj);
    forall g | 0 <= g < |after.history.grants|
      ensures HeldNow(after, g) || UsedUp(after, g) || g in after.history.ended
    {
      if HeldNow(st, g) {
        var o :| o in st.selections && st.selections[o].grant == g;
        if o != obj {
          assert o in after.selections && after.selections[o].grant == g;
        }
      } else {
        assert UsedUp(st, g) || g in st.history.ended;
      }
    }
  }

  lemma GrantNoneLost(st: Server, k: nat, assoc: AssocId, obj: string, value: Option<Value>, ctlNum: U8, now: Instant)
    requires NoneLost(st)
    ensures NoneLost(GrantSelection(st, k, assoc, obj, value, ctlNum, now))
  {
    hide PlusMillis, Deselect;
    var bare, after := Deselect(st, obj), GrantSelection(st, k, assoc, obj, value, ctlNum, now);
    DeselectNoneLost(st, obj);
    DeselectLeaves(st, obj);
    forall g | 0 <= g < |after.history.grants|
      ensures HeldNow(after, g) || UsedUp(after, g) || g in after.history.ended
    {
      if g == |st.history.grants| {
        assert obj in after.selections && after.selections[obj].grant == g;
      } else if HeldNow(bare, g) {
        var o :| o in bare.selections && bare.selections[o].grant == g;
        assert o in after.selections && after.selections[o].grant == g;
      } else {
        assert UsedUp(bare, g) || g in bare.history.ended;
      }
    }
  }

  lemma DeselectLeaves(st: Server, obj: string)
    ensures var bare := Deselect(st, obj);
            bare.selections == st.selections - {obj} && bare.history.grants == st.history.grants
            && bare.history.used == st.history.used
  {
  }

  lemma ConsumeNoneLost(st: Server, k: nat, assoc: AssocId, obj: string, request: ControlRequest, model: ControlModel,
                        now: Now)
    requires NoneLost(st) && k !in st.history.used
    ensures NoneLost(Consume(st, k, assoc, obj, request, model, now))
  {
    hide Deselect;
    var after := Consume(st, k, assoc, obj, request, model, now);
    if model.NeedsSelect() && obj in st.selections {
      forall g | 0 <= g < |after.history.grants|
        ensures HeldNow(after, g) || UsedUp(after, g) || g in after.history.ended
      {
        UseKeeps(st, after, k, obj, g);
      }
    } else {
      DeselectNoneLost(st, obj);
      FrameNoneLost(Deselect(st, obj), after);
    }
  }

  lemma UseKeeps(st: Server, after: Server, k: nat, obj: string, g: nat)
    requires NoneLost(st) && k !in st.history.used && obj in st.selections && g < |st.history.grants|
    requires after.selections == st.selections - {obj} && after.history.ended == st.history.ended
    requires after.history.used == st.history.used[k := st.selections[obj].grant]
    ensures HeldNow(after, g) || UsedUp(after, g) || g in after.history.ended
  {
    if HeldNow(st, g) {
      var o :| o in st.selections && st.selections[o].grant == g;
      if o != obj {
        assert o in after.selections && after.selections[o].grant == g;
      } else {
        assert k in after.history.used && after.history.used[k] == g;
      }
    } else if UsedUp(st, g) {
      var j :| j in st.history.used && st.history.used[j] == g;
      assert j in after.history.used && after.history.used[j] == g;
    }
  }

  // ---- step by step ----

  /** Nothing about grants has changed. */
  predicate SameGrants(st: Server, after: Server) {
    && after.selections == st.selections && after.history.grants == st.history.grants
    && after.history.used == st.history.used && after.history.ended == st.history.ended
  }

  lemma OnTimeoutNoneLost(plant: Plant, st: Server, now: Instant)
    requires NoneLost(st)
    ensures NoneLost(OnTimeout(plant, st, now))
  {
    hide RunDue, NoneLost, Retain;
    var live := Retain(st, (s: Selection) => now < s.expires);
    var waiting := live.(timed := Keep(st.timed, (t: Timed) => now < t.due));
    RetainNoneLost(st, (s: Selection) => now < s.expires);
    RunDueLeaves(plant, waiting, Keep(st.timed, (t: Timed) => now >= t.due), now);
    RunDueRecords(plant, waiting, Keep(st.timed, (t: Timed) => now >= t.due), now);
    FrameNoneLost(live, OnTimeout(plant, st, now));
  }

  lemma RefuseSameGrants(st: Server, k: nat, assoc: AssocId, obj: string, request: ControlRequest, model: ControlModel)
    ensures forall stage: Stage, cause: AddCause ::
              SameGrants(st, Refuse(st, k, assoc, obj, request, model, stage, cause).0)
  {
  }

  lemma LaterSameGrants(plant: Plant, st: Server, k: nat, assoc: AssocId, obj: string, request: ControlRequest,
                        model: ControlModel, asked: nat, now: Now)
    ensures forall wait: nat :: SameGrants(st, Arm(st, k, assoc, obj, request, model, wait, now))
    ensures SameGrants(st, CarryOut(plant, st, k, assoc, obj, request, model, asked, now))
  {
    hide Apply, PlusNanos, Keep, TimedSerials;
  }

  lemma OperateNoneLost(plant: Plant, st: Server, k: nat, assoc: AssocId, obj: string, request: ControlRequest,
                        model: ControlModel, now: Now)
    requires NoneLost(st) && k !in st.history.used
    ensures NoneLost(OperateStep(plant, st, k, assoc, obj, request, model, now).0)
  {
    hide Ask, SelectFault, Consume, Refuse, WaitFor, Arm, CarryOut, NoneLost;
    var asked := st.(asked := st.asked + 1);
    var after := OperateStep(plant, st, k, assoc, obj, request, model, now).0;
    RefuseSameGrants(st, k, assoc, obj, request, model);
    RefuseSameGrants(asked, k, assoc, obj, request, model);
    if SameGrants(st, after) {
      FrameNoneLost(st, after);
    } else {
      var taken := Consume(asked, k, assoc, obj, request, model, now);
      FrameNoneLost(st, asked);
      ConsumeNoneLost(asked, k, assoc, obj, request, model, now);
      LaterSameGrants(plant, taken, k, assoc, obj, request, model, st.asked, now);
      FrameNoneLost(taken, after);
    }
  }

  lemma SelectNoneLost(plant: Plant, st: Server, k: nat, assoc: AssocId, obj: string, request: ControlRequest,
                       model: ControlModel, now: Now)
    requires NoneLost(st)
    ensures NoneLost(SelectWithValueStep(plant, st, k, assoc, obj, request, model, now).0)
  {
    hide Ask, Refuse, GrantSelection, NoneLost, HeldByOther;
    var asked := st.(asked := st.asked + 1);
    var after := SelectWithValueStep(plant, st, k, assoc, obj, request, model, now).0;
    RefuseSameGrants(st, k, assoc, obj, request, model);
    RefuseSameGrants(asked, k, assoc, obj, request, model);
    FrameNoneLost(st, asked);
    GrantNoneLost(asked, k, assoc, obj, Some(request.ctlVal), request.ctlNum, now.mono);
    if SameGrants(st, after) {
      FrameNoneLost(st, after);
    }
  }

  lemma CancelNoneLost(plant: Plant, st: Server, k: nat, assoc: AssocId, obj: string, request: ControlRequest,
                       model: ControlModel)
    requires NoneLost(st)
    ensures NoneLost(CancelStep(plant, st, k, assoc, obj, request, model).0)
  {
    hide Ask, Refuse, NoneLost, Deselect, Disarm;
    var asked := st.(asked := st.asked + 1);
    var bare, after := Disarm(asked, assoc, obj), CancelStep(plant, st, k, assoc, obj, request, model).0;
    DisarmSameGrants(asked, assoc, obj);
    FrameNoneLost(st, bare);
    DeselectNoneLost(bare, obj);
    RefuseSameGrants(asked, k, assoc, obj, request, model);
    RefuseSameGrants(bare, k, assoc, obj, request, model);
    if SameGrants(st, after) {
      FrameNoneLost(st, after);
    }
  }

  lemma DisarmSameGrants(st: Server, assoc: AssocId, obj: string)
    ensures SameGrants(st, Disarm(st, assoc, obj))
  {
    hide Keep, TimedSerials;
  }

  lemma ServiceNoneLost(plant: Plant, st: Server, k: nat, assoc: AssocId, obj: string, attribute: string,
                        request: ControlRequest, model: ControlModel, now: Now)
    requires NoneLost(st) && k !in OnTimeout(plant, st, now.mono).history.used
    ensures NoneLost(ServiceStep(plant, st, k, assoc, obj, attribute, request, model, now).0)
  {
    hide OnTimeout, OperateStep, SelectWithValueStep, CancelStep, Refuse, ModeRefusal, BehaviourOf, NoneLost;
    var ready := OnTimeout(plant, st, now.mono);
    OnTimeoutNoneLost(plant, st, now.mono);
    SelectNoneLost(plant, ready, k, assoc, obj, request, model, now);
    CancelNoneLost(plant, ready, k, assoc, obj, request, model);
    OperateNoneLost(plant, ready, k, assoc, obj, request, model, now);
    RefuseSameGrants(ready, k, assoc, obj, request, model);
    var after := ServiceStep(plant, st, k, assoc, obj, attribute, request, model, now).0;
    if SameGrants(ready, after) {
      FrameNoneLost(ready, after);
    }
  }

  lemma DoNoneLost(plant: Plant, st: Server, step: Step)
    requires NoneLost(st) && Licensed(st)
    ensures NoneLost(Do(plant, st, step))
  {
    hide OnTimeout, ServiceStep, ModelOf, RequestOfValue, Ask, ModeRefusal, BehaviourOf, GrantSelection, NoneLost,
         Licensed, Retain;
    var after := Do(plant, st, step);
    match step
    case SelectRequest(assoc, obj, now) =>
      var asked := st.(serial := st.serial + 1, asked := st.asked + 1);
      FrameNoneLost(st, asked);
      GrantNoneLost(asked, st.serial, assoc, obj, None, 0, now.mono);
      if SameGrants(st, after) {
        FrameNoneLost(st, after);
      }
    case WriteRequest(assoc, obj, attribute, value, now) =>
      var next := st.(serial := st.serial + 1);
      var model, request := ModelOf(st.values, obj), RequestOfValue(value);
      FrameNoneLost(st, next);
      if model.Some? && request.Some? {
        UnusedYet(plant, st, now.mono);
        ServiceNoneLost(plant, next, st.serial, assoc, obj, attribute, request.value, model.value, now);
        var (served, answer) := ServiceStep(plant, next, st.serial, assoc, obj, attribute, request.value, model.value,
                                            now);
        FrameNoneLost(served, after);
      }
    case Tick(at) => OnTimeoutNoneLost(plant, st, at);
    case Close(assoc) =>
      RetainNoneLost(st, (s: Selection) => s.assoc != assoc);
      FrameNoneLost(Retain(st, (s: Selection) => s.assoc != assoc), after);
    case _ => FrameNoneLost(st, after);
  }

  /** The request to come has used nothing. */
  lemma UnusedYet(plant: Plant, st: Server, now: Instant)
    requires Licensed(st)
    ensures st.serial !in OnTimeout(plant, st.(serial := st.serial + 1), now).history.used
  {
    hide RunDue, Live, Retain;
    var next := st.(serial := st.serial + 1);
    var live := Retain(next, (s: Selection) => now < s.expires);
    var waiting := live.(timed := Keep(st.timed, (t: Timed) => now < t.due));
    RunDueLeaves(plant, waiting, Keep(st.timed, (t: Timed) => now >= t.due), now);
    RunDueRecords(plant, waiting, Keep(st.timed, (t: Timed) => now >= t.due), now);
    RetainKeepsUsed(next, (s: Selection) => now < s.expires);
  }

  lemma RetainKeepsUsed(st: Server, keep: Selection -> bool)
    ensures Retain(st, keep).history.used == st.history.used
  {
  }

  lemma {:induction false} RunNoneLost(plant: Plant, st: Server, steps: seq<Step>)
    requires NoneLost(st) && Licensed(st)
    ensures NoneLost(Run(plant, st, steps)) && Licensed(Run(plant, st, steps))
    decreases |steps|
  {
    hide NoneLost, Licensed, Do;
    if steps != [] {
      DoNoneLost(plant, st, steps[0]);
      DoLicensed(plant, st, steps[0]);
      RunNoneLost(plant, Do(plant, st, steps[0]), steps[1..]);
    }
  }

  /** In every run, whatever else happens, each grant ever made is one of three: held by exactly the client,
      for exactly the object, value, number and time it was made for; or used by exactly one command; or
      ended, by its expiry, a cancel, another select, a command under direct control or the end of its
      association. It is never two of them, and never none. */
  lemma GrantsBalance(plant: Plant, values: map<string, Value>, sboTimeoutMs: U64, steps: seq<Step>, g: nat)
    requires g < |Run(plant, Fresh(values, sboTimeoutMs), steps).history.grants|
    ensures var st := Run(plant, Fresh(values, sboTimeoutMs), steps);
            && (HeldNow(st, g) || UsedUp(st, g) || g in st.history.ended)
            && !(HeldNow(st, g) && UsedUp(st, g)) && !(HeldNow(st, g) && g in st.history.ended)
            && !(UsedUp(st, g) && g in st.history.ended)
            && (forall j, k ::
                j in st.history.used && k in st.history.used && st.history.used[j] == g && st.history.used[k] == g
                ==> j == k)
            && forall o <- st.selections :: st.selections[o].grant == g ==>
                 var s, made := st.selections[o], st.history.grants[g];
                 made.assoc == s.assoc && made.obj == o && made.value == s.value && made.ctlNum == s.ctlNum
                 && made.expires == s.expires
  {
    hide Run, Authorises, Tried, Awaited;
    var st := Run(plant, Fresh(values, sboTimeoutMs), steps);
    FreshIsLicensed(values, sboTimeoutMs);
    assert NoneLost(Fresh(values, sboTimeoutMs));
    RunNoneLost(plant, Fresh(values, sboTimeoutMs), steps);
    forall o | o in st.selections && st.selections[o].grant == g
      ensures Live(st.history, o, st.selections[o])
    {
    }
    forall k | k in st.history.used && st.history.used[k] == g
      ensures Used(st.history, k)
    {
    }
  }
}
