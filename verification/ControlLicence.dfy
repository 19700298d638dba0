/** One-shot authorised operate: in every run, each `Oper` applied or armed on an object that needs
    a select uses up a grant of its own, and the right one. */
module ControlLicence {
  import opened Sequences
  import opened Common
  import opened Octets
  import opened Data
  import opened ControlMessage
  import opened Control

  /** The grant `g` authorises the command at the instant `at`: same client, same object, not expired,
      and when the select carried a value or a number, the same value and the same number. */
  predicate Authorises(g: Grant, assoc: AssocId, obj: string, request: ControlRequest, at: Instant) {
    && g.assoc == assoc && g.obj == obj && at < g.expires
    && (g.value.Some? ==> SameValue(g.value.value, request.ctlVal))
    && (g.ctlNum != 0 ==> g.ctlNum == request.ctlNum)
  }

  /** A live selection is exactly the grant it came from, and that grant is neither used nor ended. */
  predicate LiveGrant(grants: seq<Grant>, used: map<nat, nat>, ended: set<nat>, obj: string, s: Selection) {
    && s.grant < |grants|
    && (var g := grants[s.grant];
        g.assoc == s.assoc && g.obj == obj && g.value == s.value && g.ctlNum == s.ctlNum && g.expires == s.expires)
    && s.grant !in ended
    && forall k <- used :: used[k] != s.grant
  }

  /** The act numbered `k` used a grant made before it, which authorises it, which was not ended
      and which no other act used. */
  predicate LicensedUse(grants: seq<Grant>, used: map<nat, nat>, ended: set<nat>, acts: map<nat, Act>, k: nat) {
    && k in used && k in acts && used[k] < |grants| && used[k] !in ended
    && grants[used[k]].serial < k
    && Authorises(grants[used[k]], acts[k].assoc, acts[k].obj, acts[k].request, acts[k].now.mono)
    && forall j <- used :: used[j] == used[k] ==> j == k
  }

  predicate Live(h: History, obj: string, s: Selection) {
    LiveGrant(h.grants, h.used, h.ended, obj, s)
  }

  predicate Used(h: History, k: nat) {
    LicensedUse(h.grants, h.used, h.ended, h.acts, k)
  }

  /** The command is the one numbered `k` that was let through: this client's, on this object, the same
      request but for its time stamp, under the same model, and due when that request said. */
  predicate Acted(acts: map<nat, Act>, k: nat, assoc: AssocId, obj: string, request: ControlRequest,
                  model: ControlModel, due: Option<Instant>) {
    && k in acts && acts[k].assoc == assoc && acts[k].obj == obj && acts[k].model == model
    && acts[k].request.(t := request.t) == request && due == DueOf(acts[k].request, acts[k].now)
  }

  predicate Tried(acts: map<nat, Act>, a: Attempt) {
    Acted(acts, a.serial, a.assoc, a.obj, a.request, a.model, a.due)
  }

  predicate Awaited(acts: map<nat, Act>, t: Timed) {
    Acted(acts, t.serial, t.assoc, t.obj, t.request, t.model, Some(t.due))
  }

  predicate Licensed(st: Server) {
    var h := st.history;
    && (forall o <- st.selections :: Live(h, o, st.selections[o]))
    && (forall k <- h.used :: Used(h, k))
    && (forall k <- h.acts :: k < st.serial && (h.acts[k].model.NeedsSelect() ==> k in h.used))
    && (forall i | 0 <= i < |h.grants| :: h.grants[i].serial < st.serial)
    && (forall g <- h.ended :: g < |h.grants|)
    && (forall a <- h.attempts :: Tried(h.acts, a))
    && (forall t <- st.timed :: Awaited(h.acts, t))
  }

  /** The request numbered `k` has granted nothing and let nothing through yet. */
  predicate OpenRequest(st: Server, k: nat) {
    k < st.serial && k !in st.history.acts && forall i | 0 <= i < |st.history.grants| :: st.history.grants[i].serial < k
  }

  /** Ending the grants of the selections that go leaves those of the ones that stay. */
  lemma RetainLive(st: Server, keep: Selection -> bool)
    requires Licensed(st)
    ensures var after := Retain(st, keep); forall o <- after.selections :: Live(after.history, o, after.selections[o])
  {
    hide Used, Tried, Awaited;
    SelectionsAreApart(st);
    var after := Retain(st, keep);
    forall o | o in after.selections
      ensures Live(after.history, o, after.selections[o])
    {
      assert Live(st.history, o, st.selections[o]);
    }
  }

  lemma RetainUsed(st: Server, keep: Selection -> bool)
    requires Licensed(st)
    ensures forall k <- st.history.used :: Used(Retain(st, keep).history, k)
    ensures forall g <- Retain(st, keep).history.ended :: g < |st.history.grants|
  {
    hide Authorises, Tried, Awaited;
    var after := Retain(st, keep);
    forall k | k in st.history.used
      ensures Used(after.history, k)
    {
      assert Used(st.history, k);
    }
  }

  lemma RetainLicensed(st: Server, keep: Selection -> bool)
    requires Licensed(st)
    ensures Licensed(Retain(st, keep))
    ensures var h, g := st.history, Retain(st, keep).history;
            g.grants == h.grants && g.acts == h.acts && g.used == h.used && g.attempts == h.attempts
  {
    hide Live, Used, Tried, Awaited;
    RetainLive(st, keep);
    RetainUsed(st, keep);
  }

  /** Two selections never share a grant. */
  lemma SelectionsAreApart(st: Server)
    requires Licensed(st)
    ensures forall o, p ::
              o in st.selections && p in st.selections && st.selections[o].grant == st.selections[p].grant ==> o == p
  {
    forall o, p | o in st.selections && p in st.selections && st.selections[o].grant == st.selections[p].grant
      ensures o == p
    {
      assert Live(st.history, o, st.selections[o]) && Live(st.history, p, st.selections[p]);
    }
  }

  lemma DeselectLicensed(st: Server, obj: string)
    requires Licensed(st)
    ensures Licensed(Deselect(st, obj))
  {
    hide Authorises, Tried, Awaited;
    SelectionsAreApart(st);
    if obj in st.selections {
      assert Live(st.history, obj, st.selections[obj]);
    }
  }

  lemma GrantLicensed(st: Server, k: nat, assoc: AssocId, obj: string, value: Option<Value>, ctlNum: U8, now: Instant)
    requires Licensed(st) && OpenRequest(st, k)
    ensures Licensed(GrantSelection(st, k, assoc, obj, value, ctlNum, now))
  {
    hide Authorises, Tried, Awaited;
    var bare := Deselect(st, obj);
    DeselectLicensed(st, obj);
    var after := GrantSelection(st, k, assoc, obj, value, ctlNum, now);
    forall j | j in after.history.used
      ensures Used(after.history, j)
    {
      assert Used(bare.history, j);
    }
    forall o | o in after.selections
      ensures Live(after.history, o, after.selections[o])
    {
      if o == obj {
        forall j | j in after.history.used
          ensures after.history.used[j] != |st.history.grants|
        {
          assert Used(st.history, j);
        }
      } else {
        assert Live(bare.history, o, bare.selections[o]);
      }
    }
  }

  /** What the licence does not look at may change freely, and commands may leave the queue. */
  lemma FrameLicensed(st: Server, after: Server)
    requires Licensed(st)
    requires after.selections == st.selections && after.serial >= st.serial
    requires var h, g := st.history, after.history;
             && g.grants == h.grants && g.used == h.used && g.ended == h.ended && g.acts == h.acts
             && (forall a <- g.attempts :: a in h.attempts || Tried(h.acts, a))
             && (forall t <- after.timed :: t in st.timed || Awaited(h.acts, t))
    ensures Licensed(after)
  {
    hide LiveGrant, LicensedUse;
  }

  lemma DisarmLicensed(st: Server, assoc: AssocId, obj: string)
    requires Licensed(st)
    ensures Licensed(Disarm(st, assoc, obj))
  {
    KeepMembers(st.timed, (t: Timed) => !Mine(t, assoc, obj));
    FrameLicensed(st, Disarm(st, assoc, obj));
  }

  lemma RunOneLicensed(plant: Plant, st: Server, t: Timed, now: Instant)
    requires Licensed(st) && Awaited(st.history.acts, t)
    ensures Licensed(RunOne(plant, st, t, now))
  {
    hide ModeRefusal, BehaviourOf, Apply, Ask, DueOf, Licensed;
    FrameLicensed(st, RunOne(plant, st, t, now));
  }

  lemma {:induction false} RunDueLicensed(plant: Plant, st: Server, due: seq<Timed>, now: Instant)
    requires Licensed(st)
    requires forall t <- due :: Awaited(st.history.acts, t)
    ensures var after := RunDue(plant, st, due, now);
            && Licensed(after) && after.serial == st.serial && after.selections == st.selections
            && after.history.acts == st.history.acts && after.history.grants == st.history.grants
    decreases |due|
  {
    hide ModeRefusal, BehaviourOf, Apply, Ask, DueOf, Licensed;
    if due != [] {
      var next := RunOne(plant, st, due[0], now);
      RunOneLicensed(plant, st, due[0], now);
      RunDueLicensed(plant, next, due[1..], now);
    }
  }

  lemma OnTimeoutLicensed(plant: Plant, st: Server, now: Instant)
    requires Licensed(st)
    ensures var after := OnTimeout(plant, st, now);
            && Licensed(after) && after.serial == st.serial
            && (forall o <- after.selections :: now < after.selections[o].expires)
            && (forall k :: OpenRequest(st, k) ==> OpenRequest(after, k))
  {
    hide RunDue, Licensed;
    var live := Retain(st, (s: Selection) => now < s.expires);
    var waiting := live.(timed := Keep(st.timed, (t: Timed) => now < t.due));
    RetainLicensed(st, (s: Selection) => now < s.expires);
    KeepMembers(st.timed, (t: Timed) => now < t.due);
    FrameLicensed(live, waiting);
    if !(forall t <- st.timed :: now < t.due) {
      DueAwaited(st, now);
      RunDueLicensed(plant, waiting, Keep(st.timed, (t: Timed) => now >= t.due), now);
    }
  }

  lemma DueAwaited(st: Server, now: Instant)
    requires Licensed(st)
    ensures forall t <- Keep(st.timed, (t: Timed) => now >= t.due) :: Awaited(st.history.acts, t)
  {
    hide Live, Used, Awaited;
    KeepMembers(st.timed, (t: Timed) => now >= t.due);
  }

  /** The selections that stay are live once one of them has been used. */
  lemma UseLeavesLive(st: Server, k: nat, obj: string, act: Act)
    requires Licensed(st) && k !in st.history.used && obj in st.selections
    ensures var h :=
              st.history.(used := st.history.used[k := st.selections[obj].grant], acts := st.history.acts[k := act]);
            forall o <- st.selections :: o != obj ==> Live(h, o, st.selections[o])
  {
    hide Authorises, Acted, Used;
    var s := st.selections[obj];
    SelectionsAreApart(st);
    var h := st.history.(used := st.history.used[k := s.grant], acts := st.history.acts[k := act]);
    forall o | o in st.selections && o != obj
      ensures Live(h, o, st.selections[o])
    {
      assert Live(st.history, o, st.selections[o]);
    }
  }

  /** The use itself is licensed, and earlier uses stay so. */
  lemma UseIsLicensed(st: Server, k: nat, obj: string, act: Act)
    requires Licensed(st) && OpenRequest(st, k) && obj in st.selections
    requires Authorises(Grant(0, st.selections[obj].assoc, obj, st.selections[obj].value, st.selections[obj].ctlNum,
                              st.selections[obj].expires), act.assoc, act.obj, act.request, act.now.mono)
    ensures var h :=
              st.history.(used := st.history.used[k := st.selections[obj].grant], acts := st.history.acts[k := act]);
            k !in st.history.used && forall j <- h.used :: Used(h, j)
  {
    hide SameValue, Acted;
    var s := st.selections[obj];
    assert Live(st.history, obj, s);
    var h := st.history.(used := st.history.used[k := s.grant], acts := st.history.acts[k := act]);
    assert k in st.history.used ==> Used(st.history, k);
    forall j | j in h.used
      ensures Used(h, j)
    {
      if j != k {
        assert Used(st.history, j);
      }
    }
  }

  /** An accepted `Oper` on an object that needs a select uses its selection's grant up. */
  lemma UseLicensed(st: Server, k: nat, assoc: AssocId, obj: string, request: ControlRequest, model: ControlModel,
                    now: Now)
    requires Licensed(st) && OpenRequest(st, k) && model.NeedsSelect()
    requires obj in st.selections && SelectFault(st, obj, assoc, request).None? && now.mono < st.selections[obj].expires
    ensures Licensed(Consume(st, k, assoc, obj, request, model, now))
  {
    hide SameValue, Acted, Live, Used;
    var act := Act(assoc, obj, request, model, now);
    UseIsLicensed(st, k, obj, act);
    UseLeavesLive(st, k, obj, act);
    MoreActs(st, Consume(st, k, assoc, obj, request, model, now));
  }

  /** Letting one more command through leaves the tries and the queue licensed. */
  lemma MoreActs(st: Server, after: Server)
    requires Licensed(st)
    requires var h, g := st.history, after.history;
             g.attempts == h.attempts && after.timed == st.timed
             && forall k <- h.acts :: k in g.acts && g.acts[k] == h.acts[k]
    ensures var g := after.history;
            && (forall a <- g.attempts :: Tried(g.acts, a))
            && (forall t <- after.timed :: Awaited(g.acts, t))
  {
    hide Live, Used;
  }

  lemma UnlicensedAct(st: Server, k: nat, act: Act)
    requires Licensed(st) && OpenRequest(st, k) && !act.model.NeedsSelect()
    ensures Licensed(st.(history := st.history.(acts := st.history.acts[k := act])))
  {
    hide Authorises, Acted, Live;
    var after := st.(history := st.history.(acts := st.history.acts[k := act]));
    MoreActs(st, after);
    forall j | j in after.history.used
      ensures Used(after.history, j)
    {
      assert Used(st.history, j);
    }
    assert forall o <- st.selections :: Live(after.history, o, st.selections[o]) by {
      LiveIgnoresActs(st, after);
    }
  }

  lemma LiveIgnoresActs(st: Server, after: Server)
    requires Licensed(st) && after.selections == st.selections
    requires after.history.grants == st.history.grants && after.history.used == st.history.used
             && after.history.ended == st.history.ended
    ensures forall o <- st.selections :: Live(after.history, o, st.selections[o])
  {
    hide LiveGrant, Used;
  }

  lemma ConsumeLicensed(st: Server, k: nat, assoc: AssocId, obj: string, request: ControlRequest, model: ControlModel,
                        now: Now)
    requires Licensed(st) && OpenRequest(st, k)
    requires model.NeedsSelect()
             ==> SelectFault(st, obj, assoc, request).None? && obj in st.selections
                 && now.mono < st.selections[obj].expires
    ensures var after := Consume(st, k, assoc, obj, request, model, now);
            && Licensed(after) && after.serial == st.serial && after.history.attempts == st.history.attempts
            && after.timed == st.timed
            && Acted(after.history.acts, k, assoc, obj, request, model, DueOf(request, now))
  {
    hide Licensed, SelectFault, SameValue, DueOf;
    if model.NeedsSelect() {
      UseLicensed(st, k, assoc, obj, request, model, now);
    } else {
      DeselectLicensed(st, obj);
      DeselectOpen(st, obj, k);
      UnlicensedAct(Deselect(st, obj), k, Act(assoc, obj, request, model, now));
    }
  }

  lemma DeselectOpen(st: Server, obj: string, k: nat)
    requires OpenRequest(st, k)
    ensures OpenRequest(Deselect(st, obj), k)
  {
  }

  lemma ArmLicensed(st: Server, k: nat, assoc: AssocId, obj: string, request: ControlRequest, model: ControlModel,
                    wait: nat, now: Now)
    requires Licensed(st) && Acted(st.history.acts, k, assoc, obj, request, model, Some(PlusNanos(now.mono, wait)))
    ensures Licensed(Arm(st, k, assoc, obj, request, model, wait, now))
  {
    hide Licensed, PlusNanos, DueOf;
    KeepMembers(st.timed, (t: Timed) => !Mine(t, assoc, obj));
    FrameLicensed(st, Arm(st, k, assoc, obj, request, model, wait, now));
  }

  lemma CarryOutLicensed(plant: Plant, st: Server, k: nat, assoc: AssocId, obj: string, request: ControlRequest,
                         model: ControlModel, asked: nat, now: Now)
    requires Licensed(st) && Acted(st.history.acts, k, assoc, obj, request, model, None)
    ensures Licensed(CarryOut(plant, st, k, assoc, obj, request, model, asked, now))
  {
    hide Licensed, Apply, DueOf;
    FrameLicensed(st, CarryOut(plant, st, k, assoc, obj, request, model, asked, now));
  }

  lemma OperateLicensed(plant: Plant, st: Server, k: nat, assoc: AssocId, obj: string, request: ControlRequest,
                        model: ControlModel, now: Now)
    requires Licensed(st) && OpenRequest(st, k)
    requires forall o <- st.selections :: now.mono < st.selections[o].expires
    ensures Licensed(OperateStep(plant, st, k, assoc, obj, request, model, now).0)
  {
    hide Ask, SelectFault, WaitFor, Licensed, Consume, Arm, CarryOut, Acted, OpenRequest;
    var asked := st.(asked := st.asked + 1);
    FrameOpen(st, asked, k);
    PushLicensed(st);
    PushLicensed(asked);
    SameFault(st, asked, obj, assoc, request);
    if !model.NeedsSelect() || SelectFault(st, obj, assoc, request).None? {
      ConsumeLicensed(asked, k, assoc, obj, request, model, now);
      var taken := Consume(asked, k, assoc, obj, request, model, now);
      var wait := WaitFor(request, now.wall);
      if wait.Some? {
        ArmLicensed(taken, k, assoc, obj, request, model, wait.value, now);
      } else {
        CarryOutLicensed(plant, taken, k, assoc, obj, request, model, st.asked, now);
      }
    }
  }

  lemma SameFault(st: Server, after: Server, obj: string, assoc: AssocId, request: ControlRequest)
    requires after.selections == st.selections
    ensures SelectFault(after, obj, assoc, request) == SelectFault(st, obj, assoc, request)
    ensures SelectFault(st, obj, assoc, request).None? ==> obj in st.selections
  {
  }

  lemma ServiceLicensed(plant: Plant, st: Server, k: nat, assoc: AssocId, obj: string, attribute: string,
                        request: ControlRequest, model: ControlModel, now: Now)
    requires Licensed(st) && OpenRequest(st, k)
    ensures Licensed(ServiceStep(plant, st, k, assoc, obj, attribute, request, model, now).0)
  {
    hide OnTimeout, OperateStep, ModeRefusal, BehaviourOf, Ask, Licensed, OpenRequest, GrantSelection, Disarm, Deselect;
    OnTimeoutLicensed(plant, st, now.mono);
    var ready := OnTimeout(plant, st, now.mono);
    OperateLicensed(plant, ready, k, assoc, obj, request, model, now);
    var asked := ready.(asked := ready.asked + 1);
    FrameOpen(ready, asked, k);
    GrantLicensed(asked, k, assoc, obj, Some(request.ctlVal), request.ctlNum, now.mono);
    var bare := Disarm(asked, assoc, obj);
    DisarmLicensed(asked, assoc, obj);
    DeselectLicensed(bare, obj);
    PushLicensed(ready);
    PushLicensed(asked);
    PushLicensed(bare);
  }

  lemma FrameOpen(st: Server, after: Server, k: nat)
    requires Licensed(st) && after == st.(asked := st.asked + 1)
    ensures Licensed(after) && (OpenRequest(st, k) ==> OpenRequest(after, k))
  {
    FrameLicensed(st, after);
  }

  /** Answers and causes are not the licence's business. */
  lemma PushLicensed(st: Server)
    requires Licensed(st)
    ensures forall pending, lastCause :: Licensed(st.(pending := pending, lastCause := lastCause))
  {
    forall pending, lastCause
      ensures Licensed(st.(pending := pending, lastCause := lastCause))
    {
      FrameLicensed(st, st.(pending := pending, lastCause := lastCause));
    }
  }

  lemma DoLicensed(plant: Plant, st: Server, step: Step)
    requires Licensed(st)
    ensures Licensed(Do(plant, st, step))
  {
    hide OnTimeout, ServiceStep, ModelOf, RequestOfValue, Ask, ModeRefusal, BehaviourOf, GrantSelection, Licensed,
         Retain;
    match step
    case SelectRequest(assoc, obj, now) =>
      OpenNext(st);
      var asked := st.(serial := st.serial + 1, asked := st.asked + 1);
      GrantLicensed(asked, st.serial, assoc, obj, None, 0, now.mono);
    case WriteRequest(assoc, obj, attribute, value, now) =>
      OpenNext(st);
      var next := st.(serial := st.serial + 1);
      var model, request := ModelOf(st.values, obj), RequestOfValue(value);
      if model.Some? && request.Some? {
        ServiceLicensed(plant, next, st.serial, assoc, obj, attribute, request.value, model.value, now);
        var (after, answer) := ServiceStep(plant, next, st.serial, assoc, obj, attribute, request.value, model.value,
                                           now);
        FrameLicensed(after, Book(after, st.serial, attribute, model.value, answer));
      }
    case Tick(at) => OnTimeoutLicensed(plant, st, at);
    case Close(assoc) =>
      RetainLicensed(st, (s: Selection) => s.assoc != assoc);
      KeepMembers(st.timed, (t: Timed) => t.assoc != assoc);
      RetainKeepsTimed(st, (s: Selection) => s.assoc != assoc);
      FrameLicensed(Retain(st, (s: Selection) => s.assoc != assoc), OnClosed(st, assoc));
    case _ => FrameLicensed(st, Do(plant, st, step));
  }

  lemma RetainKeepsTimed(st: Server, keep: Selection -> bool)
    ensures Retain(st, keep).timed == st.timed && Retain(st, keep).serial == st.serial
  {
  }

  lemma OpenNext(st: Server)
    requires Licensed(st)
    ensures var next := st.(serial := st.serial + 1); Licensed(next) && OpenRequest(next, st.serial)
    ensures var next := st.(serial := st.serial + 1, asked := st.asked + 1);
            Licensed(next) && OpenRequest(next, st.serial)
  {
    FrameLicensed(st, st.(serial := st.serial + 1));
    FrameLicensed(st, st.(serial := st.serial + 1, asked := st.asked + 1));
  }

  lemma {:induction false} RunLicensed(plant: Plant, st: Server, steps: seq<Step>)
    requires Licensed(st)
    ensures Licensed(Run(plant, st, steps))
    decreases |steps|
  {
    hide Licensed, Do;
    if steps != [] {
      DoLicensed(plant, st, steps[0]);
      RunLicensed(plant, Do(plant, st, steps[0]), steps[1..]);
    }
  }

  /** The command numbered `k` rests on a grant made before it was asked for, which authorises exactly
      this request, was live when it was let through, was never ended, and serves no other command. */
  predicate Entitled(h: History, k: nat, assoc: AssocId, obj: string, request: ControlRequest) {
    && k in h.acts && k in h.used && h.used[k] < |h.grants| && h.used[k] !in h.ended
    && h.grants[h.used[k]].serial < k
    && Authorises(h.grants[h.used[k]], assoc, obj, request, h.acts[k].now.mono)
    && forall j <- h.used :: h.used[j] == h.used[k] ==> j == k
  }

  /** In every run: every command tried, applied or armed under a model that needs a select rests on a
      grant of its own, to the same client on the same object, for the value and the number of that very
      command, unexpired, not cancelled and not used before; and every command tried or armed, under any
      model, is one let through, with the due instant its request asked for then. */
  lemma OneShotAuthorisedOperate(plant: Plant, values: map<string, Value>, sboTimeoutMs: U64, steps: seq<Step>)
    ensures var st := Run(plant, Fresh(values, sboTimeoutMs), steps); var h := st.history;
            && (forall a <- h.attempts :: a.model.NeedsSelect() ==> Entitled(h, a.serial, a.assoc, a.obj, a.request))
            && (forall t <- st.timed :: t.model.NeedsSelect() ==> Entitled(h, t.serial, t.assoc, t.obj, t.request))
            && (forall a <- h.attempts :: Tried(h.acts, a))
            && (forall t <- st.timed :: Awaited(h.acts, t))
  {
    hide Run, SameValue, DueOf, Live;
    FreshIsLicensed(values, sboTimeoutMs);
    RunLicensed(plant, Fresh(values, sboTimeoutMs), steps);
    var st := Run(plant, Fresh(values, sboTimeoutMs), steps);
    var h := st.history;
    forall a | a in h.attempts && a.model.NeedsSelect()
      ensures Entitled(h, a.serial, a.assoc, a.obj, a.request)
    {
      assert Tried(h.acts, a) && Used(h, a.serial);
    }
    forall t | t in st.timed && t.model.NeedsSelect()
      ensures Entitled(h, t.serial, t.assoc, t.obj, t.request)
    {
      assert Awaited(h.acts, t) && Used(h, t.serial);
    }
  }

  lemma FreshIsLicensed(values: map<string, Value>, sboTimeoutMs: U64)
    ensures Licensed(Fresh(values, sboTimeoutMs))
  {
  }
}
