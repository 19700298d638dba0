/** The server-side control state machine: what one request, one tick or one lost association does
    to selections, armed commands, owed answers and the model (IEC 61850-7-2 section 20).

    Besides the server's own fields the state carries a `History`: who was granted what, which
    request used which grant, which commands ran or were withdrawn, and every answer already sent.
    Nothing the server does depends on it; it is what the properties are about. */
module Control {
  import opened Sequences
  import opened Common
  import opened Octets
  import opened Time
  import opened Data
  import opened ControlMessage
  import opened Text
  import opened Device

  type AssocId = U64
  type Instant = U64

  /** The two clocks a request is stamped with. */
  datatype Now = Now(mono: Instant, wall: UtcTime)

  const DENIED: int := 3
  const VALUE_INVALID: int := 11
  const MAX_INSTANT: U64 := 0xFFFF_FFFF_FFFF_FFFF

  function PlusNanos(i: Instant, ns: nat): (j: Instant)
    ensures j == MAX_INSTANT || j == i + ns
  {
    if i + ns > MAX_INSTANT then MAX_INSTANT else i + ns
  }

  function PlusMillis(i: Instant, ms: U64): Instant {
    PlusNanos(i, if ms * 1_000_000 > MAX_INSTANT then MAX_INSTANT else ms * 1_000_000)
  }

  datatype Stage = Select | Operate | Cancel

  datatype ControlEvent = ControlEvent(obj: string, stage: Stage, request: ControlRequest, model: ControlModel)

  /** The application behind the server. Its hook may answer differently every time it is asked,
      so it is also given how often it was asked before; `accepts` says which writes to a leaf of
      the model fit its type and which are dropped. */
  datatype Plant = Plant(hook: Option<(nat, ControlEvent) -> Option<AddCause>>, accepts: (string, Value) -> bool)

  function Ask(plant: Plant, asked: nat, event: ControlEvent): Option<AddCause> {
    match plant.hook
    case Some(hook) => hook(asked, event)
    case None => None
  }

  // ---- the model behind an object ----

  datatype Behaviour = On | Blocked | Test | TestBlocked | Off

  function BehaviourOfCode(code: int): Behaviour {
    if code == 2 then Blocked
    else if code == 3 then Test
    else if code == 4 then TestBlocked
    else if code == 5 then Off
    else On
  }

  /** An enumeration value in either integer encoding. */
  function CodeOf(v: Value): Option<int> {
    match v
    case Integer(i) => Some(i)
    case Unsigned(u) => if u < 0x8000_0000_0000_0000 then Some(u) else None
    case _ => None
  }

  function CodeAt(values: map<string, Value>, reference: string): Option<int> {
    if reference in values then CodeOf(values[reference]) else None
  }

  /** `Beh`, then `Mod`, then `On`. */
  function BehaviourOf(values: map<string, Value>, obj: string): Behaviour {
    match SplitOnce(obj, '/')
    case None => On
    case Some((domain, item)) =>
      match SplitOnce(item, '$')
      case None => On
      case Some((ln, _)) =>
        var beh := CodeAt(values, domain + "/" + ln + "$ST$Beh$stVal");
        var mod := CodeAt(values, domain + "/" + ln + "$ST$Mod$stVal");
        if beh.Some? then BehaviourOfCode(beh.value)
        else if mod.Some? then BehaviourOfCode(mod.value)
        else On
  }

  /** A blocked or switched-off node refuses everything; otherwise the `Test` flag must agree with
      the behaviour, in both directions. */
  function ModeRefusal(behaviour: Behaviour, test: bool): Option<AddCause> {
    if !(behaviour.On? || behaviour.Test?) then Some(BLOCKED_BY_MODE)
    else if test != (behaviour.Test? || behaviour.TestBlocked?) then Some(BLOCKED_BY_MODE)
    else None
  }

  /** `LD/LN$CO$path` as the domain, the node and the path. */
  function ControlParts(obj: string): Option<(string, string, string)> {
    match SplitOnce(obj, '/')
    case None => None
    case Some((domain, item)) =>
      match SplitOnce(item, '$')
      case None => None
      case Some((ln, rest)) =>
        match StripPrefix(rest, "CO$")
        case None => None
        case Some(path) => Some((domain, ln, path))
  }

  /** The object's `ctlModel`, if the model serves one. */
  function ModelOf(values: map<string, Value>, obj: string): Option<ControlModel> {
    match ControlParts(obj)
    case None => None
    case Some((domain, ln, path)) =>
      match CodeAt(values, domain + "/" + ln + "$CF$" + path + "$ctlModel")
      case None => None
      case Some(code) => ModelOfCode(code)
  }

  /** Carry a command out: its value becomes the object's status, stamped `wall`. */
  function Apply(plant: Plant, values: map<string, Value>, obj: string, request: ControlRequest,
                 wall: UtcTime): map<string, Value> {
    match ControlParts(obj)
    case None => values
    case Some((domain, ln, path)) =>
      var status := Stored(plant.accepts, values, domain + "/" + ln + "$ST$" + path + "$stVal", request.ctlVal);
      Stored(plant.accepts, status, domain + "/" + ln + "$ST$" + path + "$t", Utc(wall))
  }

  // ---- state ----

  /** One outstanding selection. `grant` is its place among all grants ever made. */
  datatype Selection = Selection(assoc: AssocId, value: Option<Value>, ctlNum: U8, expires: Instant, grant: nat)

  /** A command accepted now and due later. `serial` is the number of the request that armed it. */
  datatype Timed = Timed(serial: nat, assoc: AssocId, obj: string, request: ControlRequest, model: ControlModel,
                         due: Instant)

  datatype Pdu =
    | Positive(obj: string, request: ControlRequest)
    | Negative(obj: string, request: ControlRequest, addCause: AddCause)

  /** An answer owed to a client. `serial` is the number of the request it answers. */
  datatype Termination = Termination(assoc: AssocId, pdu: Pdu, serial: nat)

  datatype Grant = Grant(serial: nat, assoc: AssocId, obj: string, value: Option<Value>, ctlNum: U8, expires: Instant)

  /** An `Oper` that was let through: whose, for what, under which model and when. */
  datatype Act = Act(assoc: AssocId, obj: string, request: ControlRequest, model: ControlModel, now: Now)

  /** One attempt to carry a command out: when, against which values, at which question to the
      hook, and what stopped it if anything did. */
  datatype Attempt = Attempt(
    serial: nat, assoc: AssocId, obj: string, request: ControlRequest, model: ControlModel,
    at: Instant, due: Option<Instant>, before: map<string, Value>, asked: nat, refusal: Option<AddCause>)

  datatype History = History(
    grants: seq<Grant>,
    used: map<nat, nat>,
    ended: set<nat>,
    acts: map<nat, Act>,
    attempts: seq<Attempt>,
    withdrawn: seq<nat>,
    owed: set<nat>,
    sent: seq<Termination>)

  datatype Server = Server(
    selections: map<string, Selection>,
    timed: seq<Timed>,
    pending: seq<Termination>,
    lastCause: Option<AddCause>,
    sboTimeoutMs: U64,
    values: map<string, Value>,
    asked: nat,
    serial: nat,
    history: History)

  datatype Answer = Done | Refused(code: int)

  function Fresh(values: map<string, Value>, sboTimeoutMs: U64): Server {
    Server(map[], [], [], None, sboTimeoutMs, values, 0, 0, History([], map[], {}, map[], [], [], {}, []))
  }

  // ---- pieces of a step ----

  function TimedSerials(ts: seq<Timed>): (r: seq<nat>)
    ensures |r| == |ts|
  {
    seq(|ts|, i requires 0 <= i < |ts| => ts[i].serial)
  }

  predicate Mine(t: Timed, assoc: AssocId, obj: string) {
    t.obj == obj && t.assoc == assoc
  }

  /** Take every armed command of one client on one object out of the queue. */
  function Disarm(st: Server, assoc: AssocId, obj: string): Server {
    st.(timed := Keep(st.timed, (t: Timed) => !Mine(t, assoc, obj)),
        history := st.history.(withdrawn := st.history.withdrawn
                               + TimedSerials(Keep(st.timed, (t: Timed) => Mine(t, assoc, obj)))))
  }

  lemma DisarmKeeps(st: Server, assoc: AssocId, obj: string)
    ensures var after := Disarm(st, assoc, obj);
            && after.pending == st.pending && after.values == st.values && after.serial == st.serial
            && after.selections == st.selections
            && after.history.attempts == st.history.attempts && after.history.acts == st.history.acts
            && after.timed == Keep(st.timed, (t: Timed) => !Mine(t, assoc, obj))
  {
  }

  /** Take an object's selection away without using it. */
  function Deselect(st: Server, obj: string): Server {
    if obj in st.selections then
      st.(selections := st.selections - {obj},
          history := st.history.(ended := st.history.ended + {st.selections[obj].grant}))
    else st
  }

  /** Drop every selection `keep` does not hold on to. */
  function Retain(st: Server, keep: Selection -> bool): Server {
    st.(selections := map o | o in st.selections && keep(st.selections[o]) :: st.selections[o],
        history := st.history.(ended := st.history.ended
          + set o | o in st.selections && !keep(st.selections[o]) :: st.selections[o].grant))
  }

  function GrantSelection(st: Server, k: nat, assoc: AssocId, obj: string, value: Option<Value>, ctlNum: U8,
                          now: Instant): Server {
    var expires := PlusMillis(now, st.sboTimeoutMs);
    var bare := Deselect(st, obj);
    bare.(selections := bare.selections[obj := Selection(assoc, value, ctlNum, expires, |st.history.grants|)],
          history := bare.history.(grants := st.history.grants + [Grant(k, assoc, obj, value, ctlNum, expires)]))
  }

  function Push(st: Server, assoc: AssocId, pdu: Pdu, k: nat): Server {
    st.(pending := st.pending + [Termination(assoc, pdu, k)])
  }

  /** A refusal: a reason for the client, and a write result that says "accepted" only for a
      refused operate under enhanced security. */
  function Refuse(st: Server, k: nat, assoc: AssocId, obj: string, request: ControlRequest, model: ControlModel,
                  stage: Stage, cause: AddCause)
    : (Server, Answer)
  {
    (Push(st, assoc, Negative(obj, request, cause), k).(lastCause := Some(cause)),
     if model.Enhanced() && stage == Operate then Done else Refused(DENIED))
  }

  predicate HeldByOther(st: Server, obj: string, assoc: AssocId, now: Instant) {
    obj in st.selections && st.selections[obj].assoc != assoc && now < st.selections[obj].expires
  }

  // ---- time ----

  function RunOne(plant: Plant, st: Server, t: Timed, now: Instant): Server {
    var byMode := ModeRefusal(BehaviourOf(st.values, t.obj), t.request.test);
    var refusal := if byMode.Some? then byMode
                   else Ask(plant, st.asked, ControlEvent(t.obj, Operate, t.request, t.model));
    var tried := st.(
      asked := if byMode.Some? then st.asked else st.asked + 1,
      history := st.history.(attempts := st.history.attempts
        + [Attempt(t.serial, t.assoc, t.obj, t.request, t.model, now, Some(t.due), st.values, st.asked, refusal)]));
    if refusal.Some? then Push(tried, t.assoc, Negative(t.obj, t.request, refusal.value), t.serial)
    else
      var applied := tried.(values := Apply(plant, st.values, t.obj, t.request, t.request.t));
      if t.model.Enhanced() then Push(applied, t.assoc, Positive(t.obj, t.request), t.serial) else applied
  }

  function RunDue(plant: Plant, st: Server, due: seq<Timed>, now: Instant): Server
    decreases |due|
  {
    if due == [] then st else RunDue(plant, RunOne(plant, st, due[0], now), due[1..], now)
  }

  /** Expire selections, then run the commands that have fallen due. */
  function OnTimeout(plant: Plant, st: Server, now: Instant): Server {
    var live := Retain(st, (s: Selection) => now < s.expires);
    if forall t <- st.timed :: now < t.due then live
    else RunDue(plant, live.(timed := Keep(st.timed, (t: Timed) => now < t.due)),
                Keep(st.timed, (t: Timed) => now >= t.due), now)
  }

  /** An association ended: its selections and its armed commands go with it. */
  function OnClosed(st: Server, assoc: AssocId): Server {
    var released := Retain(st, (s: Selection) => s.assoc != assoc);
    released.(timed := Keep(st.timed, (t: Timed) => t.assoc != assoc),
              history := released.history.(withdrawn := st.history.withdrawn
                                           + TimedSerials(Keep(st.timed, (t: Timed) => t.assoc == assoc))))
  }

  /** `i` is the earliest selection expiry or due time. */
  predicate NextTimeout(st: Server, i: Option<Instant>) {
    match i
    case None => st.selections == map[] && st.timed == []
    case Some(when) =>
      && (forall o <- st.selections :: when <= st.selections[o].expires)
      && (forall t <- st.timed :: when <= t.due)
      && ((exists o <- st.selections :: when == st.selections[o].expires) || (exists t <- st.timed :: when == t.due))
  }

  // ---- requests ----

  /** A `Read` of `SBO`, numbered `st.serial`. True when the selection is granted. */
  function SelectStep(plant: Plant, st: Server, assoc: AssocId, obj: string, now: Now): (Server, bool) {
    var k, next := st.serial, st.(serial := st.serial + 1);
    if ModelOf(st.values, obj) != Some(SboNormal) then (next, false)
    else if HeldByOther(st, obj, assoc, now.mono) then (next, false)
    else if ModeRefusal(BehaviourOf(st.values, obj), false).Some? then (next, false)
    else
      var request := ControlRequest(Boolean(false), None, Origin(3, []), 0, now.wall, false, Check(false, false));
      var asked := next.(asked := st.asked + 1);
      if Ask(plant, st.asked, ControlEvent(obj, Select, request, SboNormal)).Some? then (asked, false)
      else (GrantSelection(asked, k, assoc, obj, None, 0, now.mono), true)
  }

  /** What is wrong with the selection an `Oper` needs, if anything. */
  function SelectFault(st: Server, obj: string, assoc: AssocId, request: ControlRequest): Option<AddCause> {
    if obj !in st.selections then Some(OBJECT_NOT_SELECTED)
    else
      var s := st.selections[obj];
      if s.assoc != assoc then Some(OBJECT_NOT_SELECTED)
      else if s.value.Some? && !SameValue(s.value.value, request.ctlVal) then Some(INCONSISTENT_PARAMETERS)
      else if s.ctlNum != 0 && s.ctlNum != request.ctlNum then Some(INCONSISTENT_PARAMETERS)
      else None
  }

  /** The selection an accepted `Oper` uses up, and the record of that use. */
  function Consume(st: Server, k: nat, assoc: AssocId, obj: string, request: ControlRequest, model: ControlModel,
                   now: Now): Server {
    var act := Act(assoc, obj, request, model, now);
    if model.NeedsSelect() && obj in st.selections then
      st.(selections := st.selections - {obj},
          history := st.history.(used := st.history.used[k := st.selections[obj].grant],
                                 acts := st.history.acts[k := act]))
    else
      var bare := Deselect(st, obj);
      bare.(history := bare.history.(acts := bare.history.acts[k := act]))
  }

  lemma ConsumeKeeps(st: Server, k: nat, assoc: AssocId, obj: string, request: ControlRequest, model: ControlModel,
                     now: Now)
    ensures var after := Consume(st, k, assoc, obj, request, model, now);
            && after.timed == st.timed && after.pending == st.pending && after.values == st.values
            && after.serial == st.serial
            && after.history.attempts == st.history.attempts
            && after.history.acts == st.history.acts[k := Act(assoc, obj, request, model, now)]
            && after.history.withdrawn == st.history.withdrawn && after.history.sent == st.history.sent
            && after.history.owed == st.history.owed
  {
  }

  /** How long until `operTm`, when that is still ahead. */
  function WaitFor(request: ControlRequest, wall: UtcTime): Option<nat> {
    if request.operTm.Some? && request.operTm.value.ToUnixNanos() > wall.ToUnixNanos() then
      Some(request.operTm.value.ToUnixNanos() - wall.ToUnixNanos())
    else None
  }

  /** When a command let through at `now` falls due, if it is not to run at once. */
  function DueOf(request: ControlRequest, now: Now): Option<Instant> {
    match WaitFor(request, now.wall)
    case Some(wait) => Some(PlusNanos(now.mono, wait))
    case None => None
  }

  function Arm(st: Server, k: nat, assoc: AssocId, obj: string, request: ControlRequest, model: ControlModel, wait: nat,
               now: Now): Server {
    var bare := Disarm(st, assoc, obj);
    bare.(timed := bare.timed + [Timed(k, assoc, obj, request.(t := now.wall), model, PlusNanos(now.mono, wait))])
  }

  /** Carry an accepted `Oper` out now; `asked` is the question the hook let it through at. */
  function CarryOut(plant: Plant, st: Server, k: nat, assoc: AssocId, obj: string, request: ControlRequest,
                    model: ControlModel, asked: nat, now: Now)
    : Server
  {
    var applied := st.(
      values := Apply(plant, st.values, obj, request, now.wall),
      history := st.history.(attempts := st.history.attempts
        + [Attempt(k, assoc, obj, request, model, now.mono, None, st.values, asked, None)]));
    if model.Enhanced() then Push(applied, assoc, Positive(obj, request), k) else applied
  }

  function OperateStep(plant: Plant, st: Server, k: nat, assoc: AssocId, obj: string, request: ControlRequest,
                       model: ControlModel, now: Now)
    : (Server, Answer)
  {
    if model == StatusOnly then Refuse(st, k, assoc, obj, request, model, Operate, NOT_SUPPORTED)
    else if model.NeedsSelect() && SelectFault(st, obj, assoc, request).Some? then
      Refuse(st, k, assoc, obj, request, model, Operate, SelectFault(st, obj, assoc, request).value)
    else
      var verdict := Ask(plant, st.asked, ControlEvent(obj, Operate, request, model));
      var asked := st.(asked := st.asked + 1);
      if verdict.Some? then Refuse(asked, k, assoc, obj, request, model, Operate, verdict.value)
      else
        var taken := Consume(asked, k, assoc, obj, request, model, now);
        var wait := WaitFor(request, now.wall);
        (if wait.Some? then Arm(taken, k, assoc, obj, request, model, wait.value, now)
         else CarryOut(plant, taken, k, assoc, obj, request, model, st.asked, now),
         Done)
  }

  function SelectWithValueStep(plant: Plant, st: Server, k: nat, assoc: AssocId, obj: string, request: ControlRequest,
                               model: ControlModel, now: Now)
    : (Server, Answer)
  {
    if model != SboEnhanced then Refuse(st, k, assoc, obj, request, model, Select, NOT_SUPPORTED)
    else if HeldByOther(st, obj, assoc, now.mono)
         then Refuse(st, k, assoc, obj, request, model, Select, OBJECT_ALREADY_SELECTED)
    else
      var verdict := Ask(plant, st.asked, ControlEvent(obj, Select, request, model));
      var asked := st.(asked := st.asked + 1);
      if verdict.Some? then Refuse(asked, k, assoc, obj, request, model, Select, verdict.value)
      else (GrantSelection(asked, k, assoc, obj, Some(request.ctlVal), request.ctlNum, now.mono), Done)
  }

  function CancelStep(plant: Plant, st: Server, k: nat, assoc: AssocId, obj: string, request: ControlRequest,
                      model: ControlModel)
    : (Server, Answer)
  {
    var verdict := Ask(plant, st.asked, ControlEvent(obj, Cancel, request, model));
    var asked := st.(asked := st.asked + 1);
    if verdict.Some? then Refuse(asked, k, assoc, obj, request, model, Cancel, verdict.value)
    else
      var bare := Disarm(asked, assoc, obj);
      if obj in st.selections && st.selections[obj].assoc == assoc then (Deselect(bare, obj), Done)
      else if exists t <- st.timed :: Mine(t, assoc, obj) then (bare, Done)
      else Refuse(bare, k, assoc, obj, request, model, Cancel, OBJECT_NOT_SELECTED)
  }

  /** A `Write` whose value has been read as a request, on an object with a control model. */
  function ServiceStep(plant: Plant, st: Server, k: nat, assoc: AssocId, obj: string, attribute: string,
                       request: ControlRequest, model: ControlModel, now: Now)
    : (Server, Answer)
  {
    var ready := OnTimeout(plant, st, now.mono);
    var byMode := ModeRefusal(BehaviourOf(ready.values, obj), request.test);
    if attribute != "Cancel" && byMode.Some? then
      Refuse(ready, k, assoc, obj, request, model, if attribute == "Oper" then Operate else Select, byMode.value)
    else if attribute == "SBOw" then SelectWithValueStep(plant, ready, k, assoc, obj, request, model, now)
    else if attribute == "Cancel" then CancelStep(plant, ready, k, assoc, obj, request, model)
    else if attribute == "Oper" then OperateStep(plant, ready, k, assoc, obj, request, model, now)
    else (ready, Refused(DENIED))
  }

  /** What an accepted `Oper` leaves owed under enhanced security. */
  function Book(st: Server, k: nat, attribute: string, model: ControlModel, answer: Answer): Server {
    if attribute == "Oper" && answer == Done && model.Enhanced() then
      st.(history := st.history.(owed := st.history.owed + {k}))
    else st
  }

  /** A `Write` of `SBOw`, `Oper` or `Cancel`, numbered `st.serial`. */
  function WriteStep(plant: Plant, st: Server, assoc: AssocId, obj: string, attribute: string, value: Value,
                     now: Now): (Server, Answer) {
    var k, next := st.serial, st.(serial := st.serial + 1);
    var model, request := ModelOf(st.values, obj), RequestOfValue(value);
    if model.None? then (next, Refused(DENIED))
    else if request.None? then (next, Refused(VALUE_INVALID))
    else
      var (after, answer) := ServiceStep(plant, next, k, assoc, obj, attribute, request.value, model.value, now);
      (Book(after, k, attribute, model.value, answer), answer)
  }

  // ---- runs ----

  /** Everything that can happen to a control server. `Environment` is the rest of the device and
      every other service changing the model's values under it, in any way at all. */
  datatype Step =
    | SelectRequest(assoc: AssocId, obj: string, now: Now)
    | WriteRequest(assoc: AssocId, obj: string, attribute: string, value: Value, now: Now)
    | Tick(at: Instant)
    | Close(assoc: AssocId)
    | Flush
    | TakeCause
    | Configure(sboTimeoutMs: U64)
    | Environment(values: map<string, Value>)

  function Flushed(st: Server): Server {
    st.(pending := [], history := st.history.(sent := st.history.sent + st.pending))
  }

  function Do(plant: Plant, st: Server, step: Step): Server {
    match step
    case SelectRequest(assoc, obj, now) => SelectStep(plant, st, assoc, obj, now).0
    case WriteRequest(assoc, obj, attribute, value, now) => WriteStep(plant, st, assoc, obj, attribute, value, now).0
    case Tick(at) => OnTimeout(plant, st, at)
    case Close(assoc) => OnClosed(st, assoc)
    case Flush => Flushed(st)
    case TakeCause => st.(lastCause := None)
    case Configure(ms) => st.(sboTimeoutMs := ms)
    case Environment(values) => st.(values := values)
  }

  function Run(plant: Plant, st: Server, steps: seq<Step>): Server
    decreases |steps|
  {
    if steps == [] then st else Run(plant, Do(plant, st, steps[0]), steps[1..])
  }
}
