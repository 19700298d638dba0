/** A client's control operation against the server, with everybody else at work in between: what
    `execute` reports is what the server did. */
module ControlClient {
  import opened Sequences
  import opened Common
  import opened Octets
  import opened Time
  import opened Data
  import opened ControlMessage
  import opened Control
  import opened ControlLicence
  import opened ControlAside
  import opened ControlEffects
  import opened ControlLedger
  import opened ControlCancel
  import opened ControlWithdrawal

  /** What arrives without being asked for. Reports are only told apart. */
  datatype Unsolicited = Report(id: nat) | Command(pdu: Pdu)

  /** The server, and what has arrived at one of its clients and is not taken yet. */
  datatype World = World(server: Server, queue: seq<Unsolicited>)

  /** What may happen while the client waits: a step of anybody else's at the server, the server
      sending what is pending, or a report coming in. */
  datatype Event = Elsewhere(step: Step) | Deliver | Reported(id: nat)

  function Addressed(ts: seq<Termination>, me: AssocId): seq<Unsolicited> {
    if ts == [] then []
    else Addressed(ts[..|ts| - 1], me) + if ts[|ts| - 1].assoc == me then [Command(ts[|ts| - 1].pdu)] else []
  }

  function Happen(plant: Plant, w: World, me: AssocId, event: Event): World {
    match event
    case Elsewhere(step) => w.(server := Do(plant, w.server, step))
    case Deliver => World(Flushed(w.server), w.queue + Addressed(w.server.pending, me))
    case Reported(id) => w.(queue := w.queue + [Report(id)])
  }

  function Elapse(plant: Plant, w: World, me: AssocId, events: seq<Event>): World
    decreases |events|
  {
    if events == [] then w else Elapse(plant, Happen(plant, w, me, events[0]), me, events[1..])
  }

  function AllElsewhere(steps: seq<Step>): (events: seq<Event>)
    ensures |events| == |steps| && forall i :: 0 <= i < |steps| ==> events[i] == Elsewhere(steps[i])
  {
    seq(|steps|, i requires 0 <= i < |steps| => Elsewhere(steps[i]))
  }

  /** What the others do while the client waits is a run of the server, whatever they do, and adds nothing
      to what has arrived. */
  lemma {:induction false} ElsewhereRuns(plant: Plant, w: World, me: AssocId, steps: seq<Step>)
    ensures Elapse(plant, w, me, AllElsewhere(steps)) == World(Run(plant, w.server, steps), w.queue)
    decreases |steps|
  {
    hide Do;
    if steps != [] {
      assert AllElsewhere(steps)[1..] == AllElsewhere(steps[1..]);
      ElsewhereRuns(plant, World(Do(plant, w.server, steps[0]), w.queue), me, steps[1..]);
    }
  }

  /** What comes in is appended: a report as it is, and with a delivery everything pending for the client,
      in order; the server has then sent all of it. */
  lemma ComesIn(plant: Plant, w: World, me: AssocId, id: nat)
    ensures Happen(plant, w, me, Reported(id)) == World(w.server, w.queue + [Report(id)])
    ensures var after := Happen(plant, w, me, Deliver);
            after.server.pending == [] && after.server.history.sent == w.server.history.sent + w.server.pending
            && w.queue <= after.queue
  {
  }

  predicate Wanted(u: Unsolicited, n: U8) {
    u.Command? && u.pdu.request.ctlNum == n
  }

  /** Where the first termination for `n` stands in the queue; its length when there is none. */
  function Position(queue: seq<Unsolicited>, n: U8): (i: nat)
    ensures i <= |queue| && (i < |queue| ==> Wanted(queue[i], n))
    ensures forall j :: 0 <= j < i ==> !Wanted(queue[j], n)
  {
    Find(queue, (u: Unsolicited) => Wanted(u, n))
  }

  /** The first termination for `n`, and the queue without it. */
  function TakeFirst(queue: seq<Unsolicited>, n: U8): (Option<Pdu>, seq<Unsolicited>) {
    var i := Position(queue, n);
    if i == |queue| then (None, queue) else (Some(queue[i].pdu), queue[..i] + queue[i + 1..])
  }

  /** Wait for the termination for `n`: each round, what happens before the client looks again;
      the deadline passes with the last. */
  function Await(plant: Plant, w: World, me: AssocId, n: U8, rounds: seq<seq<Event>>): (Option<Pdu>, World)
    decreases |rounds|
  {
    var (found, rest) := TakeFirst(w.queue, n);
    if found.Some? then (found, w.(queue := rest))
    else if rounds == [] then (None, w)
    else Await(plant, Elapse(plant, w, me, rounds[0]), me, n, rounds[1..])
  }

  /** A control write, with the reason for a refusal looked up among what arrives. */
  function WriteValue(plant: Plant, w: World, me: AssocId, obj: string, attribute: string, value: Value, n: U8,
                      now: Now, rounds: seq<seq<Event>>)
    : (Result<()>, World)
  {
    var (server, answer) := WriteStep(plant, w.server, me, obj, attribute, value, now);
    match answer
    case Done => (Ok(()), w.(server := server))
    case Refused(code) =>
      var (found, after) := Await(plant, w.(server := server), me, n, rounds);
      (if found.Some? && found.value.Negative? then Err(ControlRejected(found.value.addCause))
       else Err(DataAccess(code)), after)
  }

  /** A select or a command, and a cancel: the same without its checks. */
  function WriteControl(plant: Plant, w: World, me: AssocId, obj: string, attribute: string, request: ControlRequest,
                        now: Now, rounds: seq<seq<Event>>)
    : (Result<()>, World)
  {
    WriteValue(plant, w, me, obj, attribute, RequestToValue(request), request.ctlNum, now, rounds)
  }

  function CancelCommand(plant: Plant, w: World, me: AssocId, obj: string, request: ControlRequest, now: Now,
                         rounds: seq<seq<Event>>)
    : (Result<()>, World)
  {
    WriteValue(plant, w, me, obj, "Cancel", RequestToCancelValue(request), request.ctlNum, now, rounds)
  }

  /** When the client does what, and what happens around it. */
  datatype Schedule = Schedule(
    selectAt: Now, selectStamp: UtcTime, selectRefusal: seq<seq<Event>>,
    between: seq<Event>,
    operateAt: Now, operateStamp: UtcTime, operateRefusal: seq<seq<Event>>,
    answer: seq<seq<Event>>)

  /** The model to act on: the one stated, or the one served, or direct control. */
  function ResolvedModel(stated: Option<ControlModel>, w: World, obj: string): ControlModel {
    if stated.Some? then stated.value
    else if ModelOf(w.server.values, obj).Some? then ModelOf(w.server.values, obj).value
    else DirectNormal
  }

  /** The select the model asks for, if any. */
  function Prepare(plant: Plant, w: World, me: AssocId, obj: string, model: ControlModel, request: ControlRequest,
                   plan: Schedule): (Result<()>, World) {
    if model == SboEnhanced then
      WriteControl(plant, w, me, obj, "SBOw", request.(t := plan.selectStamp), plan.selectAt, plan.selectRefusal)
    else if model == SboNormal then
      var (server, granted) := SelectStep(plant, w.server, me, obj, plan.selectAt);
      (if granted then Ok(()) else Err(ControlRejected(SELECT_FAILED)), w.(server := server))
    else (Ok(()), w)
  }

  /** The world when the client writes `Oper`, if it comes to that. */
  function AtOperate(plant: Plant, w: World, me: AssocId, obj: string, model: ControlModel, request: ControlRequest,
                     plan: Schedule): World {
    Elapse(plant, Prepare(plant, w, me, obj, model, request, plan).1, me, plan.between)
  }

  /** Write `Oper`, and under enhanced security wait for the termination. */
  function Operate(plant: Plant, w: World, me: AssocId, obj: string, model: ControlModel, request: ControlRequest,
                   plan: Schedule): (Result<Option<Pdu>>, World) {
    var (written, after) := WriteControl(plant, w, me, obj, "Oper", request.(t := plan.operateStamp), plan.operateAt,
                                         plan.operateRefusal);
    if written.Err? then (Err(written.error), after)
    else if !model.Enhanced() then (Ok(None), after)
    else
      var (found, later) := Await(plant, after, me, request.ctlNum, plan.answer);
      match found
      case Some(Negative(_, _, cause)) => (Err(ControlRejected(cause)), later)
      case Some(Positive(_, _)) => (Ok(found), later)
      case None => (Err(Io), later)
  }

  function Execute(plant: Plant, w: World, me: AssocId, obj: string, model: ControlModel, request: ControlRequest,
                   plan: Schedule): (Result<Option<Pdu>>, World) {
    if model == StatusOnly then (Err(ControlRejected(NOT_SUPPORTED)), w)
    else
      var (prepared, after) := Prepare(plant, w, me, obj, model, request, plan);
      if prepared.Err? then (Err(prepared.error), after)
      else Operate(plant, Elapse(plant, after, me, plan.between), me, obj, model, request, plan)
  }

  // ---- what reaches the client ----

  /** The answers under `n` the client holds and has not taken. */
  function Held(queue: seq<Unsolicited>, n: U8): seq<Pdu> {
    if queue == [] then []
    else Held(queue[..|queue| - 1], n) + if Wanted(queue[|queue| - 1], n) then [queue[|queue| - 1].pdu] else []
  }

  /** Every answer under `n` the client has or is about to have, in order. */
  function Inbox(w: World, me: AssocId, n: U8): seq<Pdu> {
    Held(w.queue, n) + Replies(w.server.pending, me, n)
  }

  lemma {:induction false} HeldAppend(a: seq<Unsolicited>, b: seq<Unsolicited>, n: U8)
    ensures Held(a + b, n) == Held(a, n) + Held(b, n)
    decreases |b|
  {
    if b == [] {
      assert a + b == a;
    } else {
      assert (a + b)[..|a + b| - 1] == a + b[..|b| - 1];
      HeldAppend(a, b[..|b| - 1], n);
    }
  }

  /** Sending what is pending delivers exactly the answers addressed to the client. */
  lemma {:induction false} AddressedHeld(ts: seq<Termination>, me: AssocId, n: U8)
    ensures Held(Addressed(ts, me), n) == Replies(ts, me, n)
    decreases |ts|
  {
    if ts != [] {
      AddressedHeld(ts[..|ts| - 1], me, n);
      HeldAppend(Addressed(ts[..|ts| - 1], me), if ts[|ts| - 1].assoc == me then [Command(ts[|ts| - 1].pdu)] else [],
                 n);
    }
  }

  lemma {:induction false} NoneHeld(queue: seq<Unsolicited>, n: U8)
    requires forall j :: 0 <= j < |queue| ==> !Wanted(queue[j], n)
    ensures Held(queue, n) == []
    decreases |queue|
  {
    if queue != [] {
      NoneHeld(queue[..|queue| - 1], n);
    }
  }

  lemma HeldAround(queue: seq<Unsolicited>, i: nat, n: U8)
    requires i < |queue| && Held(queue[..i], n) == []
    ensures Held(queue, n) == Held([queue[i]], n) + Held(queue[i + 1..], n)
    ensures Held(queue[..i] + queue[i + 1..], n) == Held(queue[i + 1..], n)
  {
    hide Held;
    assert queue == queue[..i] + ([queue[i]] + queue[i + 1..]);
    HeldAppend(queue[..i], [queue[i]] + queue[i + 1..], n);
    HeldAppend([queue[i]], queue[i + 1..], n);
    HeldAppend(queue[..i], queue[i + 1..], n);
  }

  lemma HeldOne(u: Unsolicited, n: U8)
    ensures Held([u], n) == if Wanted(u, n) then [u.pdu] else []
  {
    assert [u][..0] == [];
  }

  /** Taking finds the first answer held under `n`, and nothing only when none is held. */
  lemma TakeFirstTakes(queue: seq<Unsolicited>, n: U8)
    ensures var (found, rest) := TakeFirst(queue, n);
            && Held(queue, n) == (if found.Some? then [found.value] else []) + Held(rest, n)
            && (found.None? ==> rest == queue && Held(queue, n) == [])
  {
    hide Held, Wanted;
    var i := Position(queue, n);
    NoneHeld(queue[..i], n);
    if i < |queue| {
      HeldAround(queue, i, n);
      HeldOne(queue[i], n);
    } else {
      assert queue[..i] == queue;
    }
  }

  // ---- nothing happens behind the client's back ----

  /** Nobody but others acts. */
  predicate ByOthers(events: seq<Event>, me: AssocId) {
    forall e <- events :: e.Elsewhere? ==> Others(e.step, me)
  }

  predicate RoundsByOthers(rounds: seq<seq<Event>>, me: AssocId) {
    forall r <- rounds :: ByOthers(r, me)
  }

  predicate QuietWorld(w: World, me: AssocId, n: U8, from: nat) {
    Quiet(w.server, me, n, from)
  }

  function RanIn(w: World, me: AssocId, from: nat): nat {
    Ran(w.server.history.attempts, me, from)
  }

  /** Nothing of `me`'s ran, and what it is told under `n` is unchanged. */
  predicate Unmoved(w: World, after: World, me: AssocId, n: U8, from: nat) {
    && QuietWorld(after, me, n, from) && after.server.serial >= w.server.serial && Grows(w.server, after.server)
    && Inbox(after, me, n) == Inbox(w, me, n) && RanIn(after, me, from) == RanIn(w, me, from)
  }

  lemma HappenUnmoved(plant: Plant, w: World, me: AssocId, event: Event, n: U8, from: nat)
    requires QuietWorld(w, me, n, from) && (event.Elsewhere? ==> Others(event.step, me))
    ensures Unmoved(w, Happen(plant, w, me, event), me, n, from)
    ensures event.Deliver? ==> Held(Happen(plant, w, me, event).queue, n) == Inbox(w, me, n)
  {
    hide Do, Ran, Held, Replies;
    match event
    case Elsewhere(step) => OthersStandAside(plant, w.server, step, me, n, from);
    case Deliver =>
      AddressedHeld(w.server.pending, me, n);
      HeldAppend(w.queue, Addressed(w.server.pending, me), n);
      NothingPending(me, n);
    case Reported(id) =>
      HeldAppend(w.queue, [Report(id)], n);
      NoneHeld([Report(id)], n);
  }

  lemma NothingPending(me: AssocId, n: U8)
    ensures Replies([], me, n) == []
  {
  }

  predicate Delivers(events: seq<Event>) {
    exists e <- events :: e.Deliver?
  }

  lemma {:induction false} ElapseUnmoved(plant: Plant, w: World, me: AssocId, events: seq<Event>, n: U8, from: nat)
    requires QuietWorld(w, me, n, from) && ByOthers(events, me)
    ensures Unmoved(w, Elapse(plant, w, me, events), me, n, from)
    ensures Held(w.queue, n) == Inbox(w, me, n) || Delivers(events)
            ==> Held(Elapse(plant, w, me, events).queue, n) == Inbox(w, me, n)
    decreases |events|
  {
    hide Happen, QuietWorld, RanIn, Held, Replies;
    if events != [] {
      var next := Happen(plant, w, me, events[0]);
      HappenUnmoved(plant, w, me, events[0], n, from);
      HappenKeepsHeld(plant, w, me, events[0], n);
      ElapseUnmoved(plant, next, me, events[1..], n, from);
    }
  }

  /** What the client holds only grows, and from what was pending. */
  lemma HappenKeepsHeld(plant: Plant, w: World, me: AssocId, event: Event, n: U8)
    ensures |Held(Happen(plant, w, me, event).queue, n)| >= |Held(w.queue, n)|
  {
    hide Do, Held, Addressed;
    match event
    case Elsewhere(_) =>
    case Deliver => HeldAppend(w.queue, Addressed(w.server.pending, me), n);
    case Reported(id) => HeldAppend(w.queue, [Report(id)], n);
  }

  /** The server sends what is pending before the deadline passes. */
  predicate InTime(rounds: seq<seq<Event>>) {
    exists r <- rounds :: Delivers(r)
  }

  lemma InTimeSplits(rounds: seq<seq<Event>>)
    requires rounds != [] && InTime(rounds)
    ensures Delivers(rounds[0]) || InTime(rounds[1..])
  {
    hide Delivers;
    var r :| r in rounds && Delivers(r);
    assert rounds == [rounds[0]] + rounds[1..];
  }

  lemma NeverInTime()
    ensures !InTime([])
  {
  }

  /** Waiting takes the oldest answer under `n`, if it finds one, and finds one if the server sends
      it in time. */
  lemma {:induction false} AwaitTakes(plant: Plant, w: World, me: AssocId, n: U8, rounds: seq<seq<Event>>, from: nat)
    requires QuietWorld(w, me, n, from) && RoundsByOthers(rounds, me)
    ensures var (found, after) := Await(plant, w, me, n, rounds);
            && QuietWorld(after, me, n, from) && RanIn(after, me, from) == RanIn(w, me, from)
            && Grows(w.server, after.server)
            && Inbox(w, me, n) == (if found.Some? then [found.value] else []) + Inbox(after, me, n)
            && (Inbox(w, me, n) != [] && (InTime(rounds) || Held(w.queue, n) == Inbox(w, me, n)) ==> found.Some?)
    decreases |rounds|
  {
    hide Elapse, Held, Replies, TakeFirst, Ran, Delivers, Quiet, InTime;
    NeverInTime();
    TakeFirstTakes(w.queue, n);
    if TakeFirst(w.queue, n).0.None? && rounds != [] {
      var next := Elapse(plant, w, me, rounds[0]);
      ElapseUnmoved(plant, w, me, rounds[0], n, from);
      if InTime(rounds) {
        InTimeSplits(rounds);
      }
      AwaitTakes(plant, next, me, n, rounds[1..], from);
    }
  }

  /** While the client waits, only others act, in every phase of its schedule. */
  predicate PlanByOthers(plan: Schedule, me: AssocId) {
    && RoundsByOthers(plan.selectRefusal, me) && ByOthers(plan.between, me)
    && RoundsByOthers(plan.operateRefusal, me) && RoundsByOthers(plan.answer, me)
  }

  /** The select runs nothing; when it succeeds the client is still waiting for nothing. */
  lemma PrepareUnmoved(plant: Plant, w: World, me: AssocId, obj: string, model: ControlModel, request: ControlRequest,
                       plan: Schedule, from: nat)
    requires QuietWorld(w, me, request.ctlNum, from) && PlanByOthers(plan, me)
    ensures var (prepared, after) := Prepare(plant, w, me, obj, model, request, plan);
            && QuietWorld(after, me, request.ctlNum, from) && RanIn(after, me, from) == RanIn(w, me, from)
            && (prepared.Ok? ==> Unmoved(w, after, me, request.ctlNum, from))
  {
    hide WriteStep, SelectStep, Await, Held, Replies, Ran, Quiet, RoundsByOthers, ByOthers;
    var asked := request.(t := plan.selectStamp);
    OwnSelectWrite(plant, w.server, obj, asked, plan.selectAt, me, from);
    SelectAside(plant, w.server, me, obj, plan.selectAt, me, request.ctlNum, from);
    if model == SboEnhanced {
      var (server, answer) := WriteStep(plant, w.server, me, obj, "SBOw", RequestToValue(asked), plan.selectAt);
      AwaitTakes(plant, w.(server := server), me, request.ctlNum, plan.selectRefusal, from);
    }
  }

  /** The client goes on exactly when the server grants the select its model asks for; the server then holds
      the object for it, for exactly the value and the number of the command when the select goes with a
      value, for any when it does not. Where the model asks for none, it goes on and nothing happens. */
  lemma PrepareSelects(plant: Plant, w: World, me: AssocId, obj: string, model: ControlModel, request: ControlRequest,
                       plan: Schedule)
    ensures var (prepared, after) := Prepare(plant, w, me, obj, model, request, plan);
            && (model.SboEnhanced? ==>
                  var value := RequestToValue(request.(t := plan.selectStamp));
                  var ready := OnTimeout(plant, w.server.(serial := w.server.serial + 1), plan.selectAt.mono);
                  && (prepared.Ok? <==> WriteStep(plant, w.server, me, obj, "SBOw", value, plan.selectAt).1 == Done)
                  && (prepared.Ok?
                      ==> Granted(plant, ready, after.server, obj, me, Some(request.ctlVal), request.ctlNum,
                                               plan.selectAt.mono)))
            && (model.SboNormal? ==>
                  && (prepared.Ok? <==> SelectStep(plant, w.server, me, obj, plan.selectAt).1)
                  && (prepared.Ok? ==> Granted(plant, w.server, after.server, obj, me, None, 0, plan.selectAt.mono)))
            && (!model.SboEnhanced? && !model.SboNormal? ==> prepared.Ok? && after == w)
  {
    hide WriteStep, SelectStep, Await, Granted, OnTimeout, RequestOfValue, RequestToValue;
    var asked := request.(t := plan.selectStamp);
    RequestRoundTrip(asked);
    SelectWithValueGrantedExactly(plant, w.server, me, obj, RequestToValue(asked), plan.selectAt);
    SelectGrantedExactly(plant, w.server, me, obj, plan.selectAt);
  }

  /** A client that is told no model acts on the one served, and so agrees with it. */
  lemma ResolvedAgrees(w: World, obj: string)
    ensures ResolvedModel(None, w, obj) == if Served(w, obj).Some? then Served(w, obj).value else DirectNormal
    ensures Agrees(w, obj, ResolvedModel(None, w, obj))
    ensures forall m :: ResolvedModel(Some(m), w, obj) == m
  {
  }

  /** The cause the server records for `me`'s select with value, when it refuses it. */
  function SelectCause(plant: Plant, w: World, me: AssocId, obj: string, request: ControlRequest,
                       now: Now): Option<AddCause> {
    var (server, answer) := WriteStep(plant, w.server, me, obj, "SBOw", RequestToValue(request), now);
    if Served(w, obj).None? || answer == Done then None else server.lastCause
  }

  /** A select with value reported as refused for a cause was refused for that cause, and one refused is
      reported so when the answer is delivered in time. */
  lemma PrepareTold(plant: Plant, w: World, me: AssocId, obj: string, request: ControlRequest, plan: Schedule,
                    from: nat)
    requires QuietWorld(w, me, request.ctlNum, from) && PlanByOthers(plan, me) && Inbox(w, me, request.ctlNum) == []
    ensures var prepared := Prepare(plant, w, me, obj, SboEnhanced, request, plan).0;
            var cause := SelectCause(plant, w, me, obj, request.(t := plan.selectStamp), plan.selectAt);
            && (prepared.Err? && prepared.error.ControlRejected? ==> cause == Some(prepared.error.addCause))
            && (cause.Some? && InTime(plan.selectRefusal) ==> prepared == Err(ControlRejected(cause.value)))
  {
    hide WriteStep, Await, Held, Replies, Ran, Quiet, RoundsByOthers, ByOthers, InTime, ModelOf;
    var n, asked := request.ctlNum, request.(t := plan.selectStamp);
    OwnSelectWrite(plant, w.server, obj, asked, plan.selectAt, me, from);
    var (server, answer) := WriteStep(plant, w.server, me, obj, "SBOw", RequestToValue(asked), plan.selectAt);
    var written := w.(server := server);
    if answer != Done {
      if Served(w, obj).Some? {
        AnswerTold(plant, written, me, n, plan.selectRefusal, from, Negative(obj, asked, server.lastCause.value));
      } else {
        NothingTold(plant, written, me, n, plan.selectRefusal, from);
      }
    }
  }

  /** What the client finds when it waits for the answer to a decided enhanced `Oper`. */
  lemma AnswerTold(plant: Plant, w: World, me: AssocId, n: U8, rounds: seq<seq<Event>>, from: nat, p: Pdu)
    requires QuietWorld(w, me, n, from) && RoundsByOthers(rounds, me) && Inbox(w, me, n) == [p]
    ensures var (found, _) := Await(plant, w, me, n, rounds);
            (found.Some? ==> found.value == p) && (InTime(rounds) ==> found.Some?)
  {
    hide Await, QuietWorld, RoundsByOthers, Inbox, InTime, RanIn;
    AwaitTakes(plant, w, me, n, rounds, from);
    var (found, after) := Await(plant, w, me, n, rounds);
    if found.Some? {
      assert ([found.value] + Inbox(after, me, n))[0] == found.value;
    }
  }

  /** With nothing on its way to it, the client finds nothing. */
  lemma NothingTold(plant: Plant, w: World, me: AssocId, n: U8, rounds: seq<seq<Event>>, from: nat)
    requires QuietWorld(w, me, n, from) && RoundsByOthers(rounds, me) && Inbox(w, me, n) == []
    ensures Await(plant, w, me, n, rounds).0.None?
  {
    hide Await, QuietWorld, RoundsByOthers, Inbox, InTime, RanIn;
    AwaitTakes(plant, w, me, n, rounds, from);
  }

  /** The control model the object is served with. */
  function Served(w: World, obj: string): Option<ControlModel> {
    ModelOf(w.server.values, obj)
  }

  /** The client and the object agree on what matters to it: whether a termination follows. An object
      without a control model agrees with everybody. */
  predicate Agrees(w: World, obj: string, model: ControlModel) {
    Served(w, obj).Some? ==> Served(w, obj).value.Enhanced() == model.Enhanced()
  }

  /** The server lets the request through, written now. */
  predicate LetsThrough(plant: Plant, w: World, me: AssocId, obj: string, request: ControlRequest, now: Now) {
    && Served(w, obj).Some?
    && Passes(plant, OnTimeout(plant, w.server.(serial := w.server.serial + 1), now.mono), me, obj, request,
              Served(w, obj).value)
  }

  /** The cause the server records for the request, written now, when it refuses it. */
  function OperCause(plant: Plant, w: World, me: AssocId, obj: string, request: ControlRequest,
                     now: Now): Option<AddCause> {
    if Served(w, obj).None? || LetsThrough(plant, w, me, obj, request, now) then None
    else WriteStep(plant, w.server, me, obj, "Oper", RequestToValue(request), now).0.lastCause
  }

  /** What an `Oper` without a control model to serve it gets. */
  lemma UnservedWrite(plant: Plant, w: World, me: AssocId, obj: string, request: ControlRequest, now: Now)
    requires Served(w, obj).None?
    ensures WriteStep(plant, w.server, me, obj, "Oper", RequestToValue(request), now)
            == (w.server.(serial := w.server.serial + 1), Refused(DENIED))
  {
    hide ModelOf, RequestOfValue, RequestToValue;
  }

  /** The write itself, from a world where the client waits for nothing: the command runs once exactly
      when it is let through; what the client is told by the answer, and what by a termination. */
  lemma OperWritten(plant: Plant, w: World, me: AssocId, obj: string, request: ControlRequest, now: Now, from: nat)
    requires QuietWorld(w, me, request.ctlNum, from) && from <= w.server.serial && request.operTm.None?
    requires Inbox(w, me, request.ctlNum) == [] && RanIn(w, me, from) == 0
    ensures var (server, answer) := WriteStep(plant, w.server, me, obj, "Oper", RequestToValue(request), now);
            var after, through := w.(server := server), LetsThrough(plant, w, me, obj, request, now);
            && QuietWorld(after, me, request.ctlNum, from) && RanIn(after, me, from) == (if through then 1 else 0)
            && (through ==> Served(w, obj).Some? && OnRecord(server, obj, request, me, from))
            && (answer == Done <==> Served(w, obj).Some? && (through || Served(w, obj).value.Enhanced()))
            && (Served(w, obj).None? ==> Inbox(after, me, request.ctlNum) == [])
            && (through
                ==> Inbox(after, me, request.ctlNum) == if Served(w, obj).value.Enhanced() then [Positive(obj, request)]
                    else [])
            && var cause := OperCause(plant, w, me, obj, request, now);
               && (cause.Some? <==> Served(w, obj).Some? && !through)
               && (cause.Some? ==> Inbox(after, me, request.ctlNum) == [Negative(obj, request, cause.value)])
  {
    hide WriteStep, Held, Replies, Ran, ModelOf, Passes, OnRecord, OnTimeout;
    if Served(w, obj).Some? {
      OwnOperWrite(plant, w.server, obj, request, Served(w, obj).value, now, me, from);
    } else {
      UnservedWrite(plant, w, me, obj, request, now);
    }
  }

  /** What the client reports of a refusal: only the cause of its own command, and that one when it is
      delivered before the client gives up and the client waits for it at all. */
  predicate CauseReported(plant: Plant, w: World, me: AssocId, obj: string, model: ControlModel,
                          request: ControlRequest, plan: Schedule, verdict: Result<Option<Pdu>>) {
    var cause := OperCause(plant, w, me, obj, request, plan.operateAt);
    && (verdict.Err? && verdict.error.ControlRejected? ==> cause == Some(verdict.error.addCause))
    && (cause.Some? && (Served(w, obj).value.Enhanced() ==> model.Enhanced())
        && InTime(if Served(w, obj).value.Enhanced() then plan.answer else plan.operateRefusal) ==>
          verdict == Err(ControlRejected(cause.value)))
  }

  lemma StaysOnRecord(st: Server, after: Server, obj: string, request: ControlRequest, me: AssocId, from: nat)
    requires OnRecord(st, obj, request, me, from) && Grows(st, after)
    ensures OnRecord(after, obj, request, me, from)
  {
  }

  /** The verdict in terms of what the server serves and lets through. A normal client goes by the
      answer to its write, an enhanced one by the termination, and each may be the wrong one. A cause it
      reports is the one this very command was refused with, and it reports that one unless it goes by
      the answer to the write alone or is not told in time. */
  lemma OperateVerdict(plant: Plant, w: World, me: AssocId, obj: string, model: ControlModel, request: ControlRequest,
                       plan: Schedule, from: nat)
    requires QuietWorld(w, me, request.ctlNum, from) && PlanByOthers(plan, me) && from <= w.server.serial
    requires request.operTm.None? && Inbox(w, me, request.ctlNum) == [] && RanIn(w, me, from) == 0
    ensures var (verdict, after) := Operate(plant, w, me, obj, model, request, plan);
            var asked := request.(t := plan.operateStamp);
            var through := LetsThrough(plant, w, me, obj, asked, plan.operateAt);
            && QuietWorld(after, me, request.ctlNum, from) && RanIn(after, me, from) == (if through then 1 else 0)
            && (through ==> OnRecord(after.server, obj, asked, me, from))
            && (verdict.Ok? && verdict.value.Some? ==> verdict.value.value == Positive(obj, asked))
            && (InTime(plan.answer) ==>
                  (verdict.Ok? <==> if Agrees(w, obj, model) then through else !model.Enhanced()))
            && (verdict.Ok? ==> through || !Agrees(w, obj, model))
            && CauseReported(plant, w, me, obj, model, asked, plan, verdict)
  {
    hide WriteStep, Await, Inbox, RanIn, QuietWorld, RoundsByOthers, InTime, LetsThrough, OnRecord, Served, Grows,
         OperCause;
    var n, asked := request.ctlNum, request.(t := plan.operateStamp);
    OperWritten(plant, w, me, obj, asked, plan.operateAt, from);
    var (server, answer) := WriteStep(plant, w.server, me, obj, "Oper", RequestToValue(asked), plan.operateAt);
    var written := w.(server := server);
    AwaitTakes(plant, written, me, n, plan.operateRefusal, from);
    AwaitTakes(plant, written, me, n, plan.answer, from);
    var through := LetsThrough(plant, w, me, obj, asked, plan.operateAt);
    if through {
      StaysOnRecord(server, Await(plant, written, me, n, plan.operateRefusal).1.server, obj, asked, me, from);
      StaysOnRecord(server, Await(plant, written, me, n, plan.answer).1.server, obj, asked, me, from);
    }
    if answer == Done && model.Enhanced() {
      if !Served(w, obj).value.Enhanced() {
        NothingTold(plant, written, me, n, plan.answer, from);
      } else if through {
        AnswerTold(plant, written, me, n, plan.answer, from, Positive(obj, asked));
      } else {
        var cause := OperCause(plant, w, me, obj, asked, plan.operateAt).value;
        AnswerTold(plant, written, me, n, plan.answer, from, Negative(obj, asked, cause));
        var found := Await(plant, written, me, n, plan.answer).0;
        assert Operate(plant, w, me, obj, model, request, plan).0
               == Err(if found.Some? then ControlRejected(cause) else Io);
      }
    } else if answer != Done {
      if Served(w, obj).None? {
        NothingTold(plant, written, me, n, plan.operateRefusal, from);
      } else {
        AnswerTold(plant, written, me, n, plan.operateRefusal, from,
                   Negative(obj, asked, OperCause(plant, w, me, obj, asked, plan.operateAt).value));
      }
    }
  }

  /** Why they must agree: a client that takes an enhanced-security object for one with normal security is
      told of success whatever the server decides, and one that takes a normal object for enhanced waits
      in vain for a termination exactly when its command ran. */
  lemma MismatchedVerdict(plant: Plant, w: World, me: AssocId, obj: string, model: ControlModel,
                          request: ControlRequest, plan: Schedule, from: nat)
    requires QuietWorld(w, me, request.ctlNum, from) && PlanByOthers(plan, me) && from <= w.server.serial
    requires request.operTm.None? && Inbox(w, me, request.ctlNum) == [] && RanIn(w, me, from) == 0
             && !Agrees(w, obj, model)
    ensures var (verdict, after) := Operate(plant, w, me, obj, model, request, plan);
            && (!model.Enhanced() ==> verdict == Ok(None))
            && (model.Enhanced() ==> verdict.Err? && (verdict == Err(Io) <==> RanIn(after, me, from) == 1))
  {
    hide WriteStep, Await, Inbox, RanIn, QuietWorld, RoundsByOthers, LetsThrough, OnRecord, Grows;
    var n, asked := request.ctlNum, request.(t := plan.operateStamp);
    OperWritten(plant, w, me, obj, asked, plan.operateAt, from);
    var (server, answer) := WriteStep(plant, w.server, me, obj, "Oper", RequestToValue(asked), plan.operateAt);
    var written := w.(server := server);
    AwaitTakes(plant, written, me, n, plan.operateRefusal, from);
    AwaitTakes(plant, written, me, n, plan.answer, from);
    if answer == Done && model.Enhanced() {
      NothingTold(plant, written, me, n, plan.answer, from);
    }
  }

  /** The number is fresh: nothing queued, pending or armed for the client bears it. */
  predicate FreshNumber(w: World, me: AssocId, n: U8) {
    Inbox(w, me, n) == [] && forall t <- w.server.timed :: t.assoc == me ==> t.request.ctlNum != n
  }

  lemma {:induction false} RanNone(attempts: seq<Attempt>, me: AssocId, from: nat)
    requires forall a <- attempts :: a.serial < from
    ensures Ran(attempts, me, from) == 0
    decreases |attempts|
  {
    if attempts != [] {
      RanNone(attempts[..|attempts| - 1], me, from);
    }
  }

  /** Numbers yet to be given out have not run and are not armed. */
  lemma NothingYet(st: Server, me: AssocId)
    requires Licensed(st)
    ensures Ran(st.history.attempts, me, st.serial) == 0
    ensures forall t <- st.timed :: t.serial < st.serial
  {
    hide Live, Used;
    forall a | a in st.history.attempts
      ensures a.serial < st.serial
    {
      assert Tried(st.history.acts, a);
    }
    RanNone(st.history.attempts, me, st.serial);
    forall t | t in st.timed
      ensures t.serial < st.serial
    {
      assert Awaited(st.history.acts, t);
    }
  }

  /** The client comes to write its `Oper`. */
  predicate Reaches(plant: Plant, w: World, me: AssocId, obj: string, model: ControlModel, request: ControlRequest,
                    plan: Schedule) {
    model != StatusOnly && Prepare(plant, w, me, obj, model, request, plan).0.Ok?
  }

  /** What the client reports when it does not come to write its `Oper`: it needs no select, or the
      cause its select with value was refused with, at once when that is delivered in time. */
  predicate SelectReported(plant: Plant, w: World, me: AssocId, obj: string, model: ControlModel,
                           request: ControlRequest, plan: Schedule, verdict: Result<Option<Pdu>>) {
    match model
    case StatusOnly => verdict == Err(ControlRejected(1))
    case SboNormal => verdict == Err(ControlRejected(3))
    case SboEnhanced =>
      var cause := SelectCause(plant, w, me, obj, request.(t := plan.selectStamp), plan.selectAt);
      && (verdict.Err? && verdict.error.ControlRejected? ==> cause == Some(verdict.error.addCause))
      && (cause.Some? && InTime(plan.selectRefusal) ==> verdict == Err(ControlRejected(cause.value)))
    case _ => false
  }

  lemma NotReachedReports(plant: Plant, w: World, me: AssocId, obj: string, model: ControlModel,
                          request: ControlRequest, plan: Schedule, from: nat)
    requires QuietWorld(w, me, request.ctlNum, from) && PlanByOthers(plan, me) && Inbox(w, me, request.ctlNum) == []
    requires !Reaches(plant, w, me, obj, model, request, plan)
    ensures SelectReported(plant, w, me, obj, model, request, plan, Execute(plant, w, me, obj, model, request, plan).0)
  {
    hide WriteControl, SelectStep, SelectCause, InTime, QuietWorld, PlanByOthers, Inbox, Elapse;
    if model == SboEnhanced {
      PrepareTold(plant, w, me, obj, request, plan, from);
    }
  }

  /** End to end, whatever the models and whatever the other associations do in between. The verdict is
      right, success for a command that ran once and failure for one that never ran, exactly when the
      client never writes its `Oper`, or agrees with the served model on the security, or, not agreeing,
      takes the object for normal and is let through, or takes it for enhanced and is refused. */
  lemma VerdictIsRightExactly(plant: Plant, values: map<string, Value>, sboTimeoutMs: U64, steps: seq<Step>,
                              w: World, me: AssocId, obj: string, model: ControlModel, request: ControlRequest,
                              plan: Schedule)
    requires w.server == Run(plant, Fresh(values, sboTimeoutMs), steps)
    requires FreshNumber(w, me, request.ctlNum) && request.operTm.None? && PlanByOthers(plan, me) && InTime(plan.answer)
    ensures var (verdict, after) := Execute(plant, w, me, obj, model, request, plan);
            var asked, at := request.(t := plan.operateStamp), AtOperate(plant, w, me, obj, model, request, plan);
            && ((RanIn(after, me, w.server.serial) == if verdict.Ok? then 1 else 0)
                <==> (Reaches(plant, w, me, obj, model, request, plan) && !Agrees(at, obj, model)
                      ==> LetsThrough(plant, at, me, obj, asked, plan.operateAt) == !model.Enhanced()))
            && RanIn(after, me, w.server.serial) <= 1
            && (RanIn(after, me, w.server.serial) == 1 ==> OnRecord(after.server, obj, asked, me, w.server.serial))
            && (verdict.Ok? && verdict.value.Some? ==> verdict.value.value == Positive(obj, asked))
            && (if Reaches(plant, w, me, obj, model, request, plan)
                then CauseReported(plant, at, me, obj, model, asked, plan, verdict)
                else SelectReported(plant, w, me, obj, model, request, plan, verdict))
            && forall t <- after.server.timed :: t.assoc == me ==> t.serial < w.server.serial
  {
    hide Run, Licensed, CauseReported, SelectReported, Prepare, Elapse, Operate, Agrees, LetsThrough, InTime, Ran, Held,
         Replies, RoundsByOthers, ByOthers, OnRecord, Grows;
    FreshIsLicensed(values, sboTimeoutMs);
    RunLicensed(plant, Fresh(values, sboTimeoutMs), steps);
    NothingYet(w.server, me);
    var n, from := request.ctlNum, w.server.serial;
    if model != StatusOnly {
      PrepareUnmoved(plant, w, me, obj, model, request, plan, from);
      var (prepared, after) := Prepare(plant, w, me, obj, model, request, plan);
      if prepared.Ok? {
        ElapseUnmoved(plant, after, me, plan.between, n, from);
        OperateVerdict(plant, Elapse(plant, after, me, plan.between), me, obj, model, request, plan, from);
      }
    }
    if !Reaches(plant, w, me, obj, model, request, plan) {
      NotReachedReports(plant, w, me, obj, model, request, plan, from);
    }
  }

  /** In particular a client that agrees with the object on the security, whichever of the models it
      takes, is told of success exactly when its command ran, once, on this object with this request,
      and of failure exactly when it never ran; and nothing of it is left to run. */
  lemma VerdictIsTheServersAct(plant: Plant, values: map<string, Value>, sboTimeoutMs: U64, steps: seq<Step>,
                               w: World, me: AssocId, obj: string, model: ControlModel, request: ControlRequest,
                               plan: Schedule)
    requires w.server == Run(plant, Fresh(values, sboTimeoutMs), steps)
    requires FreshNumber(w, me, request.ctlNum) && request.operTm.None? && PlanByOthers(plan, me) && InTime(plan.answer)
    requires Reaches(plant, w, me, obj, model, request, plan)
             ==> Agrees(AtOperate(plant, w, me, obj, model, request, plan), obj, model)
    ensures var (verdict, after) := Execute(plant, w, me, obj, model, request, plan);
            var asked, from := request.(t := plan.operateStamp), w.server.serial;
            && RanIn(after, me, from) == (if verdict.Ok? then 1 else 0)
            && (verdict.Ok?
                ==> OnRecord(after.server, obj, asked, me, from)
                    && (verdict.value.Some? ==> verdict.value.value == Positive(obj, asked)))
            && (if Reaches(plant, w, me, obj, model, request, plan) then
                  CauseReported(plant, AtOperate(plant, w, me, obj, model, request, plan), me, obj, model, asked, plan,
                                verdict)
                else SelectReported(plant, w, me, obj, model, request, plan, verdict))
            && forall t <- after.server.timed :: t.assoc == me ==> t.serial < from
  {
    hide CauseReported, SelectReported, Run, Execute, Reaches, AtOperate, Agrees, LetsThrough, InTime, RanIn,
         FreshNumber, PlanByOthers, OnRecord;
    VerdictIsRightExactly(plant, values, sboTimeoutMs, steps, w, me, obj, model, request, plan);
  }

  /** A server as some run leaves it, a number nothing outstanding bears, a command for now, only others at
      work meanwhile, the answer delivered in time, and agreement on the security if it comes to the `Oper`. */
  ghost predicate Tellable(plant: Plant, w: World, me: AssocId, obj: string, model: ControlModel,
                           request: ControlRequest, plan: Schedule) {
    && (exists values, sboTimeoutMs, steps :: w.server == Run(plant, Fresh(values, sboTimeoutMs), steps))
    && FreshNumber(w, me, request.ctlNum) && request.operTm.None? && PlanByOthers(plan, me) && InTime(plan.answer)
    && (Reaches(plant, w, me, obj, model, request, plan)
        ==> Agrees(AtOperate(plant, w, me, obj, model, request, plan), obj, model))
  }

  /** The verdict is what happened to the command: carried out once on this object with this request and
      answered positively for it, or never; and nothing of it is left to run. */
  ghost predicate TellsTheTruth(plant: Plant, w: World, me: AssocId, obj: string, model: ControlModel,
                                request: ControlRequest, plan: Schedule, verdict: Result<Option<Pdu>>, after: World) {
    Tellable(plant, w, me, obj, model, request, plan) ==>
      && RanIn(after, me, w.server.serial) == (if verdict.Ok? then 1 else 0)
      && (verdict.Ok? ==> OnRecord(after.server, obj, request, me, w.server.serial)
                          && (verdict.value.Some? ==> verdict.value.value == Positive(obj, request)))
      && forall t <- after.server.timed :: t.assoc == me ==> t.serial < w.server.serial
  }

  lemma ExecuteTellsTheTruth(plant: Plant, w: World, me: AssocId, obj: string, model: ControlModel,
                             request: ControlRequest, plan: Schedule)
    ensures var (verdict, after) := Execute(plant, w, me, obj, model, request, plan);
            TellsTheTruth(plant, w, me, obj, model, request.(t := plan.operateStamp), plan, verdict, after)
  {
    hide CauseReported, SelectReported, Run, Execute, Prepare, Elapse, Agrees, InTime, RanIn, FreshNumber, PlanByOthers,
         OnRecord;
    var asked := request.(t := plan.operateStamp);
    if Tellable(plant, w, me, obj, model, asked, plan) {
      var values, sboTimeoutMs, steps :| w.server == Run(plant, Fresh(values, sboTimeoutMs), steps);
      StampIsOverwritten(plant, w, me, obj, model, request, plan);
      VerdictIsTheServersAct(plant, values, sboTimeoutMs, steps, w, me, obj, model, request, plan);
    }
  }

  /** The stamp of a request is the schedule's, whatever it was. */
  lemma StampIsOverwritten(plant: Plant, w: World, me: AssocId, obj: string, model: ControlModel,
                           request: ControlRequest, plan: Schedule)
    ensures var asked := request.(t := plan.operateStamp);
            && Prepare(plant, w, me, obj, model, asked, plan) == Prepare(plant, w, me, obj, model, request, plan)
  {
    hide WriteControl, SelectStep;
  }

  /** A cancel the client is told is done, in any run: nothing it still had armed on the object is ever tried,
      and every later command of its there that needs a select uses one granted after the cancel. */
  lemma CancelIsForGood(plant: Plant, values: map<string, Value>, sboTimeoutMs: U64, steps: seq<Step>, w: World,
                        me: AssocId, obj: string, request: ControlRequest, now: Now, rounds: seq<seq<Event>>,
                        later: seq<Step>)
    requires w.server == Run(plant, Fresh(values, sboTimeoutMs), steps)
    requires CancelCommand(plant, w, me, obj, request, now, rounds).0.Ok?
    ensures var ready := OnTimeout(plant, w.server.(serial := w.server.serial + 1), now.mono);
            var cancelled := CancelCommand(plant, w, me, obj, request, now, rounds).1.server;
            var h := Run(plant, cancelled, later).history;
            && (forall t <- ready.timed :: Mine(t, me, obj) ==> Tries(h.attempts, t.serial) == 0)
            && forall k <- h.acts ::
                 k > w.server.serial && h.acts[k].assoc == me && h.acts[k].obj == obj
                 && h.acts[k].model.NeedsSelect() ==>
                   k in h.used && h.used[k] < |h.grants| && h.grants[h.used[k]].serial > w.server.serial
  {
    hide Run, WriteStep, OnTimeout, RequestToCancelValue, Tries, Await;
    var value := RequestToCancelValue(request);
    CancelEndsTheGrant(plant, values, sboTimeoutMs, steps, me, obj, value, now, later);
    var ready := OnTimeout(plant, w.server.(serial := w.server.serial + 1), now.mono);
    var cancelled := CancelCommand(plant, w, me, obj, request, now, rounds).1.server;
    forall t | t in ready.timed && Mine(t, me, obj)
      ensures Tries(Run(plant, cancelled, later).history.attempts, t.serial) == 0
    {
      CancelledNeverRuns(plant, values, sboTimeoutMs, steps, me, obj, value, now, later, t);
    }
  }
}
