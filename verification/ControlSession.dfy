/** The client's side of a control as it is kept: its queue of unsolicited items and its running
    number, changed in place by each operation, proved against `ControlClient`. The server at the
    other end of its connection is a `World`'s. */
module ControlSession {
  import opened Common
  import opened Octets
  import opened Time
  import opened Data
  import opened ControlMessage
  import opened Control
  import opened ControlClient

  class Client {
    const plant: Plant
    const me: AssocId
    var server: Server
    var unsolicited: seq<Unsolicited>
    var ctlNum: U8

    constructor (plant: Plant, me: AssocId, server: Server)
      ensures this.plant == plant && this.me == me && Seen() == World(server, []) && ctlNum == 0
    {
      this.plant, this.me, this.server, unsolicited, ctlNum := plant, me, server, [], 0;
    }

    ghost function Seen(): World
      reads this`server, this`unsolicited
    {
      World(server, unsolicited)
    }

    /** The next number of a control sequence, 0 to 255 and round again. */
    method NextCtlNum() returns (n: U8)
      modifies this`ctlNum
      ensures n == ctlNum && n == if old(ctlNum) == 255 then 0 else old(ctlNum) + 1
    {
      ctlNum := (ctlNum + 1) % 256;
      n := ctlNum;
    }

    /** Where the first termination for `n` stands among what arrived. */
    method Find(n: U8) returns (i: nat)
      ensures i == Position(unsolicited, n)
    {
      i := 0;
      while i < |unsolicited| && !Wanted(unsolicited[i], n)
        invariant i <= |unsolicited|
        invariant Position(unsolicited, n) == i + Position(unsolicited[i..], n)
      {
        assert unsolicited[i..][1..] == unsolicited[i + 1..];
        i := i + 1;
      }
    }

    /** Let what happens before the next look happen. */
    method Pump(events: seq<Event>)
      modifies this`server, this`unsolicited
      ensures Seen() == Elapse(plant, old(Seen()), me, events)
    {
      var start := World(server, unsolicited);
      for i := 0 to |events|
        invariant Elapse(plant, Seen(), me, events[i..]) == Elapse(plant, start, me, events)
      {
        assert events[i..][1..] == events[i + 1..];
        var next := Happen(plant, World(server, unsolicited), me, events[i]);
        server, unsolicited := next.server, next.queue;
      }
      assert events[|events|..] == [];
    }

    /** Take the first queued termination for `n`, reading on until the deadline if none is there;
        everything else stays queued, in order. */
    method TakeTermination(n: U8, rounds: seq<seq<Event>>) returns (found: Option<Pdu>)
      modifies this`server, this`unsolicited
      ensures (found, Seen()) == Await(plant, old(Seen()), me, n, rounds)
    {
      hide Elapse;
      ghost var start := Seen();
      var left := rounds;
      while true
        invariant Await(plant, Seen(), me, n, left) == Await(plant, start, me, n, rounds)
        decreases |left|
      {
        var i := Find(n);
        if i < |unsolicited| {
          found := Some(unsolicited[i].pdu);
          unsolicited := unsolicited[..i] + unsolicited[i + 1..];
          return;
        }
        if left == [] {
          return None;
        }
        Pump(left[0]);
        left := left[1..];
      }
    }
  }

  /** One control operation being built and carried out: the source's `Control`. */
  class Operation {
    const client: Client
    /** The controllable object, as `LD/LN$CO$DO`. */
    const base: string
    const origin: Origin
    const check: Check
    const test: bool
    const operTm: Option<UtcTime>
    var model: Option<ControlModel>
    var ctlNum: Option<U8>

    constructor (client: Client, base: string, origin: Origin, check: Check, test: bool, operTm: Option<UtcTime>,
                 model: Option<ControlModel>, ctlNum: Option<U8>)
      ensures this.client == client && this.base == base && this.model == model && this.ctlNum == ctlNum
      ensures this.origin == origin && this.check == check && this.test == test && this.operTm == operTm
    {
      this.client, this.base, this.origin, this.check, this.test, this.operTm := client, base, origin, check, test,
        operTm;
      this.model, this.ctlNum := model, ctlNum;
    }

    function Request(ctlVal: Value, n: U8, t: UtcTime): ControlRequest {
      ControlRequest(ctlVal, operTm, origin, n, t, test, check)
    }

    /** What is written as `SBOw` and as `Oper` is read back as the caller's value with everything else as
        the operation has it. */
    lemma RequestReadsBack(ctlVal: Value, n: U8, t: UtcTime)
      ensures RequestOfValue(RequestToValue(Request(ctlVal, n, t)))
              == Some(ControlRequest(ctlVal, operTm, origin, n, t, test, check))
    {
      RequestRoundTrip(Request(ctlVal, n, t));
    }

    /** The model stated, or the one the server publishes, looked up once and remembered. */
    method Resolve() returns (m: ControlModel)
      modifies this`model
      ensures m == ResolvedModel(old(model), client.Seen(), base) && model == Some(m)
    {
      if model.Some? {
        return model.value;
      }
      var published := ModelOf(client.server.values, base);
      m := if published.Some? then published.value else DirectNormal;
      model := Some(m);
    }

    /** The number of this operation: the one stated or taken before, or the client's next. */
    method TakeCtlNum() returns (n: U8)
      modifies this`ctlNum, client`ctlNum
      ensures ctlNum == Some(n) && (old(ctlNum).Some? ==> n == old(ctlNum).value && client.ctlNum == old(client.ctlNum))
      ensures old(ctlNum).None?
              ==> n == client.ctlNum && n == if old(client.ctlNum) == 255 then 0 else old(client.ctlNum) + 1
    {
      if ctlNum.Some? {
        return ctlNum.value;
      }
      n := client.NextCtlNum();
      ctlNum := Some(n);
    }

    /** Turn a refused write into the reason it was refused, if one arrives. */
    method ReasonFor(n: U8, fallback: Error, rounds: seq<seq<Event>>) returns (e: Error)
      modifies client`server, client`unsolicited
      ensures var (found, after) := Await(client.plant, old(client.Seen()), client.me, n, rounds);
              && client.Seen() == after
              && e == if found.Some? && found.value.Negative? then ControlRejected(found.value.addCause) else fallback
    {
      var waited := client.TakeTermination(n, rounds);
      match waited {
        case Some(Negative(_, _, cause)) => e := ControlRejected(cause);
        case _ => e := fallback;
      }
    }

    method WriteControl(attribute: string, request: ControlRequest, cancel: bool, now: Now,
                        rounds: seq<seq<Event>>) returns (r: Result<()>)
      modifies client`server, client`unsolicited
      ensures var value := if cancel then RequestToCancelValue(request) else RequestToValue(request);
              (r, client.Seen())
              == WriteValue(client.plant, old(client.Seen()), client.me, base, attribute, value, request.ctlNum, now,
                            rounds)
    {
      hide WriteStep, Await;
      var value := if cancel then RequestToCancelValue(request) else RequestToValue(request);
      var (server, answer) := WriteStep(client.plant, client.server, client.me, base, attribute, value, now);
      client.server := server;
      match answer {
        case Done => r := Ok(());
        case Refused(code) =>
          var e := ReasonFor(request.ctlNum, DataAccess(code), rounds);
          r := Err(e);
      }
    }

    /** Release a selection, or abandon a command armed: under the number of the command it is about. */
    method Cancel(value: Value, now: Now, stamp: UtcTime, rounds: seq<seq<Event>>) returns (r: Result<()>)
      modifies this`ctlNum, client
      ensures ctlNum == (if old(ctlNum).Some? then old(ctlNum)
                         else Some(if old(client.ctlNum) == 255 then 0 else old(client.ctlNum) + 1))
      ensures (r, client.Seen())
              == CancelCommand(client.plant, old(client.Seen()), client.me, base,
                               ControlRequest(value, operTm, origin, ctlNum.value, stamp, test, check), now, rounds)
    {
      hide WriteValue;
      var n := TakeCtlNum();
      r := WriteControl("Cancel", Request(value, n, stamp), true, now, rounds);
    }

    method SelectInner(now: Now) returns (granted: bool)
      modifies client`server
      ensures var (server, g) := SelectStep(client.plant, old(client.server), client.me, base, now);
              client.server == server && granted == g
    {
      var (server, g) := SelectStep(client.plant, client.server, client.me, base, now);
      client.server := server;
      granted := g;
    }

    /** The select the model requires, if any. */
    method SelectFor(m: ControlModel, n: U8, value: Value, plan: Schedule) returns (r: Result<()>)
      modifies client`server, client`unsolicited
      ensures (r, client.Seen())
              == Prepare(client.plant, old(client.Seen()), client.me, base, m,
                         ControlRequest(value, operTm, origin, n, plan.selectStamp, test, check), plan)
    {
      hide SelectStep, WriteValue;
      if m.NeedsSelect() {
        if m == SboEnhanced {
          r := WriteControl("SBOw", Request(value, n, plan.selectStamp), false, plan.selectAt, plan.selectRefusal);
          return;
        }
        var granted := SelectInner(plan.selectAt);
        if !granted {
          return Err(ControlRejected(SELECT_FAILED));
        }
      }
      r := Ok(());
    }

    /** Do whatever the model requires, and report the outcome. */
    method Execute(value: Value, plan: Schedule) returns (r: Result<Option<Pdu>>)
      modifies this, client
      ensures var m := ResolvedModel(old(model), old(client.Seen()), base);
              && model == Some(m)
              && (m == StatusOnly
                  ==> r == Err(ControlRejected(NOT_SUPPORTED)) && client.Seen() == old(client.Seen())
                      && ctlNum == old(ctlNum))
              && (m != StatusOnly ==>
                    && ctlNum == (if old(ctlNum).Some? then old(ctlNum)
                                  else Some(if old(client.ctlNum) == 255 then 0 else old(client.ctlNum) + 1))
                    && (r, client.Seen())
                       == ControlClient.Execute(client.plant, old(client.Seen()), client.me, base, m,
                                                ControlRequest(value, operTm, origin, ctlNum.value, plan.selectStamp,
                                                               test, check), plan))
      ensures var m := ResolvedModel(old(model), old(client.Seen()), base);
              m != StatusOnly ==>
                var asked := ControlRequest(value, operTm, origin, ctlNum.value, plan.operateStamp, test, check);
                TellsTheTruth(client.plant, old(client.Seen()), client.me, base, m, asked, plan, r, client.Seen())
    {
      hide ResolvedModel, Prepare, Elapse, ControlClient.Operate, TellsTheTruth;
      ghost var before := client.Seen();
      var m := Resolve();
      if m == StatusOnly {
        return Err(ControlRejected(NOT_SUPPORTED));
      }
      var n := TakeCtlNum();
      ExecuteTellsTheTruth(client.plant, before, client.me, base, m,
                           ControlRequest(value, operTm, origin, n, plan.selectStamp, test, check), plan);
      var prepared := SelectFor(m, n, value, plan);
      if prepared.Err? {
        return Err(prepared.error);
      }
      client.Pump(plan.between);
      r := Finish(m, n, value, plan);
    }

    /** Write `Oper`, and under enhanced security wait for its termination. */
    method Finish(m: ControlModel, n: U8, value: Value, plan: Schedule) returns (r: Result<Option<Pdu>>)
      modifies client`server, client`unsolicited
      ensures (r, client.Seen())
              == ControlClient.Operate(client.plant, old(client.Seen()), client.me, base, m,
                                       ControlRequest(value, operTm, origin, n, plan.selectStamp, test, check), plan)
    {
      hide WriteStep, Await, WriteValue;
      var written := WriteControl("Oper", Request(value, n, plan.operateStamp), false, plan.operateAt,
                                  plan.operateRefusal);
      if written.Err? {
        return Err(written.error);
      }
      if !m.Enhanced() {
        return Ok(None);
      }
      var found := client.TakeTermination(n, plan.answer);
      match found {
        case Some(Negative(_, _, cause)) => r := Err(ControlRejected(cause));
        case Some(Positive(_, _)) => r := Ok(found);
        case None => r := Err(Io);
      }
    }
  }
}
