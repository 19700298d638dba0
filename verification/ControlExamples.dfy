/** Two runs, each on one object of one node: commands tried against their due order, and a value
    operated that is not the one selected. */
module ControlExamples {
  import opened Common
  import opened Octets
  import opened Time
  import opened Data
  import opened ControlMessage
  import opened Text
  import opened Control
  import opened ControlEffects
  import opened ControlDueOrder

  lemma ExampleSplits()
    ensures SplitOnce("L/N$CO$p", '/') == Some(("L", "N$CO$p")) && SplitOnce("N$CO$p", '$') == Some(("N", "CO$p"))
    ensures StripPrefix("CO$p", "CO$") == Some("p")
  {
    SplitOnceOfJoin("L", '/', "N$CO$p");
    SplitOnceOfJoin("N", '$', "CO$p");
    assert "L/N$CO$p" == "L" + ['/'] + "N$CO$p" && "N$CO$p" == "N" + ['$'] + "CO$p";
  }

  lemma ExampleNames()
    ensures "L" + "/" + "N" + "$CF$" + "p" + "$ctlModel" == "L/N$CF$p$ctlModel"
    ensures |"L" + "/" + "N" + "$ST$Beh$stVal"| != |"L/N$CF$p$ctlModel"|
            && |"L" + "/" + "N" + "$ST$Mod$stVal"| != |"L/N$CF$p$ctlModel"|
  {
  }

  /** The object is served with the model of that code, on a node that is switched on. */
  lemma ExampleServes(values: map<string, Value>, code: I64)
    requires values == map["L/N$CF$p$ctlModel" := Integer(code)]
    ensures ModelOf(values, "L/N$CO$p") == ModelOfCode(code) && BehaviourOf(values, "L/N$CO$p").On?
  {
    hide SplitOnce, StripPrefix;
    ExampleSplits();
    ExampleNames();
  }

  /** A run in which two commands are tried against their due order. */
  lemma AgainstDueOrder() returns (plant: Plant, values: map<string, Value>, steps: seq<Step>)
    ensures var a := Run(plant, Fresh(values, 30_000), steps).history.attempts;
            && |a| == 2 && a[0].due.Some? && a[1].due.Some? && a[0].due.value > a[1].due.value
  {
    hide Run, BehaviourOf, ModelOf;
    plant := Plant(None, (r: string, v: Value) => true);
    values := map["L/N$CF$p$ctlModel" := Integer(1)];
    var epoch := UtcTime(0, 0, TimeQuality(false, false, false, 0));
    var now, obj := Now(0, epoch), "L/N$CO$p";
    var short := ControlRequest(Boolean(true), Some(epoch.(seconds := 10)), Origin(3, []), 1, epoch, false,
                                Check(false, false));
    var long := short.(operTm := Some(epoch.(seconds := 20)));
    ExampleServes(values, 1);
    LaterDueRunsFirst(plant, values, 30_000, obj, 1, 2, long, short, now, 20_000_000_000, 10_000_000_000,
                      30_000_000_000);
    steps := [WriteRequest(1, obj, "Oper", RequestToValue(long), now),
              WriteRequest(2, obj, "Oper", RequestToValue(short), now), Tick(30_000_000_000)];
  }

  // ---- another value than the selected one ----

  /** With nothing selected or armed nothing happens before a request. */
  lemma NothingBefore(plant: Plant, st: Server, now: Instant)
    requires st.timed == [] && forall o <- st.selections :: now < st.selections[o].expires
    ensures var ready := OnTimeout(plant, st, now);
            && ready.selections == st.selections && ready.timed == [] && ready.values == st.values
            && ready.asked == st.asked
            && ready.serial == st.serial && ready.sboTimeoutMs == st.sboTimeoutMs && ready.pending == st.pending
            && ready.history.attempts == st.history.attempts
  {
  }

  /** One client selects a value and operates another: that is refused as inconsistent. */
  lemma SelectThenOther(plant: Plant, values: map<string, Value>, obj: string, assoc: AssocId, selected: ControlRequest,
                        other: ControlRequest, now: Now)
    requires plant.hook.None? && ModelOf(values, obj) == Some(SboEnhanced) && BehaviourOf(values, obj).On?
    requires !selected.test && !other.test && !SameValue(selected.ctlVal, other.ctlVal) && now.mono == 0
    ensures var one, two := WriteRequest(assoc, obj, "SBOw", RequestToValue(selected), now),
                            WriteRequest(assoc, obj, "Oper", RequestToValue(other), now);
            var after := Run(plant, Fresh(values, 30_000), [one, two]);
            && after.lastCause == Some(INCONSISTENT_PARAMETERS)
            && after.pending == [Termination(assoc, Negative(obj, other, INCONSISTENT_PARAMETERS), 1)]
            && after.values == values && after.timed == [] && after.history.attempts == []
  {
    hide OnTimeout, WriteStep, RequestToValue, RequestOfValue, ModelOf, BehaviourOf, SameValue, Granted;
    var one, two := WriteRequest(assoc, obj, "SBOw", RequestToValue(selected), now),
                    WriteRequest(assoc, obj, "Oper", RequestToValue(other), now);
    var zero := Fresh(values, 30_000);
    var held := Do(plant, zero, one);
    RequestRoundTrip(selected);
    NothingBefore(plant, zero.(serial := 1), now.mono);
    SelectWithValueGrantedExactly(plant, zero, assoc, obj, RequestToValue(selected), now);
    ExpiresLater(plant, OnTimeout(plant, zero.(serial := 1), now.mono), held, obj, assoc, selected, now.mono);
    NothingBefore(plant, held.(serial := 2), now.mono);
    WrongValueIsInconsistent(plant, held, assoc, obj, other, SboEnhanced, now);
    RunTwo(plant, zero, one, two);
  }

  lemma ExpiresLater(plant: Plant, st: Server, after: Server, obj: string, assoc: AssocId, selected: ControlRequest,
                     now: Instant)
    requires Granted(plant, st, after, obj, assoc, Some(selected.ctlVal), selected.ctlNum, now)
    requires now == 0 && st.sboTimeoutMs == 30_000 && st.selections == map[]
    ensures after.selections.Keys == {obj} && now < after.selections[obj].expires
    ensures after.selections[obj].assoc == assoc && after.selections[obj].value == Some(selected.ctlVal)
  {
    hide OnTimeout;
  }

  lemma RunTwo(plant: Plant, st: Server, a: Step, b: Step)
    ensures Run(plant, st, [a, b]) == Do(plant, Do(plant, st, a), b)
  {
    hide Do;
    assert [a, b][1..] == [b] && [b][1..] == [];
    assert Run(plant, Do(plant, st, a), [b]) == Do(plant, Do(plant, st, a), b);
  }

  /** A run in which a client operates another value than it selected. */
  lemma OtherThanSelected() returns (plant: Plant, values: map<string, Value>, steps: seq<Step>,
                                     request: ControlRequest)
    ensures |steps| == 2 && steps[0].WriteRequest? && steps[1].WriteRequest? && steps[0].assoc == steps[1].assoc
            && steps[0].obj == steps[1].obj
    ensures var after := Run(plant, Fresh(values, 30_000), steps);
            && after.lastCause == Some(INCONSISTENT_PARAMETERS) && after.history.attempts == []
            && after.values == values
            && after.pending
               == [Termination(steps[1].assoc, Negative(steps[1].obj, request, INCONSISTENT_PARAMETERS), 1)]
  {
    hide Run, BehaviourOf, ModelOf;
    plant := Plant(None, (r: string, v: Value) => true);
    values := map["L/N$CF$p$ctlModel" := Integer(4)];
    var epoch := UtcTime(0, 0, TimeQuality(false, false, false, 0));
    var now, obj := Now(0, epoch), "L/N$CO$p";
    var selected := ControlRequest(Boolean(true), None, Origin(3, []), 1, epoch, false, Check(false, false));
    request := selected.(ctlVal := Boolean(false));
    ExampleServes(values, 4);
    SelectThenOther(plant, values, obj, 1, selected, request, now);
    steps := [WriteRequest(1, obj, "SBOw", RequestToValue(selected), now),
              WriteRequest(1, obj, "Oper", RequestToValue(request), now)];
  }
}
