/** A control request from its sender to its receiver, as octets in between. */
module ControlWire {
  import opened Common
  import opened Octets
  import opened Data
  import opened DataProofs
  import opened ControlMessage

  /** What the receiver makes of the octets: the request in the one value they hold. */
  function Received(octets: seq<Octet>, limits: Limits): Option<ControlRequest> {
    match DecodeAll(octets, limits)
    case Ok(vs) => if |vs| == 1 then RequestOfValue(vs[0]) else None
    case Err(_) => None
  }

  /** The value and the times are ones the wire carries unchanged. */
  predicate Canonical(r: ControlRequest) {
    WellFormed(r.ctlVal) && r.t.Canonical() && (r.operTm.Some? ==> r.operTm.value.Canonical())
  }

  lemma {:induction false} EachWellFormed(vs: seq<Value>)
    requires forall v <- vs :: WellFormed(v)
    ensures AllWellFormed(vs)
  {
    if vs != [] {
      EachWellFormed(vs[1..]);
    }
  }

  lemma StructureIsWellFormed(r: ControlRequest)
    requires Canonical(r)
    ensures WellFormed(RequestToValue(r)) && WellFormed(RequestToCancelValue(r))
  {
    var members := RequestToValue(r).members;
    EachWellFormed(OriginToValue(r.origin).members);
    assert WellFormed(OriginToValue(r.origin));
    EachWellFormed(members);
    EachWellFormed(members[..|members| - 1]);
  }

  /** One structure sent arrives as it was exactly when it fits the receiver's limits. */
  lemma ArrivesExactly(v: Value, r: ControlRequest, limits: Limits)
    requires AllEncodable([v]) && WellFormed(v) && RequestOfValue(v) == Some(r)
    ensures Received(EncodingAll([v]), limits) == Some(r) <==> Fits([v], limits)
  {
    hide RequestOfValue, DecodeAll, WellFormed, Fits;
    assert AllWellFormed([v]);
    RoundTripExactLimits([v], limits);
  }

  /** A request survives its structure, its octets and the limits of whoever decodes them exactly when it
      fits those limits; a cancel arrives the same way, with no checks asked for. */
  lemma RequestArrivesExactly(r: ControlRequest, limits: Limits)
    requires Canonical(r)
    ensures var sent := [RequestToValue(r)];
            AllEncodable(sent) ==> (Received(EncodingAll(sent), limits) == Some(r) <==> Fits(sent, limits))
    ensures var sent := [RequestToCancelValue(r)];
            AllEncodable(sent)
            ==> (Received(EncodingAll(sent), limits) == Some(r.(check := Check(false, false))) <==> Fits(sent, limits))
  {
    hide RequestOfValue, RequestToValue, RequestToCancelValue;
    RequestRoundTrip(r);
    StructureIsWellFormed(r);
    if AllEncodable([RequestToValue(r)]) {
      ArrivesExactly(RequestToValue(r), r, limits);
    }
    if AllEncodable([RequestToCancelValue(r)]) {
      ArrivesExactly(RequestToCancelValue(r), r.(check := Check(false, false)), limits);
    }
  }
}
