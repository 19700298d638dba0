/** Controls on the wire: the `Oper`, `SBOw` and `Cancel` structures, the control models, and the
    answers that arrive later. */
module ControlMessage {
  import opened Common
  import opened Octets
  import opened Time
  import opened Data

  datatype ControlModel = StatusOnly | DirectNormal | SboNormal | DirectEnhanced | SboEnhanced {
    predicate NeedsSelect() {
      SboNormal? || SboEnhanced?
    }

    predicate Enhanced() {
      DirectEnhanced? || SboEnhanced?
    }

    predicate Direct() {
      DirectNormal? || DirectEnhanced?
    }
  }

  function ModelOfCode(code: int): Option<ControlModel> {
    if code == 0 then Some(StatusOnly)
    else if code == 1 then Some(DirectNormal)
    else if code == 2 then Some(SboNormal)
    else if code == 3 then Some(DirectEnhanced)
    else if code == 4 then Some(SboEnhanced)
    else None
  }

  /** Why a command was refused, as its number on the wire. */
  type AddCause = I64

  const NOT_SUPPORTED: AddCause := 1
  const SELECT_FAILED: AddCause := 3
  const BLOCKED_BY_MODE: AddCause := 8
  const OBJECT_NOT_SELECTED: AddCause := 18
  const OBJECT_ALREADY_SELECTED: AddCause := 19
  const INCONSISTENT_PARAMETERS: AddCause := 26

  /** Who issued a control: the category as its number, and an opaque identifier. */
  datatype Origin = Origin(category: I64, identifier: seq<Octet>)

  datatype Check = Check(synchro: bool, interlock: bool)

  datatype ControlRequest = ControlRequest(
    ctlVal: Value, operTm: Option<UtcTime>, origin: Origin, ctlNum: U8, t: UtcTime, test: bool, check: Check)

  function OriginToValue(o: Origin): Value {
    Structure([Integer(o.category), OctetString(o.identifier)])
  }

  function OriginOfValue(v: Value): Option<Origin> {
    if !Container(v) || |v.members| < 2 then None
    else
      var category :=
        match v.members[0]
        case Integer(i) => Some(i)
        case Unsigned(u) => if u < 0x8000_0000_0000_0000 then Some(u) else None
        case _ => None;
      var identifier :=
        match v.members[1]
        case OctetString(b) => Some(b)
        case VisibleString(b) => Some(b)
        case MmsString(b) => Some(b)
        case _ => None;
      if category.Some? && identifier.Some? then Some(Origin(category.value, identifier.value)) else None
  }

  /** A two-bit string: synchrocheck first. */
  function CheckToValue(c: Check): Value {
    BitString(6, [(if c.synchro then 128 else 0) + if c.interlock then 64 else 0])
  }

  function CheckOfValue(v: Value): Option<Check> {
    if v.BitString? && v.unused == 6 && v.bytes != [] then
      Some(Check(v.bytes[0] / 128 == 1, v.bytes[0] / 64 % 2 == 1))
    else None
  }

  /** The `Oper` or `SBOw` structure. */
  function RequestToValue(r: ControlRequest): Value {
    Structure([r.ctlVal]
              + (if r.operTm.Some? then [Utc(r.operTm.value)] else [])
              + [OriginToValue(r.origin), Unsigned(r.ctlNum), Utc(r.t), Boolean(r.test), CheckToValue(r.check)])
  }

  /** The `Cancel` structure: the same without `Check`. */
  function RequestToCancelValue(r: ControlRequest): Value {
    var members := RequestToValue(r).members;
    Structure(members[..|members| - 1])
  }

  function Member(v: Value, i: nat): Option<Value>
    requires Container(v)
  {
    if i < |v.members| then Some(v.members[i]) else None
  }

  /** Read an `Oper`, `SBOw` or `Cancel`: `operTm`, `ctlNum` and `Check` are optional and untagged,
      so the shape is resolved by type as well as by position. */
  function RequestOfValue(v: Value): Option<ControlRequest> {
    if !Container(v) || v.members == [] then None
    else
      var tm := Member(v, 1);
      var operTm := if tm.Some? && tm.value.Utc? then Some(tm.value.t) else None;
      var at := if operTm.Some? then 2 else 1;
      var from := Member(v, at);
      if from.None? || OriginOfValue(from.value).None? then None
      else
        var num := Member(v, at + 1);
        var present := num.Some? && !num.value.Utc?;
        if present && !(num.value.Unsigned? && num.value.u < 256) then None
        else
          var ctlNum: U8 := if present then num.value.u else 0;
          var rest := if present then at + 2 else at + 1;
          var t, test, check := Member(v, rest), Member(v, rest + 1), Member(v, rest + 2);
          if t.None? || !t.value.Utc? || test.None? || !test.value.Boolean? then None
          else if check.Some? && CheckOfValue(check.value).None? then None
          else
            Some(ControlRequest(v.members[0], operTm, OriginOfValue(from.value).value, ctlNum, t.value.t, test.value.b,
                                if check.Some? then CheckOfValue(check.value).value else Check(false, false)))
  }

  /** Every request survives its structure; a cancel survives with no checks asked for. */
  lemma RequestRoundTrip(r: ControlRequest)
    ensures RequestOfValue(RequestToValue(r)) == Some(r)
    ensures RequestOfValue(RequestToCancelValue(r)) == Some(r.(check := Check(false, false)))
  {
    var full, cancel := RequestToValue(r), RequestToCancelValue(r);
    CheckRoundTrip(r.check);
    OriginRoundTrip(r.origin);
    if r.operTm.Some? {
      assert full.members
             == [r.ctlVal, Utc(r.operTm.value), OriginToValue(r.origin), Unsigned(r.ctlNum), Utc(r.t), Boolean(r.test),
                 CheckToValue(r.check)];
    } else {
      assert full.members
             == [r.ctlVal, OriginToValue(r.origin), Unsigned(r.ctlNum), Utc(r.t), Boolean(r.test),
                 CheckToValue(r.check)];
    }
  }

  lemma CheckRoundTrip(c: Check)
    ensures CheckOfValue(CheckToValue(c)) == Some(c)
  {
  }

  lemma OriginRoundTrip(o: Origin)
    ensures OriginOfValue(OriginToValue(o)) == Some(o)
  {
  }

  // ---- equality of control values ----

  predicate NaN32(bits: U32) {
    bits % 0x8000_0000 > 0x7F80_0000
  }

  predicate NaN64(bits: U64) {
    bits % 0x8000_0000_0000_0000 > 0x7FF0_0000_0000_0000
  }

  /** The source's `==` on values: octets for everything but floats, which compare as numbers. */
  predicate SameValue(a: Value, b: Value)
    decreases a, 0
  {
    match a
    case Float32(x) =>
      b.Float32? && !NaN32(x) && !NaN32(b.bits32)
      && (x == b.bits32 || (x % 0x8000_0000 == 0 && b.bits32 % 0x8000_0000 == 0))
    case Float64(x) =>
      && b.Float64? && !NaN64(x) && !NaN64(b.bits64)
      && (x == b.bits64 || (x % 0x8000_0000_0000_0000 == 0 && b.bits64 % 0x8000_0000_0000_0000 == 0))
    case Array(ms) => b.Array? && SameValues(ms, b.members)
    case Structure(ms) => b.Structure? && SameValues(ms, b.members)
    case _ => a == b
  }

  predicate SameValues(a: seq<Value>, b: seq<Value>)
    decreases a, 0
  {
    |a| == |b| && (a == [] || (SameValue(a[0], b[0]) && SameValues(a[1..], b[1..])))
  }
}
