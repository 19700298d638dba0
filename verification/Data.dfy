/** The ISO 9506-2 `Data` CHOICE: the value tree, the octets it is written as, and what the
    decoder makes of any octets, under its limits. */
module Data {
  import opened Common
  import opened Octets
  import opened Ber
  import opened BerInteger
  import opened Time

  const ARRAY: U32 := 1
  const STRUCTURE: U32 := 2
  const BOOLEAN: U32 := 3
  const BIT_STRING: U32 := 4
  const INTEGER: U32 := 5
  const UNSIGNED: U32 := 6
  const FLOATING_POINT: U32 := 7
  const OCTET_STRING: U32 := 9
  const VISIBLE_STRING: U32 := 10
  const BINARY_TIME: U32 := 12
  const MMS_STRING: U32 := 16
  const UTC_TIME: U32 := 17

  const MAX_CONTENTS: int := 0x1_0000_0000

  /** An owned `Data` value. Strings are their octets and floats their bit patterns. */
  datatype Value =
    | Array(members: seq<Value>)
    | Structure(members: seq<Value>)
    | Boolean(b: bool)
    | BitString(unused: U8, bytes: seq<Octet>)
    | Integer(i: I64)
    | Unsigned(u: U64)
    | Float32(bits32: U32)
    | Float64(bits64: U64)
    | OctetString(bytes: seq<Octet>)
    | VisibleString(bytes: seq<Octet>)
    | MmsString(bytes: seq<Octet>)
    | Utc(t: UtcTime)
    | BinaryTime(bytes: seq<Octet>)
    | Other(tag: U32, constructed: bool, bytes: seq<Octet>)

  predicate IsAscii(s: seq<Octet>) {
    forall i :: 0 <= i < |s| ==> s[i] < 128
  }

  predicate Continuation(b: Octet) {
    0x80 <= b <= 0xBF
  }

  /** Well-formed UTF-8 (table 3-7 of the Unicode standard), which is what a string may hold. */
  predicate IsUtf8(s: seq<Octet>) {
    if s == [] then true
    else if s[0] < 0x80 then IsUtf8(s[1..])
    else if 0xC2 <= s[0] <= 0xDF then |s| >= 2 && Continuation(s[1]) && IsUtf8(s[2..])
    else if 0xE0 <= s[0] <= 0xEF then
      && |s| >= 3
      && (if s[0] == 0xE0 then 0xA0 <= s[1] <= 0xBF else if s[0] == 0xED then 0x80 <= s[1] <= 0x9F
          else Continuation(s[1]))
      && Continuation(s[2]) && IsUtf8(s[3..])
    else if 0xF0 <= s[0] <= 0xF4 then
      && |s| >= 4
      && (if s[0] == 0xF0 then 0x90 <= s[1] <= 0xBF else if s[0] == 0xF4 then 0x80 <= s[1] <= 0x8F
          else Continuation(s[1]))
      && Continuation(s[2]) && Continuation(s[3]) && IsUtf8(s[4..])
    else false
  }

  /** An ASCII string never fails the UTF-8 check that follows. */
  lemma {:induction false} AsciiIsUtf8(s: seq<Octet>)
    requires IsAscii(s)
    ensures IsUtf8(s)
  {
    if s != [] {
      AsciiIsUtf8(s[1..]);
    }
  }

  /** The (number, constructed) pairs `from_tlv` knows; `Other` is for every other one. */
  predicate KnownChoice(number: U32, constructed: bool) {
    if constructed then number == ARRAY || number == STRUCTURE
    else BOOLEAN <= number <= FLOATING_POINT || number == OCTET_STRING || number == VISIBLE_STRING
         || number == BINARY_TIME || number == MMS_STRING || number == UTC_TIME
  }

  // ---- writing ----

  function TagOf(v: Value): Tag {
    match v
    case Array(_) => ContextConstructed(ARRAY)
    case Structure(_) => ContextConstructed(STRUCTURE)
    case Boolean(_) => ContextTag(BOOLEAN)
    case BitString(_, _) => ContextTag(BIT_STRING)
    case Integer(_) => ContextTag(INTEGER)
    case Unsigned(_) => ContextTag(UNSIGNED)
    case Float32(_) => ContextTag(FLOATING_POINT)
    case Float64(_) => ContextTag(FLOATING_POINT)
    case OctetString(_) => ContextTag(OCTET_STRING)
    case VisibleString(_) => ContextTag(VISIBLE_STRING)
    case MmsString(_) => ContextTag(MMS_STRING)
    case Utc(_) => ContextTag(UTC_TIME)
    case BinaryTime(_) => ContextTag(BINARY_TIME)
    case Other(n, constructed, _) => Tag(Context, constructed, n)
  }

  predicate Container(v: Value) {
    v.Array? || v.Structure?
  }

  /** The contents octets of a value that is not an array or a structure. */
  function Payload(v: Value): seq<Octet>
    requires !Container(v)
  {
    match v
    case Boolean(b) => [if b then 1 else 0]
    case BitString(unused, bytes) => [unused] + bytes
    case Integer(i) => IntegerOctets(i)
    case Unsigned(u) => UnsignedOctets(u)
    case Float32(bits) => [8] + ToBE(bits, 4)
    case Float64(bits) => [11] + ToBE(bits, 8)
    case OctetString(bytes) => bytes
    case VisibleString(bytes) => bytes
    case MmsString(bytes) => bytes
    case Utc(t) => t.ToOctets()
    case BinaryTime(bytes) => bytes
    case Other(_, _, bytes) => bytes
  }

  /** What `encode` accepts: legal unused bits, ASCII in a `VisibleString`, and no contents longer
      than a definite length can say. */
  predicate Encodable(v: Value)
    decreases v, 0
  {
    match v
    case Array(ms) => AllEncodable(ms) && |EncodingAll(ms)| < MAX_CONTENTS
    case Structure(ms) => AllEncodable(ms) && |EncodingAll(ms)| < MAX_CONTENTS
    case BitString(unused, bytes) => unused <= 7 && (bytes != [] || unused == 0) && |Payload(v)| < MAX_CONTENTS
    case VisibleString(bytes) => IsAscii(bytes) && |Payload(v)| < MAX_CONTENTS
    case _ => |Payload(v)| < MAX_CONTENTS
  }

  predicate AllEncodable(vs: seq<Value>)
    decreases vs, 0
  {
    vs == [] || (Encodable(vs[0]) && AllEncodable(vs[1..]))
  }

  /** The contents of a value: for an array or a structure, its members back to back. */
  function Contents(v: Value): (c: seq<Octet>)
    requires Encodable(v)
    ensures |c| < MAX_CONTENTS
    decreases v, 1
  {
    if Container(v) then EncodingAll(v.members) else Payload(v)
  }

  /** The octets of a value. */
  function Encoding(v: Value): seq<Octet>
    requires Encodable(v)
    decreases v, 2
  {
    Element(TagOf(v), Contents(v))
  }

  /** The octets of a list of values, back to back. */
  function EncodingAll(vs: seq<Value>): seq<Octet>
    requires AllEncodable(vs)
    decreases vs, 1
  {
    if vs == [] then [] else Encoding(vs[0]) + EncodingAll(vs[1..])
  }

  // ---- reading ----

  /** A decoded element before it is copied: the members still to be read, or a value. */
  datatype DataView =
    | Members(isArray: bool, contents: seq<Octet>, base: nat)
    | Scalar(value: Value)

  function BoolOf(t: Tlv): Result<Value> {
    if |t.value| == 1 then Ok(Boolean(t.value[0] != 0)) else Err(Decode(BadValue, t.valueOffset))
  }

  function BitStringOf(t: Tlv): Result<Value> {
    if t.value != [] && t.value[0] <= 7 && (|t.value| > 1 || t.value[0] == 0) then
      Ok(BitString(t.value[0], t.value[1..]))
    else Err(Decode(BadValue, t.valueOffset))
  }

  function IntegerOf(t: Tlv): Result<Value> {
    match ReadInteger(t.value, t.valueOffset) case Ok(i) => Ok(Integer(i)) case Err(e) => Err(e)
  }

  function UnsignedOf(t: Tlv): Result<Value> {
    match ReadLenient(t.value, t.valueOffset) case Ok(u) => Ok(Unsigned(u)) case Err(e) => Err(e)
  }

  function FloatOf(t: Tlv): Result<Value> {
    if |t.value| == 5 && t.value[0] == 8 then
      FromBEBound(t.value[1..]);
      Pow256Values();
      Ok(Float32(FromBE(t.value[1..])))
    else if |t.value| == 9 && t.value[0] == 11 then
      FromBEBound(t.value[1..]);
      Pow256Values();
      Ok(Float64(FromBE(t.value[1..])))
    else Err(Decode(BadValue, t.valueOffset))
  }

  function VisibleStringOf(t: Tlv): Result<Value> {
    if IsAscii(t.value) && IsUtf8(t.value) then Ok(VisibleString(t.value)) else Err(Decode(NotAscii, t.valueOffset))
  }

  function MmsStringOf(t: Tlv): Result<Value> {
    if IsUtf8(t.value) then Ok(MmsString(t.value)) else Err(Decode(BadValue, t.valueOffset))
  }

  function UtcOf(t: Tlv): Result<Value> {
    if |t.value| == 8 then Ok(Utc(UtcTime.FromOctets(t.value))) else Err(Decode(BadValue, t.valueOffset))
  }

  /** A primitive or unknown element as a value. */
  function ScalarOf(t: Tlv): Result<Value> {
    var number := t.tag.number;
    if t.tag.constructed then Ok(Other(number, true, t.value))
    else if number == BOOLEAN then BoolOf(t)
    else if number == BIT_STRING then BitStringOf(t)
    else if number == INTEGER then IntegerOf(t)
    else if number == UNSIGNED then UnsignedOf(t)
    else if number == FLOATING_POINT then FloatOf(t)
    else if number == OCTET_STRING then Ok(OctetString(t.value))
    else if number == VISIBLE_STRING then VisibleStringOf(t)
    else if number == MMS_STRING then MmsStringOf(t)
    else if number == UTC_TIME then UtcOf(t)
    else if number == BINARY_TIME then Ok(BinaryTime(t.value))
    else Ok(Other(number, false, t.value))
  }

  /** `DataView::from_tlv`. */
  function ViewOf(t: Tlv): (r: Result<DataView>)
    ensures r.Ok? && r.value.Members? ==> r.value.contents == t.value
  {
    if t.tag.cls != Context then Err(Decode(UnexpectedTag, t.offset))
    else if t.tag.constructed && (t.tag.number == ARRAY || t.tag.number == STRUCTURE) then
      Ok(Members(t.tag.number == ARRAY, t.value, t.valueOffset))
    else
      match ScalarOf(t) case Ok(v) => Ok(Scalar(v)) case Err(e) => Err(e)
  }

  /** The octets `check_len` counts. */
  function CheckedLen(v: Value): nat {
    match v
    case BitString(_, bytes) => |bytes|
    case OctetString(bytes) => |bytes|
    case VisibleString(bytes) => |bytes|
    case MmsString(bytes) => |bytes|
    case BinaryTime(bytes) => |bytes|
    case Other(_, _, bytes) => |bytes|
    case _ => 0
  }

  /** `to_owned_depth`. */
  function Owned(view: DataView, limits: Limits, depth: nat): Result<Value>
    decreases if view.Members? then |view.contents| else 0, 1
  {
    if depth > limits.maxDepth then Err(LimitExceeded(MaxDepth, depth))
    else
      match view
      case Members(isArray, contents, base) =>
        (match Collected(contents, base, limits, depth + 1, 0)
         case Err(e) => Err(e)
         case Ok(ms) => Ok(if isArray then Array(ms) else Structure(ms)))
      case Scalar(v) =>
        if CheckedLen(v) > limits.maxPrimitiveLen then Err(LimitExceeded(MaxPrimitiveLen, CheckedLen(v))) else Ok(v)
  }

  /** `collect_depth` over the octets `s`, which start at absolute offset `base`, after `n` values
      of the same list. */
  function Collected(s: seq<Octet>, base: nat, limits: Limits, depth: nat, n: nat): Result<seq<Value>>
    decreases |s|, 0
  {
    if s == [] then Ok([])
    else if n >= limits.maxDatasetMembers then Err(LimitExceeded(MaxDatasetMembers, n + 1))
    else
      match ReadElement(s, base)
      case Err(e) => Err(e)
      case Ok((t, k)) =>
        ReadElementFaithful(s, base);
        match ViewOf(t)
        case Err(e) => Err(e)
        case Ok(view) =>
          match Owned(view, limits, depth)
          case Err(e) => Err(e)
          case Ok(v) =>
            match Collected(s[k..], base + k, limits, depth, n + 1)
            case Err(e) => Err(e)
            case Ok(vs) => Ok([v] + vs)
  }

  /** `decode_all`. */
  function DecodeAll(s: seq<Octet>, limits: Limits): Result<seq<Value>> {
    Collected(s, 0, limits, 0, 0)
  }

  // ---- what round trips, and what the limits allow ----

  /** What the wire can carry unchanged: UTF-8 strings, canonical timestamps, and no known choice
      dressed up as an unknown one. */
  predicate WellFormed(v: Value)
    decreases v, 0
  {
    match v
    case Array(ms) => AllWellFormed(ms)
    case Structure(ms) => AllWellFormed(ms)
    case MmsString(bytes) => IsUtf8(bytes)
    case Utc(t) => t.Canonical()
    case Other(n, constructed, _) => !KnownChoice(n, constructed)
    case _ => true
  }

  predicate AllWellFormed(vs: seq<Value>)
    decreases vs, 0
  {
    vs == [] || (WellFormed(vs[0]) && AllWellFormed(vs[1..]))
  }

  /** Inside the limits at nesting depth `depth`. */
  predicate Within(v: Value, limits: Limits, depth: nat)
    decreases v, 0
  {
    depth <= limits.maxDepth
    && if Container(v) then |v.members| <= limits.maxDatasetMembers && AllWithin(v.members, limits, depth + 1)
       else CheckedLen(v) <= limits.maxPrimitiveLen
  }

  predicate AllWithin(vs: seq<Value>, limits: Limits, depth: nat)
    decreases vs, 0
  {
    vs == [] || (Within(vs[0], limits, depth) && AllWithin(vs[1..], limits, depth))
  }

  /** A whole list inside the limits. */
  predicate Fits(vs: seq<Value>, limits: Limits) {
    |vs| <= limits.maxDatasetMembers && AllWithin(vs, limits, 0)
  }
}
