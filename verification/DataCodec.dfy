/** The `Data` codec as it runs: values written through one shared encoder, and a cursor drained
    into a list of values. */
module DataCodec {
  import opened Common
  import opened Octets
  import opened Ber
  import opened BerWriter
  import opened BerReader
  import opened Data

  // ---- writing ----

  lemma {:induction false} EncodingAllSnoc(vs: seq<Value>, k: nat)
    requires k < |vs| && AllEncodable(vs[..k]) && Encodable(vs[k])
    ensures AllEncodable(vs[..k + 1])
    ensures EncodingAll(vs[..k + 1]) == EncodingAll(vs[..k]) + Encoding(vs[k])
  {
    hide Encodable, Encoding;
    var head := vs[..k + 1];
    if k == 0 {
      assert head == [vs[0]] && vs[..0] == [] && head[1..] == [];
    } else {
      var tail := vs[1..];
      assert vs[..k][1..] == tail[..k - 1] && head[1..] == tail[..k];
      EncodingAllSnoc(tail, k - 1);
    }
  }

  /** A list with a member that cannot be written cannot be written. */
  lemma {:induction false} AllEncodableMember(vs: seq<Value>, k: nat)
    requires k < |vs| && AllEncodable(vs)
    ensures Encodable(vs[k])
  {
    hide Encodable;
    if k > 0 {
      AllEncodableMember(vs[1..], k - 1);
    }
  }

  /** `Value::encode`: the value's octets, exactly when it can be written, after whatever the
      buffer held. Octets already written are never disturbed, not even by a failure. */
  method Encode(v: Value, e: Encoder) returns (r: Result<()>)
    modifies e
    ensures r.Ok? <==> Encodable(v)
    ensures r.Ok? ==> e.buf == old(e.buf) + Encoding(v)
    ensures r.Err? ==> r.error == Error.Encode && old(e.buf) <= e.buf
    decreases v, 1
  {
    hide Element, ToBE, IsAscii;
    match v {
      case Array(m) => r := EncodeMembers(v, e);
      case Structure(m) => r := EncodeMembers(v, e);
      case Boolean(b) => r := e.Primitive(TagOf(v), [if b then 1 else 0]);
      case BitString(unused, bytes) => r := e.BitString(TagOf(v), unused, bytes);
      case Integer(i) => r := e.Integer(TagOf(v), i);
      case Unsigned(u) => r := e.Unsigned(TagOf(v), u);
      case Float32(bits) => r := e.Primitive(TagOf(v), [8] + ToBE(bits, 4));
      case Float64(bits) => r := e.Primitive(TagOf(v), [11] + ToBE(bits, 8));
      case OctetString(bytes) => r := e.Primitive(TagOf(v), bytes);
      case VisibleString(bytes) =>
        if !IsAscii(bytes) {
          return Err(Error.Encode);
        }
        r := e.Primitive(TagOf(v), bytes);
      case MmsString(bytes) => r := e.Primitive(TagOf(v), bytes);
      case Utc(t) => r := e.Primitive(TagOf(v), t.ToOctets());
      case BinaryTime(bytes) => r := e.Primitive(TagOf(v), bytes);
      case Other(_, _, bytes) => r := e.Primitive(TagOf(v), bytes);
    }
  }

  /** Values back to back: the loop of `encode_all` and of an array's or structure's members. */
  method EncodeEach(vs: seq<Value>, e: Encoder) returns (r: Result<()>)
    modifies e
    ensures r.Ok? <==> AllEncodable(vs)
    ensures r.Ok? ==> e.buf == old(e.buf) + EncodingAll(vs)
    ensures r.Err? ==> r.error == Error.Encode && old(e.buf) <= e.buf
    decreases vs, 0
  {
    hide Encodable, Encoding;
    var i := 0;
    while i < |vs|
      invariant 0 <= i <= |vs|
      invariant AllEncodable(vs[..i]) && e.buf == old(e.buf) + EncodingAll(vs[..i])
    {
      r := Encode(vs[i], e);
      if r.Err? {
        if AllEncodable(vs) {
          AllEncodableMember(vs, i);
        }
        return;
      }
      EncodingAllSnoc(vs, i);
      i := i + 1;
    }
    assert vs[..|vs|] == vs;
    return Ok(());
  }

  /** The array and structure case: identifier and placeholder, every member in turn, and then the
      length the members turned out to have. */
  method EncodeMembers(v: Value, e: Encoder) returns (r: Result<()>)
    requires Container(v)
    modifies e
    ensures r.Ok? <==> Encodable(v)
    ensures r.Ok? ==> e.buf == old(e.buf) + Encoding(v)
    ensures r.Err? ==> r.error == Error.Encode && old(e.buf) <= e.buf
    decreases v, 0
  {
    hide Encoding, EncodingAll, TagOf, TagOctets, LengthOctets;
    var lenPos := e.OpenConstructed(TagOf(v));
    r := EncodeEach(v.members, e);
    if r.Err? {
      return;
    }
    ghost var contents := EncodingAll(v.members);
    assert e.buf[lenPos + 1..] == contents && e.buf[..lenPos] == old(e.buf) + TagOctets(TagOf(v));
    r := e.CloseConstructed(lenPos);
    if r.Ok? {
      EncodingOfMembers(v);
      assert e.buf == old(e.buf) + (TagOctets(TagOf(v)) + LengthOctets(|contents|) + contents);
    }
  }

  lemma EncodingOfMembers(v: Value)
    requires Container(v) && Encodable(v)
    ensures Encoding(v) == TagOctets(TagOf(v)) + LengthOctets(|EncodingAll(v.members)|) + EncodingAll(v.members)
  {
  }

  /** `Value::encode_all`. */
  method EncodeAll(vs: seq<Value>) returns (r: Result<seq<Octet>>)
    ensures r.Ok? <==> AllEncodable(vs)
    ensures r.Ok? ==> r.value == EncodingAll(vs)
    ensures r.Err? ==> r.error == Error.Encode
  {
    var e := new Encoder();
    var done := EncodeEach(vs, e);
    if done.Err? {
      return Err(done.error);
    }
    return Ok(e.buf);
  }

  // ---- reading ----

  /** Values collected before the rest of a list. */
  function Prepend(out: seq<Value>, r: Result<seq<Value>>): Result<seq<Value>> {
    match r
    case Err(e) => Err(e)
    case Ok(vs) => Ok(out + vs)
  }

  lemma PrependLaws(out: seq<Value>, v: Value, r: Result<seq<Value>>)
    ensures Prepend([], r) == r
    ensures Prepend(out, Prepend([v], r)) == Prepend(out + [v], r)
    ensures r == Ok([]) ==> Prepend(out, r) == Ok(out)
  {
    match r
    case Err(_) =>
    case Ok(vs) =>
      assert [] + vs == vs && out + [] == out && out + ([v] + vs) == out + [v] + vs;
  }

  /** `collect_depth`: the loop over one level of elements. */
  method CollectDepth(c: Cursor, limits: Limits, depth: nat) returns (r: Result<seq<Value>>)
    requires c.Valid()
    modifies c
    ensures r == Collected(old(c.Rest()), old(c.At()), limits, depth, 0)
    decreases |c.Rest()|, 0
  {
    hide ReadElement, ViewOf, Owned;
    var out: seq<Value> := [];
    ghost var spec := Collected(c.Rest(), c.At(), limits, depth, 0);
    ghost var size := |c.Rest()|;
    PrependLaws([], Boolean(true), spec);
    while true
      invariant c.Valid() && |c.Rest()| <= size
      invariant spec == Prepend(out, Collected(c.Rest(), c.At(), limits, depth, |out|))
      decreases |c.buf| - c.pos
    {
      ghost var s, at := c.Rest(), c.At();
      var n := c.Next();
      if n.None? {
        PrependLaws(out, Boolean(true), Ok([]));
        return Ok(out);
      }
      if |out| >= limits.maxDatasetMembers {
        return Err(LimitExceeded(MaxDatasetMembers, |out| + 1));
      }
      if n.value.Err? {
        return Err(n.value.error);
      }
      var t := n.value.value;
      ReadElementFaithful(s, at);
      var view := ViewOf(t);
      if view.Err? {
        return Err(view.error);
      }
      var v := ToOwnedDepth(view.value, limits, depth);
      if v.Err? {
        return Err(v.error);
      }
      PrependLaws(out, v.value, Collected(c.Rest(), c.At(), limits, depth, |out| + 1));
      out := out + [v.value];
    }
  }

  /** `to_owned_depth`. */
  method ToOwnedDepth(view: DataView, limits: Limits, depth: nat) returns (r: Result<Value>)
    ensures r == Owned(view, limits, depth)
    decreases if view.Members? then |view.contents| else 0, 1
  {
    if depth > limits.maxDepth {
      return Err(LimitExceeded(MaxDepth, depth));
    }
    match view {
      case Members(isArray, contents, base) =>
        var c := new Cursor(contents, base);
        assert c.Rest() == contents;
        var members := CollectDepth(c, limits, depth + 1);
        if members.Err? {
          return Err(members.error);
        }
        return Ok(if isArray then Array(members.value) else Structure(members.value));
      case Scalar(v) =>
        if CheckedLen(v) > limits.maxPrimitiveLen {
          return Err(LimitExceeded(MaxPrimitiveLen, CheckedLen(v)));
        }
        return Ok(v);
    }
  }

  /** `decode_all`. */
  method Decode(bytes: seq<Octet>, limits: Limits) returns (r: Result<seq<Value>>)
    ensures r == DecodeAll(bytes, limits)
  {
    var c := new Cursor(bytes, 0);
    assert c.Rest() == bytes;
    r := CollectDepth(c, limits, 0);
  }
}
