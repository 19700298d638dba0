/** The BER cursor: a position in a buffer that yields one element after another, with offsets
    measured from the start of the outermost buffer. */
module BerReader {
  import opened Common
  import opened Octets
  import opened Ber
  import opened BerInteger

  /** The element without the count of octets it took. */
  function ElementOf(r: Result<(Tlv, nat)>): Result<Tlv> {
    match r
    case Err(e) => Err(e)
    case Ok((t, n)) => Ok(t)
  }

  /** The accumulator loop over length octets. */
  method BigEndian(bytes: seq<Octet>) returns (l: nat)
    ensures l == FromBE(bytes)
  {
    l := 0;
    var i := 0;
    while i < |bytes|
      invariant 0 <= i <= |bytes| && l == FromBE(bytes[..i])
    {
      FromBESnoc(bytes, i);
      l := 256 * l + bytes[i];
      i := i + 1;
    }
    assert bytes[..|bytes|] == bytes;
  }

  class Cursor {
    const buf: seq<Octet>
    const base: nat
    var pos: nat

    constructor (buf: seq<Octet>, base: nat)
      ensures this.buf == buf && this.base == base && pos == 0
    {
      this.buf := buf;
      this.base := base;
      pos := 0;
    }

    ghost predicate Valid()
      reads this
    {
      pos <= |buf|
    }

    /** What is left to read, and where it starts. */
    ghost function Rest(): seq<Octet>
      requires Valid()
      reads this
    {
      buf[pos..]
    }

    ghost function At(): nat
      reads this
    {
      base + pos
    }

    predicate IsEmpty()
      reads this
    {
      pos >= |buf|
    }

    /** The identifier octets. */
    method NextTag() returns (r: Result<Tag>)
      requires Valid()
      modifies this
      ensures Valid()
      ensures var spec := ReadTag(old(Rest()), old(At()));
              match spec { case Err(e) => r == Err(e) case Ok((t, k)) => r == Ok(t) && pos == old(pos) + k }
    {
      var start := pos;
      if pos >= |buf| {
        return Err(Decode(Truncated, base + pos));
      }
      var first := buf[pos];
      pos := pos + 1;
      var cls := ClassOf(first / 64);
      var constructed := first / 32 % 2 == 1;
      var number: U32 := first % 32;
      if number == 31 {
        assert buf[start..][1..] == buf[pos..];
        var n := NextGroups(start);
        if n.Err? {
          return Err(n.error);
        }
        number := n.value;
        if number < 31 {
          return Err(Decode(BadValue, base + start));
        }
      }
      return Ok(Tag(cls, constructed, number));
    }

    /** The base-128 groups of a high tag number. */
    method NextGroups(start: nat) returns (r: Result<U32>)
      requires Valid()
      modifies this
      ensures Valid()
      ensures var spec := ReadGroups(old(Rest()), old(At()), base + start, 0, 0);
              match spec { case Err(e) => r == Err(e) case Ok((n, k)) => r == Ok(n) && pos == old(pos) + k }
    {
      hide ReadGroups;
      var number: U32 := 0;
      var groups := 0;
      ghost var spec := ReadGroups(buf[pos..], base + pos, base + start, 0, 0);
      while true
        invariant Valid() && 0 <= groups < 5 && pos == old(pos) + groups
        invariant spec == Later(ReadGroups(buf[pos..], base + pos, base + start, number, groups), groups)
        decreases |buf| - pos
      {
        ReadGroupsTurn(buf[pos..], base + pos, base + start, number, groups);
        if pos >= |buf| {
          return Err(Decode(Truncated, base + pos));
        }
        var b := buf[pos];
        assert buf[pos..][1..] == buf[pos + 1..];
        pos := pos + 1;
        if groups == 0 && b == 0x80 {
          return Err(Decode(BadValue, base + start));
        }
        if number > 0x1FF_FFFF {
          return Err(Decode(BadValue, base + start));
        }
        number := 128 * number + b % 128;
        groups := groups + 1;
        if b < 128 {
          return Ok(number);
        }
        if groups >= 5 {
          return Err(Decode(BadValue, base + start));
        }
      }
    }

    /** The length octets. */
    method NextLength() returns (r: Result<nat>)
      requires Valid()
      modifies this
      ensures Valid()
      ensures var spec := ReadLength(old(Rest()), old(At()));
              match spec { case Err(e) => r == Err(e) case Ok((len, k)) => r == Ok(len) && pos == old(pos) + k }
    {
      if pos >= |buf| {
        return Err(Decode(Truncated, base + pos));
      }
      var first := buf[pos];
      pos := pos + 1;
      if first < 0x80 {
        return Ok(first);
      }
      var n := first % 128;
      if n == 0 {
        return Err(Decode(IndefiniteLength, base + pos - 1));
      }
      if n > 4 {
        return Err(Decode(BadLength, base + pos - 1));
      }
      if pos + n > |buf| {
        return Err(Decode(Truncated, base + pos));
      }
      var bytes := buf[pos..pos + n];
      assert bytes == buf[old(pos)..][1..1 + n];
      pos := pos + n;
      var l := BigEndian(bytes);
      return Ok(l);
    }

    /** `next_inner`: one element, or the reason there is none. */
    method NextInner() returns (r: Result<Tlv>)
      requires Valid()
      modifies this
      ensures Valid()
      ensures r == ElementOf(ReadElement(old(Rest()), old(At())))
      ensures r.Ok? ==> pos == old(pos) + ReadElement(old(Rest()), old(At())).value.1
    {
      hide ReadTag, ReadLength;
      ghost var s := Rest();
      var start := pos;
      var tag := NextTag();
      if tag.Err? {
        return Err(tag.error);
      }
      ghost var k := pos - start;
      assert s[k..] == Rest();
      var len := NextLength();
      if len.Err? {
        return Err(len.error);
      }
      var valueOffset := pos;
      if len.value > |buf| - pos {
        return Err(Decode(Truncated, base + valueOffset));
      }
      var value := buf[pos..pos + len.value];
      assert value == s[pos - start..pos - start + len.value];
      pos := pos + len.value;
      return Ok(Tlv(tag.value, value, base + start, base + valueOffset));
    }

    /** The iterator: every element in turn, one error at most, and then the end. */
    method Next() returns (r: Option<Result<Tlv>>)
      requires Valid()
      modifies this
      ensures Valid()
      ensures r == if old(Rest()) == [] then None else Some(ElementOf(ReadElement(old(Rest()), old(At()))))
      ensures r.Some? && r.value.Ok? ==>
                var n := ReadElement(old(Rest()), old(At())).value.1;
                n <= |old(Rest())| && pos == old(pos) + n && Rest() == old(Rest())[n..]
      ensures r.None? || r.value.Err? ==> Rest() == []
      ensures r.Some? ==> pos > old(pos)
    {
      if IsEmpty() {
        return None;
      }
      ghost var s := Rest();
      var e := NextInner();
      if e.Err? {
        // Stop: the remaining octets cannot be framed.
        pos := |buf|;
      } else {
        ReadElementFaithful(s, base + old(pos));
      }
      return Some(e);
    }
  }

  /** A cursor over the contents of a constructed element. */
  method Children(t: Tlv) returns (c: Cursor)
    ensures fresh(c) && c.Valid() && c.Rest() == t.value && c.At() == t.valueOffset
  {
    c := new Cursor(t.value, t.valueOffset);
  }

  // ---- typed contents ----

  /** `integer_i64`. */
  method IntegerI64(t: Tlv) returns (r: Result<I64>)
    ensures r == ReadInteger(t.value, t.valueOffset)
  {
    var v := t.value;
    if v == [] || |v| > 8 {
      return Err(Decode(BadValue, t.valueOffset));
    }
    var acc: I64 := if v[0] >= 128 then -1 else 0;
    var i := 0;
    while i < |v|
      invariant 0 <= i <= |v|
      invariant i == 0 ==> acc == if v[0] >= 128 then -1 else 0
      invariant i > 0 ==> acc == SignedBE(v[..i])
    {
      FromBESnoc(v, i);
      SignedInI64(v[..i + 1]);
      assert Pow256(i + 1) == 256 * Pow256(i);
      assert v[..0] == [];
      acc := 256 * acc + v[i];
      i := i + 1;
    }
    assert v[..|v|] == v;
    return Ok(acc);
  }

  /** The accumulator loop both unsigned readers share. */
  method Accumulate(v: seq<Octet>) returns (acc: U64)
    requires |v| <= 8 || (|v| == 9 && v[0] == 0)
    ensures acc == FromBE(v)
  {
    acc := 0;
    var i := 0;
    while i < |v|
      invariant 0 <= i <= |v| && acc == FromBE(v[..i])
    {
      FromBESnoc(v, i);
      UnsignedInU64(v[..i + 1]);
      acc := 256 * acc + v[i];
      i := i + 1;
    }
    assert v[..|v|] == v;
  }

  /** `unsigned_u64`. */
  method UnsignedU64(t: Tlv) returns (r: Result<U64>)
    ensures r == ReadUnsigned(t.value, t.valueOffset)
  {
    var v := t.value;
    if v == [] {
      return Err(Decode(BadValue, t.valueOffset));
    }
    var first := v[0];
    if |v| > 9 || (|v| == 9 && first != 0) || first >= 128 {
      return Err(Decode(BadValue, t.valueOffset));
    }
    var acc := Accumulate(v);
    return Ok(acc);
  }

  /** `unsigned_lenient_u64`. */
  method UnsignedLenientU64(t: Tlv) returns (r: Result<U64>)
    ensures r == ReadLenient(t.value, t.valueOffset)
  {
    var v := t.value;
    if |v| == 9 && v[0] == 0 {
      FromBEHead(v);
      v := v[1..];
    } else if v == [] || |v| > 8 {
      return Err(Decode(BadValue, t.valueOffset));
    }
    var acc := Accumulate(v);
    return Ok(acc);
  }

  // ---- where the elements of a buffer are ----

  /** Everything a cursor yields before the end or the first error. */
  function Elements(s: seq<Octet>, base: nat): (seq<Tlv>, Option<Error>)
    decreases |s|
  {
    if s == [] then ([], None)
    else
      match ReadElement(s, base)
      case Err(e) => ([], Some(e))
      case Ok((t, n)) =>
        ReadElementFaithful(s, base);
        var (rest, e) := Elements(s[n..], base + n);
        ([t] + rest, e)
  }

  /** `t` is where it says it is in `outer`. */
  predicate InPlace(t: Tlv, outer: seq<Octet>) {
    t.offset < t.valueOffset && t.valueOffset + |t.value| <= |outer|
    && outer[t.valueOffset..t.valueOffset + |t.value|] == t.value
  }

  /** Elements that follow one another from `from` to `to` without gap or overlap. */
  predicate Tile(ts: seq<Tlv>, from: nat, to: nat) {
    if ts == [] then from == to
    else ts[0].offset == from && ts[0].TotalLen() > 0 && Tile(ts[1..], from + ts[0].TotalLen(), to)
  }

  lemma SliceOfSlice(outer: seq<Octet>, base: nat, s: seq<Octet>, from: nat, to: nat)
    requires base + |s| <= |outer| && outer[base..base + |s|] == s && from <= to <= |s|
    ensures outer[base + from..base + to] == s[from..to]
  {
    forall k | 0 <= k < to - from
      ensures outer[base + from..base + to][k] == s[from..to][k]
    {
      assert outer[base..base + |s|][from + k] == outer[base + from + k];
    }
  }

  /** Siblings tile the contents they stand in: all of them when there is no error, otherwise all
      before the first one. */
  lemma {:induction false} ElementsTile(s: seq<Octet>, base: nat)
    ensures var (ts, e) := Elements(s, base);
            && (e == None ==> Tile(ts, base, base + |s|))
            && (e != None ==> exists to :: base <= to < base + |s| && Tile(ts, base, to))
    decreases |s|
  {
    hide ReadElement;
    if s != [] {
      var (ts, e) := Elements(s, base);
      if ReadElement(s, base).Err? {
        assert Tile(ts, base, base);
      } else {
        var (t, n) := ReadElement(s, base).value;
        ReadElementFaithful(s, base);
        ElementsTile(s[n..], base + n);
        assert ts[1..] == Elements(s[n..], base + n).0;
        if e != None {
          var to :| base + n <= to < base + |s| && Tile(ts[1..], base + n, to);
          assert Tile(ts, base, to);
        }
      }
    }
  }

  /** Every element is in place in the outermost buffer, inside the contents it was read from. */
  lemma {:induction false} ElementsInPlace(s: seq<Octet>, base: nat, outer: seq<Octet>)
    requires base + |s| <= |outer| && outer[base..base + |s|] == s
    ensures forall t <- Elements(s, base).0 ::
              InPlace(t, outer) && base <= t.offset && t.valueOffset + |t.value| <= base + |s|
    decreases |s|
  {
    hide ReadElement;
    if s != [] && ReadElement(s, base).Ok? {
      var (t, n) := ReadElement(s, base).value;
      ReadElementFaithful(s, base);
      SliceOfSlice(outer, base, s, t.valueOffset - base, n);
      SliceOfSlice(outer, base, s, n, |s|);
      assert s[n..|s|] == s[n..];
      ElementsInPlace(s[n..], base + n, outer);
    }
  }

  /** `t` is reached from the contents `s` at `base` by picking the `path[0]`-th element, then the
      `path[1]`-th of its children, and so on. */
  predicate Reached(s: seq<Octet>, base: nat, path: seq<nat>, t: Tlv)
    decreases |path|
  {
    path != []
    && var (ts, _) := Elements(s, base);
       && path[0] < |ts|
       && if |path| == 1 then t == ts[path[0]]
          else Reached(ts[path[0]].value, ts[path[0]].valueOffset, path[1..], t)
  }

  /** Offsets are faithful at every depth: an element reached through any chain of children holds
      exactly the octets of the outermost buffer at its `valueOffset`. */
  lemma {:induction false} OffsetsFaithful(outer: seq<Octet>, s: seq<Octet>, base: nat, path: seq<nat>, t: Tlv)
    requires base + |s| <= |outer| && outer[base..base + |s|] == s
    requires Reached(s, base, path, t)
    ensures InPlace(t, outer)
    decreases |path|
  {
    ElementsInPlace(s, base, outer);
    var (ts, _) := Elements(s, base);
    var parent := ts[path[0]];
    assert parent in ts;
    if |path| > 1 {
      OffsetsFaithful(outer, parent.value, parent.valueOffset, path[1..], t);
    }
  }

  /** Iterating a cursor to its end yields exactly `Elements`, and always ends. */
  method Drain(c: Cursor) returns (ts: seq<Tlv>, failure: Option<Error>)
    requires c.Valid()
    modifies c
    ensures ts == Elements(old(c.Rest()), old(c.At())).0
    ensures failure == Elements(old(c.Rest()), old(c.At())).1
    ensures c.Valid() && c.Rest() == []
  {
    hide ReadElement;
    ts, failure := [], None;
    ghost var all := Elements(c.Rest(), c.At());
    while true
      invariant c.Valid() && failure == None
      invariant all.0 == ts + Elements(c.Rest(), c.At()).0 && all.1 == Elements(c.Rest(), c.At()).1
      decreases |c.buf| - c.pos
    {
      ghost var s, at := c.Rest(), c.At();
      var n := c.Next();
      match n {
        case None => return;
        case Some(Err(e)) => failure := Some(e); return;
        case Some(Ok(t)) =>
          assert Elements(s, at).0 == [t] + Elements(c.Rest(), c.At()).0;
          ts := ts + [t];
      }
    }
  }
}
