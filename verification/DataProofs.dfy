/** The two laws of the `Data` codec: what is written is read back exactly when it fits the
    limits, and whatever is read can be written again and then read back the same. */
module DataProofs {
  import opened Common
  import opened Octets
  import opened Ber
  import opened BerInteger
  import opened Time
  import opened Data

  // ---- one scalar ----

  /** A scalar's payload, read under its own tag, is that scalar. */
  lemma ScalarRoundTrip(v: Value, at: nat, offset: nat)
    requires !Container(v) && Encodable(v) && WellFormed(v)
    ensures ViewOf(Tlv(TagOf(v), Payload(v), offset, at)) == Ok(Scalar(v))
  {
    var t := Tlv(TagOf(v), Payload(v), offset, at);
    match v
    case Integer(i) => IntegerExactAndMinimal(i, at);
    case Unsigned(u) => UnsignedExactAndMinimal(u, at);
    case Float32(bits) =>
      Pow256Values();
      FromToBE(bits, 4);
      assert Payload(v)[1..] == ToBE(bits, 4);
    case Float64(bits) =>
      Pow256Values();
      FromToBE(bits, 8);
      assert Payload(v)[1..] == ToBE(bits, 8);
    case VisibleString(bytes) => AsciiIsUtf8(bytes);
    case Utc(time) => UtcTimeRoundTrip(time);
    case BitString(unused, bytes) => assert Payload(v)[1..] == bytes;
    case _ =>
  }

  /** A scalar read from any octets is well formed, keeps its tag, and costs at most twice the
      contents it came from to write back. */
  lemma ScalarFacts(t: Tlv)
    requires t.tag.cls == Context && ScalarOf(t).Ok? && 2 * |t.value| < MAX_CONTENTS
    requires !(t.tag.constructed && (t.tag.number == ARRAY || t.tag.number == STRUCTURE))
    ensures var v := ScalarOf(t).value;
            && !Container(v) && TagOf(v) == t.tag
            && WellFormed(v) && Encodable(v) && |Payload(v)| <= 2 * |t.value|
  {
    var v := ScalarOf(t).value;
    match v
    case Integer(i) => IntegerExactAndMinimal(i, t.valueOffset);
    case Unsigned(u) => LenientCost(t.value, t.valueOffset);
    case _ =>
  }

  // ---- decode after encode ----

  /** Reading back a value's own octets: the value, if it is inside the limits, and otherwise a
      limit error and nothing else. */
  lemma {:induction false} OwnedOfEncoding(v: Value, offset: nat, at: nat, limits: Limits, depth: nat)
    requires Encodable(v) && WellFormed(v)
    ensures var view := ViewOf(Tlv(TagOf(v), Contents(v), offset, at));
            && view.Ok?
            && var r := Owned(view.value, limits, depth);
               if Within(v, limits, depth) then r == Ok(v) else r.Err? && r.error.LimitExceeded?
    decreases v, 1
  {
    hide ScalarOf, Collected, EncodingAll, AllEncodable, AllWellFormed, AllWithin, Payload;
    if Container(v) {
      CollectedOfEncoding(v.members, at, limits, depth + 1, 0);
    } else {
      ScalarRoundTrip(v, at, offset);
    }
  }

  /** One round of the loop over a list. */
  lemma CollectedStep(s: seq<Octet>, base: nat, t: Tlv, k: nat, view: DataView, limits: Limits, depth: nat, n: nat)
    requires s != [] && k <= |s| && ReadElement(s, base) == Ok((t, k)) && ViewOf(t) == Ok(view)
    ensures Collected(s, base, limits, depth, n)
         == if n >= limits.maxDatasetMembers then Err(LimitExceeded(MaxDatasetMembers, n + 1))
            else
              match Owned(view, limits, depth) {
                case Err(e) => Err(e)
                case Ok(v) =>
                  match Collected(s[k..], base + k, limits, depth, n + 1)
                  case Err(e) => Err(e)
                  case Ok(vs) => Ok([v] + vs)
              }
  {
    hide ReadElement, ViewOf, Owned;
  }

  lemma {:induction false} CollectedOfEncoding(vs: seq<Value>, base: nat, limits: Limits, depth: nat, n: nat)
    requires AllEncodable(vs) && AllWellFormed(vs)
    ensures var r := Collected(EncodingAll(vs), base, limits, depth, n);
            if (vs == [] || n + |vs| <= limits.maxDatasetMembers) && AllWithin(vs, limits, depth)
            then r == Ok(vs) else r.Err? && r.error.LimitExceeded?
    decreases vs, 1
  {
    if vs != [] {
      CollectedOfCons(vs, base, limits, depth, n);
    }
  }

  lemma {:induction false} CollectedOfCons(vs: seq<Value>, base: nat, limits: Limits, depth: nat, n: nat)
    requires vs != [] && AllEncodable(vs) && AllWellFormed(vs)
    ensures var r := Collected(EncodingAll(vs), base, limits, depth, n);
            if n + |vs| <= limits.maxDatasetMembers && AllWithin(vs, limits, depth)
            then r == Ok(vs) else r.Err? && r.error.LimitExceeded?
    decreases vs, 0
  {
    hide Collected, ReadElement, ViewOf, Owned, Within, WellFormed, TagOctets, LengthOctets, TagOf, Encodable, Contents;
    var v, rest := vs[0], EncodingAll(vs[1..]);
    var e, s := Encoding(v), EncodingAll(vs);
    var at := base + |TagOctets(TagOf(v))| + |LengthOctets(|Contents(v)|)|;
    ReadElementOfElement(TagOf(v), Contents(v), rest, base);
    assert s[|e|..] == rest;
    OwnedOfEncoding(v, base, at, limits, depth);
    var t := Tlv(TagOf(v), Contents(v), base, at);
    CollectedStep(s, base, t, |e|, ViewOf(t).value, limits, depth, n);
    CollectedOfEncoding(vs[1..], base + |e|, limits, depth, n + 1);
    assert vs == [v] + vs[1..];
  }

  /** Round trip with exact limits. */
  lemma RoundTripExactLimits(vs: seq<Value>, limits: Limits)
    requires AllEncodable(vs) && AllWellFormed(vs)
    ensures DecodeAll(EncodingAll(vs), limits) == Ok(vs) <==> Fits(vs, limits)
    ensures !Fits(vs, limits) ==>
              var r := DecodeAll(EncodingAll(vs), limits); r.Err? && r.error.LimitExceeded?
  {
    CollectedOfEncoding(vs, 0, limits, 0, 0);
  }

  // ---- encode after decode ----

  /** How many octets a definite length takes, by its size. */
  lemma LengthSize(len: nat)
    requires len < MAX_CONTENTS
    ensures |LengthOctets(len)|
         == if len < 0x80 then 1 else if len < 0x100 then 2 else if len < 0x1_0000 then 3
                                                                 else if len < 0x100_0000 then 4 else 5
  {
    if len >= 0x80 {
      Pow256Values();
      FromToBE(len, 4);
      var b := SkipZeros(ToBE(len, 4));
      SkipZerosValue(ToBE(len, 4));
      FromBEBound(b);
      FromBEHead(b);
      MulMono(1, b[0], Pow256(|b| - 1));
    }
  }

  /** Contents at most twice as long make an element at most twice as long. */
  lemma ElementCost(tag: Tag, c: seq<Octet>, d: seq<Octet>)
    requires |d| <= 2 * |c| && 2 * |c| < MAX_CONTENTS
    ensures |Element(tag, d)| <= 2 * |Element(tag, c)|
  {
    LengthSize(|c|);
    LengthSize(|d|);
  }

  /** What acceptance of one element says about the value that came out. */
  lemma {:induction false} OwnedFacts(t: Tlv, limits: Limits, depth: nat)
    requires ViewOf(t).Ok? && Owned(ViewOf(t).value, limits, depth).Ok? && 2 * |t.value| < MAX_CONTENTS
    ensures var v := Owned(ViewOf(t).value, limits, depth).value;
            && WellFormed(v) && Within(v, limits, depth)
            && TagOf(v) == t.tag
            && Encodable(v) && |Contents(v)| <= 2 * |t.value|
    decreases |t.value|, 1
  {
    match ViewOf(t).value
    case Members(isArray, contents, base) => CollectedFacts(contents, base, limits, depth + 1, 0);
    case Scalar(v) => ScalarFacts(t);
  }

  lemma {:induction false} CollectedFacts(s: seq<Octet>, base: nat, limits: Limits, depth: nat, n: nat)
    requires Collected(s, base, limits, depth, n).Ok? && 2 * |s| < MAX_CONTENTS
    ensures var vs := Collected(s, base, limits, depth, n).value;
            && (vs == [] || n + |vs| <= limits.maxDatasetMembers)
            && AllWellFormed(vs) && AllWithin(vs, limits, depth)
            && AllEncodable(vs) && |EncodingAll(vs)| <= 2 * |s|
    decreases |s|, 0
  {
    hide ReadElement, ViewOf, Owned, Within, WellFormed, Element, Encodable, Encoding, Contents;
    if s != [] {
      var (t, k) := ReadElement(s, base).value;
      ReadElementFaithful(s, base);
      OwnedFacts(t, limits, depth);
      CollectedFacts(s[k..], base + k, limits, depth, n + 1);
      CollectedConsFacts(s, base, t, k, limits, depth, n);
    }
  }

  lemma CollectedConsFacts(s: seq<Octet>, base: nat, t: Tlv, k: nat, limits: Limits, depth: nat, n: nat)
    requires s != [] && ReadElement(s, base) == Ok((t, k)) && n < limits.maxDatasetMembers
    requires 2 * |t.value| < MAX_CONTENTS && |Element(t.tag, t.value)| <= k <= |s|
    requires ViewOf(t).Ok? && Owned(ViewOf(t).value, limits, depth).Ok?
    requires var v := Owned(ViewOf(t).value, limits, depth).value;
             && WellFormed(v) && Within(v, limits, depth) && TagOf(v) == t.tag
             && Encodable(v) && |Contents(v)| <= 2 * |t.value|
    requires Collected(s[k..], base + k, limits, depth, n + 1).Ok?
    requires var vs := Collected(s[k..], base + k, limits, depth, n + 1).value;
             && (vs == [] || n + 1 + |vs| <= limits.maxDatasetMembers)
             && AllWellFormed(vs) && AllWithin(vs, limits, depth)
             && AllEncodable(vs) && |EncodingAll(vs)| <= 2 * |s[k..]|
    ensures Collected(s, base, limits, depth, n).Ok?
    ensures var vs := Collected(s, base, limits, depth, n).value;
            && n + |vs| <= limits.maxDatasetMembers
            && AllWellFormed(vs) && AllWithin(vs, limits, depth)
            && AllEncodable(vs) && |EncodingAll(vs)| <= 2 * |s|
  {
    hide Collected, ReadElement, ViewOf, Owned, Within, WellFormed, Element, TagOf, Encodable, Contents;
    var v, rest := Owned(ViewOf(t).value, limits, depth).value, Collected(s[k..], base + k, limits, depth, n + 1).value;
    CollectedStep(s, base, t, k, ViewOf(t).value, limits, depth, n);
    ElementCost(t.tag, t.value, Contents(v));
    assert ([v] + rest)[1..] == rest;
  }

  /** Re-encoding is a fixed point: whatever octets the decoder accepts, the values it makes of
      them can be written, in at most twice the room, and decode to themselves. */
  lemma ReencodingIsAFixedPoint(b: seq<Octet>, limits: Limits)
    requires |b| < 0x8000_0000
    requires DecodeAll(b, limits).Ok?
    ensures var vs := DecodeAll(b, limits).value;
            && AllEncodable(vs)
            && |EncodingAll(vs)| <= 2 * |b|
            && DecodeAll(EncodingAll(vs), limits) == Ok(vs)
  {
    CollectedFacts(b, 0, limits, 0, 0);
    RoundTripExactLimits(DecodeAll(b, limits).value, limits);
  }
}
