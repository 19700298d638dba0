/** What the liberal reader makes of octets, type by type and identifier octet by identifier octet, also
    of those the writer never writes: any accepted form of a length, redundant octets, any true. */
module DataReading {
  import opened Common
  import opened Octets
  import opened Ber
  import opened BerInteger
  import opened Time
  import opened Data
  import opened DataProofs

  // ---- identifiers and lengths ----

  /** The accepted forms of a length below 2^32: one octet below 128, or a count of one to four octets and
      those octets, most significant first, leading zeros or not. */
  predicate LengthForm(l: seq<Octet>, n: nat) {
    || (|l| == 1 && l[0] == n && n < 128)
    || (2 <= |l| <= 5 && l[0] == 127 + |l| && FromBE(l[1..]) == n)
  }

  /** The reader accepts exactly these forms. */
  lemma LengthFormsExactly(s: seq<Octet>, at: nat, n: nat, k: nat)
    ensures ReadLength(s, at) == Ok((n, k)) <==> 1 <= k <= |s| && LengthForm(s[..k], n)
  {
    hide FromBE;
    if s != [] && s[0] >= 0x80 {
      LongFormCount(s[0]);
      if 1 <= k <= |s| {
        assert s[..k][0] == s[0] && s[..k][1..] == s[1..k];
      }
    }
  }

  /** The number seven-bit groups stand for, most significant first. */
  function GroupsValue(s: seq<Octet>): nat {
    if s == [] then 0 else 128 * GroupsValue(s[..|s| - 1]) + s[|s| - 1] % 128
  }

  /** Groups that go on, each with its top bit set, and the first not empty. */
  predicate GoOn(s: seq<Octet>) {
    (forall i :: 0 <= i < |s| ==> s[i] >= 128) && (s != [] ==> s[0] > 128)
  }

  lemma {:induction false} GroupsAre(n: nat)
    ensures GoOn(Groups(n)) && GroupsValue(Groups(n)) == n
  {
    hide Groups, GroupsValue, GoOn;
    NoGroups();
    if n > 0 {
      GroupsAre(n / 128);
      GroupsLast(n);
      GroupsValueSnoc(Groups(n / 128), 128 + n % 128);
      if n < 128 {
        OnlyGroup(n);
      } else {
        OneMoreGroup(Groups(n / 128), 128 + n % 128);
      }
    }
  }

  lemma NoGroups()
    ensures Groups(0) == [] && GroupsValue([]) == 0 && GoOn([])
  {
  }

  lemma OnlyGroup(n: nat)
    requires 0 < n < 128
    ensures Groups(n) == [128 + n] && GoOn([128 + n])
  {
    NoGroups();
  }

  lemma OneMoreGroup(s: seq<Octet>, b: Octet)
    requires GoOn(s) && s != [] && b >= 128
    ensures GoOn(s + [b])
  {
  }

  /** The identifier octets of a tag: class, form and number in the first, a number past 30 in base 128. */
  lemma IdentifierIs(t: Tag)
    ensures var o := TagOctets(t);
            var cls := if t.cls.Universal? then 0 else if t.cls.Application? then 64 else if t.cls.Context? then 128
                       else 192;
            && o[0] == cls + (if t.constructed then 32 else 0) + (if t.number < 31 then t.number else 31)
            && (t.number < 31 ==> |o| == 1)
            && (t.number >= 31
                ==> |o| >= 2 && GoOn(o[1..|o| - 1]) && o[|o| - 1] < 128 && GroupsValue(o[1..]) == t.number)
  {
    hide Groups, GroupsValue;
    if t.number >= 31 {
      LongIdentifier(t.number / 128, t.number % 128);
      assert TagOctets(t)[1..] == Base128(t.number);
      assert TagOctets(t)[1..|TagOctets(t)| - 1] == Groups(t.number / 128);
    }
  }

  lemma LongIdentifier(high: nat, low: nat)
    requires low < 128
    ensures GoOn(Groups(high)) && GroupsValue(Groups(high) + [low]) == 128 * high + low
  {
    hide Groups, GroupsValue, GoOn;
    GroupsAre(high);
    GroupsValueSnoc(Groups(high), low);
  }

  lemma GroupsValueSnoc(s: seq<Octet>, b: Octet)
    ensures GroupsValue(s + [b]) == 128 * GroupsValue(s) + b % 128
  {
    assert (s + [b])[..|s|] == s;
  }

  /** One identifier octet of the context class, below the long form. */
  lemma ShortIdentifier(number: nat, constructed: bool, rest: seq<Octet>)
    requires number < 31
    ensures ReadTag([128 + (if constructed then 32 else 0) + number] + rest, 0)
            == Ok((Tag(Context, constructed, number), 1))
  {
  }

  // ---- one element ----

  /** An element with that identifier octet, that form of its length and those contents. */
  function Framed(id: Octet, l: seq<Octet>, c: seq<Octet>): seq<Octet> {
    [id] + l + c
  }

  lemma FramedReads(number: nat, constructed: bool, l: seq<Octet>, c: seq<Octet>)
    requires number < 31 && LengthForm(l, |c|)
    ensures var s := Framed(128 + (if constructed then 32 else 0) + number, l, c);
            ReadElement(s, 0) == Ok((Tlv(Tag(Context, constructed, number), c, 0, 1 + |l|), |s|))
  {
    hide LengthForm, ReadTag, ReadLength;
    var s := Framed(128 + (if constructed then 32 else 0) + number, l, c);
    ShortIdentifier(number, constructed, l + c);
    assert s == [128 + (if constructed then 32 else 0) + number] + (l + c) && s[1..] == l + c;
    LengthFormNotEmpty(l, |c|);
    assert s[1..][..|l|] == l;
    LengthFormsExactly(s[1..], 1, |c|, |l|);
    assert s[1 + |l|..1 + |l| + |c|] == c;
  }

  lemma LengthFormNotEmpty(l: seq<Octet>, n: nat)
    requires LengthForm(l, n)
    ensures l != [] && n < 0x1_0000_0000
  {
    if |l| > 1 {
      Pow256Values();
      FromBEBound(l[1..]);
      Pow256Mono(|l| - 1, 4);
    }
  }

  /** A buffer of one primitive element is decoded as that scalar, or refused, and nothing else. */
  lemma OneScalar(number: nat, l: seq<Octet>, c: seq<Octet>, limits: Limits)
    requires number < 31 && LengthForm(l, |c|) && limits.maxDatasetMembers >= 1
    ensures var scalar := ScalarOf(Tlv(Tag(Context, false, number), c, 0, 1 + |l|));
            DecodeAll(Framed(128 + number, l, c), limits)
            == if scalar.Err? then Err(scalar.error)
               else if CheckedLen(scalar.value) > limits.maxPrimitiveLen then
                 Err(LimitExceeded(MaxPrimitiveLen, CheckedLen(scalar.value)))
               else Ok([scalar.value])
  {
    hide LengthForm, ReadElement, ScalarOf, CheckedLen;
    FramedReads(number, false, l, c);
    OneRead(Framed(128 + number, l, c), Tlv(Tag(Context, false, number), c, 0, 1 + |l|), limits);
  }

  /** The loop over a buffer of one primitive element. */
  lemma OneRead(s: seq<Octet>, t: Tlv, limits: Limits)
    requires s != [] && ReadElement(s, 0) == Ok((t, |s|)) && t.tag.cls == Context && !t.tag.constructed
    requires limits.maxDatasetMembers >= 1
    ensures DecodeAll(s, limits)
            == var scalar := ScalarOf(t);
               if scalar.Err? then Err(scalar.error)
               else var owned := Owned(Scalar(scalar.value), limits, 0);
                    if owned.Err? then Err(owned.error) else Ok([owned.value])
  {
    hide ReadElement, ScalarOf, Owned;
    hide ViewOf;
    ScalarView(t);
    assert s[|s|..] == [] && Collected(s[|s|..], 0 + |s|, limits, 0, 0 + 1) == Ok([]);
    if ViewOf(t).Ok? {
      CollectedStep(s, 0, t, |s|, ViewOf(t).value, limits, 0, 0);
      var owned := Owned(ViewOf(t).value, limits, 0);
      assert owned.Ok? ==> [owned.value] + [] == [owned.value];
    }
  }

  lemma ScalarView(t: Tlv)
    requires t.tag.cls == Context && !t.tag.constructed
    ensures ViewOf(t) == if ScalarOf(t).Ok? then Ok(Scalar(ScalarOf(t).value)) else Err(ScalarOf(t).error)
  {
    hide ScalarOf;
  }

  // ---- type by type ----

  /** A boolean is one octet, and any but zero is true. */
  lemma BooleanReads(l: seq<Octet>, c: seq<Octet>, limits: Limits)
    requires LengthForm(l, |c|) && limits.maxDatasetMembers >= 1
    ensures var r := DecodeAll(Framed(0x83, l, c), limits);
            (r.Ok? <==> |c| == 1) && (|c| == 1 ==> r == Ok([Boolean(c[0] != 0)]))
  {
    hide LengthForm, DecodeAll;
    OneScalar(3, l, c, limits);
  }

  /** An integer is one to eight octets of two's complement, redundant ones included. */
  lemma IntegerReads(l: seq<Octet>, c: seq<Octet>, limits: Limits)
    requires LengthForm(l, |c|) && limits.maxDatasetMembers >= 1
    ensures var r := DecodeAll(Framed(0x85, l, c), limits);
            && (r.Ok? <==> 1 <= |c| <= 8)
            && (1 <= |c| <= 8 ==>
                  var v := if c[0] >= 128 then FromBE(c) - Pow256(|c|) else FromBE(c);
                  -0x8000_0000_0000_0000 <= v < 0x8000_0000_0000_0000 && r == Ok([Integer(v)]))
  {
    hide LengthForm, DecodeAll;
    OneScalar(5, l, c, limits);
    if 1 <= |c| <= 8 {
      SignedInI64(c);
    }
  }

  /** An unsigned integer is one to eight octets whatever their top bit, or nine with a leading zero. */
  lemma UnsignedReads(l: seq<Octet>, c: seq<Octet>, limits: Limits)
    requires LengthForm(l, |c|) && limits.maxDatasetMembers >= 1
    ensures var r, fine := DecodeAll(Framed(0x86, l, c), limits), c != [] && (|c| <= 8 || (|c| == 9 && c[0] == 0));
            && (r.Ok? <==> fine)
            && (fine ==> FromBE(c) < 0x1_0000_0000_0000_0000 && r == Ok([Unsigned(FromBE(c))]))
  {
    hide LengthForm, DecodeAll;
    OneScalar(6, l, c, limits);
    if c != [] && (|c| <= 8 || (|c| == 9 && c[0] == 0)) {
      UnsignedInU64(c);
    }
  }

  /** A float is the width of its exponent, 8 or 11, and four or eight octets of it. */
  lemma FloatReads(l: seq<Octet>, c: seq<Octet>, limits: Limits)
    requires LengthForm(l, |c|) && limits.maxDatasetMembers >= 1
    ensures var r := DecodeAll(Framed(0x87, l, c), limits);
            && (r.Ok? <==> (|c| == 5 && c[0] == 8) || (|c| == 9 && c[0] == 11))
            && (|c| == 5 && c[0] == 8 ==> FromBE(c[1..]) < 0x1_0000_0000 && r == Ok([Float32(FromBE(c[1..]))]))
            && (|c| == 9 && c[0] == 11 ==>
                  FromBE(c[1..]) < 0x1_0000_0000_0000_0000 && r == Ok([Float64(FromBE(c[1..]))]))
  {
    hide LengthForm, DecodeAll;
    OneScalar(7, l, c, limits);
    if c != [] {
      FromBEBound(c[1..]);
    }
    Pow256Values();
  }

  /** A bit string is a count of unused bits, at most seven and none without an octet, and its octets. */
  lemma BitStringReads(l: seq<Octet>, c: seq<Octet>, limits: Limits)
    requires LengthForm(l, |c|) && limits.maxDatasetMembers >= 1
    ensures var r := DecodeAll(Framed(0x84, l, c), limits);
            && (r.Ok? <==> c != [] && c[0] <= 7 && (c[0] > 0 ==> |c| > 1) && |c| - 1 <= limits.maxPrimitiveLen)
            && (r.Ok? ==> r == Ok([BitString(c[0], c[1..])]))
  {
    hide LengthForm, DecodeAll;
    OneScalar(4, l, c, limits);
  }

  /** The four types that are their octets: any, all below 128, any, or UTF-8. */
  lemma StringsRead(l: seq<Octet>, c: seq<Octet>, limits: Limits)
    requires LengthForm(l, |c|) && limits.maxDatasetMembers >= 1
    ensures var r, short := DecodeAll(Framed(0x89, l, c), limits), |c| <= limits.maxPrimitiveLen;
            (r.Ok? <==> short) && (r.Ok? ==> r == Ok([OctetString(c)]))
    ensures var r, short := DecodeAll(Framed(0x8A, l, c), limits), |c| <= limits.maxPrimitiveLen;
            (r.Ok? <==> short && forall i :: 0 <= i < |c| ==> c[i] < 128) && (r.Ok? ==> r == Ok([VisibleString(c)]))
    ensures var r, short := DecodeAll(Framed(0x8C, l, c), limits), |c| <= limits.maxPrimitiveLen;
            (r.Ok? <==> short) && (r.Ok? ==> r == Ok([BinaryTime(c)]))
    ensures var r, short := DecodeAll(Framed(0x90, l, c), limits), |c| <= limits.maxPrimitiveLen;
            (r.Ok? <==> short && IsUtf8(c)) && (r.Ok? ==> r == Ok([MmsString(c)]))
  {
    hide LengthForm, DecodeAll, IsUtf8;
    OneScalar(9, l, c, limits);
    OneScalar(10, l, c, limits);
    OneScalar(12, l, c, limits);
    OneScalar(16, l, c, limits);
    if IsAscii(c) {
      AsciiIsUtf8(c);
    }
  }

  /** Three and four octets as one number, most significant first. */
  function Number3(a: int, b: int, c: int): int {
    0x1_0000 * a + 0x100 * b + c
  }

  function Number4(a: int, b: int, c: int, d: int): int {
    0x100_0000 * a + Number3(b, c, d)
  }

  /** A timestamp is eight octets: seconds, a 24-bit fraction, three flags and an accuracy. */
  lemma TimestampReads(l: seq<Octet>, c: seq<Octet>, limits: Limits)
    requires LengthForm(l, |c|) && limits.maxDatasetMembers >= 1
    ensures var r := DecodeAll(Framed(0x91, l, c), limits);
            && (r.Ok? <==> |c| == 8)
            && (r.Ok? ==>
                  && |r.value| == 1 && r.value[0].Utc?
                  && var t := r.value[0].t;
                     && t.seconds == Number4(c[0], c[1], c[2], c[3])
                     && t.fraction == Number3(c[4], c[5], c[6])
                     && (t.quality.leapSecondsKnown <==> c[7] >= 128)
                     && (t.quality.clockFailure <==> c[7] % 128 >= 64)
                     && (t.quality.clockNotSynchronized <==> c[7] % 64 >= 32)
                     && t.quality.accuracy == c[7] % 32)
  {
    hide LengthForm, DecodeAll, UtcTime.FromOctets;
    OneScalar(17, l, c, limits);
    if |c| == 8 {
      TimestampLayout(c);
    }
  }

  lemma TimestampLayout(c: seq<Octet>)
    requires |c| == 8
    ensures var t := UtcTime.FromOctets(c);
            && t.seconds == Number4(c[0], c[1], c[2], c[3])
            && t.fraction == Number3(c[4], c[5], c[6])
            && (t.quality.leapSecondsKnown <==> c[7] >= 128)
            && (t.quality.clockFailure <==> c[7] % 128 >= 64)
            && (t.quality.clockNotSynchronized <==> c[7] % 64 >= 32)
            && t.quality.accuracy == c[7] % 32
  {
    hide TimeQuality.FromOctet, FromBE;
    FourOctets(c[..4]);
    ThreeOctets(c[4..7]);
    FlagsOf(c[7]);
  }

  lemma FlagsOf(b: Octet)
    ensures var q := TimeQuality.FromOctet(b);
            && (q.leapSecondsKnown <==> b >= 128) && (q.clockFailure <==> b % 128 >= 64)
            && (q.clockNotSynchronized <==> b % 64 >= 32) && q.accuracy == b % 32
  {
  }

  lemma ThreeOctets(s: seq<Octet>)
    requires |s| == 3
    ensures FromBE(s) == Number3(s[0], s[1], s[2])
  {
    assert s[..2][..1] == s[..1] && s[..1][..0] == [];
    assert FromBE(s[..1]) == s[0];
  }

  lemma FourOctets(s: seq<Octet>)
    requires |s| == 4
    ensures FromBE(s) == Number4(s[0], s[1], s[2], s[3])
  {
    ThreeOctets(s[..3]);
  }

  /** The six octets of an entry time: milliseconds of the day, then days. */
  lemma EntryTimeLayout(c: seq<Octet>)
    requires |c| == 6
    ensures var t := EntryTime.FromOctets(c);
            t.millisOfDay == Number4(c[0], c[1], c[2], c[3]) && t.daysSince1984 == Number3(0, c[4], c[5])
  {
    FourOctets(c[..4]);
    TwoOctets(c[4..]);
  }

  lemma TwoOctets(s: seq<Octet>)
    requires |s| == 2
    ensures FromBE(s) == Number3(0, s[0], s[1])
  {
    assert s[..1][..0] == [] && FromBE(s[..1]) == s[0];
  }

  /** A primitive of any other number is kept as it is. */
  lemma OthersRead(number: nat, l: seq<Octet>, c: seq<Octet>, limits: Limits)
    requires number < 31 && number !in {3, 4, 5, 6, 7, 9, 10, 12, 16, 17}
    requires LengthForm(l, |c|) && limits.maxDatasetMembers >= 1
    ensures var r := DecodeAll(Framed(128 + number, l, c), limits);
            (r.Ok? <==> |c| <= limits.maxPrimitiveLen) && (r.Ok? ==> r == Ok([Other(number, false, c)]))
  {
    hide LengthForm, DecodeAll;
    OneScalar(number, l, c, limits);
  }

  // ---- type by type, written ----

  /** The identifier octet each type is written under. */
  lemma WrittenUnder(v: Value)
    requires Encodable(v) && !v.Other?
    ensures Encoding(v)[0]
            == match v
               case Array(_) => 0xA1
               case Structure(_) => 0xA2
               case Boolean(_) => 0x83
               case BitString(_, _) => 0x84
               case Integer(_) => 0x85
               case Unsigned(_) => 0x86
               case Float32(_) => 0x87
               case Float64(_) => 0x87
               case OctetString(_) => 0x89
               case VisibleString(_) => 0x8A
               case BinaryTime(_) => 0x8C
               case MmsString(_) => 0x90
               case Utc(_) => 0x91
  {
    hide Encodable, Contents, LengthOctets;
    IdentifierIs(TagOf(v));
  }

  /** What is written of a boolean: one octet, 1 or 0. */
  lemma BooleanWritten(b: bool)
    ensures Encoding(Boolean(b)) == [0x83, 0x01, if b then 0x01 else 0x00]
  {
    assert TagOctets(ContextTag(BOOLEAN)) == [0x83] && LengthOctets(1) == [1];
  }
}
