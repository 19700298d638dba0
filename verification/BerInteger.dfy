/** INTEGER contents octets (ITU-T X.690 section 8.3): minimal, exact, and read back by the
    strict and the lenient reader. */
module BerInteger {
  import opened Common
  import opened Octets

  /** A first octet that only repeats the sign bit of the second. */
  predicate Redundant(a: Octet, b: Octet) {
    (a == 0 && b < 128) || (a == 255 && b >= 128)
  }

  /** Two's-complement octets without redundant leading ones. */
  function Trim(s: seq<Octet>): (r: seq<Octet>)
    ensures |r| <= |s| && (s != [] ==> r != [])
  {
    if |s| > 1 && Redundant(s[0], s[1]) then Trim(s[1..]) else s
  }

  function IntegerOctets(v: I64): seq<Octet> {
    Trim(ToBE(if v < 0 then v + TWO_POW_64 else v, 8))
  }

  function UnsignedOctets(v: U64): seq<Octet> {
    Trim([0] + ToBE(v, 8))
  }

  /** `integer_i64`: one to eight contents octets. */
  function ReadInteger(s: seq<Octet>, at: nat): Result<I64> {
    if s == [] || |s| > 8 then Err(Decode(BadValue, at))
    else
      SignedInI64(s);
      Ok(SignedBE(s))
  }

  /** `unsigned_u64`: the strict reader. */
  function ReadUnsigned(s: seq<Octet>, at: nat): Result<U64> {
    if s == [] || |s| > 9 || (|s| == 9 && s[0] != 0) || s[0] >= 128 then Err(Decode(BadValue, at))
    else
      UnsignedInU64(s);
      Ok(FromBE(s))
  }

  /** `unsigned_lenient_u64`: up to eight octets whatever the top bit, or nine with a leading zero. */
  function ReadLenient(s: seq<Octet>, at: nat): Result<U64> {
    if s != [] && (|s| <= 8 || (|s| == 9 && s[0] == 0)) then
      UnsignedInU64(s);
      Ok(FromBE(s))
    else Err(Decode(BadValue, at))
  }

  lemma SignedRange(s: seq<Octet>)
    requires s != []
    ensures -128 * Pow256(|s| - 1) <= SignedBE(s) < 128 * Pow256(|s| - 1)
  {
    var p := Pow256(|s| - 1);
    FromBEHead(s);
    FromBEBound(s[1..]);
    assert Pow256(|s|) == 256 * p;
    if s[0] >= 128 {
      MulMono(128, s[0], p);
      MulMono(s[0], 255, p);
    } else {
      MulMono(s[0], 127, p);
      MulMono(0, s[0], p);
    }
  }

  lemma SignedInI64(s: seq<Octet>)
    requires s != [] && |s| <= 8
    ensures -0x8000_0000_0000_0000 <= SignedBE(s) < 0x8000_0000_0000_0000
  {
    Pow256Values();
    Pow256Mono(|s| - 1, 7);
    SignedRange(s);
  }

  lemma UnsignedInU64(s: seq<Octet>)
    requires s != [] && (|s| <= 8 || (|s| == 9 && s[0] == 0))
    ensures FromBE(s) < TWO_POW_64
  {
    Pow256Values();
    if |s| == 9 {
      FromBEHead(s);
      FromBEBound(s[1..]);
    } else {
      FromBEBound(s);
      Pow256Mono(|s|, 8);
    }
  }

  lemma SignedTail(s: seq<Octet>)
    requires |s| > 1 && Redundant(s[0], s[1])
    ensures SignedBE(s[1..]) == SignedBE(s)
  {
    FromBEHead(s);
    assert Pow256(|s|) == 256 * Pow256(|s| - 1);
  }

  lemma {:induction false} TrimKeepsValue(s: seq<Octet>)
    ensures SignedBE(Trim(s)) == SignedBE(s)
    ensures |Trim(s)| > 1 ==> !Redundant(Trim(s)[0], Trim(s)[1])
  {
    if |s| > 1 && Redundant(s[0], s[1]) {
      SignedTail(s);
      TrimKeepsValue(s[1..]);
    }
  }

  /** Octets with no redundant first one hold a number too large for one octet less. */
  lemma IrredundantNeedsEveryOctet(s: seq<Octet>)
    requires |s| > 1 && !Redundant(s[0], s[1])
    ensures SignedBE(s) < -128 * Pow256(|s| - 2) || SignedBE(s) >= 128 * Pow256(|s| - 2)
  {
    var tail, p, q := s[1..], Pow256(|s| - 1), Pow256(|s| - 2);
    assert p == 256 * q && Pow256(|s|) == 256 * p;
    FromBEHead(s);
    FromBEHead(tail);
    FromBEBound(tail);
    FromBEBound(tail[1..]);
    MulMono(if s[0] == 0 then 128 else 0, s[1], q);
    MulMono(s[1], if s[0] == 255 then 127 else 255, q);
    MulMono(if s[0] == 0 then 0 else 1, s[0], p);
    MulMono(s[0], if s[0] == 255 then 255 else 254, p);
  }

  /** Minimality: no shorter octets have the value of trimmed ones. */
  lemma TrimMinimal(s: seq<Octet>, t: seq<Octet>)
    requires s != [] && t != [] && SignedBE(s) == SignedBE(t)
    ensures |Trim(s)| <= |t|
  {
    var r := Trim(s);
    TrimKeepsValue(s);
    SignedRange(t);
    if |r| > 1 {
      IrredundantNeedsEveryOctet(r);
      if |t| < |r| {
        Pow256Mono(|t| - 1, |r| - 2);
      }
    }
  }

  /** Every `i64` reads back equal from at most eight octets, and no shorter octets decode to it. */
  lemma IntegerExactAndMinimal(v: I64, at: nat)
    ensures 1 <= |IntegerOctets(v)| <= 8
    ensures ReadInteger(IntegerOctets(v), at) == Ok(v)
    ensures forall t: seq<Octet> :: ReadInteger(t, at) == Ok(v) ==> |IntegerOctets(v)| <= |t|
  {
    var n: nat := if v < 0 then v + TWO_POW_64 else v;
    var s := ToBE(n, 8);
    Pow256Values();
    FromToBE(n, 8);
    FromBEHead(s);
    FromBEBound(s[1..]);
    assert SignedBE(s) == v;
    TrimKeepsValue(s);
    forall t: seq<Octet> | ReadInteger(t, at) == Ok(v)
      ensures |IntegerOctets(v)| <= |t|
    {
      TrimMinimal(s, t);
    }
  }

  lemma UnsignedOctetsValue(v: U64)
    ensures var r := UnsignedOctets(v);
            1 <= |r| <= 9 && r[0] < 128 && FromBE(r) == v && (|r| == 9 ==> r[0] == 0)
    ensures SignedBE([0] + ToBE(v, 8)) == v
  {
    var s := [0] + ToBE(v, 8);
    Pow256Values();
    FromToBE(v, 8);
    FromBEHead(s);
    assert s[1..] == ToBE(v, 8);
    TrimKeepsValue(s);
    var r := Trim(s);
    if r[0] >= 128 {
      FromBEBound(r);
    }
    if |r| == 9 {
      assert r == s;
    }
  }

  /** Every `u64` reads back equal through both readers, and no shorter octets decode to it
      through the strict one. */
  lemma UnsignedExactAndMinimal(v: U64, at: nat)
    ensures ReadUnsigned(UnsignedOctets(v), at) == Ok(v)
    ensures ReadLenient(UnsignedOctets(v), at) == Ok(v)
    ensures forall t: seq<Octet> :: ReadUnsigned(t, at) == Ok(v) ==> |UnsignedOctets(v)| <= |t|
  {
    UnsignedOctetsValue(v);
    forall t: seq<Octet> | ReadUnsigned(t, at) == Ok(v)
      ensures |UnsignedOctets(v)| <= |t|
    {
      TrimMinimal([0] + ToBE(v, 8), t);
    }
  }

  /** What the lenient reader accepts costs at most one octet more to write back. */
  lemma LenientCost(s: seq<Octet>, at: nat)
    requires ReadLenient(s, at).Ok?
    ensures |UnsignedOctets(ReadLenient(s, at).value)| <= |s| + 1
  {
    hide ToBE, FromBE, Trim;
    var v := ReadLenient(s, at).value;
    UnsignedOctetsValue(v);
    FromBEHead([0] + s);
    assert ([0] + s)[1..] == s;
    TrimMinimal([0] + ToBE(v, 8), [0] + s);
  }

  // ---- fixed-width fields ----

  /** The contents octets a positive INTEGER needs (`unsigned_width` before its minimum). */
  function PositiveWidth(v: U64): (w: nat)
    ensures 1 <= w <= 8
  {
    Pow256Values();
    var w := OctetCount(v, 1);
    if w < 8 && v / (128 * Pow256(w - 1)) % 2 == 1 then w + 1 else w
  }

  /** The least `n >= w` with `v < 256^n`, at most eight. */
  function OctetCount(v: U64, w: nat): (n: nat)
    requires 1 <= w <= 8
    ensures w <= n <= 8
    ensures v < Pow256(n)
    ensures n > w ==> v >= Pow256(n - 1)
    decreases 8 - w
  {
    Pow256Values();
    if w < 8 && v / Pow256(w) != 0 then
      DivZero(v, Pow256(w));
      OctetCount(v, w + 1)
    else
      DivZero(v, Pow256(w));
      w
  }

  lemma DivZero(v: nat, p: nat)
    requires p > 0
    ensures v / p == 0 <==> v < p
  {
    assert v == p * (v / p) + v % p;
  }

  /** A value fits the octets `unsigned_width` finds for it, or any wider field. */
  lemma WidthHolds(v: U64, width: nat)
    requires PositiveWidth(v) <= width
    ensures v < Pow256(width)
  {
    Pow256Mono(OctetCount(v, 1), width);
  }

  /** And no narrower: one octet less would set the top bit or lose some of the value. */
  lemma WidthIsLeast(v: U64)
    ensures PositiveWidth(v) > 1 ==> v >= 128 * Pow256(PositiveWidth(v) - 2)
  {
    Pow256Values();
    var n := OctetCount(v, 1);
    if n < 8 && v < 128 * Pow256(n - 1) {
      HalfQuotient(v, 128 * Pow256(n - 1));
    }
  }

  /** At that width, or any wider one up to eight, the top bit is clear, so the strict reader
      reads the field back unchanged; for every value a positive eight-octet INTEGER can hold. */
  lemma FixedWidthReadsBack(v: U64, width: nat, at: nat)
    requires v < 0x8000_0000_0000_0000
    requires PositiveWidth(v) <= width <= 8
    ensures v < 128 * Pow256(width - 1)
    ensures ReadUnsigned(ToBE(v, width), at) == Ok(v)
  {
    hide PositiveWidth, ToBE, ReadUnsigned;
    PositiveWidthRoom(v);
    Pow256Mono(PositiveWidth(v) - 1, width - 1);
    RoomReadsBack(v, width, at);
  }

  /** A field of the width `unsigned_width` gives, for every value: the lenient reader reads it back,
      and the strict one exactly when the value is below 2^63. */
  lemma FixedMinReads(v: U64, width: nat, at: nat)
    requires PositiveWidth(v) <= width <= 8
    ensures v < Pow256(width) && ReadLenient(ToBE(v, width), at) == Ok(v)
    ensures ReadUnsigned(ToBE(v, width), at) == Ok(v) <==> v < 0x8000_0000_0000_0000
  {
    hide PositiveWidth, ToBE;
    WidthHolds(v, width);
    FromToBE(v, width);
    if v < 0x8000_0000_0000_0000 {
      FixedWidthReadsBack(v, width, at);
    } else {
      WideTopBit(v, width);
    }
  }

  lemma SmallHead(s: seq<Octet>)
    requires s != [] && s[0] < 128
    ensures FromBE(s) < 128 * Pow256(|s| - 1)
  {
    FromBEHead(s);
    FromBEBound(s[1..]);
    MulMono(s[0], 127, Pow256(|s| - 1));
  }

  /** A value of 2^63 or more fills eight octets and sets the top bit. */
  lemma WideTopBit(v: U64, width: nat)
    requires 0x8000_0000_0000_0000 <= v < Pow256(width) && width <= 8
    ensures width == 8 && ToBE(v, width)[0] >= 128
  {
    hide ToBE, FromBE;
    Pow256Values();
    if width < 8 {
      Pow256Mono(width, 7);
    } else {
      var s := ToBE(v, 8);
      FromToBE(v, 8);
      if s[0] < 128 {
        SmallHead(s);
      }
    }
  }

  lemma RoomReadsBack(v: U64, width: nat, at: nat)
    requires 1 <= width <= 8 && v < 128 * Pow256(width - 1)
    ensures ReadUnsigned(ToBE(v, width), at) == Ok(v)
  {
    var s, p := ToBE(v, width), Pow256(width - 1);
    assert Pow256(width) == 256 * p;
    FromToBE(v, width);
    TopBitClear(s);
  }

  lemma TopBitClear(s: seq<Octet>)
    requires s != [] && FromBE(s) < 128 * Pow256(|s| - 1)
    ensures s[0] < 128
  {
    FromBEHead(s);
    if s[0] >= 128 {
      MulMono(128, s[0], Pow256(|s| - 1));
    }
  }

  lemma HalfQuotient(v: nat, half: nat)
    requires 0 < half && v < 2 * half
    ensures v / half == if v < half then 0 else 1
  {
  }

  lemma PositiveWidthRoom(v: U64)
    requires v < 0x8000_0000_0000_0000
    ensures v < 128 * Pow256(PositiveWidth(v) - 1)
  {
    Pow256Values();
    var w := OctetCount(v, 1);
    var half := 128 * Pow256(w - 1);
    assert Pow256(w) == 2 * half;
    HalfQuotient(v, half);
  }
}
