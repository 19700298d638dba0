/** BER elements (ITU-T X.690 sections 8.1.2, 8.1.3 and 8.3) as functions of octet sequences:
    what the writer writes and what the reader reads, and that the two agree. */
module Ber {
  import opened Common
  import opened Octets

  datatype Class = Universal | Application | Context | Private

  datatype Tag = Tag(cls: Class, constructed: bool, number: U32)

  /** One decoded element, with its place in the outermost buffer. */
  datatype Tlv = Tlv(tag: Tag, value: seq<Octet>, offset: nat, valueOffset: nat) {
    function TotalLen(): int {
      valueOffset - offset + |value|
    }
  }

  function ContextTag(number: U32): Tag {
    Tag(Context, false, number)
  }

  function ContextConstructed(number: U32): Tag {
    Tag(Context, true, number)
  }

  // ---- identifier octets ----

  function ClassCode(c: Class): Octet {
    match c
    case Universal => 0
    case Application => 1
    case Context => 2
    case Private => 3
  }

  function ClassOf(code: int): Class {
    if code == 0 then Universal else if code == 1 then Application else if code == 2 then Context else Private
  }

  function FirstOctet(t: Tag): Octet {
    64 * ClassCode(t.cls) + (if t.constructed then 32 else 0) + (if t.number < 31 then t.number else 31)
  }

  /** The base-128 groups of `n`, most significant first, every one with its continuation bit. */
  function Groups(n: nat): (s: seq<Octet>)
    ensures n > 0 ==> s != []
  {
    if n == 0 then [] else Groups(n / 128) + [128 + n % 128]
  }

  /** A number in base 128: the last group without the continuation bit. */
  function Base128(n: nat): seq<Octet> {
    Groups(n / 128) + [n % 128]
  }

  /** The identifier octets of a tag. */
  function TagOctets(t: Tag): seq<Octet> {
    [FirstOctet(t)] + if t.number < 31 then [] else Base128(t.number)
  }

  /** The high-tag-number groups at the front of `s`, which starts at absolute offset `at`: the
      number and how many octets it took. `start` is where the identifier began. */
  function ReadGroups(s: seq<Octet>, at: nat, start: nat, acc: U32, groups: nat): Result<(U32, nat)> {
    if s == [] then Err(Decode(Truncated, at))
    else if groups == 0 && s[0] == 0x80 then Err(Decode(BadValue, start))
    else if acc > 0x1FF_FFFF then Err(Decode(BadValue, start))
    else
      var number := 128 * acc + s[0] % 128;
      if s[0] < 128 then Ok((number, 1))
      else if groups + 1 >= 5 then Err(Decode(BadValue, start))
      else
        match ReadGroups(s[1..], at + 1, start, number, groups + 1)
        case Err(e) => Err(e)
        case Ok((n, k)) => Ok((n, k + 1))
  }

  /** The tag at the front of `s` and the octets it took. */
  function ReadTag(s: seq<Octet>, base: nat): Result<(Tag, nat)> {
    if s == [] then Err(Decode(Truncated, base))
    else
      var cls := ClassOf(s[0] / 64);
      var constructed := s[0] / 32 % 2 == 1;
      if s[0] % 32 != 31 then Ok((Tag(cls, constructed, s[0] % 32), 1))
      else
        match ReadGroups(s[1..], base + 1, base, 0, 0)
        case Err(e) => Err(e)
        case Ok((n, k)) =>
          if n < 31 then Err(Decode(BadValue, base)) else Ok((Tag(cls, constructed, n), k + 1))
  }

  /** A result with `k` octets more. */
  function Later(r: Result<(U32, nat)>, k: nat): Result<(U32, nat)> {
    match r
    case Err(e) => Err(e)
    case Ok((n, m)) => Ok((n, m + k))
  }

  /** One group: an error, the last, or one of more. */
  lemma ReadGroupsTurn(s: seq<Octet>, at: nat, start: nat, acc: U32, groups: nat)
    ensures ReadGroups(s, at, start, acc, groups)
            == if s == [] then Err(Decode(Truncated, at))
               else if (groups == 0 && s[0] == 0x80) || acc > 0x1FF_FFFF || (s[0] >= 128 && groups >= 4)
                    then Err(Decode(BadValue, start))
               else if s[0] < 128 then Ok((128 * acc + s[0] % 128, 1))
               else Later(ReadGroups(s[1..], at + 1, start, 128 * acc + s[0] % 128, groups + 1), 1)
  {
  }

  lemma GroupsLast(m: nat)
    requires m > 0
    ensures Groups(m) == Groups(m / 128) + [128 + m % 128]
    ensures Groups(0) == []
  {
  }

  /** Reading past groups already written, whatever follows them. */
  lemma {:induction false} ReadGroupsOfGroups(m: nat, t: seq<Octet>, at: nat, start: nat)
    requires 0 < m < 0x1000_0000
    ensures |Groups(m)| <= 4
    ensures ReadGroups(Groups(m) + t, at, start, 0, 0)
            == Later(ReadGroups(t, at + |Groups(m)|, start, m, |Groups(m)|), |Groups(m)|)
  {
    hide Groups, ReadGroups;
    GroupsLength(m);
    GroupsLast(m);
    var q, last := m / 128, 128 + m % 128;
    GroupsLength(q);
    var more := [last] + t;
    assert more[1..] == t;
    if q == 0 {
      assert Groups(m) + t == more;
    } else {
      ReadGroupsOfGroups(q, more, at, start);
      assert Groups(m) + t == Groups(q) + more;
    }
    ReadGroupsTurn(more, at + |Groups(q)|, start, q, |Groups(q)|);
  }

  lemma {:induction false} GroupsLength(m: nat)
    ensures m < 0x1000_0000 ==> |Groups(m)| <= 4
    ensures m < 0x20_0000 ==> |Groups(m)| <= 3
    ensures m < 0x4000 ==> |Groups(m)| <= 2
    ensures m < 128 ==> |Groups(m)| <= 1
    ensures m > 0 ==> |Groups(m)| >= 1
    ensures |Groups(0)| == 0
  {
    if m > 0 {
      GroupsLength(m / 128);
    }
  }

  lemma FirstOctetFields(t: Tag)
    ensures ClassOf(FirstOctet(t) / 64) == t.cls
    ensures (FirstOctet(t) / 32 % 2 == 1) == t.constructed
    ensures FirstOctet(t) % 32 == if t.number < 31 then t.number else 31
  {
  }

  lemma OctetFields(b: Octet)
    ensures b == 64 * (b / 64) + 32 * (b / 32 % 2) + b % 32
    ensures ClassCode(ClassOf(b / 64)) == b / 64
  {
  }

  /** One more group. */
  lemma GroupsSnoc(acc: nat, group: nat)
    requires group < 128
    ensures (128 * acc + group) / 128 == acc && (128 * acc + group) % 128 == group
    ensures acc > 0 || group > 0 ==> Groups(128 * acc + group) == Groups(acc) + [128 + group]
  {
  }

  /** Every tag reads back as itself: any class, any form, any 32-bit number. */
  lemma ReadTagOfTagOctets(t: Tag, rest: seq<Octet>, base: nat)
    ensures ReadTag(TagOctets(t) + rest, base) == Ok((t, |TagOctets(t)|))
  {
    var s := TagOctets(t) + rest;
    FirstOctetFields(t);
    if t.number >= 31 {
      var m, last := t.number / 128, t.number % 128;
      var tail := [last] + rest;
      assert s[1..] == Groups(m) + tail;
      if m == 0 {
        assert s[1..] == tail;
      } else {
        ReadGroupsOfGroups(m, tail, base + 1, base);
      }
    }
  }

  /** The octets of an accepted number are the only ones that number has. */
  lemma {:induction false} ReadGroupsCanonical(s: seq<Octet>, at: nat, start: nat, acc: U32, groups: nat)
    requires ReadGroups(s, at, start, acc, groups).Ok?
    requires groups == 0 <==> acc == 0
    ensures var (n, k) := ReadGroups(s, at, start, acc, groups).value;
            k <= |s| && Groups(acc) + s[..k] == Base128(n)
  {
    hide ReadGroups, Groups;
    ReadGroupsTurn(s, at, start, acc, groups);
    var group := s[0] % 128;
    GroupsSnoc(acc, group);
    if s[0] < 128 {
      assert s[..1] == [s[0]];
    } else {
      ReadGroupsCanonical(s[1..], at + 1, start, 128 * acc + group, groups + 1);
      var k := ReadGroups(s, at, start, acc, groups).value.1;
      assert s[..k] == [s[0]] + s[1..][..k - 1];
      assert Groups(acc) + s[..k] == Groups(acc) + [s[0]] + s[1..][..k - 1];
    }
  }

  /** Every identifier the reader accepts is exactly what the writer writes for that tag. */
  lemma ReadTagCanonical(s: seq<Octet>, base: nat)
    requires ReadTag(s, base).Ok?
    ensures var (t, k) := ReadTag(s, base).value; 1 <= k <= |s| && s[..k] == TagOctets(t)
  {
    var (t, k) := ReadTag(s, base).value;
    OctetFields(s[0]);
    if s[0] % 32 != 31 {
      assert s[..1] == [s[0]];
    } else {
      ReadGroupsCanonical(s[1..], base + 1, base, 0, 0);
      assert s[..k] == [s[0]] + s[1..][..k - 1];
    }
  }

  // ---- length octets ----

  /** `s` without its leading zero octets. */
  function SkipZeros(s: seq<Octet>): (r: seq<Octet>)
    ensures |r| <= |s|
  {
    if s != [] && s[0] == 0 then SkipZeros(s[1..]) else s
  }

  /** The minimal definite length. */
  function LengthOctets(len: nat): (s: seq<Octet>)
    requires len < 0x1_0000_0000
    ensures s != []
  {
    if len < 0x80 then [len] else
    var b := SkipZeros(ToBE(len, 4));
    [0x80 + |b|] + b
  }

  /** The length at the front of `s`: its value and the octets it took. */
  function ReadLength(s: seq<Octet>, at: nat): Result<(nat, nat)> {
    if s == [] then Err(Decode(Truncated, at))
    else if s[0] < 0x80 then Ok((s[0], 1))
    else
      var n := s[0] % 128;
      if n == 0 then Err(Decode(IndefiniteLength, at))
      else if n > 4 then Err(Decode(BadLength, at))
      else if n > |s| - 1 then Err(Decode(Truncated, at + 1))
      else Ok((FromBE(s[1..1 + n]), 1 + n))
  }

  lemma {:induction false} SkipZerosValue(s: seq<Octet>)
    ensures FromBE(SkipZeros(s)) == FromBE(s)
    ensures SkipZeros(s) != [] ==> SkipZeros(s)[0] != 0
    ensures FromBE(s) > 0 ==> SkipZeros(s) != []
  {
    if s != [] && s[0] == 0 {
      FromBEHead(s);
      SkipZerosValue(s[1..]);
    }
  }

  /** No shorter octets have the value of octets that start with a non-zero one. */
  lemma NoShorterOctets(s: seq<Octet>, t: seq<Octet>)
    requires s != [] && s[0] != 0 && FromBE(s) == FromBE(t)
    ensures |s| <= |t|
  {
    FromBEHead(s);
    FromBEBound(t);
    MulMono(1, s[0], Pow256(|s| - 1));
    if |t| < |s| {
      Pow256Mono(|t|, |s| - 1);
    }
  }

  /** The long form: what `LengthOctets` writes past 127. */
  lemma LongForm(len: nat)
    requires 0x80 <= len < 0x1_0000_0000
    ensures var b := SkipZeros(ToBE(len, 4));
            LengthOctets(len) == [0x80 + |b|] + b && 1 <= |b| <= 4 && FromBE(b) == len
  {
    hide ToBE, FromBE, SkipZeros;
    Pow256Values();
    FromToBE(len, 4);
    SkipZerosValue(ToBE(len, 4));
  }

  lemma LongFormCount(first: Octet)
    requires first >= 0x80
    ensures first % 128 == first - 0x80
  {
  }

  lemma ReadLongForm(first: Octet, b: seq<Octet>, rest: seq<Octet>, at: nat)
    requires 1 <= |b| <= 4 && first == 0x80 + |b|
    ensures ReadLength([first] + b + rest, at) == Ok((FromBE(b), 1 + |b|))
  {
    hide FromBE;
    LongFormCount(first);
    var s := [first] + b + rest;
    assert s[0] == first && |s| >= 1 + |b| && s[1..1 + |b|] == b;
  }

  lemma ReadLengthOfLengthOctets(len: nat, rest: seq<Octet>, at: nat)
    requires len < 0x1_0000_0000
    ensures 1 <= |LengthOctets(len)| <= 5
    ensures ReadLength(LengthOctets(len) + rest, at) == Ok((len, |LengthOctets(len)|))
  {
    hide ToBE, FromBE, SkipZeros;
    if len >= 0x80 {
      LongForm(len);
      var b := SkipZeros(ToBE(len, 4));
      ReadLongForm(0x80 + |b|, b, rest, at);
    }
  }

  /** The writer's length octets are minimal: no accepted length of that value is shorter. */
  lemma LengthOctetsMinimal(s: seq<Octet>, at: nat)
    requires ReadLength(s, at).Ok?
    ensures var (len, k) := ReadLength(s, at).value;
            len < 0x1_0000_0000 && 1 <= k <= |s| && |LengthOctets(len)| <= k
  {
    var (len, k) := ReadLength(s, at).value;
    Pow256Values();
    if s[0] >= 0x80 {
      var b := s[1..k];
      FromBEBound(b);
      Pow256Mono(|b|, 4);
      if len >= 0x80 {
        FromToBE(len, 4);
        SkipZerosValue(ToBE(len, 4));
        NoShorterOctets(SkipZeros(ToBE(len, 4)), b);
      }
    }
  }

  // ---- elements ----

  /** A whole element: identifier, minimal length, contents. */
  function Element(t: Tag, contents: seq<Octet>): seq<Octet>
    requires |contents| < 0x1_0000_0000
  {
    TagOctets(t) + LengthOctets(|contents|) + contents
  }

  /** The element at the front of `s`, which starts at absolute offset `base`, and the octets it
      took. */
  function ReadElement(s: seq<Octet>, base: nat): Result<(Tlv, nat)> {
    match ReadTag(s, base)
    case Err(e) => Err(e)
    case Ok((tag, k)) =>
      ReadTagCanonical(s, base);
      match ReadLength(s[k..], base + k)
      case Err(e) => Err(e)
      case Ok((len, n)) =>
        LengthOctetsMinimal(s[k..], base + k);
        if len > |s| - k - n then Err(Decode(Truncated, base + k + n))
        else Ok((Tlv(tag, s[k + n..k + n + len], base, base + k + n), k + n + len))
  }

  /** What is written is read back, wherever it stands and whatever follows it. */
  lemma ReadElementOfElement(t: Tag, contents: seq<Octet>, rest: seq<Octet>, base: nat)
    requires |contents| < 0x1_0000_0000
    ensures ReadElement(Element(t, contents) + rest, base)
         == Ok((Tlv(t, contents, base, base + |TagOctets(t)| + |LengthOctets(|contents|)|), |Element(t, contents)|))
  {
    hide TagOctets, LengthOctets, ReadTag, ReadLength;
    var tag, len := TagOctets(t), LengthOctets(|contents|);
    var s, tail := Element(t, contents) + rest, contents + rest;
    assert s == tag + (len + tail);
    ReadTagOfTagOctets(t, len + tail, base);
    assert s[|tag|..] == len + tail;
    ReadLengthOfLengthOctets(|contents|, tail, base + |tag|);
    assert s[|tag| + |len|..|tag| + |len| + |contents|] == contents;
  }

  /** What an accepted element says about the octets it came from. */
  lemma ReadElementFaithful(s: seq<Octet>, base: nat)
    requires ReadElement(s, base).Ok?
    ensures var (t, n) := ReadElement(s, base).value;
            && 2 <= n <= |s|
            && t.offset == base && base + 2 <= t.valueOffset && t.TotalLen() == n
            && t.value == s[t.valueOffset - base..n]
            && |t.value| < 0x1_0000_0000
            && TagOctets(t.tag) <= s
            && |Element(t.tag, t.value)| <= n
  {
    var (tag, k) := ReadTag(s, base).value;
    ReadTagCanonical(s, base);
    LengthOctetsMinimal(s[k..], base + k);
  }
}
