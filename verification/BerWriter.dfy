/** The BER encoder: one buffer, appended to and, when a constructed element turns out longer
    than its one-octet length placeholder, shifted in place. */
module BerWriter {
  import opened Common
  import opened Octets
  import opened Ber
  import opened BerInteger

  /** Seven bits of a tag number. */
  type Group = x: int | 0 <= x < 128

  /** Collected groups, least significant first, in writing order with their continuation bits. */
  function Marked(groups: seq<Group>): seq<Octet> {
    if groups == [] then []
    else
      var i := |groups| - 1;
      var group: Octet := groups[i];
      [if i > 0 then 128 + group else group] + Marked(groups[..i])
  }

  function Zeros(n: nat): (s: seq<Octet>)
    ensures |s| == n
  {
    seq(n, _ => 0)
  }

  /** `encode_length_into`: a definite length into `out`, and how many octets it took. */
  method EncodeLengthInto(len: nat, out: array<Octet>) returns (r: Result<nat>)
    requires out.Length == 5
    modifies out
    ensures r.Ok? <==> len < 0x1_0000_0000
    ensures r.Ok? ==> 1 <= r.value <= 5 && out[..r.value] == LengthOctets(len)
    ensures r.Err? ==> r.error == Encode
  {
    if len < 0x80 {
      out[0] := len;
      return Ok(1);
    }
    if len >= 0x1_0000_0000 {
      return Err(Encode);
    }
    var bytes := ToBE(len, 4);
    var skip := 0;
    while skip < 4 && bytes[skip] == 0
      invariant 0 <= skip <= 4
      invariant SkipZeros(bytes) == SkipZeros(bytes[skip..])
    {
      skip := skip + 1;
    }
    var n := 4 - skip;
    out[0] := 0x80 + n;
    forall k | 0 <= k < n {
      out[1 + k] := bytes[skip + k];
    }
    assert out[..n + 1] == [0x80 + n] + bytes[skip..];
    return Ok(n + 1);
  }

  /** `unsigned_width`: contents octets for `value` as a positive INTEGER, at least `minWidth`. */
  method UnsignedWidth(value: U64, minWidth: nat) returns (w: nat)
    ensures w == if PositiveWidth(value) < minWidth then minWidth else PositiveWidth(value)
  {
    Pow256Values();
    w := 1;
    while w < 8 && value / Pow256(w) != 0
      invariant 1 <= w <= 8
      invariant OctetCount(value, 1) == OctetCount(value, w)
    {
      w := w + 1;
    }
    if w < 8 && value / (128 * Pow256(w - 1)) % 2 == 1 {
      w := w + 1;
    }
    if w < minWidth {
      w := minWidth;
    }
  }

  /** The 7-bit groups of a tag number, least significant first. Five are always enough. */
  method SplitGroups(number: U32) returns (groups: array<Group>, n: nat)
    ensures fresh(groups) && 0 < n <= groups.Length == 5
    ensures Marked(groups[..n]) == Base128(number)
  {
    hide Groups, Base128, Marked, GroupRoom;
    groups := new Group[5](_ => 0);
    n := 0;
    var v: nat := number;
    RoomAtFirst();
    while true
      invariant 0 <= n <= 4
      invariant n == 0 ==> v == number
      invariant v < GroupRoom(n)
      invariant n > 0 ==> 0 < v && Groups(v) + Marked(groups[..n]) == Base128(number)
      decreases v
    {
      ghost var before, was := groups[..n], v;
      RoomStep(v, n);
      groups[n] := v % 128;
      n := n + 1;
      v := v / 128;
      assert groups[..n] == before + [was % 128];
      MarkedSnoc(before, was);
      GroupsLast(was + 1);
      if v == 0 {
        break;
      }
    }
  }

  /** How large the rest of a 32-bit number can be once `n` groups are taken off it. */
  function GroupRoom(n: nat): nat {
    if n == 0 then 0x1_0000_0000
    else if n == 1 then 0x200_0000
    else if n == 2 then 0x4_0000
    else if n == 3 then 0x800
    else 16
  }

  lemma RoomAtFirst()
    ensures GroupRoom(0) == 0x1_0000_0000
  {
  }

  lemma RoomStep(v: nat, n: nat)
    requires v < GroupRoom(n) && n <= 4
    ensures n < 4 ==> v / 128 < GroupRoom(n + 1)
    ensures n == 4 ==> v / 128 == 0
  {
  }

  lemma MarkedStep(before: seq<Group>, group: Group)
    ensures Marked(before + [group]) == [if before != [] then 128 + group else group] + Marked(before)
  {
    assert (before + [group])[..|before|] == before;
  }

  lemma MarkedSnoc(before: seq<Group>, v: nat)
    ensures before == [] ==> Groups(v / 128) + Marked(before + [v % 128]) == Base128(v)
    ensures before != [] && v > 0 ==> Groups(v / 128) + Marked(before + [v % 128]) == Groups(v) + Marked(before)
  {
    MarkedStep(before, v % 128);
  }

  // ---- the two copies that grow a length in place ----

  /** `copy_within(from..to, dest)`. */
  function CopyWithin(s: seq<Octet>, from: nat, to: nat, dest: nat): (r: seq<Octet>)
    requires from <= to <= |s| && dest + (to - from) <= |s|
    ensures |r| == |s|
  {
    s[..dest] + s[from..to] + s[dest + (to - from)..]
  }

  /** `copy_from_slice` at `at`. */
  function CopyFrom(s: seq<Octet>, at: nat, octets: seq<Octet>): seq<Octet>
    requires at + |octets| <= |s|
  {
    s[..at] + octets + s[at + |octets|..]
  }

  /** Growing a one-octet placeholder to `octets`, shifting what follows right. */
  lemma GrowInPlace(s: seq<Octet>, at: nat, octets: seq<Octet>)
    requires at < |s| && octets != []
    ensures var grown := s + Zeros(|octets| - 1);
            && at + |octets| + (|s| - at - 1) <= |grown|
            && CopyFrom(CopyWithin(grown, at + 1, |s|, at + |octets|), at, octets)
               == s[..at] + octets + s[at + 1..]
  {
    var grown := s + Zeros(|octets| - 1);
    var shifted := CopyWithin(grown, at + 1, |s|, at + |octets|);
    assert grown[at + 1..|s|] == s[at + 1..];
    assert shifted == grown[..at + |octets|] + s[at + 1..];
    assert shifted[..at] == s[..at];
    assert shifted[at + |octets|..] == s[at + 1..];
  }

  class Encoder {
    var buf: seq<Octet>

    constructor ()
      ensures buf == []
    {
      buf := [];
    }

    method WriteTag(tag: Tag)
      modifies this
      ensures buf == old(buf) + TagOctets(tag)
    {
      buf := buf + [FirstOctet(tag)];
      if tag.number >= 31 {
        // Base-128 with continuation bits, most significant group first.
        var groups, n := SplitGroups(tag.number);
        var i := n;
        ghost var start := buf;
        while i > 0
          invariant 0 <= i <= n <= groups.Length
          invariant buf + Marked(groups[..i]) == start + Base128(tag.number)
        {
          i := i - 1;
          assert groups[..i + 1][..i] == groups[..i];
          var group: Octet := groups[i];
          buf := buf + [if i > 0 then 128 + group else group];
        }
        assert buf == buf + Marked(groups[..0]);
        assert buf == old(buf) + ([FirstOctet(tag)] + Base128(tag.number));
      }
    }

    method WriteLength(len: nat) returns (r: Result<()>)
      modifies this
      ensures r.Ok? <==> len < 0x1_0000_0000
      ensures r.Ok? ==> buf == old(buf) + LengthOctets(len)
      ensures r.Err? ==> r.error == Encode && buf == old(buf)
    {
      var o := new Octet[5](_ => 0);
      var n := EncodeLengthInto(len, o);
      if n.Err? {
        return Err(n.error);
      }
      buf := buf + o[..n.value];
      return Ok(());
    }

    /** A primitive element with raw contents. A length no definite form can hold fails after the
        identifier is already written. */
    method Primitive(tag: Tag, contents: seq<Octet>) returns (r: Result<()>)
      modifies this
      ensures r.Ok? <==> |contents| < 0x1_0000_0000
      ensures r.Ok? ==> buf == old(buf) + Element(tag, contents)
      ensures r.Err? ==> r.error == Encode && buf == old(buf) + TagOctets(tag)
    {
      WriteTag(tag);
      r := WriteLength(|contents|);
      if r.Ok? {
        buf := buf + contents;
      }
    }

    /** The first half of `constructed`: the identifier and a one-octet placeholder, before the
        children are written. */
    method OpenConstructed(tag: Tag) returns (lenPos: nat)
      modifies this
      ensures lenPos == |old(buf)| + |TagOctets(tag)|
      ensures buf == old(buf) + TagOctets(tag) + [0]
    {
      WriteTag(tag);
      lenPos := |buf|;
      buf := buf + [0];
    }

    /** The second half of `constructed`: whatever follows the placeholder becomes the contents.
        Everything before it stays as it was. */
    method CloseConstructed(lenPos: nat) returns (r: Result<()>)
      requires lenPos < |buf|
      modifies this
      ensures r.Ok? <==> |old(buf)| - lenPos - 1 < 0x1_0000_0000
      ensures r.Ok? ==> var contents := old(buf)[lenPos + 1..];
                        buf == old(buf)[..lenPos] + LengthOctets(|contents|) + contents
      ensures r.Err? ==> r.error == Encode && buf == old(buf)
    {
      hide LengthOctets, CopyWithin, CopyFrom, Zeros;
      var contentLen := |buf| - lenPos - 1;
      var lenOctets := new Octet[5](_ => 0);
      var len := EncodeLengthInto(contentLen, lenOctets);
      if len.Err? {
        return Err(len.error);
      }
      var n := len.value;
      if n == 1 {
        buf := buf[lenPos := lenOctets[0]];
        assert buf == old(buf)[..lenPos] + lenOctets[..1] + old(buf)[lenPos + 1..];
      } else {
        // Grow the placeholder to `n` octets, shifting the contents right.
        var extra, oldLen := n - 1, |buf|;
        GrowInPlace(buf, lenPos, lenOctets[..n]);
        buf := buf + Zeros(extra);
        buf := CopyWithin(buf, lenPos + 1, oldLen, lenPos + 1 + extra);
        buf := CopyFrom(buf, lenPos, lenOctets[..n]);
      }
      return Ok(());
    }

    /** Two's-complement INTEGER, minimal. */
    method Integer(tag: Tag, value: I64) returns (r: Result<()>)
      modifies this
      ensures r.Ok? && |IntegerOctets(value)| <= 8
      ensures buf == old(buf) + Element(tag, IntegerOctets(value))
    {
      IntegerExactAndMinimal(value, 0);
      var bytes := ToBE(if value < 0 then value + TWO_POW_64 else value, 8);
      var start := 0;
      while start < 7
          && ((bytes[start] == 0 && bytes[start + 1] < 128) || (bytes[start] == 0xFF && bytes[start + 1] >= 128))
        invariant 0 <= start <= 7
        invariant Trim(bytes) == Trim(bytes[start..])
      {
        start := start + 1;
      }
      r := Primitive(tag, bytes[start..]);
    }

    /** Unsigned INTEGER, minimal, with the leading zero octet a set top bit requires. */
    method Unsigned(tag: Tag, value: U64) returns (r: Result<()>)
      modifies this
      ensures r.Ok? && |UnsignedOctets(value)| <= 9
      ensures buf == old(buf) + Element(tag, UnsignedOctets(value))
    {
      UnsignedOctetsValue(value);
      var bytes := ToBE(value, 8);
      var withZero := [0] + bytes;
      assert withZero[1..] == bytes;
      var start := 0;
      while start < 7 && bytes[start] == 0 && bytes[start + 1] < 128
        invariant 0 <= start <= 7
        invariant withZero[start] == 0 && (start > 0 ==> bytes[start] < 128)
        invariant Trim(withZero) == Trim(withZero[start..])
      {
        assert withZero[start..][1..] == withZero[start + 1..];
        start := start + 1;
      }
      if bytes[start] >= 128 {
        assert start == 0 && withZero[0..] == withZero;
        r := Primitive(tag, withZero[start..]);
        return;
      }
      assert withZero[start..][1..] == bytes[start..];
      r := Primitive(tag, bytes[start..]);
    }

    /** Unsigned INTEGER at exactly `width` contents octets. */
    method UnsignedFixed(tag: Tag, value: U64, width: nat) returns (r: Result<()>)
      modifies this
      ensures r.Ok? <==> 1 <= width <= 8 && value < Pow256(width)
      ensures r.Ok? ==> buf == old(buf) + Element(tag, ToBE(value, width))
      ensures r.Err? ==> r.error == Encode && buf == old(buf)
    {
      Pow256Values();
      DivZero(value, Pow256(width));
      if width == 0 || width > 8 || (width < 8 && value / Pow256(width) != 0) {
        return Err(Encode);
      }
      var bytes := ToBE(value, 8);
      LowOctets(value, 8, width);
      r := Primitive(tag, bytes[8 - width..]);
    }

    /** Unsigned INTEGER at `minWidth` octets or as many as keep it positive: the lenient reader reads
        every such field back, the strict one exactly those below 2^63. */
    method UnsignedFixedMin(tag: Tag, value: U64, minWidth: nat) returns (r: Result<()>)
      modifies this
      ensures r.Ok? <==> minWidth <= 8
      ensures r.Ok? ==> exists contents: seq<Octet> ::
                          && minWidth <= |contents| <= 8
                          && ReadLenient(contents, 0) == Ok(value)
                          && (ReadUnsigned(contents, 0) == Ok(value) <==> value < 0x8000_0000_0000_0000)
                          && buf == old(buf) + Element(tag, contents)
      ensures r.Err? ==> r.error == Encode && buf == old(buf)
    {
      hide ReadLenient, ReadUnsigned, Element;
      var width := UnsignedWidth(value, minWidth);
      if width <= 8 {
        FixedMinReads(value, width, 0);
      }
      r := UnsignedFixed(tag, value, width);
      if r.Ok? {
        assert |ToBE(value, width)| == width && ReadLenient(ToBE(value, width), 0) == Ok(value);
      }
    }

    /** BIT STRING from its contents and the number of unused bits in the last octet. */
    method BitString(tag: Tag, unused: U8, contents: seq<Octet>) returns (r: Result<()>)
      modifies this
      ensures r.Ok? <==> unused <= 7 && (contents != [] || unused == 0) && 1 + |contents| < 0x1_0000_0000
      ensures r.Ok? ==> buf == old(buf) + Element(tag, [unused] + contents)
      ensures r.Err? ==> r.error == Encode && old(buf) <= buf
    {
      if unused > 7 || (contents == [] && unused != 0) {
        return Err(Encode);
      }
      WriteTag(tag);
      r := WriteLength(|contents| + 1);
      if r.Ok? {
        buf := buf + [unused];
        buf := buf + contents;
        assert buf == old(buf) + Element(tag, [unused] + contents);
      }
    }
  }

  /** The last `k` octets of a number that fits them are all there is to it. */
  lemma {:induction false} LowOctets(n: nat, width: nat, k: nat)
    requires k <= width
    ensures n < Pow256(k) ==> ToBE(n, width)[width - k..] == ToBE(n, k)
  {
    if k > 0 {
      LowOctets(n / 256, width - 1, k - 1);
    }
  }
}
