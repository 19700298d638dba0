/** UTF-8 (RFC 3629 section 3): the strings the decoder accepts are exactly the encodings of Unicode
    scalar values. */
module Utf8 {
  import opened Octets
  import opened Data

  /** A code point that is not a surrogate. */
  predicate Scalar(c: int) {
    0 <= c < 0xD800 || 0xE000 <= c < 0x11_0000
  }

  /** One to four octets, by the size of the code point. */
  function Encoded(c: int): (o: seq<Octet>)
    requires Scalar(c)
    ensures o != []
  {
    if c < 0x80 then [c]
    else if c < 0x800 then [0xC0 + c / 0x40, 0x80 + c % 0x40]
    else if c < 0x1_0000 then [0xE0 + c / 0x1000, 0x80 + c / 0x40 % 0x40, 0x80 + c % 0x40]
    else [0xF0 + c / 0x4_0000, 0x80 + c / 0x1000 % 0x40, 0x80 + c / 0x40 % 0x40, 0x80 + c % 0x40]
  }

  function AllEncoded(cs: seq<int>): seq<Octet>
    requires forall c <- cs :: Scalar(c)
  {
    if cs == [] then [] else Encoded(cs[0]) + AllEncoded(cs[1..])
  }

  lemma ShortHead(c: int, rest: seq<Octet>)
    requires Scalar(c) && c < 0x800 && IsUtf8(rest)
    ensures IsUtf8(Encoded(c) + rest)
  {
    var s := Encoded(c) + rest;
    assert s[|Encoded(c)|..] == rest;
  }

  lemma MiddleHead(c: int, rest: seq<Octet>)
    requires Scalar(c) && 0x800 <= c < 0x1_0000 && IsUtf8(rest)
    ensures IsUtf8(Encoded(c) + rest)
  {
    var s := Encoded(c) + rest;
    assert s[3..] == rest;
  }

  lemma LongHead(c: int, rest: seq<Octet>)
    requires Scalar(c) && 0x1_0000 <= c && IsUtf8(rest)
    ensures IsUtf8(Encoded(c) + rest)
  {
    var s := Encoded(c) + rest;
    assert s[4..] == rest;
  }

  lemma {:induction false} EncodedIsUtf8(cs: seq<int>)
    requires forall c <- cs :: Scalar(c)
    ensures IsUtf8(AllEncoded(cs))
  {
    hide IsUtf8, Encoded;
    if cs == [] {
      NothingIsUtf8();
    } else {
      EncodedIsUtf8(cs[1..]);
      if cs[0] < 0x800 {
        ShortHead(cs[0], AllEncoded(cs[1..]));
      } else if cs[0] < 0x1_0000 {
        MiddleHead(cs[0], AllEncoded(cs[1..]));
      } else {
        LongHead(cs[0], AllEncoded(cs[1..]));
      }
    }
  }

  lemma NothingIsUtf8()
    ensures IsUtf8([])
  {
  }

  /** Four groups of six bits as one number. */
  function Sixes(a: int, b: int, c: int, d: int): int {
    0x4_0000 * a + 0x1000 * b + 0x40 * c + d
  }

  lemma SixesSplit(a: int, b: int, c: int, d: int)
    requires 0 <= a && 0 <= b < 0x40 && 0 <= c < 0x40 && 0 <= d < 0x40
    ensures var v := Sixes(a, b, c, d);
            v / 0x4_0000 == a && v / 0x1000 % 0x40 == b && v / 0x40 % 0x40 == c && v % 0x40 == d
            && v / 0x1000 == 0x40 * a + b
  {
    var v := Sixes(a, b, c, d);
    assert v / 0x40 == 0x1000 * a + 0x40 * b + c;
    assert v / 0x1000 == 0x40 * a + b;
  }

  lemma SecondOctet(s: seq<Octet>)
    requires IsUtf8(s) && s != [] && s[0] >= 0x80
    ensures |s| >= 2 && 0x80 <= s[1] < 0xC0
    ensures 0xC2 <= s[0] <= 0xF4
    ensures s[0] <= 0xDF ==> IsUtf8(s[2..])
    ensures 0xE0 <= s[0] <= 0xEF ==>
              |s| >= 3 && 0x80 <= s[2] < 0xC0 && IsUtf8(s[3..]) && (s[0] == 0xE0 ==> s[1] >= 0xA0)
              && (s[0] == 0xED ==> s[1] < 0xA0)
    ensures s[0] >= 0xF0 ==>
              && |s| >= 4 && 0x80 <= s[2] < 0xC0 && 0x80 <= s[3] < 0xC0 && IsUtf8(s[4..])
              && (s[0] == 0xF0 ==> s[1] >= 0x90) && (s[0] == 0xF4 ==> s[1] < 0x90)
  {
  }

  lemma TwoOctets(s: seq<Octet>) returns (c: int)
    requires |s| == 2 && 0xC2 <= s[0] <= 0xDF && 0x80 <= s[1] < 0xC0
    ensures Scalar(c) && s == Encoded(c)
  {
    c := Sixes(0, 0, s[0] - 0xC0, s[1] - 0x80);
    SixesSplit(0, 0, s[0] - 0xC0, s[1] - 0x80);
  }

  lemma ThreeOctets(s: seq<Octet>) returns (c: int)
    requires |s| == 3 && 0xE0 <= s[0] <= 0xEF && 0x80 <= s[1] < 0xC0 && 0x80 <= s[2] < 0xC0
    requires (s[0] == 0xE0 ==> s[1] >= 0xA0) && (s[0] == 0xED ==> s[1] < 0xA0)
    ensures Scalar(c) && s == Encoded(c)
  {
    c := Sixes(0, s[0] - 0xE0, s[1] - 0x80, s[2] - 0x80);
    SixesSplit(0, s[0] - 0xE0, s[1] - 0x80, s[2] - 0x80);
  }

  lemma FourOctets(s: seq<Octet>) returns (c: int)
    requires |s| == 4 && 0xF0 <= s[0] <= 0xF4 && 0x80 <= s[1] < 0xC0 && 0x80 <= s[2] < 0xC0 && 0x80 <= s[3] < 0xC0
    requires (s[0] == 0xF0 ==> s[1] >= 0x90) && (s[0] == 0xF4 ==> s[1] < 0x90)
    ensures Scalar(c) && s == Encoded(c)
  {
    c := Sixes(s[0] - 0xF0, s[1] - 0x80, s[2] - 0x80, s[3] - 0x80);
    SixesSplit(s[0] - 0xF0, s[1] - 0x80, s[2] - 0x80, s[3] - 0x80);
  }

  /** The first character of a string that is accepted. */
  lemma FirstCharacter(s: seq<Octet>) returns (c: int, n: nat)
    requires IsUtf8(s) && s != []
    ensures Scalar(c) && 1 <= n <= |s| && s[..n] == Encoded(c) && IsUtf8(s[n..])
  {
    hide Encoded;
    if s[0] < 0x80 {
      c, n := s[0], 1;
      OneOctet(s[..1]);
    } else {
      SecondOctet(s);
      hide IsUtf8;
      n := if s[0] <= 0xDF then 2 else if s[0] <= 0xEF then 3 else 4;
      if n == 2 {
        c := TwoOctets(s[..2]);
      } else if n == 3 {
        c := ThreeOctets(s[..3]);
      } else {
        c := FourOctets(s[..4]);
      }
    }
  }

  lemma OneOctet(s: seq<Octet>)
    requires |s| == 1 && s[0] < 0x80
    ensures Scalar(s[0]) && Encoded(s[0]) == s
  {
  }

  lemma {:induction false} Utf8IsEncoded(s: seq<Octet>) returns (cs: seq<int>)
    requires IsUtf8(s)
    ensures (forall c <- cs :: Scalar(c)) && AllEncoded(cs) == s
  {
    hide IsUtf8, Encoded;
    cs := [];
    if s != [] {
      var c, n := FirstCharacter(s);
      var rest := Utf8IsEncoded(s[n..]);
      cs := [c] + rest;
      assert cs[1..] == rest;
    }
  }

  /** Accepted is exactly what encodes some scalar values, one after the other. */
  lemma Utf8Exactly(s: seq<Octet>)
    ensures IsUtf8(s) <==> exists cs: seq<int> :: (forall c <- cs :: Scalar(c)) && AllEncoded(cs) == s
  {
    if IsUtf8(s) {
      var cs := Utf8IsEncoded(s);
    }
    if cs: seq<int> :| (forall c <- cs :: Scalar(c)) && AllEncoded(cs) == s {
      EncodedIsUtf8(cs);
    }
  }
}
