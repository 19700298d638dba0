/** What an error of the reader means: a buffer is truncated exactly when some continuation of it would be
    read, any other error is final, and every error points into the buffer. */
module BerErrors {
  import opened Common
  import opened Octets
  import opened Ber

  predicate Truncation<T>(r: Result<T>) {
    r.Err? && r.error.Decode? && r.error.reason.Truncated?
  }

  /** A decode error at an offset of the octets from `at` on, or at their end. */
  predicate PointsInto<T>(r: Result<T>, at: nat, len: nat) {
    r.Err? ==> r.error.Decode? && at <= r.error.offset <= at + len
  }

  // ---- more octets change nothing but a truncation ----

  lemma {:induction false} GroupsFinal(s: seq<Octet>, rest: seq<Octet>, at: nat, start: nat, acc: U32, groups: nat)
    requires !Truncation(ReadGroups(s, at, start, acc, groups))
    ensures ReadGroups(s + rest, at, start, acc, groups) == ReadGroups(s, at, start, acc, groups)
  {
    hide ReadGroups;
    ReadGroupsTurn(s, at, start, acc, groups);
    ReadGroupsTurn(s + rest, at, start, acc, groups);
    if s != [] {
      assert (s + rest)[1..] == s[1..] + rest;
      if !((groups == 0 && s[0] == 0x80) || acc > 0x1FF_FFFF || (s[0] >= 128 && groups >= 4)) && s[0] >= 128 {
        GroupsFinal(s[1..], rest, at + 1, start, 128 * acc + s[0] % 128, groups + 1);
      }
    }
  }

  lemma TagFinal(s: seq<Octet>, rest: seq<Octet>, base: nat)
    requires !Truncation(ReadTag(s, base))
    ensures ReadTag(s + rest, base) == ReadTag(s, base)
  {
    hide ReadGroups;
    if s != [] && s[0] % 32 == 31 {
      assert (s + rest)[1..] == s[1..] + rest;
      GroupsFinal(s[1..], rest, base + 1, base, 0, 0);
    }
  }

  lemma LengthFinal(s: seq<Octet>, rest: seq<Octet>, at: nat)
    requires !Truncation(ReadLength(s, at))
    ensures ReadLength(s + rest, at) == ReadLength(s, at)
  {
    if s != [] && s[0] >= 0x80 && s[0] % 128 <= |s| - 1 {
      assert (s + rest)[1..1 + s[0] % 128] == s[1..1 + s[0] % 128];
    }
  }

  /** What is read of a buffer, or is wrong with it but for being too short, stays so whatever follows. */
  lemma ElementFinal(s: seq<Octet>, rest: seq<Octet>, base: nat)
    requires !Truncation(ReadElement(s, base))
    ensures ReadElement(s + rest, base) == ReadElement(s, base)
  {
    hide ReadTag, ReadLength;
    TagFinal(s, rest, base);
    if ReadTag(s, base).Ok? {
      var k := ReadTag(s, base).value.1;
      ReadTagCanonical(s, base);
      assert (s + rest)[k..] == s[k..] + rest;
      LengthFinal(s[k..], rest, base + k);
      if ReadLength(s[k..], base + k).Ok? {
        var (len, n) := ReadLength(s[k..], base + k).value;
        LengthOctetsMinimal(s[k..], base + k);
        assert len <= |s| - k - n ==> (s + rest)[k + n..k + n + len] == s[k + n..k + n + len];
      }
    }
  }

  // ---- when a truncation can be mended ----

  /** The number after these groups. */
  function Accumulated(acc: nat, s: seq<Octet>): nat
    decreases |s|
  {
    if s == [] then acc else Accumulated(128 * acc + s[0] % 128, s[1..])
  }

  /** Groups cut off: one more ends them when the number has room for it, and nothing does when not. */
  lemma {:induction false} GroupsMend(s: seq<Octet>, at: nat, start: nat, acc: U32, groups: nat)
    requires Truncation(ReadGroups(s, at, start, acc, groups)) && (groups == 0 ==> acc == 0)
    ensures Accumulated(acc, s) <= 0x1FF_FFFF ==>
              var r := ReadGroups(s + [0x7F], at, start, acc, groups); r.Ok? && r.value.0 >= 31 && r.value.1 == |s| + 1
    ensures Accumulated(acc, s) > 0x1FF_FFFF ==>
              forall rest: seq<Octet> :: ReadGroups(s + rest, at, start, acc, groups).Err?
  {
    hide ReadGroups;
    ReadGroupsTurn(s, at, start, acc, groups);
    if s == [] {
      assert s + [0x7F] == [0x7F];
      ReadGroupsTurn([0x7F], at, start, acc, groups);
      forall rest: seq<Octet>
        ensures acc > 0x1FF_FFFF ==> ReadGroups(s + rest, at, start, acc, groups).Err?
      {
        assert s + rest == rest;
        ReadGroupsTurn(rest, at, start, acc, groups);
      }
    } else {
      GroupsMend(s[1..], at + 1, start, 128 * acc + s[0] % 128, groups + 1);
      assert (s + [0x7F])[1..] == s[1..] + [0x7F];
      ReadGroupsTurn(s + [0x7F], at, start, acc, groups);
      forall rest: seq<Octet> | Accumulated(acc, s) > 0x1FF_FFFF
        ensures ReadGroups(s + rest, at, start, acc, groups).Err?
      {
        assert (s + rest)[1..] == s[1..] + rest;
        ReadGroupsTurn(s + rest, at, start, acc, groups);
      }
    }
  }

  /** The identifier is cut off after so many groups of so large a number that no octet can follow. */
  predicate Hopeless(s: seq<Octet>) {
    s != [] && s[0] % 32 == 31 && Accumulated(0, s[1..]) > 0x1FF_FFFF
  }

  lemma TagMends(s: seq<Octet>, base: nat) returns (rest: seq<Octet>)
    requires Truncation(ReadTag(s, base))
    ensures !Hopeless(s) ==> ReadTag(s + rest, base).Ok? && ReadTag(s + rest, base).value.1 == |s + rest|
    ensures Hopeless(s) ==> forall more: seq<Octet> :: ReadTag(s + more, base).Err?
  {
    hide ReadGroups, Accumulated;
    rest := [0x01];
    if s != [] {
      rest := [0x7F];
      GroupsMend(s[1..], base + 1, base, 0, 0);
      assert (s + rest)[1..] == s[1..] + rest;
      forall more: seq<Octet> | Hopeless(s)
        ensures ReadTag(s + more, base).Err?
      {
        assert (s + more)[1..] == s[1..] + more;
      }
    } else {
      assert s + rest == rest;
    }
  }

  function Zeros(n: nat): (z: seq<Octet>)
    ensures |z| == n
  {
    seq(n, i => 0)
  }

  /** A length cut off is completed by its missing octets. */
  lemma LengthMends(s: seq<Octet>, at: nat) returns (rest: seq<Octet>)
    requires Truncation(ReadLength(s, at))
    ensures ReadLength(s + rest, at).Ok?
  {
    rest := if s == [] then [0] else Zeros(s[0] % 128 - (|s| - 1));
    assert s == [] ==> s + rest == [0];
  }

  lemma ContentsMend(s: seq<Octet>, base: nat) returns (rest: seq<Octet>)
    requires ReadTag(s, base).Ok?
    requires var k := ReadTag(s, base).value.1; k <= |s| && ReadLength(s[k..], base + k).Ok?
    ensures ReadElement(s + rest, base).Ok?
  {
    hide ReadTag, ReadLength;
    var k := ReadTag(s, base).value.1;
    ReadTagCanonical(s, base);
    var len := ReadLength(s[k..], base + k).value.0;
    rest := Zeros(len);
    TagFinal(s, rest, base);
    assert (s + rest)[k..] == s[k..] + rest;
    LengthFinal(s[k..], rest, base + k);
    LengthOctetsMinimal(s[k..], base + k);
  }

  /** Some continuation of the buffer is read. */
  ghost predicate Mendable(s: seq<Octet>, base: nat) {
    exists rest: seq<Octet> :: ReadElement(s + rest, base).Ok?
  }

  lemma Continues(s: seq<Octet>, more: seq<Octet>, base: nat)
    requires Mendable(s + more, base)
    ensures Mendable(s, base)
  {
    var rest: seq<Octet> :| ReadElement(s + more + rest, base).Ok?;
    assert s + (more + rest) == s + more + rest;
  }

  /** An element is truncated exactly when it is not read as it is but some continuation of it would be; or
      when its identifier is cut off where no identifier can go on, which is the one truncation nothing
      mends. Every other error is final. */
  lemma TruncatedExactly(s: seq<Octet>, base: nat)
    ensures Truncation(ReadElement(s, base))
            <==> ReadElement(s, base).Err? && (Mendable(s, base) || (Hopeless(s) && Truncation(ReadTag(s, base))))
    ensures Hopeless(s) && Truncation(ReadTag(s, base)) ==> !Mendable(s, base)
  {
    hide ReadTag, ReadLength, ReadElement, Hopeless;
    TagErrorIsElements(s, base);
    if ReadElement(s, base).Err? && !Truncation(ReadElement(s, base)) {
      forall rest: seq<Octet>
        ensures ReadElement(s + rest, base).Err?
      {
        ElementFinal(s, rest, base);
      }
    } else if Truncation(ReadElement(s, base)) {
      TruncationMends(s, base);
    }
  }

  lemma TagErrorIsElements(s: seq<Octet>, base: nat)
    ensures Truncation(ReadTag(s, base)) ==> Truncation(ReadElement(s, base))
  {
    hide ReadTag;
  }

  lemma TruncationMends(s: seq<Octet>, base: nat)
    requires Truncation(ReadElement(s, base))
    ensures Mendable(s, base) <==> !(Hopeless(s) && Truncation(ReadTag(s, base)))
  {
    hide ReadTag, ReadLength, Hopeless;
    if Truncation(ReadTag(s, base)) {
      var more := TagMends(s, base);
      if !Hopeless(s) {
        assert (s + more)[|s + more|..] == [];
        NoLength(base + |s + more|);
        TagThenMore(s + more, base);
        Continues(s, more, base);
      }
    } else {
      ReadTagCanonical(s, base);
      TagThenMore(s, base);
    }
  }

  lemma NoLength(at: nat)
    ensures Truncation(ReadLength([], at))
  {
  }

  /** Past an identifier that is read, only lengths and contents can be missing. */
  lemma TagThenMore(s: seq<Octet>, base: nat)
    requires ReadTag(s, base).Ok?
    requires var k := ReadTag(s, base).value.1;
             k <= |s| && (ReadLength(s[k..], base + k).Ok? || Truncation(ReadLength(s[k..], base + k)))
    ensures Mendable(s, base)
  {
    hide ReadTag, ReadLength, ReadElement;
    var k := ReadTag(s, base).value.1;
    if ReadLength(s[k..], base + k).Ok? {
      var rest := ContentsMend(s, base);
    } else {
      var more := LengthMends(s[k..], base + k);
      TagFinal(s, more, base);
      assert (s + more)[k..] == s[k..] + more;
      var rest := ContentsMend(s + more, base);
      Continues(s, more, base);
    }
  }

  // ---- where and why ----

  lemma {:induction false} GroupsPoint(s: seq<Octet>, at: nat, start: nat, acc: U32, groups: nat)
    requires start <= at
    ensures PointsInto(ReadGroups(s, at, start, acc, groups), start, at - start + |s|)
    decreases |s|
  {
    hide ReadGroups;
    ReadGroupsTurn(s, at, start, acc, groups);
    if s != [] && s[0] >= 128 && !((groups == 0 && s[0] == 0x80) || acc > 0x1FF_FFFF || groups >= 4) {
      GroupsPoint(s[1..], at + 1, start, 128 * acc + s[0] % 128, groups + 1);
    }
  }

  /** An error is a decode error and points into the buffer or at its end, never past it. */
  lemma ErrorsPointInside(s: seq<Octet>, base: nat)
    ensures PointsInto(ReadElement(s, base), base, |s|)
  {
    hide ReadGroups;
    if s != [] {
      GroupsPoint(s[1..], base + 1, base, 0, 0);
    }
    if ReadTag(s, base).Ok? {
      ReadTagCanonical(s, base);
    }
  }

  /** A length is indefinite exactly when its first octet is 80, and bad exactly when that counts more than
      four octets; nothing else is wrong with one but that it may be cut off. */
  lemma LengthErrorsExactly(s: seq<Octet>, at: nat)
    ensures ReadLength(s, at) == Err(Decode(IndefiniteLength, at)) <==> s != [] && s[0] == 0x80
    ensures ReadLength(s, at) == Err(Decode(BadLength, at)) <==> s != [] && s[0] >= 0x85
    ensures ReadLength(s, at).Err? && s != [] && s[0] < 0x85 && s[0] != 0x80 ==> Truncation(ReadLength(s, at))
  {
  }
}
