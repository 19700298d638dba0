/** Every form of a control structure that is read, member by member, and what equality of two control
    values means. */
module ControlForms {
  import opened Common
  import opened Octets
  import opened Time
  import opened Data
  import opened ControlMessage

  // ---- the structures ----

  /** An originator: a category in either integer encoding and an identifier in any string type, and
      whatever follows. */
  predicate OriginForm(v: Value, o: Origin) {
    && (v.Structure? || v.Array?) && |v.members| >= 2
    && (v.members[0] == Integer(o.category) || (o.category >= 0 && v.members[0] == Unsigned(o.category)))
    && (v.members[1] == OctetString(o.identifier) || v.members[1] == VisibleString(o.identifier)
        || v.members[1] == MmsString(o.identifier))
  }

  /** Two bits of a bit string that has six unused in its last octet: synchrocheck, then interlocking. */
  predicate CheckForm(v: Value, c: Check) {
    && v.BitString? && v.unused == 6 && v.bytes != []
    && (c.synchro <==> v.bytes[0] >= 128) && (c.interlock <==> v.bytes[0] % 128 >= 64)
  }

  /** The members: the value, a time of operation or none, the originator, a number or none, the stamp, the
      test flag, and checks with whatever follows or nothing. */
  function Form(ctlVal: Value, tm: Option<UtcTime>, from: Value, num: Option<U8>, t: UtcTime, test: bool,
                checks: seq<Value>): seq<Value> {
    [ctlVal] + (if tm.Some? then [Utc(tm.value)] else []) + [from] + (if num.Some? then [Unsigned(num.value)] else [])
    + [Utc(t), Boolean(test)] + checks
  }

  lemma OriginFormsExactly(v: Value, o: Origin)
    ensures OriginOfValue(v) == Some(o) <==> OriginForm(v, o)
  {
  }

  lemma CheckFormsExactly(v: Value, c: Check)
    ensures CheckOfValue(v) == Some(c) <==> CheckForm(v, c)
  {
  }

  /** Every such structure is read as that request; without a number it is 0, without checks none. */
  lemma FormReads(isArray: bool, ctlVal: Value, tm: Option<UtcTime>, from: Value, origin: Origin, num: Option<U8>,
                  t: UtcTime, test: bool, checks: seq<Value>, check: Check)
    requires OriginForm(from, origin)
    requires if checks == [] then check == Check(false, false) else CheckForm(checks[0], check)
    ensures var members := Form(ctlVal, tm, from, num, t, test, checks);
            RequestOfValue(if isArray then Array(members) else Structure(members))
            == Some(ControlRequest(ctlVal, tm, origin, if num.Some? then num.value else 0, t, test, check))
  {
    hide OriginOfValue, OriginForm, CheckOfValue, CheckForm;
    OriginFormsExactly(from, origin);
    OriginIsContainer(from, origin);
    if checks != [] {
      CheckFormsExactly(checks[0], check);
    }
    FormMembers(ctlVal, tm, from, num, t, test, checks);
  }

  lemma OriginIsContainer(v: Value, o: Origin)
    requires OriginForm(v, o)
    ensures !v.Utc?
  {
  }

  /** Where each member stands. */
  lemma FormMembers(ctlVal: Value, tm: Option<UtcTime>, from: Value, num: Option<U8>, t: UtcTime, test: bool,
                    checks: seq<Value>)
    ensures var m, at := Form(ctlVal, tm, from, num, t, test, checks), if tm.Some? then 2 else 1;
            var rest := if num.Some? then at + 2 else at + 1;
            && |m| == rest + 2 + |checks| && m[0] == ctlVal && (tm.Some? ==> m[1] == Utc(tm.value)) && m[at] == from
            && (num.Some? ==> m[at + 1] == Unsigned(num.value)) && m[rest] == Utc(t) && m[rest + 1] == Boolean(test)
            && (checks != [] ==> m[rest + 2] == checks[0])
  {
  }

  /** The forms that are written: everything with its number, category and identifier in the types meant for
      them, the checks in the two top bits and nothing below; a cancel the same without them. */
  lemma WrittenForms(r: ControlRequest) returns (bits: Octet)
    ensures (bits >= 128 <==> r.check.synchro) && (bits % 128 >= 64 <==> r.check.interlock) && bits % 64 == 0
    ensures var from := Structure([Integer(r.origin.category), OctetString(r.origin.identifier)]);
            && RequestToValue(r)
               == Structure(Form(r.ctlVal, r.operTm, from, Some(r.ctlNum), r.t, r.test, [BitString(6, [bits])]))
            && RequestToCancelValue(r) == Structure(Form(r.ctlVal, r.operTm, from, Some(r.ctlNum), r.t, r.test, []))
  {
    bits := CheckToValue(r.check).bytes[0];
    var from := OriginToValue(r.origin);
    var rest := [from, Unsigned(r.ctlNum), Utc(r.t), Boolean(r.test)];
    var front := [r.ctlVal] + (if r.operTm.Some? then [Utc(r.operTm.value)] else []);
    assert RequestToValue(r).members == front + rest + [CheckToValue(r.check)];
    assert Form(r.ctlVal, r.operTm, from, Some(r.ctlNum), r.t, r.test, []) == front + rest;
    assert Form(r.ctlVal, r.operTm, from, Some(r.ctlNum), r.t, r.test, [CheckToValue(r.check)])
           == front + rest + [CheckToValue(r.check)];
    assert (front + rest + [CheckToValue(r.check)])[..|front + rest|] == front + rest;
  }

  /** Members that stand there make the form. */
  lemma MembersForm(m: seq<Value>, ctlVal: Value, tm: Option<UtcTime>, from: Value, num: Option<U8>, t: UtcTime,
                    test: bool, checks: seq<Value>)
    requires var at := if tm.Some? then 2 else 1; var rest := if num.Some? then at + 2 else at + 1;
             && |m| == rest + 2 + |checks| && m[0] == ctlVal && (tm.Some? ==> m[1] == Utc(tm.value)) && m[at] == from
             && (num.Some? ==> m[at + 1] == Unsigned(num.value)) && m[rest] == Utc(t) && m[rest + 1] == Boolean(test)
             && m[rest + 2..] == checks
    ensures m == Form(ctlVal, tm, from, num, t, test, checks)
  {
    var at := if tm.Some? then 2 else 1;
    var rest := if num.Some? then at + 2 else at + 1;
    assert m == m[..rest + 2] + checks;
    if tm.Some? && num.Some? {
      assert m[..rest + 2] == [ctlVal, Utc(tm.value), from, Unsigned(num.value), Utc(t), Boolean(test)];
    } else if tm.Some? {
      assert m[..rest + 2] == [ctlVal, Utc(tm.value), from, Utc(t), Boolean(test)];
    } else if num.Some? {
      assert m[..rest + 2] == [ctlVal, from, Unsigned(num.value), Utc(t), Boolean(test)];
    } else {
      assert m[..rest + 2] == [ctlVal, from, Utc(t), Boolean(test)];
    }
  }

  /** And nothing else is read as one. */
  lemma OnlyFormsRead(v: Value) returns (from: Value, num: Option<U8>, checks: seq<Value>)
    requires RequestOfValue(v).Some?
    ensures var r := RequestOfValue(v).value;
            && (v.Structure? || v.Array?) && OriginForm(from, r.origin)
            && v.members == Form(r.ctlVal, r.operTm, from, num, r.t, r.test, checks)
            && (num.Some? ==> num.value == r.ctlNum) && (num.None? ==> r.ctlNum == 0)
            && (if checks == [] then r.check == Check(false, false) else CheckForm(checks[0], r.check))
  {
    hide OriginOfValue, OriginForm, CheckOfValue, CheckForm, Form;
    var r, m := RequestOfValue(v).value, v.members;
    var at := if r.operTm.Some? then 2 else 1;
    from := m[at];
    OriginFormsExactly(from, r.origin);
    num := if at + 1 < |m| && !m[at + 1].Utc? then Some(r.ctlNum) else None;
    var rest := if num.Some? then at + 2 else at + 1;
    checks := m[rest + 2..];
    if checks != [] {
      CheckFormsExactly(checks[0], r.check);
    }
    MembersForm(m, r.ctlVal, r.operTm, from, num, r.t, r.test, checks);
  }

  // ---- equality of control values ----

  function Pow2(n: nat): (p: nat)
    ensures p >= 1
  {
    if n == 0 then 1 else 2 * Pow2(n - 1)
  }

  /** The magnitude of a float, in units of the least one there is: `m` values of the fraction. */
  function Magnitude(m: nat, exponent: nat, fraction: nat): nat {
    if exponent == 0 then fraction else (m + fraction) * Pow2(exponent - 1)
  }

  lemma {:induction false} Pow2Mono(a: nat, b: nat)
    requires a <= b
    ensures Pow2(a) <= Pow2(b)
  {
    if a < b {
      Pow2Mono(a, b - 1);
    }
  }

  lemma Scales(m: nat, f: nat, q: nat, p: nat)
    requires f < m && q >= 1 && 2 * q <= p
    ensures (m + f) * q < m * p
  {
    MulMono(m + f, 2 * m - 1, q);
    MulMono(2 * q, p, m);
    assert (2 * m - 1) * q == m * (2 * q) - q;
  }

  /** A larger exponent is a larger magnitude. */
  lemma ExponentDecides(m: nat, e: nat, f: nat, e': nat, f': nat)
    requires f < m && f' < m && e < e'
    ensures Magnitude(m, e, f) < Magnitude(m, e', f')
  {
    hide Pow2;
    var p := Pow2(e' - 1);
    MulMono(m, m + f', p);
    if e == 0 {
      MulMono(1, p, m);
    } else {
      Pow2Mono(e, e' - 1);
      Pow2Doubles(e);
      Scales(m, f, Pow2(e - 1), p);
    }
  }

  lemma Pow2Doubles(e: nat)
    requires e > 0
    ensures Pow2(e) == 2 * Pow2(e - 1)
  {
  }

  lemma MagnitudesDiffer(m: nat, e: nat, f: nat, e': nat, f': nat)
    requires f < m && f' < m
    ensures Magnitude(m, e, f) == Magnitude(m, e', f') <==> e == e' && f == f'
    ensures Magnitude(m, e, f) == 0 <==> e == 0 && f == 0
  {
    if e < e' {
      ExponentDecides(m, e, f, e', f');
    } else if e' < e {
      ExponentDecides(m, e', f', e, f);
    } else if e > 0 {
      if f < f' {
        MulMono(m + f + 1, m + f', Pow2(e - 1));
      } else if f' < f {
        MulMono(m + f' + 1, m + f, Pow2(e - 1));
      }
    }
    if e > 0 {
      MulMono(1, m + f, Pow2(e - 1));
    }
  }

  /** What a float that is a number stands for, in units of the least one there is of its width: a sign bit,
      the exponent and the fraction; the infinities come after everything finite. */
  function Number32(bits: U32): int {
    var magnitude: int := Magnitude(0x80_0000, bits / 0x80_0000 % 0x100, bits % 0x80_0000);
    if bits >= 0x8000_0000 then -magnitude else magnitude
  }

  function Number64(bits: U64): int {
    var magnitude: int :=
      Magnitude(0x10_0000_0000_0000, bits / 0x10_0000_0000_0000 % 0x800, bits % 0x10_0000_0000_0000);
    if bits >= 0x8000_0000_0000_0000 then -magnitude else magnitude
  }

  /** The largest exponent with a fraction is no number. */
  predicate NoNumber32(bits: U32) {
    bits / 0x80_0000 % 0x100 == 0xFF && bits % 0x80_0000 != 0
  }

  predicate NoNumber64(bits: U64) {
    bits / 0x10_0000_0000_0000 % 0x800 == 0x7FF && bits % 0x10_0000_0000_0000 != 0
  }

  /** The bits below the sign are the exponent and the fraction. */
  lemma Fields(bits: nat, m: nat, top: nat)
    requires (m == 0x80_0000 && top == 0x100) || (m == 0x10_0000_0000_0000 && top == 0x800)
    requires bits < 2 * (top * m)
    ensures var low := bits % (top * m); low == bits / m % top * m + bits % m
    ensures bits == (if bits >= top * m then top * m else 0) + bits % (top * m)
  {
    if m == 0x80_0000 {
    } else {
    }
  }

  lemma Fields32(bits: U32)
    ensures var low, e, f := bits % 0x8000_0000, bits / 0x80_0000 % 0x100, bits % 0x80_0000;
            && low == e * 0x80_0000 + f && bits == (if bits >= 0x8000_0000 then 0x8000_0000 else 0) + low
            && (NaN32(bits) <==> NoNumber32(bits)) && (low == 0 <==> e == 0 && f == 0)
  {
    Fields(bits, 0x80_0000, 0x100);
  }

  lemma Fields64(bits: U64)
    ensures var low, e, f := bits % 0x8000_0000_0000_0000, bits / 0x10_0000_0000_0000 % 0x800,
                             bits % 0x10_0000_0000_0000;
            && low == e * 0x10_0000_0000_0000 + f
            && bits == (if bits >= 0x8000_0000_0000_0000 then 0x8000_0000_0000_0000 else 0) + low
            && (NaN64(bits) <==> NoNumber64(bits)) && (low == 0 <==> e == 0 && f == 0)
  {
    Fields(bits, 0x10_0000_0000_0000, 0x800);
  }

  /** Two floats are equal exactly when both are numbers and the same number, whatever their bits. */
  lemma FloatsEqualAsNumbers(a: U32, b: U32)
    ensures SameValue(Float32(a), Float32(b)) <==> !NoNumber32(a) && !NoNumber32(b) && Number32(a) == Number32(b)
  {
    hide Magnitude, NaN32, NoNumber32;
    Fields32(a);
    Fields32(b);
    MagnitudesDiffer(0x80_0000, a / 0x80_0000 % 0x100, a % 0x80_0000, b / 0x80_0000 % 0x100, b % 0x80_0000);
  }

  lemma DoublesEqualAsNumbers(a: U64, b: U64)
    ensures SameValue(Float64(a), Float64(b)) <==> !NoNumber64(a) && !NoNumber64(b) && Number64(a) == Number64(b)
  {
    hide Magnitude, NaN64, NoNumber64;
    Fields64(a);
    Fields64(b);
    MagnitudesDiffer(0x10_0000_0000_0000, a / 0x10_0000_0000_0000 % 0x800, a % 0x10_0000_0000_0000,
                     b / 0x10_0000_0000_0000 % 0x800, b % 0x10_0000_0000_0000);
  }

  /** Any other two values are equal when they are the same, and arrays and structures member by member. */
  lemma ValuesEqual(a: Value, b: Value)
    ensures !Container(a) && !a.Float32? && !a.Float64? ==> (SameValue(a, b) <==> a == b)
    ensures Container(a) ==>
              (SameValue(a, b) <==>
                 && (a.Array? <==> b.Array?) && (a.Structure? <==> b.Structure?) && |a.members| == |b.members|
                 && forall i :: 0 <= i < |a.members| ==> SameValue(a.members[i], b.members[i]))
    ensures SameValue(a, b) ==> (a.Float32? <==> b.Float32?) && (a.Float64? <==> b.Float64?)
  {
    if Container(a) && Container(b) {
      MembersEqual(a.members, b.members);
    }
  }

  lemma {:induction false} MembersEqual(a: seq<Value>, b: seq<Value>)
    ensures SameValues(a, b) <==> |a| == |b| && forall i :: 0 <= i < |a| ==> SameValue(a[i], b[i])
  {
    hide SameValue;
    if a != [] && |a| == |b| {
      MembersEqual(a[1..], b[1..]);
      assert forall i :: 1 <= i < |a| ==> a[i] == a[1..][i - 1] && b[i] == b[1..][i - 1];
    }
  }
}
