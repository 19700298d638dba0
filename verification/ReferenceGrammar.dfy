/** Which texts are references, and of what, without the functions that take them apart. */
module ReferenceGrammar {
  import opened Common
  import opened Text
  import opened Reference

  // ---- one component ----

  /** A decimal number below 2^32, an optional plus sign before it. */
  predicate Number(d: string, n: int) {
    Unsigned(if |d| > 1 && d[0] == '+' then d[1..] else d, n)
  }

  predicate Unsigned(digits: string, n: int) {
    && digits != [] && (forall i :: 0 <= i < |digits| ==> '0' <= digits[i] <= '9')
    && n == Weighed(digits) && n < 0x1_0000_0000
  }

  /** Digits by their weights, the first weighing most. */
  function Weighed(digits: string): int {
    if digits == [] then 0 else (digits[0] as int - 48) * Tens(|digits| - 1) + Weighed(digits[1..])
  }

  function Tens(n: nat): int {
    if n == 0 then 1 else 10 * Tens(n - 1)
  }

  lemma {:induction false} WeighedIs(s: string)
    requires Digits(s)
    ensures Weighed(s) == ValueOf(s)
  {
    if s != [] {
      WeighedIs(s[..|s| - 1]);
      WeighedSnoc(s[..|s| - 1], s[|s| - 1]);
      assert s == s[..|s| - 1] + [s[|s| - 1]];
    }
  }

  lemma {:induction false} WeighedSnoc(s: string, c: char)
    ensures Weighed(s + [c]) == 10 * Weighed(s) + (c as int - 48)
  {
    if s == [] {
      assert s + [c] == [c] && [c][1..] == [];
    } else {
      assert (s + [c])[1..] == s[1..] + [c];
      WeighedSnoc(s[1..], c);
      assert Tens(|s|) == 10 * Tens(|s| - 1);
    }
  }

  lemma NumbersExactly(d: string, n: int)
    ensures (n >= 0 && ParseU32(d) == Some(n)) <==> Number(d, n)
  {
    hide Weighed, ValueOf;
    var digits := if |d| > 1 && d[0] == '+' then d[1..] else d;
    if Digits(digits) {
      WeighedIs(digits);
    } else {
      assert ParseU32(d) == None;
    }
  }

  /** A name, or a name and a number in parentheses. */
  predicate Plain(t: string) {
    t != [] && forall i ::
                 0 <= i < |t| ==> 'a' <= t[i] <= 'z' || 'A' <= t[i] <= 'Z' || '0' <= t[i] <= '9' || t[i] == '_'
  }

  ghost predicate Indexed(t: string, name: string, n: int) {
    Plain(name) && exists d: string :: Number(d, n) && t == name + "(" + d + ")"
  }

  lemma PlainIsName(t: string)
    ensures Plain(t) <==> Name(t)
  {
  }

  /** A component is legal exactly when it is one of the two, and then that is how it is split. */
  lemma ComponentsExactly(t: string)
    ensures Legal(t) <==> Plain(t) || exists name, n :: Indexed(t, name, n)
    ensures Plain(t) ==> SplitIndex(t) == Part(t, None)
    ensures forall name, n :: Indexed(t, name, n) ==> 0 <= n < 0x1_0000_0000 && SplitIndex(t) == Part(name, Some(n))
  {
    hide Number, ParseU32, Name, Plain;
    PlainIsName(t);
    if Plain(t) {
      NameAlone(t);
    }
    forall name, n | Indexed(t, name, n)
      ensures 0 <= n < 0x1_0000_0000 && SplitIndex(t) == Part(name, Some(n)) && Legal(t)
    {
      var d: string :| Number(d, n) && t == name + "(" + d + ")";
      IndexedSplits(t, name, d, n);
    }
    if Legal(t) && SplitIndex(t).index.Some? {
      var at := IndexOf(t, '(');
      var d := t[at + 1..|t| - 1];
      PlainIsName(t[..at]);
      NumbersExactly(d, ParseU32(d).value);
      assert t == t[..at] + "(" + d + ")";
      assert Indexed(t, t[..at], ParseU32(d).value);
    }
  }

  lemma IndexedSplits(t: string, name: string, d: string, n: int)
    requires Plain(name) && Number(d, n) && t == name + "(" + d + ")"
    ensures 0 <= n < 0x1_0000_0000 && SplitIndex(t) == Part(name, Some(n)) && Legal(t)
  {
    hide Number, ParseU32;
    PlainIsName(name);
    NumbersExactly(d, n);
    NameClean(name);
    assert t[|name|] == '(' && forall k :: 0 <= k < |name| ==> t[k] == name[k];
    assert IndexOf(t, '(') == |name|;
    assert t[|name| + 1..|t| - 1] == d && t[..|name|] == name;
    NumberInRange(d, n);
  }

  lemma NumberInRange(d: string, n: int)
    requires Number(d, n)
    ensures 0 <= n < 0x1_0000_0000 && d != []
  {
    NumbersExactly(d, n);
  }

  // ---- the whole reference ----

  /** What stands from `i` to `j` is a whole component: neither end is inside one, and nothing separates it. */
  predicate Segment(path: string, i: nat, j: nat)
    requires i <= j <= |path|
  {
    && (i == 0 || path[i - 1] in {'.', '$'}) && (j == |path| || path[j] in {'.', '$'})
    && forall k :: i <= k < j ==> path[k] !in {'.', '$'}
  }

  /** Every component of the path is legal; an empty path has none. */
  predicate LegalPath(path: string) {
    path == "" || forall i, j :: 0 <= i <= j <= |path| && Segment(path, i, j) ==> Legal(path[i..j])
  }

  /** Some segment is not legal. */
  predicate Spoilt(path: string) {
    exists i, j :: 0 <= i <= j <= |path| && Segment(path, i, j) && !Legal(path[i..j])
  }

  /** The pieces of a path are its segments. */
  lemma {:induction false} PiecesAreSegments(path: string)
    ensures (exists t <- Pieces(path) :: !Legal(t)) <==> Spoilt(path)
    decreases |path|
  {
    hide Legal, Spoilt;
    var at := FirstSeparator(path);
    if at < |path| {
      PiecesAreSegments(path[at + 1..]);
      FirstOrRest(path, at);
      assert Pieces(path) == [path[..at]] + Pieces(path[at + 1..]);
    } else {
      OnlySegment(path);
    }
  }

  lemma OnlySegment(path: string)
    requires forall k :: 0 <= k < |path| ==> !Separator(path[k])
    ensures Spoilt(path) <==> !Legal(path)
  {
    hide Legal;
    assert Segment(path, 0, |path|) && path[0..|path|] == path;
    forall i, j | 0 <= i <= j <= |path| && Segment(path, i, j)
      ensures i == 0 && j == |path|
    {
      WholeSegment(path, i, j);
    }
  }

  lemma FirstOrRest(path: string, at: nat)
    requires at < |path| && Separator(path[at]) && forall k :: 0 <= k < at ==> !Separator(path[k])
    ensures Spoilt(path) <==> !Legal(path[..at]) || Spoilt(path[at + 1..])
  {
    hide Legal, Segment;
    var rest := path[at + 1..];
    FirstSegment(path, at);
    if Spoilt(path) {
      var i, j :| 0 <= i <= j <= |path| && Segment(path, i, j) && !Legal(path[i..j]);
      SegmentPlace(path, at, i, j);
    }
    if Spoilt(rest) {
      var i, j :| 0 <= i <= j <= |rest| && Segment(rest, i, j) && !Legal(rest[i..j]);
      SegmentBack(path, at, i, j);
    }
  }

  lemma FirstSegment(path: string, at: nat)
    requires at < |path| && Separator(path[at]) && forall k :: 0 <= k < at ==> !Separator(path[k])
    ensures Segment(path, 0, at) && path[0..at] == path[..at]
  {
  }

  lemma WholeSegment(path: string, i: nat, j: nat)
    requires i <= j <= |path| && Segment(path, i, j) && forall k :: 0 <= k < |path| ==> !Separator(path[k])
    ensures i == 0 && j == |path|
  {
  }

  lemma SegmentPlace(path: string, at: nat, i: nat, j: nat)
    requires at < |path| && Separator(path[at]) && forall k :: 0 <= k < at ==> !Separator(path[k])
    requires i <= j <= |path| && Segment(path, i, j)
    ensures var rest := path[at + 1..];
            (i == 0 && j == at)
            || (i > at && Segment(rest, i - at - 1, j - at - 1) && path[i..j] == rest[i - at - 1..j - at - 1])
  {
    var rest := path[at + 1..];
    assert forall k :: 0 <= k < |rest| ==> rest[k] == path[at + 1 + k];
    if i > at {
      forall k | i - at - 1 <= k < j - at - 1
        ensures rest[k] !in {'.', '$'}
      {
        assert rest[k] == path[at + 1 + k];
      }
    }
  }

  lemma SegmentBack(path: string, at: nat, i: nat, j: nat)
    requires at < |path| && Separator(path[at]) && i <= j <= |path| - at - 1 && Segment(path[at + 1..], i, j)
    ensures Segment(path, i + at + 1, j + at + 1) && path[i + at + 1..j + at + 1] == path[at + 1..][i..j]
  {
    var rest := path[at + 1..];
    forall k | i + at + 1 <= k < j + at + 1
      ensures path[k] !in {'.', '$'}
    {
      assert rest[k - at - 1] == path[k];
    }
  }

  /** The forms of a reference: a device, a slash and a node; then nothing or a dot and a path in which no
      dollar stands; or a dollar and a constraint, then nothing or a dollar and a path. */
  predicate Spelled(s: string, r: Reference) {
    var head := r.ld + "/" + r.ln;
    match r.fc
    case None => '$' !in r.path && ((s == head && r.path == "") || s == head + "." + r.path)
    case Some(fc) => (s == head + "$" + FcText(fc) && r.path == "") || s == head + "$" + FcText(fc) + "$" + r.path
  }

  /** A text is parsed as a reference exactly when it is spelled as one whose device and node are names and
      whose components are legal; every other text is refused. */
  lemma ParsesExactly(s: string, r: Reference)
    ensures Parse(s) == Ok(r) <==> Spelled(s, r) && Plain(r.ld) && Plain(r.ln) && LegalPath(r.path)
    ensures Parse(s).Err? ==> Parse(s) == Err(InvalidReference)
  {
    hide Name, Plain, Legal, FcText, FcParse, Shape, Texts, LegalPath;
    PlainIsName(r.ld);
    PlainIsName(r.ln);
    PathsExactly(r.path);
    if Spelled(s, r) && Plain(r.ld) && Plain(r.ln) && LegalPath(r.path) {
      SpelledParses(s, r);
    } else if Parse(s) == Ok(r) {
      ParsedIsSpelled(s, r);
    }
  }

  lemma PathsExactly(path: string)
    ensures LegalPath(path) <==> !exists t <- Texts(path) :: !Legal(t)
  {
    hide Legal;
    PiecesAreSegments(path);
  }

  lemma SpelledParses(s: string, r: Reference)
    requires Spelled(s, r) && Name(r.ld) && Name(r.ln) && !exists t <- Texts(r.path) :: !Legal(t)
    ensures Parse(s) == Ok(r)
  {
    hide Name, Legal, FcText, FcParse, Texts, SplitOnce;
    NameClean(r.ld);
    NameClean(r.ln);
    var rest := s[|r.ld| + 1..];
    assert s == r.ld + ['/'] + rest;
    SplitOnceOfJoin(r.ld, '/', rest);
    match r.fc {
      case None =>
        if s == r.ld + "/" + r.ln && r.path == "" {
          assert rest == r.ln;
          NoSplit(rest, '$');
          NoSplit(rest, '.');
        } else {
          assert rest == r.ln + ['.'] + r.path;
          NoSplit(rest, '$');
          SplitOnceOfJoin(r.ln, '.', r.path);
        }
      case Some(fc) =>
        FcRoundTrip(fc);
        var tail := rest[|r.ln| + 1..];
        assert rest == r.ln + ['$'] + tail;
        SplitOnceOfJoin(r.ln, '$', tail);
        if s == r.ld + "/" + r.ln + "$" + FcText(fc) && r.path == "" {
          assert tail == FcText(fc);
          NoSplit(tail, '$');
        } else {
          assert tail == FcText(fc) + ['$'] + r.path;
          SplitOnceOfJoin(FcText(fc), '$', r.path);
        }
    }
  }

  lemma FcParsed(text: string)
    requires FcParse(text).Some?
    ensures FcText(FcParse(text).value) == text
  {
  }

  lemma ParsedIsSpelled(s: string, r: Reference)
    requires Parse(s) == Ok(r)
    ensures Spelled(s, r)
  {
    hide Name, Legal, FcText, FcParse, Texts, SplitOnce;
    SplitOnceParts(s, '/');
    var rest := SplitOnce(s, '/').value.1;
    assert s == r.ld + "/" + rest;
    SplitOnceParts(rest, '$');
    if SplitOnce(rest, '$').Some? {
      var tail := SplitOnce(rest, '$').value.1;
      SplitOnceParts(tail, '$');
      if SplitOnce(tail, '$').Some? {
        FcParsed(SplitOnce(tail, '$').value.0);
      } else {
        FcParsed(tail);
      }
    } else {
      SplitOnceParts(rest, '.');
    }
  }
}
