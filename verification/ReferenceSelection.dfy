/** The named part of a reference and the selection inside it are the reference: nothing is lost, and
    printed one after the other they are its text. */
module ReferenceSelection {
  import opened Common
  import opened Text
  import opened Reference

  // ---- nothing is lost ----

  /** Put selectors back on components. */
  function Rejoin(parts: seq<Part>, selection: seq<Selector>): seq<Part>
    decreases |selection|
  {
    if selection == [] then parts
    else
      match selection[0]
      case Component(name) => Rejoin(parts + [Part(name, None)], selection[1..])
      case Index(i) =>
        if parts == [] then []
        else Rejoin(parts[..|parts| - 1] + [parts[|parts| - 1].(index := Some(i))], selection[1..])
  }

  function Plain(names: seq<string>): (parts: seq<Part>)
    ensures |parts| == |names| && forall i :: 0 <= i < |names| ==> parts[i] == Part(names[i], None)
  {
    seq(|names|, i requires 0 <= i < |names| => Part(names[i], None))
  }

  lemma {:induction false} RejoinTail(parts: seq<Part>, at: nat, named: nat)
    requires named <= at <= |parts|
    ensures Rejoin(parts[..at], SelectionFrom(parts, at, named)) == parts
    decreases |parts| - at
  {
    if at == |parts| {
      assert parts[..at] == parts;
    } else {
      RejoinTail(parts, at + 1, named);
      RejoinOne(parts[..at], parts[at], SelectionFrom(parts, at + 1, named));
      assert parts[..at] + [parts[at]] == parts[..at + 1];
      SelectionHead(parts, at, named);
    }
  }

  /** What one component below the name contributes. */
  function Selected(p: Part): seq<Selector> {
    if p.index.Some? then [Component(p.name), Index(p.index.value)] else [Component(p.name)]
  }

  lemma SelectionHead(parts: seq<Part>, at: nat, named: nat)
    requires named <= at < |parts|
    ensures SelectionFrom(parts, at, named) == Selected(parts[at]) + SelectionFrom(parts, at + 1, named)
  {
  }

  lemma RejoinOne(done: seq<Part>, p: Part, rest: seq<Selector>)
    ensures Rejoin(done, Selected(p) + rest) == Rejoin(done + [p], rest)
  {
    var bare := done + [Part(p.name, None)];
    assert (Selected(p) + rest)[1..] == Selected(p)[1..] + rest;
    if p.index.Some? {
      assert Selected(p)[1..] == [Index(p.index.value)];
      assert ([Index(p.index.value)] + rest)[1..] == rest;
      assert bare[..|bare| - 1] + [bare[|bare| - 1].(index := p.index)] == done + [p];
    } else {
      assert Selected(p)[1..] + rest == rest;
    }
  }

  lemma {:induction false} NamedSelectNothing(parts: seq<Part>, at: nat, named: nat)
    requires at < named <= |parts| && forall i :: 0 <= i < named - 1 ==> parts[i].index.None?
    ensures SelectionFrom(parts, at, named)
            == (if parts[named - 1].index.Some? then [Index(parts[named - 1].index.value)] else [])
               + SelectionFrom(parts, named, named)
    decreases named - at
  {
    if at + 1 < named {
      NamedSelectNothing(parts, at + 1, named);
    }
  }

  /** The path is the components up to the first indexed one, the selection is the rest, and together
      they are all of them. */
  lemma NothingIsLost(parts: seq<Part>)
    ensures Rejoin(Plain(Path(parts)), Selection(parts)) == parts
    ensures Selection(parts) == [] <==> forall i :: 0 <= i < |parts| ==> parts[i].index.None?
  {
    var n := NamedLen(parts);
    if n > 0 {
      NamedSelectNothing(parts, 0, n);
      RejoinTail(parts, n, n);
      var plain := Plain(Path(parts));
      assert plain[..n - 1] == parts[..n - 1];
      if parts[n - 1].index.Some? {
        var tail := SelectionFrom(parts, n, n);
        assert plain[..n - 1] + [plain[n - 1].(index := parts[n - 1].index)] == parts[..n];
        assert ([Index(parts[n - 1].index.value)] + tail)[1..] == tail;
      } else {
        assert plain == parts && parts[..n] == parts;
      }
    }
  }

  // ---- decimal ----

  lemma {:induction false} DecimalReads(n: nat)
    ensures var d := Decimal(n);
            && d != [] && Digits(d) && ValueOf(d) == n
            && (|d| == 1 || d[0] != '0') && (n > 0 ==> d[0] != '0')
  {
    var last := [('0' as int + n % 10) as char];
    assert ValueOf(last) == n % 10;
    if n >= 10 {
      DecimalReads(n / 10);
      var d := Decimal(n);
      assert d[..|d| - 1] == Decimal(n / 10);
    }
  }

  lemma {:induction false} DecimalIs(d: string)
    requires d != [] && Digits(d) && (|d| == 1 || d[0] != '0')
    ensures Decimal(ValueOf(d)) == d
    ensures d[0] != '0' ==> ValueOf(d) > 0
  {
    var front, last := d[..|d| - 1], Digit(d[|d| - 1]);
    assert d == front + [d[|d| - 1]];
    if |d| > 1 {
      DecimalIs(front);
      assert ValueOf(d) / 10 == ValueOf(front) && ValueOf(d) % 10 == last;
    }
  }

  /** An index without a plus sign or a zero to spare in front. */
  predicate Canonical(digits: string) {
    |digits| == 1 || (digits != [] && digits[0] != '0' && digits[0] != '+')
  }

  lemma CanonicalExactly(digits: string)
    requires ParseU32(digits).Some?
    ensures digits == Decimal(ParseU32(digits).value) <==> Canonical(digits)
    ensures ParseU32(Decimal(ParseU32(digits).value)) == ParseU32(digits)
  {
    var n := ParseU32(digits).value;
    DecimalReads(n);
    if Canonical(digits) {
      DecimalIs(digits);
    }
  }

  // ---- the text of a reference ----

  function IndexText(i: nat): string {
    "(" + Decimal(i) + ")"
  }

  /** A component printed with its index in plain decimal. */
  function PartText(p: Part): string {
    if p.index.Some? then p.name + IndexText(p.index.value) else p.name
  }

  function PartTexts(parts: seq<Part>): (texts: seq<string>)
    ensures |texts| == |parts| && forall i :: 0 <= i < |parts| ==> texts[i] == PartText(parts[i])
  {
    seq(|parts|, i requires 0 <= i < |parts| => PartText(parts[i]))
  }

  /** The printed form of a selection: `.name` and `(index)`. */
  function PrintedSelection(selection: seq<Selector>): string {
    if selection == [] then ""
    else
      (match selection[0]
       case Component(name) => "." + name
       case Index(i) => IndexText(i))
      + PrintedSelection(selection[1..])
  }

  /** The digits of a component's index as written. */
  function IndexDigits(text: string): string
    requires SplitIndex(text).index.Some?
  {
    text[|SplitIndex(text).name| + 1..|text| - 1]
  }

  /** Every index of the reference is written canonically. */
  predicate CanonicalIndices(texts: seq<string>) {
    forall i :: 0 <= i < |texts| && SplitIndex(texts[i]).index.Some? ==> Canonical(IndexDigits(texts[i]))
  }

  /** A legal component is its own printed form exactly when its index is canonical, and its printed
      form is legal and means the same. */
  lemma PartTextReads(text: string)
    requires Legal(text)
    ensures var p := SplitIndex(text);
            && Legal(PartText(p))
            && (PartText(p) == text <==> (p.index.Some? ==> Canonical(IndexDigits(text))))
  {
    hide ParseU32, Name, Decimal, Canonical, SplitIndex, IndexDigits;
    var p := SplitIndex(text);
    if p.index.Some? {
      var digits, decimal := IndexDigits(text), Decimal(p.index.value);
      IndexedText(text);
      CanonicalExactly(digits);
      IndexedReads(p.name, decimal);
      Cancel(p.name, decimal, digits);
      assert PartText(p) == p.name + "(" + decimal + ")";
    } else {
      UnindexedText(text);
    }
  }

  lemma IndexedText(text: string)
    requires SplitIndex(text).index.Some?
    ensures text == SplitIndex(text).name + "(" + IndexDigits(text) + ")"
    ensures ParseU32(IndexDigits(text)) == SplitIndex(text).index
  {
    hide ParseU32;
  }

  lemma UnindexedText(text: string)
    requires SplitIndex(text).index.None?
    ensures SplitIndex(text).name == text
  {
    hide ParseU32;
  }

  lemma Cancel(name: string, a: string, b: string)
    ensures name + "(" + a + ")" == name + "(" + b + ")" <==> a == b
  {
    var x, y := name + "(" + a + ")", name + "(" + b + ")";
    assert x[|name| + 1..|x| - 1] == a && y[|name| + 1..|y| - 1] == b;
  }

  lemma IndexedReads(name: string, digits: string)
    requires Name(name) && ParseU32(digits).Some?
    ensures SplitIndex(name + "(" + digits + ")") == Part(name, ParseU32(digits))
  {
    hide ParseU32, Name;
    NameClean(name);
    var text := name + "(" + digits + ")";
    OpensAfterName(name, digits);
    assert text[..|name|] == name && text[|name| + 1..|text| - 1] == digits;
  }

  lemma OpensAfterName(name: string, digits: string)
    requires '(' !in name
    ensures IndexOf(name + "(" + digits + ")", '(') == |name|
  {
    var text := name + "(" + digits + ")";
    var i := IndexOf(text, '(');
    assert text[|name|] == '(';
    assert text[..|name|] == name;
  }

  lemma {:induction false} PrintedTail(parts: seq<Part>, at: nat, named: nat)
    requires named <= at <= |parts|
    ensures PrintedSelection(SelectionFrom(parts, at, named)) == Printed('.', PartTexts(parts[at..]))
    decreases |parts| - at
  {
    if at < |parts| {
      PrintedTail(parts, at + 1, named);
      SelectionHead(parts, at, named);
      PrintedOne(parts[at], SelectionFrom(parts, at + 1, named));
      assert PartTexts(parts[at..])[1..] == PartTexts(parts[at + 1..]);
    }
  }

  lemma PrintedOne(p: Part, rest: seq<Selector>)
    ensures PrintedSelection(Selected(p) + rest) == "." + PartText(p) + PrintedSelection(rest)
  {
    hide IndexText;
    assert (Selected(p) + rest)[1..] == Selected(p)[1..] + rest;
    if p.index.Some? {
      assert ([Index(p.index.value)] + rest)[1..] == rest;
    } else {
      assert Selected(p)[1..] + rest == rest;
    }
  }

  lemma {:induction false} PrintedAppend(sep: char, a: seq<string>, b: seq<string>)
    ensures Printed(sep, a + b) == Printed(sep, a) + Printed(sep, b)
  {
    if a == [] {
      assert a + b == b;
    } else {
      assert (a + b)[1..] == a[1..] + b;
      PrintedAppend(sep, a[1..], b);
    }
  }

  /** The dotted path followed by the printed selection is every component in plain decimal. */
  lemma PathThenSelection(parts: seq<Part>)
    ensures Printed('.', Path(parts)) + PrintedSelection(Selection(parts)) == Printed('.', PartTexts(parts))
  {
    hide IndexText, Printed, PrintedSelection;
    var n, names := NamedLen(parts), Path(parts);
    if n == 0 {
      NoParts();
    } else {
      var p, tail, front := parts[n - 1], SelectionFrom(parts, n, n), names[..n - 1];
      NamedSelectNothing(parts, 0, n);
      PrintedTail(parts, n, n);
      assert names == front + [p.name];
      PrintedSnoc('.', front, p.name);
      TextsSplit(parts, n, front);
      IndexFirst(p, tail);
      Regroup(Printed('.', front), p.name, PrintedSelection(Selection(parts)), PartText(p),
              Printed('.', PartTexts(parts[n..])));
    }
  }

  lemma TextsSplit(parts: seq<Part>, n: nat, front: seq<string>)
    requires 0 < n <= |parts| && |front| == n - 1 && forall i :: 0 <= i < n - 1 ==> front[i] == PartText(parts[i])
    ensures Printed('.', PartTexts(parts))
            == Printed('.', front) + ['.'] + PartText(parts[n - 1]) + Printed('.', PartTexts(parts[n..]))
  {
    hide PartText, Printed;
    var text := PartText(parts[n - 1]);
    assert PartTexts(parts) == front + [text] + PartTexts(parts[n..]);
    PrintedAppend('.', front + [text], PartTexts(parts[n..]));
    PrintedSnoc('.', front, text);
  }

  lemma Regroup(a: string, p: string, s: string, t: string, r: string)
    requires p + s == t + r
    ensures a + ['.'] + p + s == a + ['.'] + t + r
  {
    assert a + ['.'] + p + s == a + ['.'] + (p + s);
    assert a + ['.'] + t + r == a + ['.'] + (t + r);
  }

  lemma NoParts()
    ensures Printed('.', []) + PrintedSelection([]) == Printed('.', [])
  {
  }

  lemma IndexFirst(p: Part, tail: seq<Selector>)
    ensures p.name + PrintedSelection((if p.index.Some? then [Index(p.index.value)] else []) + tail)
            == PartText(p) + PrintedSelection(tail)
  {
    hide IndexText;
    if p.index.Some? {
      assert ([Index(p.index.value)] + tail)[1..] == tail;
    } else {
      assert [] + tail == tail;
    }
  }

  /** Legal components printed the same are the same. */
  lemma PrintedInjective(sep: char, a: seq<string>, b: seq<string>)
    requires Separator(sep) && AllLegal(a) && AllLegal(b) && |a| == |b| && Printed(sep, a) == Printed(sep, b)
    ensures a == b
  {
    hide AllLegal, Legal, Pieces, Printed;
    if a != [] {
      PiecesOfPrinted(sep, a);
      PiecesOfPrinted(sep, b);
    }
  }

  /** For a dotted reference, the node, the dotted path and the printed selection are together its
      text, exactly when its indices are written without a sign or spare zeros. */
  lemma PathAndSelectionAreTheText(s: string)
    requires Parse(s).Ok? && Parse(s).value.fc.None?
    ensures var r := Parse(s).value;
            r.ld + "/" + r.ln + Printed('.', Path(Parts(r))) + PrintedSelection(Selection(Parts(r))) == Display(r)
            <==> CanonicalIndices(Texts(r.path))
  {
    hide Parse, Texts, Printed, PrintedSelection, Path, Selection, Legal, SplitIndex, PartText, Canonical, IndexDigits;
    var r := Parse(s).value;
    var texts, parts := Texts(r.path), Parts(r);
    ParsedIsLegal(s);
    PathThenSelection(parts);
    var printed := PartTexts(parts);
    forall i | 0 <= i < |texts|
      ensures Legal(printed[i])
      ensures printed[i] == texts[i] <==> (SplitIndex(texts[i]).index.Some? ==> Canonical(IndexDigits(texts[i])))
    {
      PartTextReads(texts[i]);
    }
    Together(r.ld + "/" + r.ln, Printed('.', Path(parts)), PrintedSelection(Selection(parts)), Printed('.', printed));
    if Printed('.', printed) == Printed('.', texts) {
      PrintedInjective('.', printed, texts);
    }
    SamePrefix(r.ld + "/" + r.ln, Printed('.', printed), Printed('.', texts));
    assert (forall i :: 0 <= i < |texts| ==> printed[i] == texts[i]) ==> printed == texts;
  }

  lemma Together(head: string, a: string, b: string, whole: string)
    requires a + b == whole
    ensures head + a + b == head + whole
  {
  }

  lemma SamePrefix(head: string, a: string, b: string)
    ensures head + a == head + b <==> a == b
  {
    assert (head + a)[|head|..] == a && (head + b)[|head|..] == b;
  }
}
