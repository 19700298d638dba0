/** Object references: parsed, printed, mapped to MMS names, and split into the named part and the
    selection inside it. */
module Reference {
  import opened Common
  import opened Octets
  import opened Text

  /** Functional constraints. */
  datatype Fc =
    | ST | MX | SP | SV | CF | DC | SG | SE | SR | OR | BL | EX | CO | US | MS | RP | BR | LG | GO | GS | XX

  function FcText(fc: Fc): string {
    match fc
    case ST => "ST" case MX => "MX" case SP => "SP" case SV => "SV" case CF => "CF" case DC => "DC" case SG => "SG"
    case SE => "SE" case SR => "SR" case OR => "OR" case BL => "BL" case EX => "EX" case CO => "CO" case US => "US"
    case MS => "MS" case RP => "RP" case BR => "BR" case LG => "LG" case GO => "GO" case GS => "GS" case XX => "XX"
  }

  function FcParse(s: string): Option<Fc> {
    if s == "ST" then Some(ST) else if s == "MX" then Some(MX) else if s == "SP" then Some(SP)
    else if s == "SV" then Some(SV) else if s == "CF" then Some(CF) else if s == "DC" then Some(DC)
    else if s == "SG" then Some(SG) else if s == "SE" then Some(SE) else if s == "SR" then Some(SR)
    else if s == "OR" then Some(OR) else if s == "BL" then Some(BL) else if s == "EX" then Some(EX)
    else if s == "CO" then Some(CO) else if s == "US" then Some(US) else if s == "MS" then Some(MS)
    else if s == "RP" then Some(RP) else if s == "BR" then Some(BR) else if s == "LG" then Some(LG)
    else if s == "GO" then Some(GO) else if s == "GS" then Some(GS) else if s == "XX" then Some(XX)
    else None
  }

  /** One step inside a named variable. */
  datatype Selector = Component(name: string) | Index(index: U32)

  /** A parsed reference; `path` is the text below the node, as written. */
  datatype Reference = Reference(ld: string, ln: string, fc: Option<Fc>, path: string)

  /** A component and the array index that follows it, if any. */
  datatype Part = Part(name: string, index: Option<U32>)

  predicate NameChar(c: char) {
    'a' <= c <= 'z' || 'A' <= c <= 'Z' || '0' <= c <= '9' || c == '_'
  }

  predicate Name(s: string) {
    s != [] && forall i :: 0 <= i < |s| ==> NameChar(s[i])
  }

  // ---- decimal numbers ----

  predicate Digits(s: string) {
    forall i :: 0 <= i < |s| ==> '0' <= s[i] <= '9'
  }

  function Digit(c: char): nat
    requires '0' <= c <= '9'
  {
    c as int - '0' as int
  }

  function ValueOf(s: string): nat
    requires Digits(s)
  {
    if s == [] then 0 else 10 * ValueOf(s[..|s| - 1]) + Digit(s[|s| - 1])
  }

  /** An unsigned 32-bit number in decimal, an optional plus sign before it. */
  function ParseU32(s: string): Option<U32> {
    var digits := if |s| > 1 && s[0] == '+' then s[1..] else s;
    if digits != [] && Digits(digits) && ValueOf(digits) < 0x1_0000_0000 then Some(ValueOf(digits)) else None
  }

  function Decimal(n: nat): string {
    var last := [('0' as int + n % 10) as char];
    if n < 10 then last else Decimal(n / 10) + last
  }

  // ---- one component ----

  /** `name(index)` as its name and index, and anything else as itself. */
  function SplitIndex(part: string): Part {
    var i := IndexOf(part, '(');
    if i < |part| && |part| >= i + 2 && part[|part| - 1] == ')' && ParseU32(part[i + 1..|part| - 1]).Some? then
      Part(part[..i], ParseU32(part[i + 1..|part| - 1]))
    else Part(part, None)
  }

  /** A component a reference may have. */
  predicate Legal(part: string) {
    var p := SplitIndex(part);
    Name(p.name) && (p.index.None? ==> |p.name| == |part|)
  }

  // ---- the path ----

  predicate Separator(c: char) {
    c == '.' || c == '$'
  }

  function FirstSeparator(s: string): (i: nat)
    ensures i <= |s| && (i < |s| ==> Separator(s[i]))
    ensures forall k :: 0 <= k < i ==> !Separator(s[k])
  {
    if s == [] || Separator(s[0]) then 0 else 1 + FirstSeparator(s[1..])
  }

  /** The text between separators of either kind. */
  function Pieces(s: string): (r: seq<string>)
    decreases |s|
  {
    var i := FirstSeparator(s);
    if i == |s| then [s] else [s[..i]] + Pieces(s[i + 1..])
  }

  /** The components below the node, as written. */
  function Texts(path: string): seq<string> {
    if path == [] then [] else Pieces(path)
  }

  // ---- parsing and printing ----

  /** What follows the slash as a node, a constraint and a path: the MMS form when there is a `$`. */
  function Shape(rest: string): Option<(string, Option<Fc>, string)> {
    match SplitOnce(rest, '$')
    case Some((ln, tail)) =>
      (match SplitOnce(tail, '$')
       case Some((fc, path)) => if FcParse(fc).Some? then Some((ln, FcParse(fc), path)) else None
       case None => if FcParse(tail).Some? then Some((ln, FcParse(tail), "")) else None)
    case None =>
      match SplitOnce(rest, '.')
      case Some((ln, path)) => Some((ln, None, path))
      case None => Some((rest, None, ""))
  }

  function Parse(s: string): Result<Reference> {
    match SplitOnce(s, '/')
    case None => Err(InvalidReference)
    case Some((ld, rest)) =>
      if !Name(ld) then Err(InvalidReference)
      else
        match Shape(rest)
        case None => Err(InvalidReference)
        case Some((ln, fc, path)) =>
          if !Name(ln) || exists t <- Texts(path) :: !Legal(t) then Err(InvalidReference)
          else Ok(Reference(ld, ln, fc, path))
  }

  /** Each piece with `sep` before it. */
  function Printed(sep: char, texts: seq<string>): string {
    if texts == [] then "" else [sep] + texts[0] + Printed(sep, texts[1..])
  }

  /** A reference written out. */
  function Written(ld: string, ln: string, fc: Option<Fc>, texts: seq<string>): string {
    ld + "/" + ln + if fc.Some? then "$" + FcText(fc.value) + Printed('$', texts) else Printed('.', texts)
  }

  function Display(r: Reference): string {
    Written(r.ld, r.ln, r.fc, Texts(r.path))
  }

  // ---- the named part and the selection ----

  function Parts(r: Reference): (parts: seq<Part>) {
    PartsOf(Texts(r.path))
  }

  function PartsOf(texts: seq<string>): (parts: seq<Part>)
    ensures |parts| == |texts| && forall i :: 0 <= i < |texts| ==> parts[i] == SplitIndex(texts[i])
  {
    seq(|texts|, i requires 0 <= i < |texts| => SplitIndex(texts[i]))
  }

  /** How many components make up the name: up to and including the first with an index. */
  function NamedLen(parts: seq<Part>): (n: nat)
    ensures n <= |parts| && (n < |parts| ==> n > 0 && parts[n - 1].index.Some?)
    ensures forall i :: 0 <= i < n - 1 ==> parts[i].index.None?
  {
    if parts == [] then 0 else if parts[0].index.Some? then 1 else 1 + NamedLen(parts[1..])
  }

  function Path(parts: seq<Part>): (names: seq<string>) {
    var n := NamedLen(parts);
    seq(n, i requires 0 <= i < n => parts[i].name)
  }

  /** The selectors of `parts[at..]` when the name is `named` components long. */
  function SelectionFrom(parts: seq<Part>, at: nat, named: nat): seq<Selector>
    requires at <= |parts|
    decreases |parts| - at
  {
    if at == |parts| then []
    else
      (if at + 1 > named then [Component(parts[at].name)] else [])
      + (if parts[at].index.Some? then [Index(parts[at].index.value)] else [])
      + SelectionFrom(parts, at + 1, named)
  }

  function Selection(parts: seq<Part>): seq<Selector> {
    SelectionFrom(parts, 0, NamedLen(parts))
  }

  // ---- the loops of the source ----

  method CountNamed(parts: seq<Part>) returns (n: nat)
    ensures n == NamedLen(parts)
  {
    n := 0;
    while n < |parts|
      invariant n <= |parts|
      invariant NamedLen(parts) == n + NamedLen(parts[n..])
    {
      assert parts[n..][1..] == parts[n + 1..];
      n := n + 1;
      if parts[n - 1].index.Some? {
        break;
      }
    }
  }

  lemma SelectionStep(out: seq<Selector>, parts: seq<Part>, at: nat, named: nat)
    requires at < |parts|
    ensures out + SelectionFrom(parts, at, named)
            == out + (if at + 1 > named then [Component(parts[at].name)] else [])
               + (if parts[at].index.Some? then [Index(parts[at].index.value)] else [])
               + SelectionFrom(parts, at + 1, named)
  {
    Associates(out, if at + 1 > named then [Component(parts[at].name)] else [],
               if parts[at].index.Some? then [Index(parts[at].index.value)] else [],
               SelectionFrom(parts, at + 1, named));
  }

  lemma Associates(a: seq<Selector>, b: seq<Selector>, c: seq<Selector>, d: seq<Selector>)
    ensures a + (b + c + d) == a + b + c + d
    ensures a + [] == a
  {
  }

  method CollectSelection(parts: seq<Part>) returns (out: seq<Selector>)
    ensures out == Selection(parts)
  {
    hide NamedLen, SelectionFrom;
    var named := CountNamed(parts);
    out := [];
    for n := 0 to |parts|
      invariant out + SelectionFrom(parts, n, named) == Selection(parts)
    {
      SelectionStep(out, parts, n, named);
      if n + 1 > named {
        out := out + [Component(parts[n].name)];
      }
      if parts[n].index.Some? {
        out := out + [Index(parts[n].index.value)];
      }
    }
    NothingMore(parts, named);
  }

  lemma NothingMore(parts: seq<Part>, named: nat)
    ensures SelectionFrom(parts, |parts|, named) == []
  {
  }

  /** The MMS item of a reference under a constraint: the node, the constraint and the named part. */
  function ToMmsUnder(r: Reference, fc: Fc): string {
    r.ln + "$" + FcText(fc) + Printed('$', Path(Parts(r)))
  }

  lemma {:induction false} PrintedSnoc(sep: char, texts: seq<string>, t: string)
    ensures Printed(sep, texts + [t]) == Printed(sep, texts) + [sep] + t
  {
    if texts != [] {
      assert (texts + [t])[1..] == texts[1..] + [t];
      PrintedSnoc(sep, texts[1..], t);
    }
  }

  method MmsItem(r: Reference, fc: Fc) returns (item: string)
    ensures item == ToMmsUnder(r, fc)
  {
    hide FcText, Path, Parts;
    item := r.ln + "$" + FcText(fc);
    var path := Path(Parts(r));
    for i := 0 to |path|
      invariant item == r.ln + "$" + FcText(fc) + Printed('$', path[..i])
    {
      PrintedSnoc('$', path[..i], path[i]);
      assert path[..i + 1] == path[..i] + [path[i]];
      item := item + "$" + path[i];
    }
    assert path[..|path|] == path;
  }

  // ---- parse and print agree ----

  predicate AllLegal(texts: seq<string>) {
    forall i :: 0 <= i < |texts| ==> Legal(texts[i])
  }

  lemma DigitsClean(s: string)
    requires ParseU32(s).Some?
    ensures forall i :: 0 <= i < |s| ==> !Separator(s[i])
  {
  }

  /** A component's text: its name, and its index in parentheses. */
  lemma LegalShape(part: string)
    requires Legal(part)
    ensures part != [] && forall i :: 0 <= i < |part| ==> !Separator(part[i])
  {
    hide ParseU32;
    var at := IndexOf(part, '(');
    if SplitIndex(part).index.Some? {
      DigitsClean(part[at + 1..|part| - 1]);
      forall i | 0 <= i < |part|
        ensures !Separator(part[i])
      {
        if i < at {
          assert SplitIndex(part).name[i] == part[i];
        } else if at < i < |part| - 1 {
          assert part[i] == part[at + 1..|part| - 1][i - at - 1];
        }
      }
    }
  }

  lemma {:induction false} FirstSeparatorIs(s: string, i: nat)
    requires i <= |s| && (i < |s| ==> Separator(s[i])) && forall k :: 0 <= k < i ==> !Separator(s[k])
    ensures FirstSeparator(s) == i
  {
    if i > 0 {
      FirstSeparatorIs(s[1..], i - 1);
    }
  }

  lemma PiecesHead(t: string, sep: char, rest: string)
    requires Separator(sep) && forall i :: 0 <= i < |t| ==> !Separator(t[i])
    ensures Pieces(t) == [t] && Pieces(t + [sep] + rest) == [t] + Pieces(rest)
  {
    hide Separator;
    var whole := t + [sep] + rest;
    FirstSeparatorIs(t, |t|);
    assert whole[..|t|] == t && whole[|t| + 1..] == rest;
    FirstSeparatorIs(whole, |t|);
  }

  lemma PrintedCons(sep: char, texts: seq<string>)
    requires texts != []
    ensures |texts| == 1 ==> Printed(sep, texts)[1..] == texts[0] && texts == [texts[0]]
    ensures |texts| > 1
            ==> Printed(sep, texts)[1..] == texts[0] + [sep] + Printed(sep, texts[1..])[1..]
                && texts == [texts[0]] + texts[1..]
  {
    assert Printed(sep, texts)[1..] == texts[0] + Printed(sep, texts[1..]);
  }

  /** Splitting what was joined gives the pieces back. */
  lemma {:induction false} PiecesOfPrinted(sep: char, texts: seq<string>)
    requires Separator(sep) && texts != [] && AllLegal(texts)
    ensures Pieces(Printed(sep, texts)[1..]) == texts
  {
    hide Legal, AllLegal, Pieces, Separator;
    HeadTail(texts);
    LegalShape(texts[0]);
    PrintedCons(sep, texts);
    PiecesHead(texts[0], sep, if |texts| > 1 then Printed(sep, texts[1..])[1..] else "");
    if |texts| > 1 {
      PiecesOfPrinted(sep, texts[1..]);
    }
  }

  lemma HeadTail(texts: seq<string>)
    requires texts != [] && AllLegal(texts)
    ensures Legal(texts[0]) && AllLegal(texts[1..])
  {
    hide Legal;
  }

  lemma {:induction false} PrintedClean(sep: char, texts: seq<string>, c: char)
    requires AllLegal(texts) && c != sep && Separator(c)
    ensures c !in Printed(sep, texts)
  {
    hide Legal, AllLegal;
    if texts != [] {
      HeadTail(texts);
      LegalShape(texts[0]);
      PrintedClean(sep, texts[1..], c);
    }
  }

  lemma FcRoundTrip(fc: Fc)
    ensures FcParse(FcText(fc)) == Some(fc) && '$' !in FcText(fc)
  {
    hide FcParse;
    FcReads(fc);
  }

  lemma FcReads(fc: Fc)
    ensures FcParse(FcText(fc)) == Some(fc)
  {
    hide FcParse, FcText;
    FcReadsData(fc);
    FcReadsServices(fc);
    FcReadsBlocks(fc);
  }

  /** The constraints of data attributes, and the ones of control blocks and services. */
  predicate DataFc(fc: Fc) {
    fc.ST? || fc.MX? || fc.SP? || fc.SV? || fc.CF? || fc.DC? || fc.SG? || fc.SE? || fc.SR? || fc.OR? || fc.BL?
  }

  predicate ServiceFc(fc: Fc) {
    fc.EX? || fc.CO? || fc.US? || fc.MS? || fc.RP?
  }

  lemma FcReadsData(fc: Fc)
    ensures DataFc(fc) ==> FcParse(FcText(fc)) == Some(fc)
  {
  }

  lemma FcReadsServices(fc: Fc)
    ensures ServiceFc(fc) ==> FcParse(FcText(fc)) == Some(fc)
  {
  }

  lemma FcReadsBlocks(fc: Fc)
    ensures !DataFc(fc) && !ServiceFc(fc) ==> FcParse(FcText(fc)) == Some(fc)
  {
  }

  lemma PrintedHead(sep: char, texts: seq<string>)
    requires texts != []
    ensures Printed(sep, texts) == [sep] + Printed(sep, texts)[1..]
  {
  }

  lemma NameClean(s: string)
    requires Name(s)
    ensures '/' !in s && '$' !in s && '.' !in s && '(' !in s
  {
  }

  /** The path a reference written out is read back with. */
  function PathOf(fc: Option<Fc>, texts: seq<string>): string {
    if texts == [] then "" else Printed(if fc.Some? then '$' else '.', texts)[1..]
  }

  lemma ShapeOfMms(ln: string, fc: Fc, texts: seq<string>)
    requires Name(ln) && AllLegal(texts)
    ensures Shape(ln + "$" + FcText(fc) + Printed('$', texts)) == Some((ln, Some(fc), PathOf(Some(fc), texts)))
  {
    hide Name, AllLegal, FcText, FcParse, SplitOnce;
    NameClean(ln);
    FcRoundTrip(fc);
    var tail := FcText(fc) + Printed('$', texts);
    SplitOnceOfJoin(ln, '$', tail);
    assert ln + "$" + FcText(fc) + Printed('$', texts) == ln + ['$'] + tail;
    if texts == [] {
      assert tail == FcText(fc);
      NoSplit(tail, '$');
    } else {
      PrintedHead('$', texts);
      SplitOnceOfJoin(FcText(fc), '$', Printed('$', texts)[1..]);
      assert tail == FcText(fc) + ['$'] + Printed('$', texts)[1..];
    }
  }

  lemma ShapeOfDotted(ln: string, texts: seq<string>)
    requires Name(ln) && AllLegal(texts)
    ensures Shape(ln + Printed('.', texts)) == Some((ln, None, PathOf(None, texts)))
  {
    hide Name, AllLegal, FcParse, SplitOnce;
    NameClean(ln);
    var rest := ln + Printed('.', texts);
    PrintedClean('.', texts, '$');
    NoSplit(rest, '$');
    if texts == [] {
      assert rest == ln;
      NoSplit(rest, '.');
    } else {
      PrintedHead('.', texts);
      SplitOnceOfJoin(ln, '.', Printed('.', texts)[1..]);
      assert rest == ln + ['.'] + Printed('.', texts)[1..];
    }
  }

  lemma NoSplit(s: string, c: char)
    requires c !in s
    ensures SplitOnce(s, c) == None
  {
  }

  lemma TextsOfPath(fc: Option<Fc>, texts: seq<string>)
    requires AllLegal(texts)
    ensures Texts(PathOf(fc, texts)) == texts
  {
    hide Legal, AllLegal;
    if texts != [] {
      var sep := if fc.Some? then '$' else '.';
      PiecesOfPrinted(sep, texts);
      HeadTail(texts);
      LegalShape(texts[0]);
    }
  }

  /** A reference written out reads back as written. */
  lemma ParseOfWritten(ld: string, ln: string, fc: Option<Fc>, texts: seq<string>)
    requires Name(ld) && Name(ln) && AllLegal(texts)
    ensures Parse(Written(ld, ln, fc, texts)) == Ok(Reference(ld, ln, fc, PathOf(fc, texts)))
    ensures Texts(PathOf(fc, texts)) == texts
  {
    hide Name, Legal, FcText, Shape, PathOf, SplitOnce;
    NameClean(ld);
    var rest := if fc.Some? then ln + "$" + FcText(fc.value) + Printed('$', texts) else ln + Printed('.', texts);
    assert Written(ld, ln, fc, texts) == ld + ['/'] + rest;
    SplitOnceOfJoin(ld, '/', rest);
    if fc.Some? {
      ShapeOfMms(ln, fc.value, texts);
    } else {
      ShapeOfDotted(ln, texts);
    }
    TextsOfPath(fc, texts);
  }

  lemma ParsedIsLegal(s: string)
    requires Parse(s).Ok?
    ensures var r := Parse(s).value; Name(r.ld) && Name(r.ln) && AllLegal(Texts(r.path))
  {
    hide Name, Legal, Shape, Texts;
  }

  /** Printing a parsed reference and parsing that gives the same device, node, constraint and
      components. */
  lemma DisplayParsesBack(s: string)
    requires Parse(s).Ok?
    ensures var r := Parse(s).value; var again := Parse(Display(r));
            && again.Ok? && again.value.ld == r.ld && again.value.ln == r.ln && again.value.fc == r.fc
            && Texts(again.value.path) == Texts(r.path) && Parts(again.value) == Parts(r)
  {
    hide Parse, Name, Legal, AllLegal, Texts, Written;
    var r := Parse(s).value;
    ParsedIsLegal(s);
    ParseOfWritten(r.ld, r.ln, r.fc, Texts(r.path));
  }

  /** The MMS name of a parsed reference, read as a reference, names the same device and node, the
      constraint asked for, and exactly the named components with nothing selected. */
  lemma MmsNameParsesBack(s: string, fc: Fc)
    requires Parse(s).Ok?
    ensures var r := Parse(s).value; var named := Parse(r.ld + "/" + ToMmsUnder(r, fc));
            && named.Ok? && named.value.ld == r.ld && named.value.ln == r.ln && named.value.fc == Some(fc)
            && Texts(named.value.path) == Path(Parts(r))
            && Path(Parts(named.value)) == Path(Parts(r)) && Selection(Parts(named.value)) == []
  {
    hide Parse, Name, Legal, Texts, FcText, Parts, Selection;
    var r := Parse(s).value;
    ParsedIsLegal(s);
    var names := Path(Parts(r));
    PathIsNames(r);
    ParseOfWritten(r.ld, r.ln, Some(fc), names);
    assert r.ld + "/" + ToMmsUnder(r, fc) == Written(r.ld, r.ln, Some(fc), names);
    UnindexedNames(Parse(r.ld + "/" + ToMmsUnder(r, fc)).value, names);
  }

  /** Names of legal components are legal components without an index. */
  lemma PathIsNames(r: Reference)
    requires AllLegal(Texts(r.path))
    ensures forall i :: 0 <= i < |Path(Parts(r))| ==> Name(Path(Parts(r))[i])
    ensures AllLegal(Path(Parts(r)))
  {
    hide Texts, Name;
    var texts, names := Texts(r.path), Path(Parts(r));
    forall i | 0 <= i < |names|
      ensures Name(names[i]) && Legal(names[i])
    {
      assert Legal(texts[i]) && names[i] == SplitIndex(texts[i]).name;
      NameAlone(names[i]);
    }
  }

  lemma NameAlone(name: string)
    requires Name(name)
    ensures SplitIndex(name) == Part(name, None)
  {
    NameClean(name);
  }

  lemma UnindexedNames(r: Reference, names: seq<string>)
    requires Texts(r.path) == names && forall i :: 0 <= i < |names| ==> Name(names[i])
    ensures Path(Parts(r)) == names && Selection(Parts(r)) == []
  {
    hide Texts, Name, SplitIndex;
    var parts := Parts(r);
    forall i | 0 <= i < |names|
      ensures parts[i] == Part(names[i], None)
    {
      NameAlone(names[i]);
    }
    NothingSelected(parts, 0, NamedLen(parts));
  }

  lemma {:induction false} NothingSelected(parts: seq<Part>, at: nat, named: nat)
    requires at <= |parts| <= named && forall i :: at <= i < |parts| ==> parts[i].index.None?
    ensures SelectionFrom(parts, at, named) == []
    decreases |parts| - at
  {
    if at < |parts| {
      NothingSelected(parts, at + 1, named);
    }
  }
}
