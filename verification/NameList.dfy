/** `GetNameList`: one page of the server's list, and the client's loop over the pages. */
module NameList {
  import opened Sequences
  import opened Common
  import opened Octets
  import opened Ber

  datatype Page = Page(names: seq<string>, more: bool)

  /** What a name costs in an answer: itself, a tag and a length. */
  function Cost(name: string): nat {
    |name| + 2
  }

  function Total(names: seq<string>): nat {
    if names == [] then 0 else Total(names[..|names| - 1]) + Cost(names[|names| - 1])
  }

  /** Where `name` first stands; the length when it does not. */
  function PositionOf(all: seq<string>, name: string): (i: nat)
    ensures i <= |all| && (i < |all| ==> all[i] == name)
    ensures forall j :: 0 <= j < i ==> all[j] != name
  {
    Find(all, (n: string) => n == name)
  }

  /** Where the page that begins at `start` ends: `at` names have been taken up to now. */
  function PageEnd(all: seq<string>, start: nat, at: nat, budget: nat): (end: nat)
    requires start <= at <= |all|
    ensures at <= end <= |all|
    decreases |all| - at
  {
    if at == |all| || (at > start && Total(all[start..at]) + Cost(all[at]) > budget) then at
    else PageEnd(all, start, at + 1, budget)
  }

  function PageAt(all: seq<string>, start: nat, budget: nat): Page
    requires start <= |all|
  {
    var end := PageEnd(all, start, start, budget);
    Page(all[start..end], end < |all|)
  }

  /** One page of the list, resuming after `after`; an unknown name gets an empty last page. */
  function PageAfter(all: seq<string>, after: Option<string>, budget: nat): Page {
    match after
    case None => PageAt(all, 0, budget)
    case Some(name) =>
      var i := PositionOf(all, name);
      if i < |all| then PageAt(all, i + 1, budget) else Page([], false)
  }

  lemma NothingCosts()
    ensures Total([]) == 0
  {
  }

  lemma PageEndLast(all: seq<string>, start: nat, budget: nat)
    requires start <= |all|
    ensures PageEnd(all, start, |all|, budget) == |all|
  {
  }

  lemma TotalSnoc(names: seq<string>, name: string)
    ensures Total(names + [name]) == Total(names) + Cost(name)
  {
    assert (names + [name])[..|names|] == names;
  }

  /** One name more, or the end of the page. */
  lemma PageEndStep(all: seq<string>, start: nat, at: nat, budget: nat)
    requires start <= at < |all|
    ensures var full := at > start && Total(all[start..at]) + Cost(all[at]) > budget;
            PageEnd(all, start, at, budget) == if full then at else PageEnd(all, start, at + 1, budget)
    ensures all[start..at + 1] == all[start..at] + [all[at]]
    ensures Total(all[start..at + 1]) == Total(all[start..at]) + Cost(all[at])
  {
    assert all[start..at + 1] == all[start..at] + [all[at]];
    TotalSnoc(all[start..at], all[at]);
  }

  /** Past its first name a page stays inside the budget, and it ends only where one name more would not. */
  lemma {:induction false} PageEndFits(all: seq<string>, start: nat, at: nat, budget: nat)
    requires start <= at <= |all| && (at > start + 1 ==> Total(all[start..at]) <= budget)
    ensures var end := PageEnd(all, start, at, budget);
            && (end > start + 1 ==> Total(all[start..end]) <= budget)
            && (end < |all| ==> end > start && Total(all[start..end + 1]) > budget)
    decreases |all| - at
  {
    hide Total, PageEnd, Cost;
    if at == |all| {
      PageEndLast(all, start, budget);
    } else {
      PageEndStep(all, start, at, budget);
      if !(at > start && Total(all[start..at]) + Cost(all[at]) > budget) {
        PageEndFits(all, start, at + 1, budget);
      }
    }
  }

  /** Every page of two or more names fits the budget, and no page could have held one more. */
  lemma PageFits(all: seq<string>, start: nat, budget: nat)
    requires start <= |all|
    ensures var page := PageAt(all, start, budget); var end := start + |page.names|;
            && end <= |all| && page.names == all[start..end]
            && (|page.names| >= 2 ==> Total(page.names) <= budget)
            && (page.more <==> end < |all|)
            && (page.more ==> page.names != [] && Total(all[start..end + 1]) > budget)
  {
    PageEndFits(all, start, start, budget);
  }

  /** The page goes on after the first place of the name, at `i`, without a gap. */
  predicate GoesOnAfter(all: seq<string>, name: string, page: Page, i: nat) {
    && i + 1 + |page.names| <= |all| && all[i] == name && name !in all[..i]
    && page.names == all[i + 1..i + 1 + |page.names|]
  }

  /** Resuming after a name gives names that stand after it, in order and without a gap; resuming after a
      name that is not in the list gives none and says that none follow: no request starts the list again. */
  lemma ResumesStrictlyAfter(all: seq<string>, name: string, budget: nat)
    ensures var page := PageAfter(all, Some(name), budget);
            if name in all then exists i :: 0 <= i < |all| && GoesOnAfter(all, name, page, i)
            else page.names == [] && !page.more
  {
    hide PageAt, PositionOf;
    var i := PositionOf(all, name);
    if name in all {
      FoundFirst(all, name);
      PageFits(all, i + 1, budget);
      assert GoesOnAfter(all, name, PageAfter(all, Some(name), budget), i);
    } else {
      NotFound(all, name);
    }
  }

  lemma FoundFirst(all: seq<string>, name: string)
    requires name in all
    ensures var i := PositionOf(all, name); i < |all| && all[i] == name && name !in all[..i]
  {
    hide PositionOf;
    var k :| 0 <= k < |all| && all[k] == name;
  }

  lemma NotFound(all: seq<string>, name: string)
    requires name !in all
    ensures PositionOf(all, name) == |all|
  {
    hide PositionOf;
  }

  // ---- what a name costs ----

  predicate Ascii(name: string) {
    forall i :: 0 <= i < |name| ==> name[i] < 128 as char
  }

  function OctetsOf(name: string): (o: seq<Octet>)
    requires Ascii(name)
    ensures |o| == |name|
  {
    seq(|name|, i requires 0 <= i < |name| => name[i] as int)
  }

  /** A name in an answer: a `VisibleString`. */
  function Written(name: string): seq<Octet>
    requires Ascii(name) && |name| < 0x1_0000_0000
  {
    Element(Tag(Universal, false, 26), OctetsOf(name))
  }

  /** The names of an answer, one after the other. */
  function AllWritten(names: seq<string>): seq<Octet>
    requires forall n <- names :: Ascii(n) && |n| < 0x1_0000_0000
  {
    if names == [] then [] else AllWritten(names[..|names| - 1]) + Written(names[|names| - 1])
  }

  /** A name costs the octets it is written in exactly when it is shorter than 128; a longer one takes more. */
  lemma CostIsItsOctets(name: string)
    requires Ascii(name) && |name| < 0x1_0000_0000
    ensures if |name| < 128 then |Written(name)| == Cost(name) else |Written(name)| > Cost(name)
  {
    hide OctetsOf;
    if |name| >= 128 {
      LongForm(|name|);
    }
  }

  lemma {:induction false} TotalIsTheirOctets(names: seq<string>)
    requires forall n <- names :: Ascii(n) && |n| < 128
    ensures |AllWritten(names)| == Total(names)
  {
    hide Written, Cost;
    if names != [] {
      assert forall n <- names[..|names| - 1] :: n in names;
      CostIsItsOctets(names[|names| - 1]);
      TotalIsTheirOctets(names[..|names| - 1]);
    }
  }

  /** Names below 128 characters: the octets of a page of two or more are within the budget, and those of
      that page and the name after it are not. */
  lemma PageOctetsFit(all: seq<string>, start: nat, budget: nat)
    requires start <= |all| && forall n <- all :: Ascii(n) && |n| < 128
    ensures var page := PageAt(all, start, budget); var end := start + |page.names|;
            && end <= |all| && page.names == all[start..end] && (page.more <==> end < |all|)
            && (|page.names| >= 2 ==> |AllWritten(page.names)| <= budget)
            && (page.more ==> page.names != [] && |AllWritten(all[start..end + 1])| > budget)
  {
    hide PageAt, AllWritten, Total, Ascii;
    PageFits(all, start, budget);
    var end := start + |PageAt(all, start, budget).names|;
    assert forall n <- all[start..end] :: n in all;
    TotalIsTheirOctets(all[start..end]);
    if end < |all| {
      assert forall n <- all[start..end + 1] :: n in all;
      TotalIsTheirOctets(all[start..end + 1]);
    }
  }

  /** The server's loop over the list. */
  method FromPage(all: seq<string>, after: Option<string>, budget: nat) returns (page: Page)
    ensures page == PageAfter(all, after, budget)
  {
    hide Total, PageEnd, PositionOf, Cost;
    var start := 0;
    if after.Some? {
      var i := PositionOf(all, after.value);
      if i == |all| {
        return Page([], false);
      }
      start := i + 1;
    }
    var names, used, at := [], 0, start;
    assert all[start..start] == [] && Total([]) == 0 by {
      NothingCosts();
    }
    while at < |all|
      invariant start <= at <= |all|
      invariant names == all[start..at] && used == Total(names)
      invariant PageEnd(all, start, at, budget) == PageEnd(all, start, start, budget)
    {
      PageEndStep(all, start, at, budget);
      var cost := Cost(all[at]);
      if names != [] && used + cost > budget {
        return Page(names, true);
      }
      used := used + cost;
      names := names + [all[at]];
      at := at + 1;
    }
    PageEndLast(all, start, budget);
    return Page(names, false);
  }

  // ---- the client ----

  /** Any server at all: its answer to the request numbered `n`, or none that makes sense. */
  type Server = (nat, Option<string>) -> Option<Page>

  /** How many names the client gathers before it gives up on a list that goes on. */
  function Ceiling(limits: Limits): nat {
    limits.maxDatasetMembers * 64
  }

  function Last(out: seq<string>): Option<string> {
    if out == [] then None else Some(out[|out| - 1])
  }

  /** The client's loop, and how many requests it has made by the end. */
  function Names(server: Server, n: nat, out: seq<string>, ceiling: nat): (Result<seq<string>>, nat)
    decreases if |out| <= ceiling then ceiling + 1 - |out| else 0
  {
    match server(n, Last(out))
    case None => (Err(InvalidValue), n + 1)
    case Some(page) =>
      var gathered := out + page.names;
      if !page.more || page.names == [] then (Ok(gathered), n + 1)
      else if |gathered| > ceiling then (Err(LimitExceeded(NameListContinuations, |gathered|)), n + 1)
      else Names(server, n + 1, gathered, ceiling)
  }

  method NameList(server: Server, limits: Limits) returns (r: Result<seq<string>>, requests: nat)
    ensures (r, requests) == Names(server, 0, [], Ceiling(limits))
  {
    var out, n := [], 0;
    while true
      invariant Names(server, n, out, Ceiling(limits)) == Names(server, 0, [], Ceiling(limits))
      decreases if |out| <= Ceiling(limits) then Ceiling(limits) + 1 - |out| else 0
    {
      var answer := server(n, Last(out));
      n := n + 1;
      requests := n;
      if answer.None? {
        return Err(InvalidValue), requests;
      }
      var page := answer.value;
      out := out + page.names;
      if !page.more || page.names == [] {
        return Ok(out), requests;
      }
      if |out| > limits.maxDatasetMembers * 64 {
        return Err(LimitExceeded(NameListContinuations, |out|)), requests;
      }
    }
  }

  /** Against any server whatsoever the client asks at most `ceiling + 1` times, and what it is
      given up on is longer than the ceiling. */
  lemma {:induction false} RequestsAreBounded(server: Server, n: nat, out: seq<string>, ceiling: nat)
    requires n <= |out| <= ceiling
    ensures var (r, requests) := Names(server, n, out, ceiling);
            && n < requests <= ceiling + 1
            && (r.Err? && r.error.LimitExceeded? ==> r.error.value > ceiling)
    decreases ceiling + 1 - |out|
  {
    match server(n, Last(out))
    case None =>
    case Some(page) =>
      var gathered := out + page.names;
      if page.more && page.names != [] && |gathered| <= ceiling {
        RequestsAreBounded(server, n + 1, gathered, ceiling);
      }
  }

  /** A server that pages through a list that stays the same. */
  function Serving(all: seq<string>, budget: nat): Server {
    (n: nat, after: Option<string>) => Some(PageAfter(all, after, budget))
  }

  predicate Distinct(all: seq<string>) {
    forall i, j :: 0 <= i < j < |all| ==> all[i] != all[j]
  }

  /** Where the client stands when it stops: the first end of a page past the ceiling, or of the list. */
  function Stop(all: seq<string>, start: nat, budget: nat, ceiling: nat): (end: nat)
    requires start <= |all|
    ensures start <= end <= |all|
    decreases |all| - start
  {
    PageFits(all, start, budget);
    var end := PageEnd(all, start, start, budget);
    if end == |all| || end > ceiling then end else Stop(all, end, budget, ceiling)
  }

  /** Resuming after the last name gathered continues where the last page ended. */
  lemma ResumesThere(all: seq<string>, start: nat, n: nat, budget: nat)
    requires Distinct(all) && start <= |all|
    ensures Serving(all, budget)(n, Last(all[..start])) == Some(PageAt(all, start, budget))
  {
    hide PageAt;
    if start > 0 {
      assert PositionOf(all, all[start - 1]) == start - 1;
    }
  }

  lemma Joins(all: seq<string>, start: nat, end: nat)
    requires start <= end <= |all|
    ensures all[..start] + all[start..end] == all[..end]
    ensures end == |all| ==> all[..end] == all
  {
  }

  lemma {:induction false} NamesFrom(all: seq<string>, start: nat, n: nat, budget: nat, ceiling: nat)
    requires Distinct(all) && start <= |all| && (start == 0 || start <= ceiling)
    ensures var stop := Stop(all, start, budget, ceiling);
            Names(Serving(all, budget), n, all[..start], ceiling).0
            == if stop == |all| then Ok(all) else Err(LimitExceeded(NameListContinuations, stop))
    decreases |all| - start
  {
    hide Serving, PageEnd, Last, Distinct, Total;
    PageFits(all, start, budget);
    var end := PageEnd(all, start, start, budget);
    ResumesThere(all, start, n, budget);
    Joins(all, start, end);
    if end < |all| && end <= ceiling {
      NamesFrom(all, end, n + 1, budget, ceiling);
    }
  }

  lemma {:induction false} StopPastCeiling(all: seq<string>, start: nat, budget: nat, ceiling: nat)
    requires start <= |all|
    ensures var stop := Stop(all, start, budget, ceiling); stop == |all| || stop > ceiling
    decreases |all| - start
  {
    PageFits(all, start, budget);
    var end := PageEnd(all, start, start, budget);
    if end < |all| && end <= ceiling {
      StopPastCeiling(all, end, budget, ceiling);
    }
  }

  /** Paging is the whole list: for distinct names and any budget, the client gets exactly the list
      in order, or, only when the list is longer than its ceiling, an error and never a part of it. */
  lemma PagingIsTheWholeList(all: seq<string>, budget: nat, limits: Limits)
    requires Distinct(all)
    ensures var r, ceiling := Names(Serving(all, budget), 0, [], Ceiling(limits)).0, 64 * limits.maxDatasetMembers;
            var stop := Stop(all, 0, budget, ceiling);
            && r == (if stop == |all| then Ok(all) else Err(LimitExceeded(NameListContinuations, stop)))
            && (|all| <= ceiling ==> r == Ok(all)) && (r.Err? ==> stop > ceiling)
  {
    assert all[..0] == [];
    NamesFrom(all, 0, 0, budget, Ceiling(limits));
    StopPastCeiling(all, 0, budget, Ceiling(limits));
  }
}
