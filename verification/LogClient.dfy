/** Reading a whole log page by page, while the server goes on logging: the client's loop against
    the server's queries. */
module LogClient {
  import opened Sequences
  import opened Common
  import opened Octets
  import opened Time
  import opened Data
  import opened Log

  /** One entry as the client holds it. */
  datatype LogEntry = LogEntry(entryId: seq<Octet>, occurred: EntryTime, variables: seq<(string, Value)>,
                               reason: Option<seq<Octet>>)

  function ToClient(e: Entry): LogEntry {
    LogEntry(ToBE(e.entryId, 8), e.occurred, e.values, e.reason)
  }

  function AllToClient(entries: seq<Entry>): (out: seq<LogEntry>)
    ensures |out| == |entries| && forall i :: 0 <= i < |entries| ==> out[i] == ToClient(entries[i])
  {
    seq(|entries|, i requires 0 <= i < |entries| => ToClient(entries[i]))
  }

  /** The identifier the octets of an `EntryID` stand for: 0 when they are not eight. */
  function IdOf(octets: seq<Octet>): U64 {
    if |octets| == 8 then FromBEBound(octets); Pow256Values(); FromBE(octets) else 0
  }

  datatype Query =
    | ByTimeQuery(from: Option<EntryTime>, to: Option<EntryTime>)
    | AfterEntryQuery(entryId: seq<Octet>, at: EntryTime)
    | FromEntryQuery(entryId: seq<Octet>)

  datatype Page = Page(entries: seq<LogEntry>, more: bool)

  /** `ReadJournal` on one log, at most `limit` entries an answer. */
  function ReadJournal(j: Journal, query: Query, limit: nat): Page {
    var (entries, more) :=
      match query
      case AfterEntryQuery(id, at) => AfterEntry(j, IdOf(id), at, limit)
      case FromEntryQuery(id) => AfterEntry(j, IdOf(id), FIRST_ENTRY_TIME, limit)
      case ByTimeQuery(from, to) => ByTime(j, from, to, limit);
    Page(AllToClient(entries), more)
  }

  // ---- what happens to the log between two requests ----

  datatype LogOp = Logged(entry: NewEntry) | Cleared

  function Change(j: Journal, capacity: nat, op: LogOp): Journal {
    match op
    case Logged(e) => Appended(j, capacity, e)
    case Cleared => Purged(j)
  }

  function Changed(j: Journal, capacity: nat, ops: seq<LogOp>): Journal
    decreases |ops|
  {
    if ops == [] then j else Changed(Change(j, capacity, ops[0]), capacity, ops[1..])
  }

  function Joining(j: Journal, op: LogOp): seq<Entry> {
    match op
    case Logged(e) => [Entry(j.nextId, e.occurred, e.values, e.reason)]
    case Cleared => []
  }

  /** The entries these operations log, whatever becomes of them. */
  function Added(j: Journal, capacity: nat, ops: seq<LogOp>): seq<Entry>
    decreases |ops|
  {
    if ops == [] then [] else Joining(j, ops[0]) + Added(Change(j, capacity, ops[0]), capacity, ops[1..])
  }

  /** A log and its future: what happens to it before each request. `logged` is everything logged so
      far, held or not, oldest first; nothing depends on it. */
  datatype Live = Live(journal: Journal, logged: seq<Entry>, capacity: U64, limit: nat, script: nat -> seq<LogOp>,
                       round: nat)

  function Advance(l: Live): Live {
    var ops := l.script(l.round);
    l.(journal := Changed(l.journal, l.capacity, ops), logged := l.logged + Added(l.journal, l.capacity, ops),
       round := l.round + 1)
  }

  // ---- the client ----

  /** The loop of `read_whole_log`, with `page` just received. */
  function Collect(l: Live, page: Page, out: seq<LogEntry>, maxEntries: nat): Result<seq<LogEntry>>
    decreases if |out| < maxEntries then maxEntries - |out| else 0
  {
    var gathered := out + page.entries;
    if !page.more then Ok(gathered)
    else if |gathered| >= maxEntries then Err(LimitExceeded(MaxEntries, |gathered|))
    else if page.entries == [] then Ok(gathered)
    else
      var last, next := page.entries[|page.entries| - 1], Advance(l);
      Collect(next, ReadJournal(next.journal, AfterEntryQuery(last.entryId, last.occurred), next.limit), gathered,
              maxEntries)
  }

  function ReadWholeLog(l: Live, from: EntryTime, maxEntries: nat): Result<seq<LogEntry>> {
    var first := Advance(l);
    Collect(first, ReadJournal(first.journal, ByTimeQuery(Some(from), Some(MAX_ENTRY_TIME)), first.limit), [],
            maxEntries)
  }

  /** The same loop as the client runs it. */
  method ReadLog(l: Live, from: EntryTime, maxEntries: nat) returns (r: Result<seq<LogEntry>>)
    ensures r == ReadWholeLog(l, from, maxEntries)
  {
    var out := [];
    var at := Advance(l);
    var page := ReadJournal(at.journal, ByTimeQuery(Some(from), Some(MAX_ENTRY_TIME)), at.limit);
    while true
      invariant Collect(at, page, out, maxEntries) == ReadWholeLog(l, from, maxEntries)
      decreases if |out| < maxEntries then maxEntries - |out| else 0
    {
      var resume := if page.entries != [] then Some(page.entries[|page.entries| - 1]) else None;
      out := out + page.entries;
      if !page.more {
        return Ok(out);
      }
      if |out| >= maxEntries {
        return Err(LimitExceeded(MaxEntries, |out|));
      }
      if resume.None? {
        return Ok(out);
      }
      at := Advance(at);
      page := ReadJournal(at.journal, AfterEntryQuery(resume.value.entryId, resume.value.occurred), at.limit);
    }
  }

  /** The log at the last request the loop makes, with `page` just received. */
  function Final(l: Live, page: Page, out: seq<LogEntry>, maxEntries: nat): Live
    decreases if |out| < maxEntries then maxEntries - |out| else 0
  {
    var gathered := out + page.entries;
    if !page.more || |gathered| >= maxEntries || page.entries == [] then l
    else
      var last, next := page.entries[|page.entries| - 1], Advance(l);
      Final(next, ReadJournal(next.journal, AfterEntryQuery(last.entryId, last.occurred), next.limit), gathered,
            maxEntries)
  }

  function AtLastRequest(l: Live, from: EntryTime, maxEntries: nat): Live {
    var first := Advance(l);
    Final(first, ReadJournal(first.journal, ByTimeQuery(Some(from), Some(MAX_ENTRY_TIME)), first.limit), [], maxEntries)
  }

  // ---- what is held is the end of what was logged ----

  predicate Tracks(j: Journal, logged: seq<Entry>) {
    && |j.entries| <= |logged| && |j.entries| < IDENTIFIERS
    && j.entries == logged[|logged| - |j.entries|..]
    && Consecutive(logged, j.nextId)
  }

  /** The place of the oldest entry held among everything logged. */
  function Oldest(l: Live): nat {
    if |l.journal.entries| <= |l.logged| then |l.logged| - |l.journal.entries| else 0
  }

  lemma ChangeTracks(j: Journal, logged: seq<Entry>, capacity: U64, op: LogOp)
    requires Tracks(j, logged)
    ensures Tracks(Change(j, capacity, op), logged + Joining(j, op))
  {
    hide Consecutive;
    match op
    case Logged(e) =>
      var entry := Entry(j.nextId, e.occurred, e.values, e.reason);
      NextJoins(logged, j.nextId, entry);
      assert j.entries + [entry] == (logged + [entry])[|logged| - |j.entries|..];
    case Cleared =>
      assert logged + [] == logged;
  }

  lemma {:induction false} ChangedTracks(j: Journal, logged: seq<Entry>, capacity: U64, ops: seq<LogOp>)
    requires Tracks(j, logged)
    ensures Tracks(Changed(j, capacity, ops), logged + Added(j, capacity, ops))
    decreases |ops|
  {
    hide Tracks, Change;
    if ops == [] {
      assert logged + [] == logged;
    } else {
      var one, after := Joining(j, ops[0]), Change(j, capacity, ops[0]);
      ChangeTracks(j, logged, capacity, ops[0]);
      ChangedTracks(after, logged + one, capacity, ops[1..]);
      assert logged + Added(j, capacity, ops) == logged + one + Added(after, capacity, ops[1..]);
    }
  }

  lemma AdvanceTracks(l: Live)
    requires Tracks(l.journal, l.logged)
    ensures Tracks(Advance(l).journal, Advance(l).logged) && l.logged <= Advance(l).logged
  {
    ChangedTracks(l.journal, l.logged, l.capacity, l.script(l.round));
  }

  /** Entries with the same identifier are too far apart to be held together. */
  lemma SameIdentifier(logged: seq<Entry>, nextId: U64, a: nat, b: nat)
    requires Consecutive(logged, nextId) && a < b < |logged| && logged[a].entryId == logged[b].entryId
    ensures b - a >= IDENTIFIERS
  {
    var n, m := nextId + a - |logged|, nextId + b - |logged|;
    assert n == n / IDENTIFIERS * IDENTIFIERS + n % IDENTIFIERS;
    assert m == m / IDENTIFIERS * IDENTIFIERS + m % IDENTIFIERS;
    assert b - a == (m / IDENTIFIERS - n / IDENTIFIERS) * IDENTIFIERS;
  }

  /** Where the identifier of an entry once logged is found: at that entry while it is held, and
      otherwise at a newer one or nowhere. */
  lemma WhereFound(j: Journal, logged: seq<Entry>, p: nat)
    requires Tracks(j, logged) && p < |logged|
    ensures var oldest, i := |logged| - |j.entries|, PositionOf(j.entries, logged[p].entryId);
            && (i < |j.entries| ==> oldest + i >= p)
            && (p >= oldest ==> oldest + i == p)
            && (i == |j.entries| ==> p < oldest)
            && (p + 1 == oldest ==> i == |j.entries|)
  {
    hide Consecutive;
    var oldest, i := |logged| - |j.entries|, PositionOf(j.entries, logged[p].entryId);
    if i < |j.entries| {
      assert logged[oldest + i] == j.entries[i];
      if oldest + i < p {
        SameIdentifier(logged, j.nextId, oldest + i, p);
      } else if p < oldest {
        SameIdentifier(logged, j.nextId, p, oldest + i);
      }
    }
    if p >= oldest {
      assert j.entries[p - oldest] == logged[p];
    }
  }

  // ---- a subsequence of what was logged ----

  /** `part` is what stands at `places` of `whole`, in that order. */
  predicate Picks(part: seq<Entry>, whole: seq<Entry>, places: seq<nat>) {
    && |places| == |part|
    && (forall i, k :: 0 <= i < k < |places| ==> places[i] < places[k])
    && forall i :: 0 <= i < |places| ==> places[i] < |whole| && part[i] == whole[places[i]]
  }

  /** Every entry the client holds was logged, and they were logged in this order. */
  ghost predicate InOrder(out: seq<LogEntry>, logged: seq<Entry>) {
    exists part, places :: Picks(part, logged, places) && out == AllToClient(part)
  }

  lemma {:induction false} KeepPicks(entries: seq<Entry>, keep: Entry -> bool) returns (places: seq<nat>)
    ensures Picks(Keep(entries, keep), entries, places)
  {
    places := [];
    if entries != [] {
      var rest := Keep(entries[1..], keep);
      places := KeepPicks(entries[1..], keep);
      places := PicksTail(rest, entries, places, 1);
      if keep(entries[0]) {
        PicksJoin([entries[0]], rest, entries, [0], places);
        places := [0] + places;
      }
    }
  }

  lemma PicksTail(part: seq<Entry>, whole: seq<Entry>, places: seq<nat>, from: nat) returns (moved: seq<nat>)
    requires from <= |whole| && Picks(part, whole[from..], places)
    ensures Picks(part, whole, moved) && forall k <- moved :: k >= from
    ensures |moved| == |places| && forall i :: 0 <= i < |moved| ==> moved[i] == places[i] + from
  {
    moved := seq(|places|, i requires 0 <= i < |places| => places[i] + from);
  }

  lemma PicksPage(part: seq<Entry>, whole: seq<Entry>, places: seq<nat>, limit: nat) returns (paged: seq<nat>)
    requires Picks(part, whole, places)
    ensures Picks(PageOf(part, limit).0, whole, paged) && forall k <- paged :: k in places
  {
    paged := places[..|PageOf(part, limit).0|];
  }

  lemma PicksJoin(a: seq<Entry>, b: seq<Entry>, whole: seq<Entry>, p: seq<nat>, q: seq<nat>)
    requires Picks(a, whole, p) && Picks(b, whole, q) && forall k <- q :: p != [] ==> p[|p| - 1] < k
    ensures Picks(a + b, whole, p + q)
  {
    var places := p + q;
    forall i, k | 0 <= i < k < |places|
      ensures places[i] < places[k]
    {
      if i < |p| <= k {
        assert q[k - |p|] in q;
        assert i < |p| - 1 ==> p[i] < p[|p| - 1];
      }
    }
  }

  /** Whether it is held or not, a query after an entry gives only entries logged after it, in the
      order in which they were logged. */
  lemma AfterEntryLater(j: Journal, logged: seq<Entry>, p: nat, at: EntryTime, limit: nat) returns (places: seq<nat>)
    requires Tracks(j, logged) && p < |logged|
    ensures Picks(AfterEntry(j, logged[p].entryId, at, limit).0, logged, places)
    ensures forall k <- places :: k > p && k >= |logged| - |j.entries|
    ensures AfterEntry(j, logged[p].entryId, at, limit).1 ==> places != []
  {
    hide Consecutive, PageOf;
    WhereFound(j, logged, p);
    var oldest, i := |logged| - |j.entries|, PositionOf(j.entries, logged[p].entryId);
    var matching, from := Keep(j.entries, (e: Entry) => !e.occurred.AtMost(at)), oldest;
    if i < |j.entries| {
      matching, from := j.entries[i + 1..], oldest + i + 1;
      places := seq(|matching|, k requires 0 <= k < |matching| => k);
    } else {
      places := KeepPicks(j.entries, (e: Entry) => !e.occurred.AtMost(at));
    }
    places := PicksTail(matching, logged, places, from);
    places := PicksPage(matching, logged, places, limit);
    assert AfterEntry(j, logged[p].entryId, at, limit) == PageOf(matching, limit);
    PageNotEmpty(matching, limit);
  }

  lemma PageNotEmpty(matching: seq<Entry>, limit: nat)
    ensures PageOf(matching, limit).1 ==> PageOf(matching, limit).0 != []
  {
  }

  lemma AllToClientAdds(a: seq<Entry>, b: seq<Entry>)
    ensures AllToClient(a) + AllToClient(b) == AllToClient(a + b)
  {
    hide ToClient;
  }

  lemma ToClientId(e: Entry)
    ensures IdOf(ToClient(e).entryId) == e.entryId
  {
    Pow256Values();
    FromToBE(e.entryId, 8);
  }

  /** One turn of the loop, in terms of the server's entries. */
  lemma CollectTurn(l: Live, entries: seq<Entry>, more: bool, before: seq<Entry>, maxEntries: nat)
    ensures var page, out, gathered := Page(AllToClient(entries), more), AllToClient(before), before + entries;
            if !more || |gathered| >= maxEntries || entries == [] then
              && Final(l, page, out, maxEntries) == l
              && Collect(l, page, out, maxEntries)
                 == if more && |gathered| >= maxEntries then Err(LimitExceeded(MaxEntries, |gathered|))
                    else Ok(AllToClient(gathered))
            else
              var last, next := entries[|entries| - 1], Advance(l);
              var (later, again) := AfterEntry(next.journal, last.entryId, last.occurred, next.limit);
              && Final(l, page, out, maxEntries)
                 == Final(next, Page(AllToClient(later), again), AllToClient(gathered), maxEntries)
              && Collect(l, page, out, maxEntries)
                 == Collect(next, Page(AllToClient(later), again), AllToClient(gathered), maxEntries)
  {
    hide IdOf, ToBE, AfterEntry, Advance;
    AllToClientAdds(before, entries);
    if entries != [] {
      ToClientId(entries[|entries| - 1]);
    }
  }

  /** What the loop gathers from here on follows, in order, what it has gathered. */
  lemma {:induction false} CollectInOrder(l: Live, entries: seq<Entry>, more: bool, before: seq<Entry>, maxEntries: nat,
                                          places: seq<nat>) returns (part: seq<Entry>, all: seq<nat>)
    requires Tracks(l.journal, l.logged) && Picks(before + entries, l.logged, places)
    ensures var page, out := Page(AllToClient(entries), more), AllToClient(before);
            var r := Collect(l, page, out, maxEntries);
            r.Ok? ==>
              && Picks(part, Final(l, page, out, maxEntries).logged, all) && r.value == AllToClient(part)
              && places <= all && (!more ==> all == places && Final(l, page, out, maxEntries) == l)
    decreases if |before| < maxEntries then maxEntries - |before| else 0
  {
    hide Tracks, Advance, AfterEntry, Collect, Final, AllToClient;
    part, all := before + entries, places;
    CollectTurn(l, entries, more, before, maxEntries);
    if more && |part| < maxEntries && entries != [] {
      var last, next := entries[|entries| - 1], Advance(l);
      var p := places[|places| - 1];
      assert part[|part| - 1] == last;
      AdvanceTracks(l);
      assert next.logged[p] == last;
      var later := AfterEntry(next.journal, last.entryId, last.occurred, next.limit);
      var q := AfterEntryLater(next.journal, next.logged, p, last.occurred, next.limit);
      PicksJoin(part, later.0, next.logged, places, q);
      part, all := CollectInOrder(next, later.0, later.1, part, maxEntries, places + q);
    }
  }

  /** Whatever is logged, evicted and cleared between its requests, one reading of the log collects
      entries that were logged, in the order in which they were, and none twice. */
  lemma NeverRepeats(l: Live, from: EntryTime, maxEntries: nat)
    requires Tracks(l.journal, l.logged)
    ensures var r := ReadWholeLog(l, from, maxEntries);
            r.Ok? ==> InOrder(r.value, AtLastRequest(l, from, maxEntries).logged)
  {
    hide Tracks, Advance, Log.Within, Collect, Final, AllToClient, PageOf;
    var first := Advance(l);
    AdvanceTracks(l);
    var places := FirstPagePicks(first, Some(from), Some(MAX_ENTRY_TIME));
    var (entries, more) := ByTime(first.journal, Some(from), Some(MAX_ENTRY_TIME), first.limit);
    assert [] + entries == entries && AllToClient([]) == [];
    var part, all := CollectInOrder(first, entries, more, [], maxEntries, places);
  }

  lemma FirstPagePicks(l: Live, from: Option<EntryTime>, to: Option<EntryTime>) returns (places: seq<nat>)
    requires Tracks(l.journal, l.logged)
    ensures Picks(ByTime(l.journal, from, to, l.limit).0, l.logged, places)
  {
    hide Log.Within, Consecutive, PageOf;
    places := KeepPicks(l.journal.entries, (e: Entry) => Log.Within(e, from, to));
    places := PicksTail(Keep(l.journal.entries, (e: Entry) => Log.Within(e, from, to)), l.logged, places, Oldest(l));
    places := PicksPage(Keep(l.journal.entries, (e: Entry) => Log.Within(e, from, to)), l.logged, places, l.limit);
  }

  // ---- the identifiers of what is read ----

  function Id(e: LogEntry): U64 {
    IdOf(e.entryId)
  }

  predicate Increasing(out: seq<LogEntry>) {
    forall i, k :: 0 <= i < k < |out| ==> Id(out[i]) < Id(out[k])
  }

  /** Numbering has not started again since the first of these. */
  predicate NotStartedAgain(logged: seq<Entry>) {
    logged == [] || logged[0].entryId + |logged| <= IDENTIFIERS
  }

  /** Identifiers given out one after another increase exactly as long as numbering does not start
      again at 0. */
  lemma IdentifiersRiseExactly(logged: seq<Entry>, nextId: U64)
    requires Consecutive(logged, nextId)
    ensures Increasing(AllToClient(logged)) <==> NotStartedAgain(logged)
    ensures NotStartedAgain(logged) ==> forall i :: 0 <= i < |logged| ==> logged[i].entryId == logged[0].entryId + i
  {
    hide IdOf, ToClient;
    forall i | 0 <= i < |logged|
      ensures Id(AllToClient(logged)[i]) == logged[i].entryId
    {
      ToClientId(logged[i]);
    }
    if logged != [] {
      forall i | 0 <= i < |logged| && logged[0].entryId + i < IDENTIFIERS
        ensures logged[i].entryId == logged[0].entryId + i
      {
        CountsOn(nextId - |logged|, i);
      }
      if !NotStartedAgain(logged) {
        var again := IDENTIFIERS - logged[0].entryId;
        CountsOn(nextId - |logged|, again);
        assert logged[again].entryId == 0;
      }
    }
  }

  /** Counting on from a number taken modulo the identifiers there are. */
  lemma CountsOn(n: int, i: nat)
    ensures n % IDENTIFIERS + i < IDENTIFIERS ==> (n + i) % IDENTIFIERS == n % IDENTIFIERS + i
    ensures n % IDENTIFIERS + i == IDENTIFIERS ==> (n + i) % IDENTIFIERS == 0
  {
    var q, m := n / IDENTIFIERS, n + i;
    assert n == q * IDENTIFIERS + n % IDENTIFIERS;
    assert m == m / IDENTIFIERS * IDENTIFIERS + m % IDENTIFIERS;
    assert (m / IDENTIFIERS - q) * IDENTIFIERS == n % IDENTIFIERS + i - m % IDENTIFIERS;
  }

  /** As long as numbering has not started again, what one reading collects has increasing identifiers. */
  lemma ReadingRises(l: Live, from: EntryTime, maxEntries: nat)
    requires Tracks(l.journal, l.logged) && NotStartedAgain(AtLastRequest(l, from, maxEntries).logged)
    ensures var r := ReadWholeLog(l, from, maxEntries); r.Ok? ==> Increasing(r.value)
  {
    hide Consecutive, Advance, Collect, Final, IdOf, ToClient, NotStartedAgain, ByTime, AfterEntry;
    NeverRepeats(l, from, maxEntries);
    LastRequestTracks(l, from, maxEntries);
    var r, last := ReadWholeLog(l, from, maxEntries), AtLastRequest(l, from, maxEntries);
    IdentifiersRiseExactly(last.logged, last.journal.nextId);
    if r.Ok? {
      var part, places :| Picks(part, last.logged, places) && r.value == AllToClient(part);
      var all := AllToClient(last.logged);
      forall i, k | 0 <= i < k < |r.value|
        ensures Id(r.value[i]) < Id(r.value[k])
      {
        assert r.value[i] == all[places[i]] && r.value[k] == all[places[k]];
      }
    }
  }

  lemma LastRequestTracks(l: Live, from: EntryTime, maxEntries: nat)
    requires Tracks(l.journal, l.logged)
    ensures var last := AtLastRequest(l, from, maxEntries); Tracks(last.journal, last.logged)
  {
    hide Tracks, Advance, ByTime;
    var first := Advance(l);
    AdvanceTracks(l);
    FinalTracks(first, ReadJournal(first.journal, ByTimeQuery(Some(from), Some(MAX_ENTRY_TIME)), first.limit), [],
                maxEntries);
  }

  lemma {:induction false} FinalTracks(l: Live, page: Page, out: seq<LogEntry>, maxEntries: nat)
    requires Tracks(l.journal, l.logged)
    ensures var last := Final(l, page, out, maxEntries); Tracks(last.journal, last.logged)
    decreases if |out| < maxEntries then maxEntries - |out| else 0
  {
    hide Tracks, Advance, ReadJournal;
    var gathered := out + page.entries;
    if page.more && |gathered| < maxEntries && page.entries != [] {
      var last, next := page.entries[|page.entries| - 1], Advance(l);
      AdvanceTracks(l);
      FinalTracks(next, ReadJournal(next.journal, AfterEntryQuery(last.entryId, last.occurred), next.limit), gathered,
                  maxEntries);
    }
  }

  // ---- when there is no gap ----

  /** The first page of these is the same without those not later than `at`: its entries are all later,
      and so is one of the rest if there are more. */
  predicate PageLater(entries: seq<Entry>, at: EntryTime, limit: nat) {
    var n := AtLeastOne(limit);
    && (forall i :: 0 <= i < |entries| && i < n ==> !entries[i].occurred.AtMost(at))
    && (|entries| > n ==> exists i :: n <= i < |entries| && !entries[i].occurred.AtMost(at))
  }

  /** Asking after the entry logged at `p`, at time `at`, goes on with the next one: either that entry is
      still held, or it was the last to go and the time does for it. */
  predicate GoesOn(l: Live, p: int, at: EntryTime) {
    Oldest(l) <= p || (Oldest(l) == p + 1 && PageLater(l.journal.entries, at, l.limit))
  }

  /** Every request of the loop goes on where the one before stopped, for a reading that began with the
      entry logged at `start`. */
  predicate Unbroken(l: Live, page: Page, out: seq<LogEntry>, maxEntries: nat, start: nat)
    decreases if |out| < maxEntries then maxEntries - |out| else 0
  {
    var gathered := out + page.entries;
    if !page.more || |gathered| >= maxEntries || page.entries == [] then true
    else
      var last, next := page.entries[|page.entries| - 1], Advance(l);
      var answer := ReadJournal(next.journal, AfterEntryQuery(last.entryId, last.occurred), next.limit);
      GoesOn(next, start + |gathered| - 1, last.occurred) && Unbroken(next, answer, gathered, maxEntries, start)
  }

  lemma HeldFollows(j: Journal, entry: Entry, at: EntryTime, limit: nat)
    requires PositionOf(j.entries, entry.entryId) < |j.entries|
    ensures AfterEntry(j, entry.entryId, at, limit)
            == PageOf(j.entries[PositionOf(j.entries, entry.entryId) + 1..], limit)
  {
    hide PositionOf, PageOf, Keep;
  }

  /** A query that goes on gives the page of everything logged after its entry. */
  lemma GoesOnFollows(l: Live, p: nat, at: EntryTime)
    requires Tracks(l.journal, l.logged) && p < |l.logged| && GoesOn(l, p, at)
    ensures AfterEntry(l.journal, l.logged[p].entryId, at, l.limit) == PageOf(l.logged[p + 1..], l.limit)
  {
    hide Consecutive, PageOf, PositionOf, PageLater, AfterEntry;
    WhereFound(l.journal, l.logged, p);
    var held, i := l.journal.entries, PositionOf(l.journal.entries, l.logged[p].entryId);
    if Oldest(l) <= p {
      HeldFollows(l.journal, l.logged[p], at, l.limit);
      assert held[i + 1..] == l.logged[p + 1..];
    } else {
      FallbackExactly(l.journal, l.logged[p].entryId, at, l.limit);
    }
  }

  /** One turn of the loop, in terms of the server's entries. */
  lemma UnbrokenTurn(l: Live, entries: seq<Entry>, before: seq<Entry>, maxEntries: nat, start: nat)
    requires |before + entries| < maxEntries && entries != []
    ensures var last, next, gathered := entries[|entries| - 1], Advance(l), before + entries;
            var (later, again) := AfterEntry(next.journal, last.entryId, last.occurred, next.limit);
            Unbroken(l, Page(AllToClient(entries), true), AllToClient(before), maxEntries, start)
            <==> GoesOn(next, start + |gathered| - 1, last.occurred)
                 && Unbroken(next, Page(AllToClient(later), again), AllToClient(gathered), maxEntries, start)
  {
    hide IdOf, ToBE, AfterEntry, Advance;
    AllToClientAdds(before, entries);
    ToClientId(entries[|entries| - 1]);
  }

  lemma {:induction false} CollectWhole(l: Live, start: nat, k: nat, maxEntries: nat)
    requires Tracks(l.journal, l.logged) && start <= k <= |l.logged|
    requires var (entries, more) := PageOf(l.logged[k..], l.limit);
             Unbroken(l, Page(AllToClient(entries), more), AllToClient(l.logged[start..k]), maxEntries, start)
    ensures var (entries, more) := PageOf(l.logged[k..], l.limit);
            var page, out := Page(AllToClient(entries), more), AllToClient(l.logged[start..k]);
            var r := Collect(l, page, out, maxEntries);
            && l.logged <= Final(l, page, out, maxEntries).logged
            && (r.Ok? ==> r.value == AllToClient(Final(l, page, out, maxEntries).logged[start..]))
    decreases if k - start < maxEntries then maxEntries - (k - start) else 0
  {
    hide Tracks, Advance, AfterEntry, Collect, Final, AllToClient, Unbroken;
    var (entries, more) := PageOf(l.logged[k..], l.limit);
    var before, end := l.logged[start..k], k + |entries|;
    assert before + entries == l.logged[start..end];
    CollectTurn(l, entries, more, before, maxEntries);
    if more && end - start < maxEntries {
      var next := Advance(l);
      UnbrokenTurn(l, entries, before, maxEntries, start);
      AdvanceTracks(l);
      assert next.logged[end - 1] == entries[|entries| - 1];
      assert next.logged[start..end] == before + entries;
      GoesOnFollows(next, end - 1, entries[|entries| - 1].occurred);
      CollectWhole(next, start, end, maxEntries);
    } else if !more {
      assert l.logged[start..end] == l.logged[start..];
    }
  }

  /** Asking for everything from the first possible time gets everything. */
  lemma EverythingFirst(j: Journal, limit: nat)
    requires forall e <- j.entries :: e.occurred.WellFormed()
    ensures ByTime(j, Some(FIRST_ENTRY_TIME), Some(MAX_ENTRY_TIME), limit) == PageOf(j.entries, limit)
  {
    var from, to := Some(FIRST_ENTRY_TIME), Some(MAX_ENTRY_TIME);
    AllWithin(j, from, to, limit);
  }

  lemma AllWithin(j: Journal, from: Option<EntryTime>, to: Option<EntryTime>, limit: nat)
    requires forall e <- j.entries :: Log.Within(e, from, to)
    ensures ByTime(j, from, to, limit) == PageOf(j.entries, limit)
  {
    KeepEverything(j.entries, (e: Entry) => Log.Within(e, from, to));
  }

  /** The page a reading from the first possible time begins with. */
  function FirstPage(first: Live): Page {
    ReadJournal(first.journal, ByTimeQuery(Some(FIRST_ENTRY_TIME), Some(MAX_ENTRY_TIME)), first.limit)
  }

  lemma FirstPageIs(first: Live)
    requires Tracks(first.journal, first.logged) && forall e <- first.journal.entries :: e.occurred.WellFormed()
    ensures var (entries, more) := PageOf(first.logged[Oldest(first)..], first.limit);
            FirstPage(first) == Page(AllToClient(entries), more)
  {
    hide ByTime, PageOf, Consecutive;
    EverythingFirst(first.journal, first.limit);
  }

  /** Reading from the first possible time gives exactly what was logged, from the oldest entry held at
      the first request to the newest at the last, if and only if every request goes on where the one
      before stopped. */
  lemma NothingSkippedExactly(l: Live, maxEntries: nat)
    requires Tracks(l.journal, l.logged)
    requires forall e <- Advance(l).journal.entries :: e.occurred.WellFormed()
    ensures var r, start, last := ReadWholeLog(l, FIRST_ENTRY_TIME, maxEntries), Oldest(Advance(l)),
                                  AtLastRequest(l, FIRST_ENTRY_TIME, maxEntries);
            && start <= |last.logged|
            && (r.Ok? ==>
                  (r.value == AllToClient(last.logged[start..])
                   <==> Unbroken(Advance(l), FirstPage(Advance(l)), [], maxEntries, start)))
  {
    hide Advance, Collect, Final, Unbroken, ToClient, PageOf, Consecutive, ByTime;
    var first := Advance(l);
    AdvanceTracks(l);
    FirstPageIs(first);
    var start := Oldest(first);
    assert first.logged[start..start] == [] && AllToClient([]) == [];
    FinalGrows(first, FirstPage(first), [], maxEntries);
    if Unbroken(first, FirstPage(first), [], maxEntries, start) {
      CollectWhole(first, start, start, maxEntries);
    } else {
      CollectBroken(first, start, start, maxEntries);
    }
  }

  lemma {:induction false} FinalGrows(l: Live, page: Page, out: seq<LogEntry>, maxEntries: nat)
    requires Tracks(l.journal, l.logged)
    ensures l.logged <= Final(l, page, out, maxEntries).logged
    decreases if |out| < maxEntries then maxEntries - |out| else 0
  {
    hide Tracks, Advance, ReadJournal;
    var gathered := out + page.entries;
    if page.more && |gathered| < maxEntries && page.entries != [] {
      var last, next := page.entries[|page.entries| - 1], Advance(l);
      var answer := ReadJournal(next.journal, AfterEntryQuery(last.entryId, last.occurred), next.limit);
      AdvanceTracks(l);
      FinalGrows(next, answer, gathered, maxEntries);
    }
  }

  // ---- when a request does not go on ----

  /** Rising places are no more than there is room for. */
  lemma {:induction false} PlacesFit(places: seq<nat>, lo: nat, hi: nat)
    requires lo <= hi && (forall i, k :: 0 <= i < k < |places| ==> places[i] < places[k])
    requires forall i :: 0 <= i < |places| ==> lo <= places[i] < hi
    ensures |places| <= hi - lo
  {
    if places != [] {
      PlacesFit(places[..|places| - 1], lo, places[|places| - 1]);
    }
  }

  /** And fewer when one place is left out. */
  lemma {:induction false} PlaceMissing(places: seq<nat>, lo: nat, hi: nat, missed: nat)
    requires lo <= missed < hi && missed !in places
    requires forall i, k :: 0 <= i < k < |places| ==> places[i] < places[k]
    requires forall i :: 0 <= i < |places| ==> lo <= places[i] < hi
    ensures |places| < hi - lo
  {
    if places != [] {
      var last := places[|places| - 1];
      assert last in places;
      if missed < last {
        PlaceMissing(places[..|places| - 1], lo, last, missed);
      } else {
        PlacesFit(places, lo, missed);
      }
    }
  }

  /** The first entry held that the first page of the later ones leaves out, when it does. */
  lemma LeftOut(entries: seq<Entry>, at: EntryTime, limit: nat) returns (m: nat)
    requires !PageLater(entries, at, limit)
    ensures m < |entries| && m <= AtLeastOne(limit) && entries[m].occurred.AtMost(at)
    ensures PageOf(Keep(entries, (e: Entry) => !e.occurred.AtMost(at)), limit).1 ==> m < AtLeastOne(limit)
  {
    var n, late := AtLeastOne(limit), (e: Entry) => !e.occurred.AtMost(at);
    if i :| 0 <= i < |entries| && i < n && entries[i].occurred.AtMost(at) {
      m := i;
    } else {
      m := n;
      var a, b := entries[..n], entries[n..];
      assert entries == a + b;
      KeepAppend(a, b, late);
      KeepNoLonger(a, late);
      KeepNothing(b, late);
    }
  }

  /** A query that does not go on leaves an entry out for good: it is not in the answer, and when more is
      to follow the answer is past it. */
  lemma LeftOutForGood(l: Live, p: nat, at: EntryTime, q: seq<nat>) returns (missed: nat)
    requires Tracks(l.journal, l.logged) && p < |l.logged| && !GoesOn(l, p, at)
    requires Picks(AfterEntry(l.journal, l.logged[p].entryId, at, l.limit).0, l.logged, q)
    requires forall k <- q :: k > p && k >= Oldest(l)
    ensures p < missed < |l.logged| && missed !in q
    ensures AfterEntry(l.journal, l.logged[p].entryId, at, l.limit).1 ==> q != [] && missed < q[|q| - 1]
  {
    hide Consecutive, PageLater, PositionOf;
    WhereFound(l.journal, l.logged, p);
    var all, late := l.journal.entries, (e: Entry) => !e.occurred.AtMost(at);
    missed := p + 1;
    assert forall i :: 0 <= i < |q| ==> q[i] in q;
    if Oldest(l) == p + 1 {
      var m := LeftOut(all, at, l.limit);
      missed := p + 1 + m;
      KeepMembers(all, late);
      forall i | 0 <= i < |q|
        ensures q[i] != missed
      {
        var answer := PageOf(Keep(all, late), l.limit).0;
        assert answer[i] in Keep(all, late);
        assert l.logged[missed] == all[m];
      }
      if PageOf(Keep(all, late), l.limit).1 && q[|q| - 1] < missed {
        PlacesFit(q, p + 1, missed);
      }
    }
  }

  function Range(lo: nat, hi: nat): (r: seq<nat>)
    requires lo <= hi
    ensures |r| == hi - lo && forall i :: 0 <= i < |r| ==> r[i] == lo + i
  {
    seq(hi - lo, i requires 0 <= i < hi - lo => lo + i)
  }

  /** A reading that does not go on somewhere ends up with fewer entries than there were. */
  lemma {:induction false} CollectBroken(l: Live, start: nat, k: nat, maxEntries: nat)
    requires Tracks(l.journal, l.logged) && start <= k <= |l.logged|
    requires var (entries, more) := PageOf(l.logged[k..], l.limit);
             !Unbroken(l, Page(AllToClient(entries), more), AllToClient(l.logged[start..k]), maxEntries, start)
    ensures var (entries, more) := PageOf(l.logged[k..], l.limit);
            var page, out := Page(AllToClient(entries), more), AllToClient(l.logged[start..k]);
            var r := Collect(l, page, out, maxEntries);
            r.Ok? ==> |r.value| < |Final(l, page, out, maxEntries).logged| - start
    decreases if k - start < maxEntries then maxEntries - (k - start) else 0
  {
    hide Tracks, Advance, AfterEntry, Collect, Final, AllToClient, Unbroken, GoesOn;
    var (entries, more) := PageOf(l.logged[k..], l.limit);
    var before, end := l.logged[start..k], k + |entries|;
    assert before + entries == l.logged[start..end];
    if !more || end - start >= maxEntries {
      NothingToLose(l, entries, more, before, maxEntries, start);
    } else {
      var last, next := entries[|entries| - 1], Advance(l);
      CollectTurn(l, entries, more, before, maxEntries);
      UnbrokenTurn(l, entries, before, maxEntries, start);
      AdvanceTracks(l);
      assert next.logged[end - 1] == last;
      assert next.logged[start..end] == before + entries;
      if GoesOn(next, end - 1, last.occurred) {
        GoesOnFollows(next, end - 1, last.occurred);
        CollectBroken(next, start, end, maxEntries);
      } else {
        BrokenHere(next, start, end, last.occurred, maxEntries);
      }
    }
  }

  lemma OldestTracks(l: Live)
    requires Tracks(l.journal, l.logged)
    ensures Oldest(l) == |l.logged| - |l.journal.entries|
  {
  }

  /** What is gathered after an entry was left out does not come back to it. */
  lemma NeverBack(places: seq<nat>, q: seq<nat>, all: seq<nat>, start: nat, end: nat, missed: nat)
    requires start < end <= missed && places == Range(start, end) && missed !in q && places + q <= all
    requires forall i, k :: 0 <= i < k < |all| ==> all[i] < all[k]
    requires all == places + q || (q != [] && missed < q[|q| - 1])
    ensures missed !in all && forall i :: 0 <= i < |all| ==> start <= all[i]
  {
    var n := |places + q|;
    forall i | 0 <= i < |all|
      ensures all[i] != missed && start <= all[i]
    {
      assert all[0] == places[0] && (i > 0 ==> all[0] < all[i]);
      if i < |places| {
        assert all[i] == places[i];
      } else if i < n {
        assert all[i] == q[i - |places|];
      } else {
        assert all[n - 1] == q[|q| - 1] && all[n - 1] < all[i];
      }
    }
  }

  /** The same once a request has not gone on. */
  lemma BrokenHere(l: Live, start: nat, end: nat, at: EntryTime, maxEntries: nat)
    requires Tracks(l.journal, l.logged) && start < end <= |l.logged| && !GoesOn(l, end - 1, at)
    ensures var (later, again) := AfterEntry(l.journal, l.logged[end - 1].entryId, at, l.limit);
            var page, out := Page(AllToClient(later), again), AllToClient(l.logged[start..end]);
            var r := Collect(l, page, out, maxEntries);
            r.Ok? ==> |r.value| < |Final(l, page, out, maxEntries).logged| - start
  {
    hide Tracks, AfterEntry, Collect, Final, AllToClient, GoesOn;
    var (later, again) := AfterEntry(l.journal, l.logged[end - 1].entryId, at, l.limit);
    var gathered, places := l.logged[start..end], Range(start, end);
    var q := AfterEntryLater(l.journal, l.logged, end - 1, at, l.limit);
    OldestTracks(l);
    var missed := LeftOutForGood(l, end - 1, at, q);
    PicksJoin(gathered, later, l.logged, places, q);
    FinalGrows(l, Page(AllToClient(later), again), AllToClient(gathered), maxEntries);
    var part, all := CollectInOrder(l, later, again, gathered, maxEntries, places + q);
    var page, out := Page(AllToClient(later), again), AllToClient(gathered);
    if Collect(l, page, out, maxEntries).Ok? {
      NeverBack(places, q, all, start, end, missed);
      PlaceMissing(all, start, |Final(l, page, out, maxEntries).logged|, missed);
    }
  }

  // ---- when the resume entry is no longer held ----

  /** A query after an entry no longer held answers as if everything held followed it exactly when each
      entry of the first page is later than the time given, and so is one more if there are more. */
  lemma FallbackExactly(j: Journal, id: U64, at: EntryTime, limit: nat)
    requires PositionOf(j.entries, id) == |j.entries|
    ensures AfterEntry(j, id, at, limit) == PageOf(j.entries, limit) <==> PageLater(j.entries, at, limit)
    ensures Keep(j.entries, (e: Entry) => !e.occurred.AtMost(at)) == j.entries
            <==> forall e <- j.entries :: !e.occurred.AtMost(at)
  {
    hide PositionOf, PageOf;
    var later := (e: Entry) => !e.occurred.AtMost(at);
    PageKeptExactly(j.entries, later, limit);
    KeepAllExactly(j.entries, later);
  }

  lemma KeepAllExactly(entries: seq<Entry>, keep: Entry -> bool)
    ensures Keep(entries, keep) == entries <==> forall e <- entries :: keep(e)
  {
    KeepMembers(entries, keep);
    if forall e <- entries :: keep(e) {
      KeepEverything(entries, keep);
    }
  }

  lemma KeepSome(entries: seq<Entry>, keep: Entry -> bool)
    ensures Keep(entries, keep) != [] <==> exists i :: 0 <= i < |entries| && keep(entries[i])
  {
    KeepMembers(entries, keep);
    if Keep(entries, keep) != [] {
      assert Keep(entries, keep)[0] in entries;
    }
  }

  lemma {:induction false} KeepNoLonger(entries: seq<Entry>, keep: Entry -> bool)
    ensures |Keep(entries, keep)| <= |entries|
  {
    if entries != [] {
      KeepNoLonger(entries[1..], keep);
    }
  }

  /** Picking leaves the first page as it is exactly when it leaves its entries, and one of the rest if
      there are more. */
  lemma PageKeptExactly(all: seq<Entry>, keep: Entry -> bool, limit: nat)
    ensures var n := AtLeastOne(limit);
            PageOf(Keep(all, keep), limit) == PageOf(all, limit)
            <==> (forall i :: 0 <= i < |all| && i < n ==> keep(all[i]))
                 && (|all| > n ==> exists i :: n <= i < |all| && keep(all[i]))
  {
    hide Keep;
    var n := AtLeastOne(limit);
    if |all| <= n {
      KeepNoLonger(all, keep);
      KeepAllExactly(all, keep);
    } else {
      LongPageKept(all, keep, n);
      var b := all[n..];
      KeepSome(b, keep);
      assert forall i :: n <= i < |all| ==> all[i] == b[i - n];
    }
  }

  lemma LongPageKept(all: seq<Entry>, keep: Entry -> bool, n: nat)
    requires 0 < n < |all|
    ensures var kept := Keep(all, keep);
            |kept| > n && kept[..n] == all[..n]
            <==> (forall i :: 0 <= i < n ==> keep(all[i])) && Keep(all[n..], keep) != []
  {
    hide Keep;
    var a, b, kept := all[..n], all[n..], Keep(all, keep);
    assert all == a + b;
    KeepAppend(a, b, keep);
    KeepMembers(all, keep);
    KeepAllExactly(a, keep);
    if |kept| > n && kept[..n] == a {
      forall i | 0 <= i < n
        ensures keep(all[i])
      {
        assert kept[i] == all[i] && kept[i] in kept;
      }
    }
  }

  /** One whose time of day is the last of its day misses what was logged the next morning. */
  lemma MissedAfterMidnight(j: Journal, id: U64, morning: Entry, limit: nat)
    requires j.entries == [morning] && morning.entryId != id && morning.occurred == EntryTime(0, 1)
    ensures var evening := EntryTime(86_399_999, 0);
            evening.ToUnixMillis() < morning.occurred.ToUnixMillis() && AfterEntry(j, id, evening, limit) == ([], false)
  {
    KeepNothing(j.entries, (e: Entry) => !e.occurred.AtMost(EntryTime(86_399_999, 0)));
  }

  // ---- when no resume entry is lost ----

  /** From here on nothing is cleared, and fewer entries are logged between two requests than a page
      holds. */
  ghost predicate Unhurried(l: Live) {
    forall n :: n >= l.round ==> |l.script(n)| < AtLeastOne(l.limit) && forall op <- l.script(n) :: op.Logged?
  }

  /** Logging evicts at most as many entries as it adds. */
  lemma {:induction false} LoggingEvictsNoMore(j: Journal, capacity: U64, ops: seq<LogOp>)
    requires forall op <- ops :: op.Logged?
    ensures |Added(j, capacity, ops)| == |ops| && |Changed(j, capacity, ops).entries| >= |j.entries|
    decreases |ops|
  {
    if ops != [] {
      LoggingEvictsNoMore(Change(j, capacity, ops[0]), capacity, ops[1..]);
    }
  }

  lemma {:induction false} UnhurriedLosesNothing(l: Live, start: nat, k: nat, maxEntries: nat)
    requires Tracks(l.journal, l.logged) && Unhurried(l) && start <= k <= |l.logged| && Oldest(l) <= k
    ensures var (entries, more) := PageOf(l.logged[k..], l.limit);
            Unbroken(l, Page(AllToClient(entries), more), AllToClient(l.logged[start..k]), maxEntries, start)
    decreases if k - start < maxEntries then maxEntries - (k - start) else 0
  {
    hide Tracks, AfterEntry, AllToClient, Unbroken, Changed, Added;
    var (entries, more) := PageOf(l.logged[k..], l.limit);
    var before, end := l.logged[start..k], k + |entries|;
    assert before + entries == l.logged[start..end];
    if more && end - start < maxEntries {
      var next := Advance(l);
      LoggingEvictsNoMore(l.journal, l.capacity, l.script(l.round));
      AdvanceTracks(l);
      assert next.logged[end - 1] == entries[|entries| - 1];
      assert next.logged[start..end] == before + entries;
      GoesOnFollows(next, end - 1, entries[|entries| - 1].occurred);
      UnhurriedLosesNothing(next, start, end, maxEntries);
      UnbrokenTurn(l, entries, before, maxEntries, start);
    } else {
      NothingToLose(l, entries, more, before, maxEntries, start);
    }
  }

  lemma NothingToLose(l: Live, entries: seq<Entry>, more: bool, before: seq<Entry>, maxEntries: nat, start: nat)
    requires !more || |before + entries| >= maxEntries
    ensures Unbroken(l, Page(AllToClient(entries), more), AllToClient(before), maxEntries, start)
  {
  }

  /** A log that is not cleared and gains fewer entries between two requests than a page holds is read
      without a gap, from the oldest entry at the first request to the newest at the last. */
  lemma NothingSkippedUnhurried(l: Live, maxEntries: nat)
    requires Tracks(l.journal, l.logged) && Unhurried(Advance(l))
    requires forall e <- Advance(l).journal.entries :: e.occurred.WellFormed()
    ensures var r, start, last := ReadWholeLog(l, FIRST_ENTRY_TIME, maxEntries), Oldest(Advance(l)),
                                  AtLastRequest(l, FIRST_ENTRY_TIME, maxEntries);
            start <= |last.logged| && (r.Ok? ==> r.value == AllToClient(last.logged[start..]))
  {
    hide Advance, Unbroken, AllToClient, PageOf, Consecutive, ByTime, ReadWholeLog, AtLastRequest, Unhurried;
    var first := Advance(l);
    AdvanceTracks(l);
    FirstPageIs(first);
    var start := Oldest(first);
    assert first.logged[start..start] == [] && AllToClient([]) == [];
    UnhurriedLosesNothing(first, start, start, maxEntries);
    NothingSkippedExactly(l, maxEntries);
  }

  // ---- the last identifier ----

  /** Past the last identifier numbering starts again at 0, and a reading then runs backwards once: the
      identifiers must not run out for them to increase. */
  lemma WrappedIdentifiersFall(l: Live, first: Entry, second: Entry)
    requires l.journal.entries == [first, second] && first.entryId == LAST_ID && second.entryId == 0 && l.limit >= 2
             && l.script(l.round) == []
    requires first.occurred.WellFormed() && second.occurred.WellFormed()
    ensures ReadWholeLog(l, FIRST_ENTRY_TIME, 2) == Ok([ToClient(first), ToClient(second)])
            && !Increasing([ToClient(first), ToClient(second)])
  {
    hide ByTime, ToClient, AllToClient, IdOf, Collect;
    assert l.logged + [] == l.logged && Advance(l) == l.(round := l.round + 1);
    EverythingFirst(l.journal, l.limit);
    ToClientId(first);
    ToClientId(second);
    var both := [ToClient(first), ToClient(second)];
    assert AllToClient([first, second]) == both && AllToClient([]) == [] && [] + [first, second] == [first, second];
    CollectTurn(Advance(l), [first, second], false, [], 2);
    assert Id(both[0]) > Id(both[1]);
  }

  // ---- a log that does not change ----

  /** The first whole number of pages, at least `at`, that is no shorter than `maxEntries`. */
  function Reach(pageLen: nat, maxEntries: nat, at: nat): (n: nat)
    requires pageLen >= 1
    ensures n >= maxEntries && n >= at
    decreases if at < maxEntries then maxEntries - at else 0
  {
    if at >= maxEntries then at else Reach(pageLen, maxEntries, at + pageLen)
  }

  ghost predicate Unchanging(l: Live) {
    forall n :: l.script(n) == []
  }

  lemma {:induction false} CollectExact(l: Live, start: nat, k: nat, maxEntries: nat)
    requires Tracks(l.journal, l.logged) && Unchanging(l) && start <= k <= |l.logged| && Oldest(l) <= k
    ensures var all, n := l.logged[start..], AtLeastOne(l.limit);
            var (entries, more) := PageOf(l.logged[k..], l.limit);
            Collect(l, Page(AllToClient(entries), more), AllToClient(l.logged[start..k]), maxEntries)
            == if |all| <= Reach(n, maxEntries, k - start + n) then Ok(AllToClient(all))
               else Err(LimitExceeded(MaxEntries, Reach(n, maxEntries, k - start + n)))
    decreases if k - start < maxEntries then maxEntries - (k - start) else 0
  {
    hide Tracks, AllToClient, Collect, Final, AfterEntry;
    var (entries, more) := PageOf(l.logged[k..], l.limit);
    var before, end := l.logged[start..k], k + |entries|;
    assert before + entries == l.logged[start..end];
    CollectTurn(l, entries, more, before, maxEntries);
    if more && end - start < maxEntries {
      var next := Advance(l);
      assert next == l.(round := l.round + 1);
      assert l.logged[end - 1] == entries[|entries| - 1];
      GoesOnFollows(l, end - 1, entries[|entries| - 1].occurred);
      CollectExact(next, start, end, maxEntries);
    } else if !more {
      assert l.logged[start..end] == l.logged[start..];
    }
  }

  /** On an unchanging log the client gets exactly the log, whenever the log is no longer than the
      first whole number of pages that reaches `maxEntries`; and otherwise it is told how far it
      came. A log of at most `maxEntries` entries is always read whole. */
  lemma ReadsExactly(l: Live, maxEntries: nat)
    requires Tracks(l.journal, l.logged) && Unchanging(l) && forall e <- l.journal.entries :: e.occurred.WellFormed()
    ensures var all, n := l.journal.entries, AtLeastOne(l.limit);
            && ReadWholeLog(l, FIRST_ENTRY_TIME, maxEntries)
               == (if |all| <= Reach(n, maxEntries, n) then Ok(AllToClient(all))
                   else Err(LimitExceeded(MaxEntries, Reach(n, maxEntries, n))))
            && (|all| <= maxEntries ==> ReadWholeLog(l, FIRST_ENTRY_TIME, maxEntries) == Ok(AllToClient(all)))
  {
    hide Collect, ByTime, ToClient, Consecutive;
    var first, start := Advance(l), Oldest(l);
    assert first == l.(round := l.round + 1);
    FirstPageIs(first);
    assert l.logged[start..] == l.journal.entries && l.logged[start..start] == [];
    CollectExact(first, start, start, maxEntries);
  }
}
