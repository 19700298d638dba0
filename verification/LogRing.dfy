/** What the ring of a log keeps, and what a query by time gives of it, without the functions that
    compute either. */
module LogRing {
  import opened Sequences
  import opened Common
  import opened Octets
  import opened Time
  import opened Log
  import opened LogClient

  /** The entries logged since the log was last cleared, oldest first. */
  function SinceCleared(ops: seq<LogOp>): seq<NewEntry> {
    if ops == [] then []
    else
      var front, last := ops[..|ops| - 1], ops[|ops| - 1];
      if last.Cleared? then [] else SinceCleared(front) + [last.entry]
  }

  /** How many entries were logged, cleared or not. */
  function Count(ops: seq<LogOp>): (n: nat)
    ensures n <= |ops|
  {
    if ops == [] then 0 else Count(ops[..|ops| - 1]) + if ops[|ops| - 1].Logged? then 1 else 0
  }

  /** The held entry records that one. */
  predicate Records(held: Entry, e: NewEntry) {
    held.occurred == e.occurred && held.values == e.values && held.reason == e.reason
  }

  lemma {:induction false} ChangedSnoc(j: Journal, capacity: nat, ops: seq<LogOp>, op: LogOp)
    ensures Changed(j, capacity, ops + [op]) == Change(Changed(j, capacity, ops), capacity, op)
    decreases |ops|
  {
    hide Change;
    if ops == [] {
      assert [] + [op] == [op] && [op][1..] == [];
    } else {
      assert (ops + [op])[1..] == ops[1..] + [op];
      ChangedSnoc(Change(j, capacity, ops[0]), capacity, ops[1..], op);
    }
  }

  /** What is held is the last of what was logged since. */
  predicate HoldsLast(j: Journal, capacity: nat, all: seq<NewEntry>) {
    && |j.entries| == (if capacity < |all| then capacity else |all|)
    && forall i :: 0 <= i < |j.entries| ==> Records(j.entries[i], all[|all| - |j.entries| + i])
  }

  lemma {:induction false} RingHolds(first: U64, capacity: nat, ops: seq<LogOp>)
    ensures var j := Changed(Journal([], first), capacity, ops);
            && HoldsLast(j, capacity, SinceCleared(ops)) && Consecutive(j.entries, j.nextId)
            && j.nextId == (first + Count(ops)) % 0x1_0000_0000_0000_0000
    decreases |ops|
  {
    hide HoldsLast, Consecutive, Change;
    if ops == [] {
      NothingHeld(first, capacity);
    } else {
      var front, last := ops[..|ops| - 1], ops[|ops| - 1];
      assert ops == front + [last];
      RingHolds(first, capacity, front);
      ChangedSnoc(Journal([], first), capacity, front, last);
      var before := Changed(Journal([], first), capacity, front);
      ChangeHoldsLast(before, capacity, SinceCleared(front), last);
      NextNumber(first + Count(front), before.nextId);
    }
  }

  lemma NothingHeld(first: U64, capacity: nat)
    ensures HoldsLast(Journal([], first), capacity, []) && Consecutive([], first)
  {
  }

  /** From an empty log, whatever is logged and cleared: held are exactly the last entries logged since it
      was last cleared, as many of them as there is room for, in order, numbered one after another and the
      next number being as many further as entries were logged. */
  lemma HoldsTheLastExactly(first: U64, capacity: nat, ops: seq<LogOp>)
    ensures var j, all := Changed(Journal([], first), capacity, ops), SinceCleared(ops);
            && |j.entries| == (if capacity < |all| then capacity else |all|)
            && (forall i :: 0 <= i < |j.entries| ==>
                  && Records(j.entries[i], all[|all| - |j.entries| + i])
                  && j.entries[i].entryId == (j.nextId + i - |j.entries|) % 0x1_0000_0000_0000_0000)
            && j.nextId == (first + Count(ops)) % 0x1_0000_0000_0000_0000
  {
    hide Records, Changed;
    RingHolds(first, capacity, ops);
  }

  lemma NextNumber(n: nat, id: U64)
    requires id == n % 0x1_0000_0000_0000_0000
    ensures (n + 1) % 0x1_0000_0000_0000_0000 == if id == LAST_ID then 0 else id + 1
  {
    var q, m := n / 0x1_0000_0000_0000_0000, n + 1;
    assert n == q * 0x1_0000_0000_0000_0000 + id;
    assert m == m / 0x1_0000_0000_0000_0000 * 0x1_0000_0000_0000_0000 + m % 0x1_0000_0000_0000_0000;
  }

  lemma ChangeHoldsLast(j: Journal, capacity: nat, all: seq<NewEntry>, op: LogOp)
    requires HoldsLast(j, capacity, all) && Consecutive(j.entries, j.nextId)
    ensures var after, now := Change(j, capacity, op), if op.Cleared? then [] else all + [op.entry];
            HoldsLast(after, capacity, now) && Consecutive(after.entries, after.nextId)
    ensures Change(j, capacity, op).nextId == if op.Cleared? then j.nextId else if j.nextId == LAST_ID then 0
            else j.nextId + 1
  {
    hide Consecutive, Records;
    match op
    case Cleared => NothingConsecutive(j.nextId);
    case Logged(e) =>
      AppendedConsecutive(j, capacity, e);
      assert Records(Entry(j.nextId, e.occurred, e.values, e.reason), e) by {
        RecordsIt(j.nextId, e);
      }
  }

  lemma RecordsIt(id: U64, e: NewEntry)
    ensures Records(Entry(id, e.occurred, e.values, e.reason), e)
  {
  }

  lemma NothingConsecutive(nextId: U64)
    ensures Consecutive([], nextId)
  {
  }

  // ---- a query by time ----

  /** The entry occurred inside both bounds, each included and each absent when there is none. */
  predicate Inside(e: Entry, from: Option<EntryTime>, to: Option<EntryTime>) {
    && (from.Some? ==> e.occurred.millisOfDay > from.value.millisOfDay
                       || (e.occurred.millisOfDay == from.value.millisOfDay
                           && e.occurred.daysSince1984 >= from.value.daysSince1984))
    && (to.Some? ==> e.occurred.millisOfDay < to.value.millisOfDay
                     || (e.occurred.millisOfDay == to.value.millisOfDay
                         && e.occurred.daysSince1984 <= to.value.daysSince1984))
  }

  /** The places of the wanted entries, in order. */
  lemma {:induction false} KeepPlaces(entries: seq<Entry>, keep: Entry -> bool) returns (places: seq<nat>)
    ensures Picks(Keep(entries, keep), entries, places)
    ensures forall i :: 0 <= i < |entries| ==> (i in places <==> keep(entries[i]))
  {
    places := [];
    if entries != [] {
      var rest := Keep(entries[1..], keep);
      var tail := KeepPlaces(entries[1..], keep);
      places := PicksTail(rest, entries, tail, 1);
      forall i | 1 <= i < |entries|
        ensures i in places <==> keep(entries[i])
      {
        assert entries[i] == entries[1..][i - 1];
        MovedMember(tail, places, i);
      }
      if keep(entries[0]) {
        PicksJoin([entries[0]], rest, entries, [0], places);
        places := [0] + places;
      }
    }
  }

  lemma MovedMember(tail: seq<nat>, moved: seq<nat>, i: nat)
    requires i >= 1 && |moved| == |tail| && forall k :: 0 <= k < |moved| ==> moved[k] == tail[k] + 1
    ensures i in moved <==> i - 1 in tail
  {
    if i - 1 in tail {
      var k :| 0 <= k < |tail| && tail[k] == i - 1;
      assert moved[k] == i;
    }
  }

  /** A query by time gives entries held inside both bounds, in order, no more than were asked for and at
      least one; it leaves none out before the last it gives, and says that more follow exactly when there
      are, and then gives as many as were asked for. */
  lemma ByTimeExactly(j: Journal, from: Option<EntryTime>, to: Option<EntryTime>, limit: nat) returns (places: seq<nat>)
    ensures var (entries, more) := ByTime(j, from, to, limit);
            var most := if limit == 0 then 1 else limit;
            && Picks(entries, j.entries, places) && |entries| <= most
            && (forall i <- places :: Inside(j.entries[i], from, to))
            && (forall i :: 0 <= i < |j.entries| && Inside(j.entries[i], from, to) && i !in places ==>
                  more && |entries| == most && forall k <- places :: k < i)
            && (more ==> exists i :: 0 <= i < |j.entries| && Inside(j.entries[i], from, to) && i !in places)
  {
    hide PageOf, Inside, Log.Within;
    var keep := (e: Entry) => Log.Within(e, from, to);
    var all := KeepPlaces(j.entries, keep);
    forall i | 0 <= i < |j.entries|
      ensures Inside(j.entries[i], from, to) <==> keep(j.entries[i])
    {
      WithinIsInside(j.entries[i], from, to);
    }
    places := PageOfPlaces(Keep(j.entries, keep), j.entries, all, limit);
  }

  lemma WithinIsInside(e: Entry, from: Option<EntryTime>, to: Option<EntryTime>)
    ensures Log.Within(e, from, to) <==> Inside(e, from, to)
  {
  }

  /** A page is the first of them, as many as were asked for. */
  lemma PageOfPlaces(part: seq<Entry>, whole: seq<Entry>, all: seq<nat>, limit: nat) returns (places: seq<nat>)
    requires Picks(part, whole, all)
    ensures var (entries, more) := PageOf(part, limit); var most := if limit == 0 then 1 else limit;
            && Picks(entries, whole, places) && |entries| <= most && places <= all
            && (forall i <- all :: i !in places ==> more && |entries| == most && forall k <- places :: k < i)
            && (more ==> exists i <- all :: i !in places)
            && forall i <- places :: i in all
  {
    var n := |PageOf(part, limit).0|;
    places := all[..n];
    forall at | 0 <= at < n
      ensures all[at] in places
    {
      assert places[at] == all[at];
    }
    forall i | i in all && i !in places
      ensures forall k <- places :: k < i
    {
      var at :| 0 <= at < |all| && all[at] == i;
    }
    if n < |all| {
      assert all[n] in all && forall k :: 0 <= k < n ==> all[k] < all[n];
    }
  }
}
