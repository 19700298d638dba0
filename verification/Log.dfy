/** The server's logs: a bounded ring of numbered entries per log, the two queries over it, and the
    control blocks that publish its bounds. */
module Log {
  import opened Sequences
  import opened Common
  import opened Octets
  import opened Time
  import opened Data
  import opened Text
  import opened Device

  datatype NewEntry = NewEntry(occurred: EntryTime, values: seq<(string, Value)>, reason: Option<seq<Octet>>)

  datatype Entry = Entry(entryId: U64, occurred: EntryTime, values: seq<(string, Value)>, reason: Option<seq<Octet>>)

  datatype Journal = Journal(entries: seq<Entry>, nextId: U64)

  /** The oldest and newest entry of a log: identifier and time. */
  datatype LogBounds = LogBounds(oldest: (U64, EntryTime), newest: (U64, EntryTime))

  const LAST_ID: U64 := 0xFFFF_FFFF_FFFF_FFFF

  /** How many identifiers there are. */
  const IDENTIFIERS: nat := 0x1_0000_0000_0000_0000

  // ---- queries ----

  /** Where the entry `id` stands; the length when it is not held. */
  function PositionOf(entries: seq<Entry>, id: U64): (i: nat)
    ensures i <= |entries| && (i < |entries| ==> entries[i].entryId == id)
    ensures forall j :: 0 <= j < i ==> entries[j].entryId != id
  {
    Find(entries, (e: Entry) => e.entryId == id)
  }

  function AtLeastOne(limit: nat): (n: nat)
    ensures n >= 1
  {
    if limit == 0 then 1 else limit
  }

  /** At most `limit` entries, and whether there are more. */
  function PageOf(matching: seq<Entry>, limit: nat): (seq<Entry>, bool) {
    var n := AtLeastOne(limit);
    if |matching| > n then (matching[..n], true) else (matching, false)
  }

  predicate Within(e: Entry, from: Option<EntryTime>, to: Option<EntryTime>) {
    (from.None? || from.value.AtMost(e.occurred)) && (to.None? || e.occurred.AtMost(to.value))
  }

  /** `QueryLogByTime`: both bounds inclusive. */
  function ByTime(j: Journal, from: Option<EntryTime>, to: Option<EntryTime>, limit: nat): (seq<Entry>, bool) {
    PageOf(Keep(j.entries, (e: Entry) => Within(e, from, to)), limit)
  }

  /** `QueryLogAfterEntry`: what follows the entry `id`, or what is later than `at` when `id` is no
      longer held. */
  function AfterEntry(j: Journal, id: U64, at: EntryTime, limit: nat): (seq<Entry>, bool) {
    var i := PositionOf(j.entries, id);
    PageOf(if i < |j.entries| then j.entries[i + 1..] else Keep(j.entries, (e: Entry) => !e.occurred.AtMost(at)), limit)
  }

  // ---- the ring ----

  function Appended(j: Journal, capacity: nat, e: NewEntry): Journal {
    var grown := j.entries + [Entry(j.nextId, e.occurred, e.values, e.reason)];
    Journal(if |grown| > capacity then grown[1..] else grown, if j.nextId == LAST_ID then 0 else j.nextId + 1)
  }

  function Purged(j: Journal): Journal {
    j.(entries := [])
  }

  /** Identifiers are consecutive, starting again at 0 past the last one, and end just before the next. */
  predicate Consecutive(entries: seq<Entry>, nextId: U64) {
    forall i :: 0 <= i < |entries| ==> entries[i].entryId == (nextId + i - |entries|) % IDENTIFIERS
  }

  /** The same without ever starting again: the newer entry has the larger identifier. */
  predicate Ordered(j: Journal) {
    forall i :: 0 <= i < |j.entries| ==> j.entries[i].entryId + |j.entries| == j.nextId + i
  }

  lemma IdentifiersRepeat(n: int)
    ensures (n - IDENTIFIERS) % IDENTIFIERS == n % IDENTIFIERS
  {
    assert (n % IDENTIFIERS) + n / IDENTIFIERS * IDENTIFIERS == n;
    var m := n - IDENTIFIERS;
    assert (m % IDENTIFIERS) + m / IDENTIFIERS * IDENTIFIERS == m;
  }

  /** The next entry joins everything logged before it, held or not. */
  lemma NextJoins(entries: seq<Entry>, nextId: U64, e: Entry)
    requires Consecutive(entries, nextId) && e.entryId == nextId
    ensures Consecutive(entries + [e], if nextId == LAST_ID then 0 else nextId + 1)
  {
    var grown := entries + [e];
    forall i | 0 <= i < |grown| && nextId == LAST_ID
      ensures grown[i].entryId == (0 + i - |grown|) % IDENTIFIERS
    {
      IdentifiersRepeat(nextId + i - |entries|);
    }
  }

  lemma TailConsecutive(entries: seq<Entry>, nextId: U64, from: nat)
    requires Consecutive(entries, nextId) && from <= |entries|
    ensures Consecutive(entries[from..], nextId)
  {
    forall i | 0 <= i < |entries| - from
      ensures entries[from..][i].entryId == (nextId + i - (|entries| - from)) % IDENTIFIERS
    {
      assert entries[from..][i] == entries[from + i];
    }
  }

  lemma AppendedConsecutive(j: Journal, capacity: nat, e: NewEntry)
    requires Consecutive(j.entries, j.nextId)
    ensures var after := Appended(j, capacity, e); Consecutive(after.entries, after.nextId)
  {
    hide Consecutive;
    var entry := Entry(j.nextId, e.occurred, e.values, e.reason);
    NextJoins(j.entries, j.nextId, entry);
    TailConsecutive(j.entries + [entry], Appended(j, capacity, e).nextId, 1);
  }

  /** The default store. */
  class MemoryLog {
    var logs: map<string, Journal>
    const capacity: nat

    ghost predicate Valid()
      reads this
    {
      capacity >= 1 && forall log <- logs :: |logs[log].entries| <= capacity
    }

    /** Every log named exists from the start, empty, with its first identifier still to come. */
    constructor (references: seq<string>, capacity: nat)
      ensures Valid() && this.capacity == AtLeastOne(capacity)
      ensures logs.Keys == set r <- references :: r
      ensures forall log <- logs :: logs[log] == Journal([], 1)
    {
      this.capacity := AtLeastOne(capacity);
      logs := map r <- references :: Journal([], 1);
    }

    /** Give the entry its identifier and make room for it; report what the log now holds. */
    method Append(log: string, entry: NewEntry) returns (bounds: Option<LogBounds>)
      requires Valid()
      modifies this
      ensures Valid()
      ensures bounds.Some? <==> log in old(logs)
      ensures logs == if log in old(logs) then old(logs)[log := Appended(old(logs)[log], capacity, entry)]
                      else old(logs)
      ensures log in old(logs) && Consecutive(old(logs)[log].entries, old(logs)[log].nextId)
              ==> Consecutive(logs[log].entries, logs[log].nextId)
      ensures log in old(logs) && Ordered(old(logs)[log]) ==> (Ordered(logs[log]) <==> old(logs)[log].nextId < LAST_ID)
      ensures bounds.Some? ==>
                var entries := logs[log].entries;
                && entries != []
                && bounds.value.oldest == (entries[0].entryId, entries[0].occurred)
                && bounds.value.newest == (entries[|entries| - 1].entryId, entries[|entries| - 1].occurred)
    {
      if log !in logs {
        return None;
      }
      var journal := logs[log];
      if Consecutive(journal.entries, journal.nextId) {
        AppendedConsecutive(journal, capacity, entry);
      }
      var entryId := journal.nextId;
      var nextId: U64 := if entryId == LAST_ID then 0 else entryId + 1;
      var entries := journal.entries + [Entry(entryId, entry.occurred, entry.values, entry.reason)];
      if |entries| > capacity {
        entries := entries[1..];
      }
      logs := logs[log := Journal(entries, nextId)];
      var oldest := if entries != [] then (entries[0].entryId, entries[0].occurred) else (entryId, entry.occurred);
      bounds := Some(LogBounds(oldest, (entryId, entry.occurred)));
    }

    method Purge(log: string)
      requires Valid()
      modifies this
      ensures Valid()
      ensures logs == if log in old(logs) then old(logs)[log := Purged(old(logs)[log])] else old(logs)
    {
      if log in logs {
        logs := logs[log := logs[log].(entries := [])];
      }
    }
  }

  // ---- the control blocks ----

  /** A log control block and the log it writes into. */
  datatype LogControl = LogControl(block: string, log: string)

  /** The four attributes a control block publishes its log's bounds in. */
  function Attributes(block: string): set<string> {
    {block + "$OldEnt", block + "$OldEntrTm", block + "$NewEnt", block + "$NewEntrTm"}
  }

  /** Each of the four that takes such a value has it. */
  predicate Publishes(accepts: (string, Value) -> bool, values: map<string, Value>, block: string, bounds: LogBounds) {
    && Has(accepts, values, block + "$OldEnt", OctetString(ToBE(bounds.oldest.0, 8)))
    && Has(accepts, values, block + "$OldEntrTm", BinaryTime(bounds.oldest.1.ToOctets()))
    && Has(accepts, values, block + "$NewEnt", OctetString(ToBE(bounds.newest.0, 8)))
    && Has(accepts, values, block + "$NewEntrTm", BinaryTime(bounds.newest.1.ToOctets()))
  }

  predicate Has(accepts: (string, Value) -> bool, values: map<string, Value>, reference: string, v: Value) {
    accepts(reference, v) ==> reference in values && values[reference] == v
  }

  /** The attributes of two blocks never coincide under different names. */
  lemma AttributesApart(a: string, b: string)
    ensures a + "$OldEnt" != b + "$OldEntrTm" && a + "$OldEnt" != b + "$NewEnt" && a + "$OldEnt" != b + "$NewEntrTm"
    ensures a + "$OldEntrTm" != b + "$NewEnt" && a + "$OldEntrTm" != b + "$NewEntrTm"
            && a + "$NewEnt" != b + "$NewEntrTm"
  {
    SuffixesDiffer(a, "$OldEnt", b, "$OldEntrTm", 1);
    SuffixesDiffer(a, "$OldEnt", b, "$NewEnt", 6);
    SuffixesDiffer(a, "$OldEnt", b, "$NewEntrTm", 1);
    SuffixesDiffer(a, "$OldEntrTm", b, "$NewEnt", 1);
    SuffixesDiffer(a, "$OldEntrTm", b, "$NewEntrTm", 9);
    SuffixesDiffer(a, "$NewEnt", b, "$NewEntrTm", 1);
  }

  function Publish(accepts: (string, Value) -> bool, values: map<string, Value>, block: string,
                   bounds: LogBounds): map<string, Value> {
    var one := Stored(accepts, values, block + "$OldEnt", OctetString(ToBE(bounds.oldest.0, 8)));
    var two := Stored(accepts, one, block + "$OldEntrTm", BinaryTime(bounds.oldest.1.ToOctets()));
    var three := Stored(accepts, two, block + "$NewEnt", OctetString(ToBE(bounds.newest.0, 8)));
    Stored(accepts, three, block + "$NewEntrTm", BinaryTime(bounds.newest.1.ToOctets()))
  }

  predicate Same(before: map<string, Value>, after: map<string, Value>, reference: string) {
    (reference in before <==> reference in after) && (reference in before ==> after[reference] == before[reference])
  }

  /** Publishing for one block is complete. */
  lemma PublishIsComplete(accepts: (string, Value) -> bool, values: map<string, Value>, block: string,
                          bounds: LogBounds)
    ensures Publishes(accepts, Publish(accepts, values, block, bounds), block, bounds)
  {
    AttributesApart(block, block);
  }

  /** A write that agrees with what a block publishes leaves it published. */
  lemma StoredKeepsPublished(accepts: (string, Value) -> bool, values: map<string, Value>, reference: string, v: Value,
                             block: string, bounds: LogBounds)
    requires Publishes(accepts, values, block, bounds)
    requires reference == block + "$OldEnt" ==> v == OctetString(ToBE(bounds.oldest.0, 8))
    requires reference == block + "$OldEntrTm" ==> v == BinaryTime(bounds.oldest.1.ToOctets())
    requires reference == block + "$NewEnt" ==> v == OctetString(ToBE(bounds.newest.0, 8))
    requires reference == block + "$NewEntrTm" ==> v == BinaryTime(bounds.newest.1.ToOctets())
    ensures Publishes(accepts, Stored(accepts, values, reference, v), block, bounds)
  {
  }

  /** It disturbs no other block of the same log. */
  lemma PublishKeepsOthers(accepts: (string, Value) -> bool, values: map<string, Value>, block: string, other: string,
                           bounds: LogBounds)
    requires Publishes(accepts, values, other, bounds)
    ensures Publishes(accepts, Publish(accepts, values, block, bounds), other, bounds)
  {
    hide Publishes, Stored;
    AttributesApart(block, other);
    AttributesApart(other, block);
    var one := Stored(accepts, values, block + "$OldEnt", OctetString(ToBE(bounds.oldest.0, 8)));
    StoredKeepsPublished(accepts, values, block + "$OldEnt", OctetString(ToBE(bounds.oldest.0, 8)), other, bounds);
    var two := Stored(accepts, one, block + "$OldEntrTm", BinaryTime(bounds.oldest.1.ToOctets()));
    StoredKeepsPublished(accepts, one, block + "$OldEntrTm", BinaryTime(bounds.oldest.1.ToOctets()), other, bounds);
    var three := Stored(accepts, two, block + "$NewEnt", OctetString(ToBE(bounds.newest.0, 8)));
    StoredKeepsPublished(accepts, two, block + "$NewEnt", OctetString(ToBE(bounds.newest.0, 8)), other, bounds);
    StoredKeepsPublished(accepts, three, block + "$NewEntrTm", BinaryTime(bounds.newest.1.ToOctets()), other, bounds);
  }

  /** It touches nothing but the block's four attributes. */
  lemma PublishStaysInside(accepts: (string, Value) -> bool, values: map<string, Value>, block: string)
    ensures forall bounds, r :: r !in Attributes(block) ==> Same(values, Publish(accepts, values, block, bounds), r)
  {
  }

  /** No control block of the log has the attribute. */
  predicate Outside(controls: seq<LogControl>, log: string, reference: string) {
    forall c <- controls :: c.log == log ==> reference !in Attributes(c.block)
  }

  /** The log engine: the control blocks, and the store behind them. */
  class Logs {
    const controls: seq<LogControl>
    const store: MemoryLog

    constructor (controls: seq<LogControl>, store: MemoryLog)
      ensures this.controls == controls && this.store == store
    {
      this.controls, this.store := controls, store;
    }

    /** Append one entry; every control block of that log then publishes exactly what it holds, and
        nothing else in the model changes. */
    method Append(ied: Ied, log: string, entry: NewEntry)
      requires store.Valid()
      modifies ied, store
      ensures store.Valid()
      ensures store.logs == if log in old(store.logs)
                            then old(store.logs)[log := Appended(old(store.logs)[log], store.capacity, entry)]
                            else old(store.logs)
      ensures log !in store.logs ==> ied.values == old(ied.values)
      ensures log in store.logs ==>
                var entries := store.logs[log].entries;
                && entries != []
                && forall c <- controls :: c.log == log ==>
                     Publishes(ied.accepts, ied.values, c.block,
                               LogBounds((entries[0].entryId, entries[0].occurred),
                                         (entries[|entries| - 1].entryId, entries[|entries| - 1].occurred)))
      ensures forall r :: Outside(controls, log, r) ==> Same(old(ied.values), ied.values, r)
    {
      hide Publishes, Publish, Appended, Attributes;
      var bounds := store.Append(log, entry);
      if bounds.None? {
        return;
      }
      for i := 0 to |controls|
        modifies ied
        invariant forall k ::
                    0 <= k < i && controls[k].log == log
                    ==> Publishes(ied.accepts, ied.values, controls[k].block, bounds.value)
        invariant forall r :: Outside(controls, log, r) ==> Same(old(ied.values), ied.values, r)
      {
        if controls[i].log == log {
          forall k | 0 <= k < i && controls[k].log == log
            ensures Publishes(ied.accepts, Publish(ied.accepts, ied.values, controls[i].block, bounds.value),
                              controls[k].block, bounds.value)
          {
            PublishKeepsOthers(ied.accepts, ied.values, controls[i].block, controls[k].block, bounds.value);
          }
          PublishIsComplete(ied.accepts, ied.values, controls[i].block, bounds.value);
          PublishStaysInside(ied.accepts, ied.values, controls[i].block);
          assert controls[i] in controls;
          WriteBounds(ied, controls[i].block, bounds.value);
        }
      }
    }
  }

  /** The four writes. */
  method WriteBounds(ied: Ied, block: string, bounds: LogBounds)
    modifies ied
    ensures ied.values == Publish(ied.accepts, old(ied.values), block, bounds)
  {
    ied.Write(block + "$OldEnt", OctetString(ToBE(bounds.oldest.0, 8)));
    ied.Write(block + "$OldEntrTm", BinaryTime(bounds.oldest.1.ToOctets()));
    ied.Write(block + "$NewEnt", OctetString(ToBE(bounds.newest.0, 8)));
    ied.Write(block + "$NewEntrTm", BinaryTime(bounds.newest.1.ToOctets()));
  }
}
