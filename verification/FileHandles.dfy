/** The server's handles over whole runs: the quota, the identifiers, and what one read gives. */
module FileHandles {
  import opened Sequences
  import opened Octets
  import opened Files

  /** Whatever all the associations do, none ever holds more handles than its quota. */
  lemma {:induction false} QuotaInEveryRun(files: map<string, File>, maxHandles: nat, chunk: nat, ops: seq<FileOp>,
                                           assoc: AssocId)
    ensures |Own(PerformAll(Files.Server([], 1, files, maxHandles, chunk), ops).handles, assoc)| <= maxHandles
  {
    QuotaKept(Files.Server([], 1, files, maxHandles, chunk), ops, assoc);
  }

  lemma {:induction false} QuotaKept(st: Files.Server, ops: seq<FileOp>, assoc: AssocId)
    requires |Own(st.handles, assoc)| <= st.maxHandles
    ensures var after := PerformAll(st, ops);
            |Own(after.handles, assoc)| <= after.maxHandles && after.maxHandles == st.maxHandles
    decreases |ops|
  {
    hide Own, Perform;
    if ops != [] {
      PerformQuota(st, ops[0], assoc);
      QuotaKept(Perform(st, ops[0]), ops[1..], assoc);
    }
  }

  lemma PerformQuota(st: Files.Server, op: FileOp, me: AssocId)
    requires |Own(st.handles, me)| <= st.maxHandles
    ensures var after := Perform(st, op);
            |Own(after.handles, me)| <= after.maxHandles && after.maxHandles == st.maxHandles
  {
    hide Own, Without, WithoutAssoc, HandleAt, ReadAt;
    if ByOther(op, me) {
      PerformLeaves(st, op, me);
    } else {
      match op
      case OpenOp(assoc, path, position) =>
        var after := Open(st, assoc, path, position).0;
        if after.handles != st.handles {
          var mine := after.handles[|st.handles|];
          OwnAppend(st.handles, [mine], me);
          OwnOne(mine, me);
        }
      case ReadOp(assoc, frsmId) =>
        var i := HandleAt(st.handles, frsmId, assoc);
        if i < |st.handles| {
          OwnUpdate(st.handles, i, Files.Read(st, assoc, frsmId).0.handles[i], me);
        }
      case CloseOp(assoc, frsmId) =>
        OwnWithout(st.handles, frsmId, assoc, me);
        WithoutShrinks(Own(st.handles, me), frsmId, me);
      case GoneOp(assoc) => NoneLeft(st.handles, assoc);
    }
  }

  // ---- identifiers ----

  /** The identifier given out `k` handles after `n`. */
  function After(n: FrsmId, k: nat): FrsmId {
    if k == 0 then n else NextFrsm(After(n, k - 1))
  }

  /** They count up to the last and start again at 1. */
  lemma {:induction false} AfterCounts(n: FrsmId, k: nat)
    requires n >= 1
    ensures After(n, k) == (n - 1 + k) % 0x7FFF_FFFF + 1
  {
    if k > 0 {
      AfterCounts(n, k - 1);
      OneMore(n - 1 + k - 1);
    } else {
      assert n - 1 < 0x7FFF_FFFF;
    }
  }

  lemma OneMore(m: nat)
    ensures (m + 1) % 0x7FFF_FFFF == if m % 0x7FFF_FFFF == 0x7FFF_FFFE then 0 else m % 0x7FFF_FFFF + 1
  {
    assert m == m / 0x7FFF_FFFF * 0x7FFF_FFFF + m % 0x7FFF_FFFF;
    var p := m + 1;
    assert p == p / 0x7FFF_FFFF * 0x7FFF_FFFF + p % 0x7FFF_FFFF;
  }

  /** Identifiers of handles fewer than 2^31 - 1 apart are different, and those that many apart the same. */
  lemma IdentifiersDiffer(n: FrsmId, k: nat)
    requires n >= 1
    ensures 0 < k < 0x7FFF_FFFF ==> After(n, k) != n
    ensures After(n, 0x7FFF_FFFF) == n
    ensures After(n, k) >= 1
  {
    AfterCounts(n, k);
    AfterCounts(n, 0x7FFF_FFFF);
    if 0 < k < 0x7FFF_FFFF {
      var m := n - 1 + k;
      assert m == m / 0x7FFF_FFFF * 0x7FFF_FFFF + m % 0x7FFF_FFFF;
    }
    var m := n - 1 + 0x7FFF_FFFF;
    assert m == m / 0x7FFF_FFFF * 0x7FFF_FFFF + m % 0x7FFF_FFFF;
  }

  /** How many handles are given out. */
  function Granted(st: Files.Server, ops: seq<FileOp>): (n: nat)
    decreases |ops|
  {
    if ops == [] then 0
    else
      (if ops[0].OpenOp? && Open(st, ops[0].assoc, ops[0].path, ops[0].position).1.Opened? then 1 else 0)
      + Granted(Perform(st, ops[0]), ops[1..])
  }

  /** Handles have the first `given` identifiers, no two the same, and the next one comes next. */
  predicate Numbered(st: Files.Server, given: nat) {
    && given <= 0x7FFF_FFFF
    && st.nextFrsm == (if given == 0x7FFF_FFFF then 1 else given + 1)
    && (forall h <- st.handles :: 1 <= h.frsmId <= given)
    && Apart(st.handles)
  }

  predicate Apart(handles: seq<FileHandle>) {
    forall i, j :: 0 <= i < j < |handles| ==> handles[i].frsmId != handles[j].frsmId
  }

  lemma {:induction false} KeepApart(handles: seq<FileHandle>, keep: FileHandle -> bool)
    requires Apart(handles)
    ensures Apart(Keep(handles, keep))
  {
    if handles != [] {
      var rest := Keep(handles[1..], keep);
      KeepApart(handles[1..], keep);
      KeepMembers(handles[1..], keep);
      forall k | 0 <= k < |rest|
        ensures rest[k].frsmId != handles[0].frsmId
      {
        assert rest[k] in handles[1..];
      }
    }
  }

  lemma PerformNumbered(st: Files.Server, op: FileOp, given: nat)
    requires Numbered(st, given)
    requires op.OpenOp? && Open(st, op.assoc, op.path, op.position).1.Opened? ==> given < 0x7FFF_FFFF
    ensures Numbered(Perform(st, op),
                     if op.OpenOp? && Open(st, op.assoc, op.path, op.position).1.Opened? then given + 1 else given)
  {
    hide HandleAt, ReadAt, Own;
    match op
    case OpenOp(_, _, _) =>
    case ReadOp(_, _) =>
    case CloseOp(assoc, frsmId) =>
      KeepApart(st.handles, (h: FileHandle) => !Named(h, frsmId, assoc));
      KeepMembers(st.handles, (h: FileHandle) => !Named(h, frsmId, assoc));
    case GoneOp(assoc) =>
      KeepApart(st.handles, (h: FileHandle) => h.assoc != assoc);
      KeepMembers(st.handles, (h: FileHandle) => h.assoc != assoc);
    case StoreOp(_) =>
  }

  lemma {:induction false} StaysNumbered(st: Files.Server, ops: seq<FileOp>, given: nat)
    requires Numbered(st, given) && given + Granted(st, ops) <= 0x7FFF_FFFF
    ensures Numbered(PerformAll(st, ops), given + Granted(st, ops))
    decreases |ops|
  {
    hide Numbered, Perform, Open;
    if ops != [] {
      var grants := ops[0].OpenOp? && Open(st, ops[0].assoc, ops[0].path, ops[0].position).1.Opened?;
      PerformNumbered(st, ops[0], given);
      StaysNumbered(Perform(st, ops[0]), ops[1..], if grants then given + 1 else given);
    }
  }

  /** In every run that gives out at most 2^31 - 1 handles, no two open handles have one identifier,
      whosever they are. */
  lemma OpenHandlesDiffer(files: map<string, File>, maxHandles: nat, chunk: nat, ops: seq<FileOp>)
    requires Granted(Files.Server([], 1, files, maxHandles, chunk), ops) <= 0x7FFF_FFFF
    ensures var handles := PerformAll(Files.Server([], 1, files, maxHandles, chunk), ops).handles;
            forall i, j :: 0 <= i < j < |handles| ==> handles[i].frsmId != handles[j].frsmId
  {
    hide Granted, PerformAll;
    StaysNumbered(Files.Server([], 1, files, maxHandles, chunk), ops, 0);
  }

  // ---- one read ----

  /** A read gives the octets of the file from where its handle stands, as many as a chunk has room for and
      the file has, moves the handle past them, and says that more follow exactly when the chunk was full
      and the file does not end there. */
  lemma ReadGives(st: Files.Server, assoc: AssocId, frsmId: FrsmId)
    requires var i := HandleAt(st.handles, frsmId, assoc);
             && i < |st.handles| && st.handles[i].path in st.files
             && st.handles[i].size == |st.files[st.handles[i].path]| && st.handles[i].delivered <= st.handles[i].size
    ensures var i := HandleAt(st.handles, frsmId, assoc);
            var h := st.handles[i];
            var f, end := st.files[h.path], if h.delivered + st.chunk < h.size then h.delivered + st.chunk else h.size;
            var (after, answer) := Files.Read(st, assoc, frsmId);
            && answer == ReadData(f[h.delivered..end], end < |f|)
            && after == st.(handles := st.handles[i := h.(delivered := end)])
  {
    hide HandleAt;
  }

  /** Where the file is gone, or no longer reaches to the handle, a read gives nothing and leaves the handle. */
  lemma GoneReadsNothing(st: Files.Server, assoc: AssocId, frsmId: FrsmId)
    requires HandleAt(st.handles, frsmId, assoc) < |st.handles|
    requires var h := st.handles[HandleAt(st.handles, frsmId, assoc)];
             h.path !in st.files || |st.files[h.path]| <= h.delivered
    ensures var (after, answer) := Files.Read(st, assoc, frsmId);
            answer.ReadData? && answer.data == [] && after == st && (st.chunk > 0 ==> !answer.more)
  {
    hide HandleAt;
    var i := HandleAt(st.handles, frsmId, assoc);
    assert st.handles[i := st.handles[i].(delivered := st.handles[i].delivered + 0)] == st.handles;
  }

  /** A handle opened at a position gives the file from there, or nothing past its end. */
  lemma OpenedReads(st: Files.Server, assoc: AssocId, path: string, position: U32)
    requires path in st.files && |Own(st.handles, assoc)| < st.maxHandles
    requires forall h <- st.handles :: h.frsmId != st.nextFrsm
    ensures var (after, answer) := Open(st, assoc, path, position);
            var f := st.files[path];
            var from := if position < |f| then position else |f|;
            var end := if from + st.chunk < |f| then from + st.chunk else |f|;
            && answer == Opened(st.nextFrsm, |f|)
            && Files.Read(after, assoc, st.nextFrsm).1 == ReadData(f[from..end], end < |f|)
  {
    hide Own, HandleAt;
    var after := Open(st, assoc, path, position).0;
    assert after.handles[|st.handles|].frsmId == st.nextFrsm;
    var i := HandleAt(after.handles, st.nextFrsm, assoc);
    assert forall k :: 0 <= k < |st.handles| ==> after.handles[k] == st.handles[k] && after.handles[k] in st.handles;
    assert i == |st.handles|;
    ReadGives(after, assoc, st.nextFrsm);
  }

  /** Closing is reported done exactly when the association holds such a handle, and takes away every one
      of that name and nothing else, in order. */
  lemma CloseTakes(st: Files.Server, assoc: AssocId, frsmId: FrsmId)
    ensures var (after, closed) := Close(st, assoc, frsmId);
            && (closed <==> exists h <- st.handles :: h.frsmId == frsmId && h.assoc == assoc)
            && (forall h :: h in after.handles <==> h in st.handles && !(h.frsmId == frsmId && h.assoc == assoc))
            && after == st.(handles := Keep(st.handles, (h: FileHandle) => !(h.frsmId == frsmId && h.assoc == assoc)))
  {
    KeepSame(st.handles, (h: FileHandle) => !Named(h, frsmId, assoc),
             (h: FileHandle) => !(h.frsmId == frsmId && h.assoc == assoc));
    KeepMembers(st.handles, (h: FileHandle) => !(h.frsmId == frsmId && h.assoc == assoc));
  }

  /** An association that ends leaves no handle, and changing what is stored changes no handle. */
  lemma GoneAndStored(st: Files.Server, assoc: AssocId, files: map<string, File>)
    ensures Own(Perform(st, GoneOp(assoc)).handles, assoc) == [] && Perform(st, GoneOp(assoc)).files == st.files
    ensures Perform(st, StoreOp(files)).files == files && Perform(st, StoreOp(files)).handles == st.handles
  {
    NoneLeft(st.handles, assoc);
  }
}
