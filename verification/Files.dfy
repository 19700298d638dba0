/** File transfer: the server's handles, and the client that opens, reads to the end and closes. */
module Files {
  import opened Sequences
  import opened Common
  import opened Octets

  type AssocId = U64
  type FrsmId = x: int | -0x8000_0000 <= x < 0x8000_0000
  const LAST_FRSM: FrsmId := 0x7FFF_FFFF

  /** A name, a position and the size the file had when it was opened: never a copy of the file. */
  datatype FileHandle = FileHandle(frsmId: FrsmId, assoc: AssocId, path: string, delivered: nat, size: U32)

  /** What a file is: fewer octets than a 32-bit size can count. */
  type File = f: seq<Octet> | |f| < 0x1_0000_0000 witness []

  datatype Server = Server(handles: seq<FileHandle>, nextFrsm: FrsmId, files: map<string, File>, maxHandles: nat,
                           chunk: nat)

  datatype OpenAnswer = Opened(frsmId: FrsmId, size: U32) | OpenDenied | OpenNotFound
  datatype ReadAnswer = ReadData(data: seq<Octet>, more: bool) | ReadNotFound

  /** The handles of one association, in order. */
  function Own(handles: seq<FileHandle>, assoc: AssocId): seq<FileHandle> {
    Keep(handles, (h: FileHandle) => h.assoc == assoc)
  }

  predicate Named(h: FileHandle, frsmId: FrsmId, assoc: AssocId) {
    h.frsmId == frsmId && h.assoc == assoc
  }

  /** Where the handle stands; the number of handles when there is none. */
  function HandleAt(handles: seq<FileHandle>, frsmId: FrsmId, assoc: AssocId): (i: nat)
    ensures i <= |handles| && (i < |handles| ==> Named(handles[i], frsmId, assoc))
    ensures forall j :: 0 <= j < i ==> !Named(handles[j], frsmId, assoc)
  {
    Find(handles, (h: FileHandle) => Named(h, frsmId, assoc))
  }

  /** Every handle but one association's `frsmId`s. */
  function Without(handles: seq<FileHandle>, frsmId: FrsmId, assoc: AssocId): seq<FileHandle> {
    Keep(handles, (h: FileHandle) => !Named(h, frsmId, assoc))
  }

  function WithoutAssoc(handles: seq<FileHandle>, assoc: AssocId): seq<FileHandle> {
    Keep(handles, (h: FileHandle) => h.assoc != assoc)
  }

  /** The identifier after `n`, wrapping past the last to 1. */
  function NextFrsm(n: FrsmId): FrsmId {
    if n == LAST_FRSM || n < 0 then 1 else n + 1
  }

  /** Up to `len` octets of a file from `offset`; nothing past its end, and nothing when it is gone. */
  function ReadAt(files: map<string, File>, path: string, offset: nat, len: nat): seq<Octet> {
    if path !in files || offset >= |files[path]| then []
    else if offset + len < |files[path]| then files[path][offset..offset + len]
    else files[path][offset..]
  }

  function Open(st: Server, assoc: AssocId, path: string, position: U32): (Server, OpenAnswer) {
    if |Own(st.handles, assoc)| >= st.maxHandles then (st, OpenDenied)
    else if path !in st.files then (st, OpenNotFound)
    else
      var size: U32 := |st.files[path]|;
      (st.(handles := st.handles
           + [FileHandle(st.nextFrsm, assoc, path, if position < size then position else size, size)],
           nextFrsm := NextFrsm(st.nextFrsm)),
       Opened(st.nextFrsm, size))
  }

  function Read(st: Server, assoc: AssocId, frsmId: FrsmId): (Server, ReadAnswer) {
    var i := HandleAt(st.handles, frsmId, assoc);
    if i == |st.handles| then (st, ReadNotFound)
    else
      var h := st.handles[i];
      var data := ReadAt(st.files, h.path, h.delivered, st.chunk);
      (st.(handles := st.handles[i := h.(delivered := h.delivered + |data|)]),
       ReadData(data, |data| == st.chunk && h.delivered + |data| < h.size))
  }

  function Close(st: Server, assoc: AssocId, frsmId: FrsmId): (Server, bool) {
    (st.(handles := Without(st.handles, frsmId, assoc)), HandleAt(st.handles, frsmId, assoc) < |st.handles|)
  }

  /** The server as it keeps its handles. */
  class FileServer {
    var handles: seq<FileHandle>
    var nextFrsm: FrsmId
    var files: map<string, File>
    const maxHandles: nat
    const chunk: nat

    constructor (files: map<string, File>, maxHandles: nat, chunk: nat)
      ensures State() == Server([], 1, files, maxHandles, chunk)
    {
      handles, nextFrsm, this.files, this.maxHandles, this.chunk := [], 1, files, maxHandles, chunk;
    }

    ghost function State(): Server
      reads this
    {
      Server(handles, nextFrsm, files, maxHandles, chunk)
    }

    /** How many handles an association holds. */
    method CountOwn(assoc: AssocId) returns (n: nat)
      ensures n == |Own(handles, assoc)|
    {
      n := 0;
      for i := 0 to |handles|
        invariant |Own(handles, assoc)| == n + |Own(handles[i..], assoc)|
      {
        assert handles[i..][1..] == handles[i + 1..];
        if handles[i].assoc == assoc {
          n := n + 1;
        }
      }
      assert handles[|handles|..] == [];
    }

    method FileOpen(assoc: AssocId, path: string, position: U32) returns (answer: OpenAnswer)
      modifies this`handles, this`nextFrsm
      ensures (State(), answer) == Open(old(State()), assoc, path, position)
    {
      var held := CountOwn(assoc);
      if held >= maxHandles {
        return OpenDenied;
      }
      if path !in files {
        return OpenNotFound;
      }
      var frsmId, size: U32 := nextFrsm, |files[path]|;
      nextFrsm := NextFrsm(nextFrsm);
      handles := handles + [FileHandle(frsmId, assoc, path, if position < size then position else size, size)];
      answer := Opened(frsmId, size);
    }

    method FileRead(assoc: AssocId, frsmId: FrsmId) returns (answer: ReadAnswer)
      modifies this`handles
      ensures (State(), answer) == Read(old(State()), assoc, frsmId)
    {
      var i := HandleAt(handles, frsmId, assoc);
      if i == |handles| {
        return ReadNotFound;
      }
      var path, at := handles[i].path, handles[i].delivered;
      var data := ReadAt(files, path, at, chunk);
      handles := handles[i := handles[i].(delivered := at + |data|)];
      answer := ReadData(data, |data| == chunk && handles[i].delivered < handles[i].size);
    }

    method FileClose(assoc: AssocId, frsmId: FrsmId) returns (closed: bool)
      modifies this`handles
      ensures (State(), closed) == Close(old(State()), assoc, frsmId)
    {
      var before := handles;
      handles := Without(handles, frsmId, assoc);
      WithoutShrinks(before, frsmId, assoc);
      closed := |handles| != |before|;
    }

    method OnAssociationClosed(assoc: AssocId)
      modifies this`handles
      ensures State() == old(State()).(handles := WithoutAssoc(old(handles), assoc))
      ensures Own(handles, assoc) == []
    {
      NoneLeft(handles, assoc);
      handles := WithoutAssoc(handles, assoc);
    }
  }

  /** Closing takes something away exactly when there was something to close. */
  lemma {:induction false} WithoutShrinks(handles: seq<FileHandle>, frsmId: FrsmId, assoc: AssocId)
    ensures var after := Without(handles, frsmId, assoc);
            |after| <= |handles| && (|after| != |handles| <==> HandleAt(handles, frsmId, assoc) < |handles|)
  {
    if handles != [] {
      WithoutShrinks(handles[1..], frsmId, assoc);
    }
  }

  lemma NoneLeft(handles: seq<FileHandle>, assoc: AssocId)
    ensures Own(WithoutAssoc(handles, assoc), assoc) == []
    ensures forall other :: other != assoc ==> Own(WithoutAssoc(handles, assoc), other) == Own(handles, other)
  {
    var foreign := (h: FileHandle) => h.assoc != assoc;
    KeepMembers(handles, foreign);
    KeepNothing(Keep(handles, foreign), (h: FileHandle) => h.assoc == assoc);
    forall other: AssocId | other != assoc
      ensures Own(WithoutAssoc(handles, assoc), other) == Own(handles, other)
    {
      var own := (h: FileHandle) => h.assoc == other;
      KeepTwice(handles, foreign, own, own);
    }
  }

  lemma OwnAppend(a: seq<FileHandle>, b: seq<FileHandle>, assoc: AssocId)
    ensures Own(a + b, assoc) == Own(a, assoc) + Own(b, assoc)
  {
    KeepAppend(a, b, (h: FileHandle) => h.assoc == assoc);
  }

  lemma OwnWithout(handles: seq<FileHandle>, frsmId: FrsmId, assoc: AssocId, me: AssocId)
    ensures Own(Without(handles, frsmId, assoc), me) == if me == assoc then Without(Own(handles, me), frsmId, me)
                                                        else Own(handles, me)
  {
    var own, others := (h: FileHandle) => h.assoc == me, (h: FileHandle) => !Named(h, frsmId, assoc);
    var both := (h: FileHandle) => own(h) && others(h);
    KeepTwice(handles, others, own, both);
    KeepTwice(handles, own, others, both);
    if me != assoc {
      KeepTwice(handles, others, own, own);
    }
  }

  // ---- the client, with other associations at work in between ----

  /** What others do to the server: their own files, and changes to what is stored. */
  datatype FileOp =
    | OpenOp(assoc: AssocId, path: string, position: U32)
    | ReadOp(assoc: AssocId, frsmId: FrsmId)
    | CloseOp(assoc: AssocId, frsmId: FrsmId)
    | GoneOp(assoc: AssocId)
    | StoreOp(files: map<string, File>)

  function Perform(st: Server, op: FileOp): Server {
    match op
    case OpenOp(assoc, path, position) => Open(st, assoc, path, position).0
    case ReadOp(assoc, frsmId) => Read(st, assoc, frsmId).0
    case CloseOp(assoc, frsmId) => Close(st, assoc, frsmId).0
    case GoneOp(assoc) => st.(handles := WithoutAssoc(st.handles, assoc))
    case StoreOp(files) => st.(files := files)
  }

  function PerformAll(st: Server, ops: seq<FileOp>): Server
    decreases |ops|
  {
    if ops == [] then st else PerformAll(Perform(st, ops[0]), ops[1..])
  }

  /** The server and its future: what others do before each of the client's requests. */
  datatype Live = Live(server: Server, script: nat -> seq<FileOp>, round: nat)

  function Advance(l: Live): Live {
    Live(PerformAll(l.server, l.script(l.round)), l.script, l.round + 1)
  }

  predicate ByOther(op: FileOp, me: AssocId) {
    op.StoreOp? || op.assoc != me
  }

  /** Nobody else uses the client's association. */
  ghost predicate OthersOnly(l: Live, me: AssocId) {
    forall n :: forall op <- l.script(n) :: ByOther(op, me)
  }

  /** Nobody changes what is stored. */
  ghost predicate Unchanging(l: Live) {
    forall n :: forall op <- l.script(n) :: !op.StoreOp?
  }

  /** The loop of `read_open_file`. */
  function ReadOpen(l: Live, me: AssocId, frsmId: FrsmId, out: seq<Octet>, maxLen: nat): (Result<seq<Octet>>, Live)
    decreases if |out| <= maxLen then maxLen - |out| else 0
  {
    var at := Advance(l);
    var (server, answer) := Read(at.server, me, frsmId);
    var next := at.(server := server);
    match answer
    case ReadNotFound => (Err(NotFound), next)
    case ReadData(data, more) =>
      if |out| + |data| > maxLen then (Err(LimitExceeded(MaxLen, |out| + |data|)), next)
      else if !more || data == [] then (Ok(out + data), next)
      else ReadOpen(next, me, frsmId, out + data, maxLen)
  }

  function CloseNow(l: Live, me: AssocId, frsmId: FrsmId): (bool, Live) {
    var at := Advance(l);
    var (server, closed) := Close(at.server, me, frsmId);
    (closed, at.(server := server))
  }

  /** `read_file`: open, read to the end, and close whatever the reads did. */
  function ReadFile(l: Live, me: AssocId, path: string, maxLen: nat): (Result<seq<Octet>>, Live) {
    var at := Advance(l);
    var (server, answer) := Open(at.server, me, path, 0);
    var granted := at.(server := server);
    match answer
    case OpenDenied => (Err(Denied), granted)
    case OpenNotFound => (Err(NotFound), granted)
    case Opened(frsmId, size) =>
      if size > maxLen then (Err(LimitExceeded(MaxLen, size)), CloseNow(granted, me, frsmId).1)
      else
        var (data, after) := ReadOpen(granted, me, frsmId, [], maxLen);
        var (closed, last) := CloseNow(after, me, frsmId);
        (if data.Err? then data else if !closed then Err(NotFound) else data, last)
  }

  /** The client's loop as it runs. */
  method ReadOpenFile(l: Live, me: AssocId, frsmId: FrsmId, maxLen: nat) returns (r: Result<seq<Octet>>, after: Live)
    ensures (r, after) == ReadOpen(l, me, frsmId, [], maxLen)
  {
    var out := [];
    after := l;
    while true
      invariant ReadOpen(after, me, frsmId, out, maxLen) == ReadOpen(l, me, frsmId, [], maxLen)
      decreases if |out| <= maxLen then maxLen - |out| else 0
    {
      var at := Advance(after);
      var (server, answer) := Read(at.server, me, frsmId);
      after := at.(server := server);
      if answer.ReadNotFound? {
        return Err(NotFound), after;
      }
      if |out| + |answer.data| > maxLen {
        return Err(LimitExceeded(MaxLen, |out| + |answer.data|)), after;
      }
      out := out + answer.data;
      if !answer.more || answer.data == [] {
        return Ok(out), after;
      }
    }
  }

  // ---- others leave the client's handles alone ----

  lemma PerformLeaves(st: Server, op: FileOp, me: AssocId)
    requires ByOther(op, me)
    ensures Own(Perform(st, op).handles, me) == Own(st.handles, me)
    ensures !op.StoreOp? ==> Perform(st, op).files == st.files
    ensures Perform(st, op).chunk == st.chunk && Perform(st, op).maxHandles == st.maxHandles
  {
    match op
    case OpenOp(assoc, path, position) =>
      var after := Open(st, assoc, path, position).0;
      if after.handles != st.handles {
        var mine := after.handles[|st.handles|];
        OwnAppend(st.handles, [mine], me);
        OwnOne(mine, me);
      }
    case ReadOp(assoc, frsmId) =>
      var i := HandleAt(st.handles, frsmId, assoc);
      if i < |st.handles| {
        OwnUpdate(st.handles, i, Read(st, assoc, frsmId).0.handles[i], me);
      }
    case CloseOp(assoc, frsmId) => OwnWithout(st.handles, frsmId, assoc, me);
    case GoneOp(assoc) => NoneLeft(st.handles, assoc);
    case StoreOp(_) =>
  }

  /** Changing another association's handle changes none of `me`'s; changing `me`'s changes it in place. */
  lemma OwnUpdate(handles: seq<FileHandle>, i: nat, h: FileHandle, me: AssocId)
    requires i < |handles| && h.assoc == handles[i].assoc
    ensures var a, b := Own(handles[..i], me), Own(handles[i + 1..], me);
            if h.assoc == me then Own(handles, me) == a + [handles[i]] + b && Own(handles[i := h], me) == a + [h] + b
            else Own(handles[i := h], me) == Own(handles, me)
  {
    OwnSplits(handles, i, me);
    OwnSplits(handles[i := h], i, me);
    assert handles[i := h][..i] == handles[..i] && handles[i := h][i + 1..] == handles[i + 1..];
  }

  lemma OwnSplits(handles: seq<FileHandle>, i: nat, me: AssocId)
    requires i < |handles|
    ensures Own(handles, me)
            == Own(handles[..i], me) + (if handles[i].assoc == me then [handles[i]] else []) + Own(handles[i + 1..], me)
  {
    hide Own;
    assert handles == handles[..i] + ([handles[i]] + handles[i + 1..]);
    OwnAppend(handles[..i], [handles[i]] + handles[i + 1..], me);
    OwnAppend([handles[i]], handles[i + 1..], me);
    OwnOne(handles[i], me);
  }

  lemma OwnOne(h: FileHandle, me: AssocId)
    ensures Own([h], me) == if h.assoc == me then [h] else []
  {
    KeepOne(h, (x: FileHandle) => x.assoc == me);
  }

  lemma {:induction false} PerformAllLeaves(st: Server, ops: seq<FileOp>, me: AssocId)
    requires forall op <- ops :: ByOther(op, me)
    ensures var after := PerformAll(st, ops);
            && Own(after.handles, me) == Own(st.handles, me) && after.chunk == st.chunk
            && after.maxHandles == st.maxHandles
            && ((forall op <- ops :: !op.StoreOp?) ==> after.files == st.files)
    decreases |ops|
  {
    hide Own, Perform, ByOther;
    if ops != [] {
      PerformLeaves(st, ops[0], me);
      PerformAllLeaves(Perform(st, ops[0]), ops[1..], me);
    }
  }

  // ---- no handle is left behind ----

  lemma WithoutAppend(a: seq<FileHandle>, b: seq<FileHandle>, frsmId: FrsmId, assoc: AssocId)
    ensures Without(a + b, frsmId, assoc) == Without(a, frsmId, assoc) + Without(b, frsmId, assoc)
  {
    KeepAppend(a, b, (h: FileHandle) => !Named(h, frsmId, assoc));
  }

  /** What the client holds besides `frsmId`. */
  function Rest(st: Server, me: AssocId, frsmId: FrsmId): seq<FileHandle> {
    Without(Own(st.handles, me), frsmId, me)
  }

  lemma ReadKeepsRest(st: Server, me: AssocId, frsmId: FrsmId)
    ensures Rest(Read(st, me, frsmId).0, me, frsmId) == Rest(st, me, frsmId)
  {
    hide Own, Without;
    var i := HandleAt(st.handles, frsmId, me);
    if i < |st.handles| {
      var h := Read(st, me, frsmId).0.handles[i];
      var a, b := Own(st.handles[..i], me), Own(st.handles[i + 1..], me);
      OwnUpdate(st.handles, i, h, me);
      WithoutNamed(a, h, b, frsmId, me);
      WithoutNamed(a, st.handles[i], b, frsmId, me);
    }
  }

  lemma WithoutNamed(a: seq<FileHandle>, h: FileHandle, b: seq<FileHandle>, frsmId: FrsmId, me: AssocId)
    requires Named(h, frsmId, me)
    ensures Without(a + [h] + b, frsmId, me) == Without(a, frsmId, me) + Without(b, frsmId, me)
  {
    WithoutAppend(a + [h], b, frsmId, me);
    WithoutAppend(a, [h], frsmId, me);
    KeepOne(h, (x: FileHandle) => !Named(x, frsmId, me));
  }

  lemma AdvanceLeaves(l: Live, me: AssocId)
    requires OthersOnly(l, me)
    ensures var at := Advance(l);
            && OthersOnly(at, me) && Own(at.server.handles, me) == Own(l.server.handles, me)
            && at.server.chunk == l.server.chunk && at.server.maxHandles == l.server.maxHandles
            && (Unchanging(l) ==> Unchanging(at) && at.server.files == l.server.files)
  {
    hide Own, PerformAll;
    PerformAllLeaves(l.server, l.script(l.round), me);
  }

  lemma {:induction false} ReadOpenKeepsRest(l: Live, me: AssocId, frsmId: FrsmId, out: seq<Octet>, maxLen: nat)
    requires OthersOnly(l, me)
    ensures var after := ReadOpen(l, me, frsmId, out, maxLen).1;
            OthersOnly(after, me) && Rest(after.server, me, frsmId) == Rest(l.server, me, frsmId)
    decreases if |out| <= maxLen then maxLen - |out| else 0
  {
    hide Own, Without, Advance, Read;
    AdvanceLeaves(l, me);
    var at := Advance(l);
    ReadKeepsRest(at.server, me, frsmId);
    var (server, answer) := Read(at.server, me, frsmId);
    if answer.ReadData? && |out| + |answer.data| <= maxLen && answer.more && answer.data != [] {
      ReadOpenKeepsRest(at.(server := server), me, frsmId, out + answer.data, maxLen);
    }
  }

  lemma CloseLeavesRest(l: Live, me: AssocId, frsmId: FrsmId)
    requires OthersOnly(l, me)
    ensures Own(CloseNow(l, me, frsmId).1.server.handles, me) == Rest(l.server, me, frsmId)
  {
    hide Own, Without, Advance;
    AdvanceLeaves(l, me);
    OwnWithout(Advance(l).server.handles, frsmId, me, me);
  }

  /** Whatever the outcome, and whatever others do and is done to the files meanwhile, the client's
      association ends with no more handles than it began with, and with exactly the same ones when
      the handle it was given was not already one of its own. */
  lemma NoHandleLeftBehind(l: Live, me: AssocId, path: string, maxLen: nat)
    requires OthersOnly(l, me)
    ensures var before, after := Own(l.server.handles, me), Own(ReadFile(l, me, path, maxLen).1.server.handles, me);
            && |after| <= |before|
            && (HandleAt(before, Advance(l).server.nextFrsm, me) == |before| ==> after == before)
  {
    hide Own, Without, Advance, ReadOpen, CloseNow, HandleAt;
    AdvanceLeaves(l, me);
    var at, before := Advance(l), Own(l.server.handles, me);
    var (server, answer) := Open(at.server, me, path, 0);
    if answer.Opened? {
      var granted := at.(server := server);
      var h := server.handles[|at.server.handles|];
      OwnAppend(at.server.handles, [h], me);
      OwnOne(h, me);
      NamedLast(before, h, answer.frsmId, me);
      WithoutShrinks(before, answer.frsmId, me);
      WithoutNobody(before, answer.frsmId, me);
      ReadOpenKeepsRest(granted, me, answer.frsmId, [], maxLen);
      CloseLeavesRest(granted, me, answer.frsmId);
      CloseLeavesRest(ReadOpen(granted, me, answer.frsmId, [], maxLen).1, me, answer.frsmId);
    }
  }

  lemma NamedLast(before: seq<FileHandle>, h: FileHandle, frsmId: FrsmId, me: AssocId)
    requires Named(h, frsmId, me)
    ensures Without(before + [h], frsmId, me) == Without(before, frsmId, me)
  {
    WithoutNamed(before, h, [], frsmId, me);
    assert before + [h] + [] == before + [h];
  }

  lemma {:induction false} WithoutNobody(handles: seq<FileHandle>, frsmId: FrsmId, me: AssocId)
    ensures HandleAt(handles, frsmId, me) == |handles| ==> Without(handles, frsmId, me) == handles
  {
    if handles != [] {
      WithoutNobody(handles[1..], frsmId, me);
    }
  }

  // ---- the file arrives ----

  /** The client holds `h` last, under a name none of its other handles has. */
  predicate HoldsLast(st: Server, me: AssocId, before: seq<FileHandle>, h: FileHandle) {
    Own(st.handles, me) == before + [h] && h.assoc == me && forall x <- before :: x.frsmId != h.frsmId
  }

  lemma ReadAdvances(st: Server, me: AssocId, before: seq<FileHandle>, h: FileHandle)
    requires HoldsLast(st, me, before, h)
    ensures var (after, answer) := Read(st, me, h.frsmId);
            var data := ReadAt(st.files, h.path, h.delivered, st.chunk);
            && answer == ReadData(data, |data| == st.chunk && h.delivered + |data| < h.size)
            && HoldsLast(after, me, before, h.(delivered := h.delivered + |data|))
            && after.files == st.files && after.chunk == st.chunk
  {
    hide Own, ReadAt;
    FoundAmongOwn(st.handles, h, me, before);
    var i := HandleAt(st.handles, h.frsmId, me);
    var a, b := Own(st.handles[..i], me), Own(st.handles[i + 1..], me);
    OwnUpdate(st.handles, i, Read(st, me, h.frsmId).0.handles[i], me);
    LastOne(a, st.handles[i], b, before, h);
  }

  /** In `a + [x] + b == before + [h]`, an `x` with the name only `h` has is `h`. */
  lemma LastOne(a: seq<FileHandle>, x: FileHandle, b: seq<FileHandle>, before: seq<FileHandle>, h: FileHandle)
    requires a + [x] + b == before + [h] && x.frsmId == h.frsmId && forall y <- before :: y.frsmId != h.frsmId
    ensures x == h && a == before && b == []
  {
    var whole := before + [h];
    assert whole[|a|] == x;
    forall i | 0 <= i < |before|
      ensures whole[i].frsmId != h.frsmId
    {
      assert whole[i] == before[i];
    }
    assert whole[..|a|] == a && whole[..|before|] == before;
  }

  lemma FoundAmongOwn(handles: seq<FileHandle>, h: FileHandle, me: AssocId, before: seq<FileHandle>)
    requires Own(handles, me) == before + [h] && h.assoc == me
    ensures HandleAt(handles, h.frsmId, me) < |handles|
  {
    OwnMember(handles, h, me);
  }

  lemma {:induction false} OwnMember(handles: seq<FileHandle>, h: FileHandle, me: AssocId)
    requires h in Own(handles, me) && h.assoc == me
    ensures HandleAt(handles, h.frsmId, me) < |handles|
  {
    if handles != [] && handles[0] != h {
      OwnMember(handles[1..], h, me);
    }
  }

  /** Chunk by chunk, what is left of the file arrives. */
  lemma {:induction false} ReadsTheRest(l: Live, me: AssocId, before: seq<FileHandle>, h: FileHandle, maxLen: nat)
    requires OthersOnly(l, me) && Unchanging(l) && HoldsLast(l.server, me, before, h) && l.server.chunk > 0
    requires h.path in l.server.files && h.size == |l.server.files[h.path]| && h.delivered <= h.size <= maxLen
    ensures var f := l.server.files[h.path]; var (r, after) := ReadOpen(l, me, h.frsmId, f[..h.delivered], maxLen);
            r == Ok(f) && OthersOnly(after, me)
            && exists g: FileHandle :: g.frsmId == h.frsmId && HoldsLast(after.server, me, before, g)
    decreases h.size - h.delivered
  {
    hide Own, Advance, Read, HandleAt;
    var f := l.server.files[h.path];
    var at := Advance(l);
    AdvanceLeaves(l, me);
    ReadAdvances(at.server, me, before, h);
    var (server, answer) := Read(at.server, me, h.frsmId);
    var read := h.(delivered := h.delivered + |answer.data|);
    ChunkFollows(at.server.files, h, at.server.chunk);
    if answer.more {
      ReadsTheRest(at.(server := server), me, before, read, maxLen);
    } else {
      assert HoldsLast(server, me, before, read);
    }
  }

  lemma ChunkFollows(files: map<string, File>, h: FileHandle, chunk: nat)
    requires h.path in files && h.size == |files[h.path]| && h.delivered <= h.size && chunk > 0
    ensures var f, data := files[h.path], ReadAt(files, h.path, h.delivered, chunk);
            && h.delivered + |data| <= h.size && f[..h.delivered] + data == f[..h.delivered + |data|]
            && (|data| == chunk && h.delivered + |data| < h.size ==> data != [])
            && (!(|data| == chunk && h.delivered + |data| < h.size) ==> f[..h.delivered] + data == f)
  {
  }

  /** With an unchanging store, a granted open and an identifier not already the client's own:
      a file that is too long is refused with its size; any other arrives exactly, unless the server
      reads nothing at a time. */
  lemma FileArrives(l: Live, me: AssocId, path: string, maxLen: nat)
    requires OthersOnly(l, me) && Unchanging(l)
    requires path in l.server.files && |Own(l.server.handles, me)| < l.server.maxHandles
    requires forall h <- Own(l.server.handles, me) :: h.frsmId != Advance(l).server.nextFrsm
    ensures var f, r := l.server.files[path], ReadFile(l, me, path, maxLen).0;
            && (|f| > maxLen ==> r == Err(LimitExceeded(MaxLen, |f|)))
            && (|f| <= maxLen ==> (r == Ok(f) <==> l.server.chunk > 0 || f == []))
  {
    hide Own, Advance, ReadOpen, HandleAt, Without, Read;
    AdvanceLeaves(l, me);
    var at, before, f := Advance(l), Own(l.server.handles, me), l.server.files[path];
    var (server, answer) := Open(at.server, me, path, 0);
    var h := server.handles[|at.server.handles|];
    var granted := at.(server := server);
    OwnAppend(at.server.handles, [h], me);
    OwnOne(h, me);
    assert HoldsLast(server, me, before, h) && f[..0] == [];
    if |f| <= maxLen {
      if l.server.chunk > 0 {
        ReadsTheRest(granted, me, before, h, maxLen);
        var after := ReadOpen(granted, me, h.frsmId, [], maxLen).1;
        var g: FileHandle :| g.frsmId == h.frsmId && HoldsLast(after.server, me, before, g);
        ClosesIt(after, me, before, g);
      } else {
        ReadsNothing(granted, me, before, h, maxLen);
        var after := ReadOpen(granted, me, h.frsmId, [], maxLen).1;
        ClosesIt(after, me, before, h);
      }
    }
  }

  lemma ClosesIt(l: Live, me: AssocId, before: seq<FileHandle>, h: FileHandle)
    requires OthersOnly(l, me) && HoldsLast(l.server, me, before, h)
    ensures CloseNow(l, me, h.frsmId).0
  {
    hide Own, Advance;
    AdvanceLeaves(l, me);
    FoundAmongOwn(Advance(l).server.handles, h, me, before);
  }

  /** A server that reads nothing at a time says more follows and sends nothing: the client stops
      there, empty-handed. */
  lemma ReadsNothing(l: Live, me: AssocId, before: seq<FileHandle>, h: FileHandle, maxLen: nat)
    requires OthersOnly(l, me) && Unchanging(l) && HoldsLast(l.server, me, before, h) && l.server.chunk == 0
    ensures var (r, after) := ReadOpen(l, me, h.frsmId, [], maxLen);
            r == Ok([]) && OthersOnly(after, me) && HoldsLast(after.server, me, before, h)
  {
    hide Own, Advance, Read;
    AdvanceLeaves(l, me);
    var at := Advance(l);
    ReadAdvances(at.server, me, before, h);
    var data := ReadAt(at.server.files, h.path, h.delivered, at.server.chunk);
    assert data == [] && [] + data == [];
    assert h.(delivered := h.delivered + |data|) == h;
  }
}
