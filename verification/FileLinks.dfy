/**
  Working on a file leaves its place in the directory alone: no operation on an open file
  changes the name, the parent or the chain link in its header. For a file that is open for
  reading only, they do not matter at all: what its handle says about them may be out of date.
*/
module FileLinks {
  import opened FileUtil
  import opened Blocks
  import opened FileSpec
  import opened FileInv
  import opened FileSteps
  import opened FileSeek
  import opened FileRead
  import opened FileShrink
  import opened TruncateSpec
  import opened FileRuns

  /** What the header of a file says about its place in a directory. */
  datatype Links = Links(name: seq<byte>, parent: int, nextSameHash: int)

  function LinksOf(n: Node): Links {
    Links(n.name, n.parent, n.nextSameHash)
  }

  ghost predicate SameLinksAs(s: FS, t: FS) {
    LinksOf(t.h.hdr) == LinksOf(s.h.hdr)
  }

  lemma FlushKeepsLinks(s: FS)
    ensures SameLinksAs(s, Flush(s).s) && SameLinksAs(s, FlushIfChanged(s))
  {
  }

  lemma ReadNextKeepsLinks(s: FS)
    ensures SameLinksAs(s, ReadNextBlock(s).s)
  {
  }

  lemma AdvanceKeepsLinks(s: FS, x: int)
    ensures SameLinksAs(s, Advance(s, x))
  {
  }

  lemma LinkExtKeepsLinks(s: FS, e: int)
    ensures SameLinksAs(s, LinkExt(s, e))
  {
  }

  lemma AppendKeepsLinks(s: FS)
    requires VolOK(s.v)
    ensures SameLinksAs(s, AppendToExt(s).s)
    ensures s.h.nDataBlock < MAX_DATABLK ==> SameLinksAs(s, AppendToHdr(s).s)
  {
    hide FirstFree, Advance, SetSlot, VolOK;
    forall t, x ensures SameLinksAs(t, Advance(t, x)) {
      AdvanceKeepsLinks(t, x);
    }
    assert forall n, k: nat, x | k < 72 :: LinksOf(SetSlot(n, k, x)) == LinksOf(n) by {
      forall n, k: nat, x | k < 72 ensures LinksOf(SetSlot(n, k, x)) == LinksOf(n) {
        SetSlotKeepsLinks(n, k, x);
      }
    }
  }

  lemma SetSlotKeepsLinks(n: Node, k: nat, x: int)
    requires k < 72
    ensures LinksOf(SetSlot(n, k, x)) == LinksOf(n)
  {
  }

  lemma CreateNextKeepsLinks(s: FS)
    requires VolOK(s.v)
    ensures SameLinksAs(s, CreateNextBlock(s).s)
  {
    hide FirstFree, AppendToHdr, AppendToExt, LinkExt;
    AppendKeepsLinks(s);
    if s.h.nDataBlock >= MAX_DATABLK && s.h.nDataBlock % MAX_DATABLK == 0 && FirstFree(s.v) != -1 {
      var e := FirstFree(s.v);
      var t := FS(Take(s.v, e), s.h);
      LinkExtVolOK(s, e);
      LinkExtKeepsLinks(t, e);
      AppendKeepsLinks(LinkExt(t, e));
    }
  }

  lemma PrepareWriteKeepsLinks(s: FS)
    requires VolOK(s.v)
    ensures SameLinksAs(s, PrepareWrite(s).s)
  {
    hide CreateNextBlock, ReadNextBlock, FlushIfChanged;
    CreateNextKeepsLinks(s);
    FlushKeepsLinks(s);
    ReadNextKeepsLinks(FlushIfChanged(s));
  }

  lemma {:induction false} WriteLoopKeepsLinks(s: FS, buf: seq<byte>)
    requires VolOK(s.v)
    ensures SameLinksAs(s, WriteLoop(s, buf).s)
    decreases |buf|
  {
    hide PrepareWrite;
    if buf != [] {
      PrepareWriteVolOK(s);
      PrepareWriteKeepsLinks(s);
      var o := PrepareWrite(s);
      if o.rc == RcOk && o.s.h.posInDataBlk < FFS_BLOCK {
        var size := Min(|buf|, FFS_BLOCK - o.s.h.posInDataBlk);
        WriteLoopKeepsLinks(CopyIn(o.s, buf[..size]), buf[size..]);
      }
    }
  }

  /** The links in the header of a file, wherever its newest version is. */
  ghost function LinksIn(w: World, id: int): Links
    requires id in w.files
  {
    match w.files[id]
    case Open(h) => LinksOf(h.hdr)
    case Closed(header) => if ReadNode(w.v, header).Some? then LinksOf(ReadNode(w.v, header).value) else Links([], 0, 0)
  }

  /** An operation on a file leaves its place in the directory. */
  lemma StepKeepsLinks(w: World, Ls: map<int, Layout>, reserved: set<int>, op: Op, id: int)
    requires WorldOK(w, Ls, reserved) && id in w.files && op.id == id && Allowed(w, op)
    ensures VolOK(w.v)
    ensures Step(w, op).files.Keys == w.files.Keys
    ensures LinksIn(Step(w, op), id) == LinksIn(w, id)
  {
    hide Inv, Seek, Flush, Read, Write, Allowed, VolOK, Step, LinksIn, WorldOK;
    WorldVolOK(w, Ls, reserved);
    SessionFiles(w, op, id);
    match op
    case OpenFile(_, r, m) =>
      if IsClosed(w, id) && (r || m) {
        OpenKeepsLinks(w, Ls, reserved, id, r, m);
      } else {
        NoStep(w, op);
      }
    case CloseFile(_) =>
      if IsOpen(w, id) {
        CloseKeepsLinks(w, Ls, reserved, id);
      } else {
        NoStep(w, op);
      }
    case WriteFile(_, buf) => WriteFileKeeps(w, id, buf);
    case ReadFile(_, n) => ReadFileKeeps(w, id, n);
    case SeekFile(_, pos) =>
      if IsOpen(w, id) {
        SeekKeepsHdr(w, Ls, reserved, id, pos);
        SeekFileKeeps(w, id, pos);
      } else {
        NoStep(w, op);
      }
    case FlushFile(_) => FlushFileKeeps(w, id);
    case TruncateFile(_, size) =>
      if IsOpen(w, id) {
        FileRuns.OpenFacts(w, Ls, reserved, id);
        TruncateKeepsLinks(State(w, id), Ls[id], size);
      }
      TruncateFileKeeps(w, id, size);
  }

  lemma SessionFiles(w: World, op: Op, id: int)
    requires VolOK(w.v) && id in w.files && op.id == id
    ensures Step(w, op).files.Keys == w.files.Keys
  {
    hide Seek, Flush, Read, Write, VolOK, ReadNode;
  }

  lemma NoStep(w: World, op: Op)
    requires VolOK(w.v) && (op.OpenFile? || op.CloseFile? || op.SeekFile?)
    requires op.OpenFile? ==> !IsClosed(w, op.id) || !(op.modeRead || op.modeWrite)
    requires !op.OpenFile? ==> !IsOpen(w, op.id)
    ensures Step(w, op) == w
  {
    hide Seek, Flush, VolOK, ReadNode;
  }

  lemma WriteFileKeeps(w: World, id: int, buf: seq<byte>)
    requires VolOK(w.v) && id in w.files
    ensures LinksIn(Step(w, WriteFile(id, buf)), id) == LinksIn(w, id)
  {
    hide Write, VolOK, ReadNode;
    if IsOpen(w, id) {
      WriteKeepsLinks(State(w, id), buf);
    }
  }

  lemma ReadFileKeeps(w: World, id: int, n: nat)
    requires VolOK(w.v) && id in w.files
    ensures LinksIn(Step(w, ReadFile(id, n)), id) == LinksIn(w, id)
  {
    hide Read, VolOK, ReadNode;
    if IsOpen(w, id) {
      ReadKeepsLinks(State(w, id), n);
    }
  }

  lemma SeekFileKeeps(w: World, id: int, pos: nat)
    requires VolOK(w.v) && IsOpen(w, id)
    requires Seek(State(w, id), pos).s.h.hdr == w.files[id].h.hdr
    ensures LinksIn(Step(w, SeekFile(id, pos)), id) == LinksIn(w, id)
  {
    hide Seek, VolOK, ReadNode;
  }

  lemma SeekKeepsHdr(w: World, Ls: map<int, Layout>, reserved: set<int>, id: int, pos: nat)
    requires WorldOK(w, Ls, reserved) && IsOpen(w, id)
    ensures Seek(State(w, id), pos).s.h.hdr == w.files[id].h.hdr
  {
    hide Seek, VolOK, ReadNode, WorldOK, Inv, Content, Views, SameOutside;
    FileRuns.OpenFacts(w, Ls, reserved, id);
    SeekReaches(State(w, id), Ls[id], pos);
  }

  lemma FlushFileKeeps(w: World, id: int)
    requires VolOK(w.v) && id in w.files
    ensures Step(w, FlushFile(id)).files.Keys == w.files.Keys
    ensures LinksIn(Step(w, FlushFile(id)), id) == LinksIn(w, id)
  {
    if IsOpen(w, id) {
      FlushKeepsLinks(State(w, id));
    }
    hide Flush;
  }

  lemma TruncateFileKeeps(w: World, id: int, size: nat)
    requires VolOK(w.v) && id in w.files
    requires IsOpen(w, id) ==> SameLinksAs(State(w, id), Truncate(State(w, id), size).s)
    ensures LinksIn(Step(w, TruncateFile(id, size)), id) == LinksIn(w, id)
  {
    hide Truncate, VolOK, ReadNode;
  }

  lemma {:induction false} WriteFilledKeepsLinks(s: FS, n: nat)
    requires VolOK(s.v)
    ensures SameLinksAs(s, WriteFilled(s, n).s)
    decreases n
  {
    hide Write, Zeros, VolOK;
    if n > 0 {
      var chunk := Min(n, FILL_CHUNK);
      WriteKeepsLinks(s, Zeros(chunk));
      var w := Write(s, Zeros(chunk));
      if w.count == chunk && VolOK(w.s.v) {
        WriteFilledKeepsLinks(w.s, n - chunk);
      }
    }
  }

  lemma TruncateKeepsLinks(s: FS, L: Layout, size: nat)
    requires Inv(s, L) && VolOK(s.v)
    ensures SameLinksAs(s, Truncate(s, size).s)
  {
    hide Inv, Seek, Content, SameOutside, BlocksToRemove, CutHandle, VolOK, WriteFilled;
    SeekReaches(s, L, size);
    SeekReaches(s, L, s.h.hdr.byteSize);
    CutKeepsPlace(Seek(s, size).s.h, size);
    if size > s.h.hdr.byteSize {
      SeekVolOK(s, s.h.hdr.byteSize);
      WriteFilledKeepsLinks(Seek(s, s.h.hdr.byteSize).s, size - s.h.hdr.byteSize);
    }
  }

  lemma WorldVolOK(w: World, Ls: map<int, Layout>, reserved: set<int>)
    requires WorldOK(w, Ls, reserved)
    ensures VolOK(w.v)
  {
  }

  lemma WriteKeepsLinks(s: FS, buf: seq<byte>)
    requires VolOK(s.v)
    ensures SameLinksAs(s, Write(s, buf).s)
  {
    WriteLoopKeepsLinks(s, buf);
  }

  lemma {:induction false} ReadLoopKeepsLinks(s: FS, n: nat)
    ensures SameLinksAs(s, ReadLoop(s, n).s)
    decreases n
  {
    hide ReadNextBlock;
    if n > 0 {
      ReadNextKeepsLinks(s);
      var o := PrepareRead(s);
      if o.rc == RcOk && o.s.h.posInDataBlk < FFS_BLOCK {
        var size := Min(n, FFS_BLOCK - o.s.h.posInDataBlk);
        ReadLoopKeepsLinks(Forward(o.s, size), n - size);
      }
    }
  }

  lemma ReadKeepsLinks(s: FS, n: nat)
    ensures SameLinksAs(s, Read(s, n).s)
  {
    ReadLoopKeepsLinks(s, n);
    ReadLoopKeepsLinks(s, (s.h.hdr.byteSize - s.h.pos) % U32);
    hide ReadLoop;
  }

  lemma OpenKeepsLinks(w: World, Ls: map<int, Layout>, reserved: set<int>, id: int, r: bool, m: bool)
    requires WorldOK(w, Ls, reserved) && IsClosed(w, id) && (r || m)
    ensures VolOK(w.v)
    ensures LinksIn(Step(w, OpenFile(id, r, m)), id) == LinksIn(w, id)
  {
    hide Inv, Seek, WorldOK, Step, ReadNode, Stored, Views, Content, DiskContent;
    ClosedFacts(w, Ls, reserved, id);
    var hdr := ReadNode(w.v, w.files[id].header).value;
    OpenStored(w.v, hdr, Ls[id], r, m);
    StepOpen(w, id, r, m, hdr);
  }

  lemma CloseKeepsLinks(w: World, Ls: map<int, Layout>, reserved: set<int>, id: int)
    requires WorldOK(w, Ls, reserved) && IsOpen(w, id)
    ensures VolOK(w.v)
    ensures LinksIn(Step(w, CloseFile(id)), id) == LinksIn(w, id)
  {
    hide Inv, Flush, WorldOK, Step, Content, DiskContent, Views;
    FileRuns.OpenFacts(w, Ls, reserved, id);
    var s := State(w, id);
    FlushAnyMode(s, Ls[id]);
    StepClose(w, id);
    RestHeader(Flush(s).s, Ls[id]);
  }

  lemma RestHeader(t: FS, L: Layout)
    requires AtRest(t, L)
    ensures ReadNode(t.v, t.h.hdr.headerKey) == Some(t.h.hdr)
  {
  }

  /* ---- links that are out of date ---- */

  /** The handle with the links of header `m`. */
  function Relabel(h: Handle, m: Node): Handle {
    h.(hdr := h.hdr.(name := m.name, parent := m.parent, nextSameHash := m.nextSameHash))
  }

  function Relabeled(s: FS, m: Node): FS {
    FS(s.v, Relabel(s.h, m))
  }

  function RelabeledOutcome(o: Outcome, m: Node): Outcome {
    Outcome(Relabeled(o.s, m), o.rc)
  }

  /** What relabeling leaves. */
  lemma RelabelKeeps(h: Handle, m: Node)
    ensures var g := Relabel(h, m);
            && g == h.(hdr := g.hdr)
            && g.hdr.byteSize == h.hdr.byteSize && g.hdr.slots == h.hdr.slots && g.hdr.headerKey == h.hdr.headerKey
            && g.hdr.firstData == h.hdr.firstData && g.hdr.extension == h.hdr.extension
  {
  }

  lemma LoadBlockRelabeled(s: FS, m: Node, nSect: int)
    ensures LoadBlock(Relabeled(s, m), nSect) == RelabeledOutcome(LoadBlock(s, nSect), m)
  {
  }

  lemma NextFromExtRelabeled(s: FS, m: Node)
    ensures NextFromExt(Relabeled(s, m)) == RelabeledOutcome(NextFromExt(s), m)
  {
    hide LoadBlock;
    var t := FS(s.v, s.h.(posInExtBlk := s.h.posInExtBlk + 1));
    if s.h.ext.Some? && s.h.posInExtBlk < MAX_DATABLK {
      LoadBlockRelabeled(t, m, Slot(s.h.ext.value, s.h.posInExtBlk));
    }
  }

  lemma LoadExtRelabeled(s: FS, m: Node, key: int)
    ensures LoadExt(Relabeled(s, m), key) == RelabeledOutcome(LoadExt(s, key), m)
  {
    hide NextFromExt, ReadNode;
    if ReadNode(s.v, key).Some? {
      NextFromExtRelabeled(FS(s.v, s.h.(ext := Some(ReadNode(s.v, key).value), posInExtBlk := 0)), m);
    }
  }

  lemma ReadNextRelabeled(s: FS, m: Node)
    ensures ReadNextBlock(Relabeled(s, m)) == RelabeledOutcome(ReadNextBlock(s), m)
  {
    hide NextFromExt, LoadBlock, LoadExt, Relabel, RelabeledOutcome;
    RelabelKeeps(s.h, m);
    NextFromExtRelabeled(s, m);
    LoadBlockRelabeled(s, m, s.h.hdr.firstData);
    if s.h.nDataBlock < MAX_DATABLK {
      LoadBlockRelabeled(s, m, Slot(s.h.hdr, s.h.nDataBlock));
    }
    LoadExtRelabeled(s, m, s.h.hdr.extension);
    if s.h.ext.Some? {
      LoadExtRelabeled(s, m, s.h.ext.value.extension);
    }
  }

  lemma PrepareReadRelabeled(s: FS, m: Node)
    ensures PrepareRead(Relabeled(s, m)) == RelabeledOutcome(PrepareRead(s), m)
  {
    hide ReadNextBlock;
    ReadNextRelabeled(s, m);
  }

  lemma ForwardRelabeled(s: FS, m: Node, size: nat)
    ensures Forward(Relabeled(s, m), size) == Relabeled(Forward(s, size), m)
  {
  }

  lemma {:induction false} ReadLoopRelabeled(s: FS, m: Node, n: nat)
    ensures var r := ReadLoop(s, n);
            ReadLoop(Relabeled(s, m), n) == ReadResult(Relabeled(r.s, m), r.bytes)
    decreases n
  {
    hide PrepareRead, Relabel;
    if n > 0 {
      PrepareReadRelabeled(s, m);
      var o := PrepareRead(s);
      RelabelKeeps(o.s.h, m);
      if o.rc == RcOk && o.s.h.posInDataBlk < FFS_BLOCK {
        var size := Min(n, FFS_BLOCK - o.s.h.posInDataBlk);
        ReadLoopRelabeled(Forward(o.s, size), m, n - size);
        ForwardRelabeled(o.s, m, size);
      }
    }
  }

  lemma ReadRelabeled(s: FS, m: Node, n: nat)
    ensures var r := Read(s, n);
            Read(Relabeled(s, m), n) == ReadResult(Relabeled(r.s, m), r.bytes)
  {
    hide ReadLoop, Relabel;
    RelabelKeeps(s.h, m);
    ReadLoopRelabeled(s, m, n);
    ReadLoopRelabeled(s, m, (s.h.hdr.byteSize - s.h.pos) % U32);
  }

  lemma SeekStartRelabeled(s: FS, m: Node)
    ensures SeekStart(Relabeled(s, m)) == RelabeledOutcome(SeekStart(s), m)
  {
    ReadNextRelabeled(FS(s.v, Rewound(s.h)), m);
    assert FS(s.v, Rewound(Relabel(s.h, m))) == Relabeled(FS(s.v, Rewound(s.h)), m);
    hide ReadNextBlock;
  }

  lemma LoadRelabeled(s: FS, m: Node, ptr: int)
    ensures LoadAt(Relabeled(s, m), ptr) == RelabeledOutcome(LoadAt(s, ptr), m)
  {
    hide ReadData;
  }

  lemma ReadExtRelabeled(v: Vol, h: Handle, m: Node, n: nat)
    ensures ReadExtBlockN(v, Relabel(h, m).hdr, n) == ReadExtBlockN(v, h.hdr, n)
  {
    hide ExtChain;
  }

  lemma SeekInsideRelabeled(s: FS, m: Node)
    ensures SeekInside(Relabeled(s, m)) == RelabeledOutcome(SeekInside(s), m)
  {
    hide Pos2DataBlock, ReadExtBlockN, LoadAt;
    var p := Pos2DataBlock(s.h.pos, FFS_BLOCK);
    PosInBlock(s.h.pos);
    var h := s.h.(posInExtBlk := p.posInExtBlk, posInDataBlk := p.posInDataBlk, nDataBlock := p.curDataN);
    if p.extBlock == -1 {
      LoadRelabeled(FS(s.v, h), m, Slot(h.hdr, p.curDataN));
    } else {
      ReadExtRelabeled(s.v, h, m, p.extBlock);
      match ReadExtBlockN(s.v, h.hdr, p.extBlock)
      case None =>
      case Some(x) =>
        LoadRelabeled(FS(s.v, h.(ext := Some(x), posInExtBlk := p.posInExtBlk + 1)), m, Slot(x, p.posInExtBlk));
    }
  }

  lemma AtEOFRelabeled(s: FS, m: Node)
    ensures AtEOF(Relabeled(s, m)) == Relabeled(AtEOF(s), m)
  {
  }

  lemma SeekEOFCases(s: FS)
    ensures SeekEOF(s) == if s.h.hdr.byteSize == 0 then SeekStart(s)
                          else
                            var o := Seek(s, s.h.hdr.byteSize - 1);
                            if o.rc != RcOk then o else Outcome(AtEOF(o.s), RcOk)
  {
    hide Seek, SeekStart;
  }

  lemma SeekEOFRelabeled(s: FS, m: Node)
    requires s.h.hdr.byteSize > 0 ==>
               var pos := s.h.hdr.byteSize - 1; Seek(Relabeled(s, m), pos) == RelabeledOutcome(Seek(s, pos), m)
    ensures SeekEOF(Relabeled(s, m)) == RelabeledOutcome(SeekEOF(s), m)
  {
    hide SeekStart, Seek, SeekEOF, Relabel, AtEOF;
    SeekStartRelabeled(s, m);
    SeekEOFCases(s);
    SeekEOFCases(Relabeled(s, m));
    RelabelKeeps(s.h, m);
    if s.h.hdr.byteSize > 0 {
      AtEOFRelabeled(Seek(s, s.h.hdr.byteSize - 1).s, m);
    }
  }

  lemma WithPosRelabeled(s: FS, m: Node, pos: nat)
    ensures FS(s.v, Relabel(s.h, m).(pos := pos)) == Relabeled(FS(s.v, s.h.(pos := pos)), m)
  {
  }

  lemma SeekHereRelabeled(s: FS, m: Node, p: nat)
    ensures FS(s.v, Relabel(s.h, m).(pos := p, posInDataBlk := p % FFS_BLOCK)) ==
            Relabeled(FS(s.v, s.h.(pos := p, posInDataBlk := p % FFS_BLOCK)), m)
  {
  }

  /** Where nothing is to be flushed, a seek does not depend on the links in the header. */
  lemma SeekRelabeled(s: FS, m: Node, pos: nat)
    requires !s.h.modeWrite
    ensures Seek(Relabeled(s, m), pos) == RelabeledOutcome(Seek(s, pos), m)
    decreases if pos < s.h.hdr.byteSize then 0 else 1
  {
    hide SeekStart, SeekInside, SeekEOF, Flush, Relabel;
    var size := s.h.hdr.byteSize;
    var p := Min(pos, size);
    var s2 := FS(s.v, s.h.(pos := p));
    RelabelKeeps(s.h, m);
    RelabelKeeps(s2.h, m);
    WithPosRelabeled(s, m, p);
    SeekHereRelabeled(s, m, p);
    SeekStartRelabeled(s, m);
    SeekInsideRelabeled(s2, m);
    if pos >= size {
      if size > 0 {
        SeekRelabeled(s2, m, size - 1);
      }
      SeekEOFRelabeled(s2, m);
    }
  }

  /** A world in which the handle of file `id` has other links. */
  function RelabeledWorld(w: World, id: int, m: Node): World
    requires id in w.files
  {
    match w.files[id]
    case Open(h) => World(w.v, w.files[id := Open(Relabel(h, m))])
    case Closed(_) => w
  }

  /** Operations on a file that is open for reading only do the same whatever links its handle has. */
  lemma StepRelabeled(w: World, id: int, m: Node, op: Op)
    requires VolOK(w.v) && IsOpen(w, id) && !w.files[id].h.modeWrite && op.id == id
    ensures id in Step(w, op).files
    ensures Step(RelabeledWorld(w, id, m), op) == RelabeledWorld(Step(w, op), id, m)
    ensures Output(RelabeledWorld(w, id, m), op) == Output(w, op)
  {
    hide Seek, Flush, Read, Write, Truncate, VolOK, ReadNode;
    var s, w' := State(w, id), RelabeledWorld(w, id, m);
    assert State(w', id) == Relabeled(s, m);
    assert w.files[id := w.files[id]] == w.files;
    ReadOnlyKeeps(s);
    ReadOnlyKeeps(Relabeled(s, m));
    match op
    case OpenFile(_, _, _) =>
    case CloseFile(_) =>
      assert w'.files[id := Closed(s.h.hdr.headerKey)] == w.files[id := Closed(s.h.hdr.headerKey)];
    case WriteFile(_, buf) => SameStateStep(w, id, m, s);
    case ReadFile(_, n) =>
      ReadRelabeled(s, m, n);
      SameStateStep(w, id, m, Read(s, n).s);
    case SeekFile(_, pos) =>
      SeekRelabeled(s, m, pos);
      SameStateStep(w, id, m, Seek(s, pos).s);
    case FlushFile(_) => SameStateStep(w, id, m, s);
    case TruncateFile(_, size) => SameStateStep(w, id, m, s);
  }

  lemma ReadOnlyKeeps(s: FS)
    requires !s.h.modeWrite
    ensures Flush(s).s == s
    ensures VolOK(s.v) ==> forall buf: seq<byte> :: Write(s, buf).s == s
    ensures VolOK(s.v) ==> forall n: nat :: Truncate(s, n).s == s
  {
  }

  lemma SameStateStep(w: World, id: int, m: Node, t: FS)
    requires IsOpen(w, id)
    ensures WithState(RelabeledWorld(w, id, m), id, Relabeled(t, m)) == RelabeledWorld(WithState(w, id, t), id, m)
  {
    var f := Open(Relabel(t.h, m));
    assert RelabeledWorld(w, id, m).files[id := f] == w.files[id := f];
    assert WithState(w, id, t).files[id := f] == w.files[id := f];
  }
}
