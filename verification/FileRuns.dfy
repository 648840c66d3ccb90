/**
  Runs of operations on many files of one volume, each of them open or closed. The files
  refine a map from files to byte strings with a position, and every sector keeps exactly
  one owner throughout. No directory is written by these operations; VolumeRuns has them
  together with the ones that do.
*/
module FileRuns {
  import opened FileUtil
  import opened Blocks
  import opened FileSpec
  import opened FileInv
  import opened FileSteps
  import opened FileWrite
  import opened FileSeek
  import opened FileRead
  import opened FileBlocks
  import opened TruncateSpec
  import opened FileTruncate
  import opened FileShrink
  import opened FileEnlarge
  import opened FileResize

  datatype File = Open(h: Handle) | Closed(header: int)

  /** A volume and its files, each of them open at most once. */
  datatype World = World(v: Vol, files: map<int, File>)

  datatype Op =
    | OpenFile(id: int, modeRead: bool, modeWrite: bool)
    | CloseFile(id: int)
    | WriteFile(id: int, buf: seq<byte>)
    | ReadFile(id: int, n: nat)
    | SeekFile(id: int, pos: nat)
    | FlushFile(id: int)
    | TruncateFile(id: int, size: nat)

  predicate IsOpen(w: World, id: int) {
    id in w.files && w.files[id].Open?
  }

  predicate IsClosed(w: World, id: int) {
    id in w.files && w.files[id].Closed?
  }

  function State(w: World, id: int): FS
    requires IsOpen(w, id)
  {
    FS(w.v, w.files[id].h)
  }

  function WithState(w: World, id: int, s: FS): World {
    World(s.v, w.files[id := Open(s.h)])
  }

  /** The effect of an operation; one that does not apply changes nothing. */
  function Step(w: World, op: Op): World
    requires VolOK(w.v)
  {
    match op
    case OpenFile(id, modeRead, modeWrite) =>
      if !IsClosed(w, id) || !(modeRead || modeWrite) then w
      else
        (match ReadNode(w.v, w.files[id].header)
         case None => w
         case Some(hdr) => WithState(w, id, Seek(FS(w.v, NewHandle(hdr, modeRead, modeWrite)), 0).s))
    case CloseFile(id) =>
      if !IsOpen(w, id) then w
      else
        var s := Flush(State(w, id)).s;
        World(s.v, w.files[id := Closed(s.h.hdr.headerKey)])
    case WriteFile(id, buf) => if !IsOpen(w, id) then w else WithState(w, id, Write(State(w, id), buf).s)
    case ReadFile(id, n) => if !IsOpen(w, id) then w else WithState(w, id, Read(State(w, id), n).s)
    case SeekFile(id, pos) => if !IsOpen(w, id) then w else WithState(w, id, Seek(State(w, id), pos).s)
    case FlushFile(id) => if !IsOpen(w, id) then w else WithState(w, id, Flush(State(w, id)).s)
    case TruncateFile(id, size) => if !IsOpen(w, id) then w else WithState(w, id, Truncate(State(w, id), size).s)
  }

  /** What an operation returns to the caller. */
  function Output(w: World, op: Op): seq<byte> {
    match op
    case ReadFile(id, n) => if IsOpen(w, id) then Read(State(w, id), n).bytes else []
    case _ => []
  }

  /**
    An operation may run when a file that is opened is closed, the free sectors suffice for
    what it adds, no 32-bit sum overflows, no changed block would be replaced by a read, and
    no block that stays cached is cut off. A file with extension blocks is flushed before it is cut.
  */
  predicate Allowed(w: World, op: Op) {
    match op
    case OpenFile(id, _, _) => !IsOpen(w, id)
    case WriteFile(id, buf) =>
      IsOpen(w, id) ==>
        var h := w.files[id].h;
        |w.v.free| + Size2Blocks(h.hdr.byteSize, FFS_BLOCK)
        >= Size2Blocks(Max(h.hdr.byteSize, h.pos + |buf|), FFS_BLOCK)
    case ReadFile(id, n) =>
      IsOpen(w, id) ==>
        var h := w.files[id].h;
        && h.pos + n < U32 && h.hdr.byteSize < U32
        && (h.changed ==> Min(h.pos + n, h.hdr.byteSize) <= FFS_BLOCK * h.nDataBlock)
    case TruncateFile(id, size) =>
      IsOpen(w, id) && w.files[id].h.modeWrite ==>
        var h := w.files[id].h;
        if size < h.hdr.byteSize then
          && KeepsHandle(h, size)
          && (h.changed && h.hdr.byteSize > FFS_BLOCK * MAX_DATABLK ==> Flush(State(w, id)).s == State(w, id))
        else |w.v.free| + Size2Blocks(h.hdr.byteSize, FFS_BLOCK) >= Size2Blocks(size, FFS_BLOCK)
    case _ => true
  }

  /* ---- the simple model ---- */

  /** A file as its user sees it. */
  datatype View = View(bytes: seq<byte>, pos: nat, open: bool, modeRead: bool, modeWrite: bool)

  function ViewStep(m: map<int, View>, op: Op): map<int, View> {
    match op
    case OpenFile(id, r, w) =>
      if id in m && !m[id].open && (r || w) then m[id := View(m[id].bytes, 0, true, r, w)] else m
    case CloseFile(id) =>
      if id in m && m[id].open then m[id := View(m[id].bytes, 0, false, false, false)] else m
    case WriteFile(id, buf) =>
      if id in m && m[id].open && m[id].modeWrite && m[id].pos <= |m[id].bytes|
      then m[id := m[id].(bytes := Splice(m[id].bytes, m[id].pos, buf), pos := m[id].pos + |buf|)]
      else m
    case ReadFile(id, n) =>
      if id in m && m[id].open && m[id].modeRead then m[id := m[id].(pos := ReadEnd(m[id], n))] else m
    case SeekFile(id, pos) =>
      if id in m && m[id].open then m[id := m[id].(pos := Min(pos, |m[id].bytes|))] else m
    case FlushFile(id) => m
    case TruncateFile(id, size) =>
      if id in m && m[id].open && m[id].modeWrite then m[id := m[id].(bytes := Resized(m[id].bytes, size), pos := size)] else m
  }

  /** The bytes cut to a size, or filled up with zeros. */
  function Resized(bytes: seq<byte>, size: nat): seq<byte> {
    if size <= |bytes| then bytes[..size] else bytes + Zeros(size - |bytes|)
  }

  function ReadEnd(f: View, n: nat): nat {
    Min(f.pos + n, |f.bytes|)
  }

  function ViewOutput(m: map<int, View>, op: Op): seq<byte> {
    match op
    case ReadFile(id, n) =>
      if id in m && m[id].open && m[id].modeRead && m[id].pos <= |m[id].bytes|
      then m[id].bytes[m[id].pos..ReadEnd(m[id], n)]
      else []
    case _ => []
  }

  /* ---- the invariant of a world ---- */

  /** The file is whole; `L` says where its blocks are. */
  ghost predicate FileOK(v: Vol, f: File, L: Layout) {
    match f
    case Open(h) => Inv(FS(v, h), L)
    case Closed(header) =>
      header == L.header && OnDisk(v, header) && v.disk[header].Meta? && Stored(v, v.disk[header].node, L)
  }

  ghost function ViewOf(v: Vol, f: File, L: Layout): View {
    match f
    case Open(h) => View(Content(FS(v, h), L), h.pos, true, h.modeRead, h.modeWrite)
    case Closed(header) =>
      View(if OnDisk(v, header) && v.disk[header].Meta? then DiskContent(v, L, v.disk[header].node.byteSize) else [],
           0, false, false, false)
  }

  ghost function Views(w: World, Ls: map<int, Layout>): map<int, View>
    requires Ls.Keys == w.files.Keys
  {
    map id | id in w.files :: ViewOf(w.v, w.files[id], Ls[id])
  }

  /**
    Every sector from 2 on has one owner: it is free, or reserved for the volume's own
    blocks and directories, or plays one role in one file.
  */
  ghost predicate OneOwner(v: Vol, Ls: map<int, Layout>, reserved: set<int>) {
    && v.free !! reserved
    && (forall id :: id in Ls ==> Ls[id].own.Keys !! v.free && Ls[id].own.Keys !! reserved)
    && (forall i, j :: i in Ls && j in Ls && i != j ==> Ls[i].own.Keys !! Ls[j].own.Keys)
    && (forall s :: 2 <= s <= v.last ==>
          s in v.free || s in reserved || exists id :: id in Ls && s in Ls[id].own.Keys)
  }

  ghost predicate WorldOK(w: World, Ls: map<int, Layout>, reserved: set<int>) {
    && VolOK(w.v)
    && Ls.Keys == w.files.Keys
    && OneOwner(w.v, Ls, reserved)
    && (forall id :: id in w.files ==> FileOK(w.v, w.files[id], Ls[id]))
  }

  /** The sectors that are not for files are as before. */
  ghost predicate ReservedSame(v: Vol, v': Vol, reserved: set<int>) {
    && |v'.disk| == |v.disk| && v'.root == v.root && v'.last == v.last
    && forall x :: 0 <= x < |v.disk| && (x < 2 || x in reserved) ==> v'.disk[x] == v.disk[x]
  }

  /* ---- files do not disturb each other ---- */

  lemma OpenFrame(v: Vol, v': Vol, h: Handle, L: Layout)
    requires Inv(FS(v, h), L)
    requires VolOK(v') && |v'.disk| == |v.disk| && v'.last == v.last
    requires forall s :: s in L.own.Keys && 0 <= s < |v.disk| ==> v'.disk[s] == v.disk[s]
    requires L.own.Keys !! v'.free
    ensures Inv(FS(v', h), L)
    ensures Content(FS(v', h), L) == Content(FS(v, h), L)
  {
    forall i | 0 <= i < |L.data| ensures v'.disk[L.data[i]] == v.disk[L.data[i]] {
      assert L.data[i] in L.own.Keys;
    }
    forall j | 0 <= j < |L.exts| ensures v'.disk[L.exts[j]] == v.disk[L.exts[j]] {
      assert L.exts[j] in L.own.Keys;
    }
    assert forall j :: 0 <= j < |L.exts| && ExtOnDisk(v, L, j) ==> ExtOnDisk(v', L, j);
    assert forall i :: 0 <= i < |L.data| && DataOnDisk(v, L, i) ==> DataOnDisk(v', L, i);
    SameBlocksSameContent(FS(v, h), L, FS(v', h), L);
  }

  lemma StoredFrame(v: Vol, v': Vol, hdr: Node, L: Layout)
    requires Stored(v, hdr, L)
    requires VolOK(v') && |v'.disk| == |v.disk| && v'.last == v.last
    requires forall s :: s in L.own.Keys && 0 <= s < |v.disk| ==> v'.disk[s] == v.disk[s]
    requires L.own.Keys !! v'.free
    ensures Stored(v', hdr, L)
    ensures DiskContent(v', L, hdr.byteSize) == DiskContent(v, L, hdr.byteSize)
  {
    forall i | 0 <= i < |L.data| ensures DataOnDisk(v', L, i) && DiskBlock(v', L, i) == DiskBlock(v, L, i) {
      assert DataOnDisk(v, L, i) && L.data[i] in L.own.Keys;
    }
    forall j | 0 <= j < |L.exts| ensures ExtOnDisk(v', L, j) {
      assert ExtOnDisk(v, L, j) && L.exts[j] in L.own.Keys;
    }
    var c, c' := DiskContent(v, L, hdr.byteSize), DiskContent(v', L, hdr.byteSize);
    forall p | 0 <= p < hdr.byteSize ensures c'[p] == c[p] {
      assert 0 <= p / FFS_BLOCK < |L.data|;
    }
  }

  lemma FileFrame(v: Vol, v': Vol, f: File, L: Layout)
    requires FileOK(v, f, L)
    requires VolOK(v) && VolOK(v') && |v'.disk| == |v.disk| && v'.last == v.last
    requires forall s :: s in L.own.Keys && 0 <= s < |v.disk| ==> v'.disk[s] == v.disk[s]
    requires L.own.Keys !! v'.free
    ensures FileOK(v', f, L) && ViewOf(v', f, L) == ViewOf(v, f, L)
  {
    match f
    case Open(h) => OpenFrame(v, v', h, L);
    case Closed(header) =>
      assert L.header in L.own.Keys;
      StoredFrame(v, v', v.disk[header].node, L);
  }

  /**
    The volume after a step that concerns only one file, which owned the sectors `before`
    and owns the sectors `after`: it took free ones, or gave some up.
  */
  ghost predicate Traded(v: Vol, v': Vol, before: set<int>, after: set<int>) {
    && VolOK(v')
    && v'.free !! after && v'.free + after == v.free + before
    && SameOutside(v, v', before + after)
  }

  lemma OneOwnerAfter(v: Vol, v': Vol, Ls: map<int, Layout>, reserved: set<int>, id: int, L': Layout)
    requires VolOK(v) && OneOwner(v, Ls, reserved) && id in Ls
    requires Traded(v, v', Ls[id].own.Keys, L'.own.Keys)
    ensures OneOwner(v', Ls[id := L'], reserved)
  {
    var Ls' := Ls[id := L'];
    forall s ensures s in v'.free || s in L'.own.Keys <==> s in v.free || s in Ls[id].own.Keys {
      assert s in v'.free + L'.own.Keys <==> s in v.free + Ls[id].own.Keys;
    }
    forall s | 2 <= s <= v'.last
      ensures s in v'.free || s in reserved || exists i :: i in Ls' && s in Ls'[i].own.Keys
    {
      if s in L'.own.Keys {
        assert id in Ls' && s in Ls'[id].own.Keys;
      } else if s !in v'.free && s !in reserved {
        var i :| i in Ls && s in Ls[i].own.Keys;
        assert i in Ls' && s in Ls'[i].own.Keys;
      }
    }
  }

  /** Of the files only `id` was touched, and its header stays where it is. */
  ghost predicate OthersSame(w: World, Ls: map<int, Layout>, id: int, w': World, Ls': map<int, Layout>) {
    && w'.files.Keys == w.files.Keys && Ls'.Keys == Ls.Keys
    && (forall g :: g in w.files && g in Ls && g != id ==> w'.files[g] == w.files[g] && SameBlocksOf(w.v, w'.v, Ls[g], Ls'[g]))
    && (id in Ls ==> Ls'[id].header == Ls[id].header)
  }

  ghost predicate SameBlocksOf(v: Vol, v': Vol, L: Layout, L': Layout) {
    L' == L && forall x :: x in L.own.Keys && 0 <= x < |v.disk| ==> x < |v'.disk| && v'.disk[x] == v.disk[x]
  }

  /** One file changed; the others are as before. */
  lemma ChangeFile(w: World, Ls: map<int, Layout>, reserved: set<int>, id: int, v': Vol, f': File, L': Layout)
    requires WorldOK(w, Ls, reserved) && id in w.files && id in Ls
    requires Traded(w.v, v', Ls[id].own.Keys, L'.own.Keys) && L'.header == Ls[id].header
    requires FileOK(v', f', L')
    ensures var w' := World(v', w.files[id := f']);
            var Ls' := Ls[id := L'];
            && WorldOK(w', Ls', reserved) && Views(w', Ls') == Views(w, Ls)[id := ViewOf(v', f', L')]
            && OthersSame(w, Ls, id, w', Ls')
    ensures ReservedSame(w.v, v', reserved)
  {
    hide FileOK, ViewOf, OneOwner, Traded, SameOutside, ReservedSame;
    var w' := World(v', w.files[id := f']);
    var Ls' := Ls[id := L'];
    OneOwnerAfter(w.v, v', Ls, reserved, id, L');
    FileInRange(w.v, w.files[id], Ls[id]);
    FileInRange(v', f', L');
    TradedReserved(w.v, v', Ls, Ls', id, reserved);
    TradedVol(w.v, v', Ls[id].own.Keys, L'.own.Keys);
    forall g | g in w'.files && g != id
      ensures FileOK(v', w'.files[g], Ls'[g]) && ViewOf(v', w'.files[g], Ls'[g]) == ViewOf(w.v, w.files[g], Ls[g])
      ensures SameBlocksOf(w.v, v', Ls[g], Ls'[g])
    {
      OthersApart(v', Ls', reserved, g, id);
      OthersApart(w.v, Ls, reserved, g, id);
      FileFrame(w.v, v', w.files[g], Ls[g]);
    }
    assert Views(w', Ls') == Views(w, Ls)[id := ViewOf(v', f', L')];
  }

  lemma TradedVol(v: Vol, v': Vol, before: set<int>, after: set<int>)
    requires Traded(v, v', before, after)
    ensures VolOK(v') && |v'.disk| == |v.disk| && v'.last == v.last && v'.root == v.root
    ensures forall s :: 0 <= s < |v.disk| && s !in before && s !in after ==> v'.disk[s] == v.disk[s]
  {
  }

  lemma OthersApart(v: Vol, Ls: map<int, Layout>, reserved: set<int>, g: int, id: int)
    requires OneOwner(v, Ls, reserved) && g in Ls && id in Ls && g != id
    ensures Ls[g].own.Keys !! Ls[id].own.Keys && Ls[g].own.Keys !! v.free
  {
  }

  lemma TradedReserved(v: Vol, v': Vol, Ls: map<int, Layout>, Ls': map<int, Layout>, id: int, reserved: set<int>)
    requires id in Ls && id in Ls' && Traded(v, v', Ls[id].own.Keys, Ls'[id].own.Keys)
    requires OneOwner(v, Ls, reserved) && OneOwner(v', Ls', reserved)
    requires forall s :: s in Ls[id].own.Keys || s in Ls'[id].own.Keys ==> 2 <= s
    ensures ReservedSame(v, v', reserved)
  {
  }

  /* ---- each operation refines the simple model ---- */

  /** The world after an operation is whole and looks as the simple model says. */
  ghost predicate Refined(w: World, Ls: map<int, Layout>, op: Op, w': World, Ls': map<int, Layout>, reserved: set<int>)
    requires Ls.Keys == w.files.Keys
  {
    && WorldOK(w', Ls', reserved)
    && ReservedSame(w.v, w'.v, reserved)
    && OthersSame(w, Ls, op.id, w', Ls')
    && Views(w', Ls') == ViewStep(Views(w, Ls), op)
    && Output(w, op) == ViewOutput(Views(w, Ls), op)
  }

  lemma OpenFacts(w: World, Ls: map<int, Layout>, reserved: set<int>, id: int)
    requires WorldOK(w, Ls, reserved) && IsOpen(w, id)
    ensures id in Ls && VolOK(w.v) && Ls.Keys == w.files.Keys
    ensures Inv(State(w, id), Ls[id])
    ensures id in Views(w, Ls)
    ensures var h := w.files[id].h;
            Views(w, Ls)[id] == View(Content(State(w, id), Ls[id]), h.pos, true, h.modeRead, h.modeWrite)
  {
  }

  /** An operation on one open file. */
  lemma ChangeOpen(w: World, Ls: map<int, Layout>, reserved: set<int>, id: int, t: FS, L': Layout)
    requires WorldOK(w, Ls, reserved) && IsOpen(w, id) && id in Ls
    requires Inv(t, L') && L'.header == Ls[id].header
    requires Traded(w.v, t.v, Ls[id].own.Keys, L'.own.Keys)
    ensures Ls.Keys == w.files.Keys
    ensures var w' := WithState(w, id, t);
            var Ls' := Ls[id := L'];
            && WorldOK(w', Ls', reserved)
            && ReservedSame(w.v, w'.v, reserved)
            && OthersSame(w, Ls, id, w', Ls')
            && Views(w', Ls') ==
               Views(w, Ls)[id := View(Content(t, L'), t.h.pos, true, t.h.modeRead, t.h.modeWrite)]
  {
    var f := Open(t.h);
    assert FS(t.v, t.h) == t;
    assert FileOK(t.v, f, L');
    assert ViewOf(t.v, f, L') == View(Content(t, L'), t.h.pos, true, t.h.modeRead, t.h.modeWrite);
    hide Inv, Content, Traded, FileOK, ViewOf, OthersSame;
    ChangeFile(w, Ls, reserved, id, t.v, f, L');
  }

  lemma InvFree(s: FS, L: Layout)
    requires Inv(s, L)
    ensures VolOK(s.v) && s.v.free !! L.own.Keys
  {
    assert Placed(s.v, L);
    forall x | x in L.own.Keys ensures x !in s.v.free {
    }
  }

  /** Sectors that left the free ones and joined the others: both together are the same. */
  lemma TakenJoin(free: set<int>, free': set<int>, own: set<int>, own': set<int>)
    requires free' <= free && own' == own + (free - free')
    ensures free' + own' == free + own && own + own' == own'
  {
  }

  lemma ExtendsTrades(s: FS, L: Layout, t: FS, L': Layout)
    requires Inv(s, L) && Inv(t, L') && Extends(s, L, t, L')
    ensures Traded(s.v, t.v, L.own.Keys, L'.own.Keys) && L'.header == L.header
    ensures t.h.modeRead == s.h.modeRead && t.h.modeWrite == s.h.modeWrite
  {
    hide Inv;
    InvFree(t, L');
    TakenJoin(s.v.free, t.v.free, L.own.Keys, L'.own.Keys);
    hide VolOK, SameOutside;
  }

  lemma SameTrades(v: Vol, v': Vol, own: set<int>)
    requires VolOK(v') && v'.free == v.free && SameOutside(v, v', own) && v'.free !! own
    ensures Traded(v, v', own, own)
  {
    assert own + own == own;
  }

  lemma StepWrite(w: World, id: int, buf: seq<byte>)
    requires VolOK(w.v) && IsOpen(w, id)
    ensures Step(w, WriteFile(id, buf)) == WithState(w, id, Write(State(w, id), buf).s)
    ensures Output(w, WriteFile(id, buf)) == []
  {
    hide Write;
  }

  lemma RoomAllowed(w: World, Ls: map<int, Layout>, id: int, buf: seq<byte>)
    requires IsOpen(w, id) && id in Ls && Inv(State(w, id), Ls[id]) && Allowed(w, WriteFile(id, buf))
    ensures var s := State(w, id); RoomFor(s, Ls[id], Max(s.h.hdr.byteSize, s.h.pos + |buf|))
  {
    SizeBlocks(State(w, id), Ls[id]);
  }

  lemma WriteStepRefines(w: World, Ls: map<int, Layout>, reserved: set<int>, id: int, buf: seq<byte>)
    returns (Ls': map<int, Layout>)
    requires WorldOK(w, Ls, reserved) && Allowed(w, WriteFile(id, buf)) && IsOpen(w, id)
    requires State(w, id).h.modeWrite
    ensures Refined(w, Ls, WriteFile(id, buf), Step(w, WriteFile(id, buf)), Ls', reserved)
  {
    hide Inv, Write, Content, Splice, WorldOK, Extends, Traded, Views, Step, Output, Allowed, RoomFor, OthersSame;
    OpenFacts(w, Ls, reserved, id);
    RoomAllowed(w, Ls, id, buf);
    var s, L := State(w, id), Ls[id];
    var L' := WriteRefines(s, L, buf);
    var t := Write(s, buf).s;
    ExtendsTrades(s, L, t, L');
    ChangeOpen(w, Ls, reserved, id, t, L');
    StepWrite(w, id, buf);
    Ls' := Ls[id := L'];
  }

  lemma StepSeek(w: World, id: int, pos: nat)
    requires VolOK(w.v) && IsOpen(w, id)
    ensures Step(w, SeekFile(id, pos)) == WithState(w, id, Seek(State(w, id), pos).s)
    ensures Output(w, SeekFile(id, pos)) == []
  {
    hide Seek;
  }

  lemma SoughtTrades(s: FS, o: Outcome, L: Layout, pos: nat)
    requires Sought(s, o, L, pos)
    ensures Traded(s.v, o.s.v, L.own.Keys, L.own.Keys)
    ensures Inv(o.s, L) && Content(o.s, L) == Content(s, L) && o.s.h.pos == pos
    ensures o.s.h.modeRead == s.h.modeRead && o.s.h.modeWrite == s.h.modeWrite
  {
    InvFree(o.s, L);
    SameTrades(s.v, o.s.v, L.own.Keys);
  }

  lemma SeekStepRefines(w: World, Ls: map<int, Layout>, reserved: set<int>, id: int, pos: nat)
    requires WorldOK(w, Ls, reserved) && IsOpen(w, id)
    ensures Refined(w, Ls, SeekFile(id, pos), Step(w, SeekFile(id, pos)), Ls, reserved)
  {
    hide Inv, Seek, Content, WorldOK, Sought, Traded, Views, Step, Output;
    OpenFacts(w, Ls, reserved, id);
    var s, L := State(w, id), Ls[id];
    SeekReaches(s, L, pos);
    var o := Seek(s, pos);
    SoughtTrades(s, o, L, Min(pos, s.h.hdr.byteSize));
    ChangeOpen(w, Ls, reserved, id, o.s, L);
    StepSeek(w, id, pos);
    ContentLength(s, L);
    assert Ls[id := L] == Ls;
  }

  lemma StepRead(w: World, id: int, n: nat)
    requires VolOK(w.v) && IsOpen(w, id)
    ensures Step(w, ReadFile(id, n)) == WithState(w, id, Read(State(w, id), n).s)
    ensures Output(w, ReadFile(id, n)) == Read(State(w, id), n).bytes
  {
    hide Read;
  }

  lemma ReadTrades(s: FS, L: Layout, t: FS, n: nat)
    requires ReadDone(s, L, t, n)
    ensures Traded(s.v, t.v, L.own.Keys, L.own.Keys)
    ensures Inv(t, L) && t.h.pos == s.h.pos + n
    ensures t.h.modeRead == s.h.modeRead && t.h.modeWrite == s.h.modeWrite
  {
    InvFree(t, L);
    SameTrades(s.v, t.v, L.own.Keys);
  }

  /** An allowed read keeps the content. */
  lemma AllowedReadKeeps(w: World, Ls: map<int, Layout>, id: int, n: nat)
    requires IsOpen(w, id) && id in Ls && Inv(State(w, id), Ls[id]) && Allowed(w, ReadFile(id, n))
    requires State(w, id).h.modeRead
    ensures var s := State(w, id);
            && s.h.pos + n < U32 && s.h.hdr.byteSize < U32
            && Content(Read(s, n).s, Ls[id]) == Content(s, Ls[id])
  {
    var s := State(w, id);
    ReadKeepsContent(s, Ls[id], n);
    if !s.h.changed && s.h.nDataBlock > 0 {
      assert s.v.disk[s.h.curDataPtr] == Data(s.h.data);
    }
  }

  lemma ReadStepRefines(w: World, Ls: map<int, Layout>, reserved: set<int>, id: int, n: nat)
    requires WorldOK(w, Ls, reserved) && IsOpen(w, id) && Allowed(w, ReadFile(id, n))
    requires State(w, id).h.modeRead
    ensures Refined(w, Ls, ReadFile(id, n), Step(w, ReadFile(id, n)), Ls, reserved)
  {
    hide Inv, Read, Content, WorldOK, ReadDone, Traded, Views, Step, Output, Allowed;
    OpenFacts(w, Ls, reserved, id);
    var s, L := State(w, id), Ls[id];
    AllowedReadKeeps(w, Ls, id, n);
    ReadReturns(s, L, n);
    var t := Read(s, n).s;
    ReadTrades(s, L, t, Min(s.h.pos + n, s.h.hdr.byteSize) - s.h.pos);
    ChangeOpen(w, Ls, reserved, id, t, L);
    StepRead(w, id, n);
    ContentLength(s, L);
    assert Ls[id := L] == Ls;
  }

  lemma StepFlush(w: World, id: int)
    requires VolOK(w.v) && IsOpen(w, id)
    ensures Step(w, FlushFile(id)) == WithState(w, id, Flush(State(w, id)).s)
    ensures Output(w, FlushFile(id)) == []
  {
    hide Flush;
  }

  /** A flush, whichever mode the file is open in. */
  lemma FlushAnyMode(s: FS, L: Layout)
    requires Inv(s, L)
    ensures var t := Flush(s).s;
            && Inv(t, L) && AtRest(t, L)
            && Content(t, L) == Content(s, L)
            && Content(t, L) == DiskContent(t.v, L, t.h.hdr.byteSize)
            && Traded(s.v, t.v, L.own.Keys, L.own.Keys)
            && t.h.pos == s.h.pos && t.h.modeRead == s.h.modeRead && t.h.modeWrite == s.h.modeWrite
            && t.h.hdr == s.h.hdr
  {
    if s.h.modeWrite {
      FlushStep(s, L);
      FlushKeepsInv(s, L);
      CleanContent(Clean(Flush(s).s), L);
    } else {
      CleanContent(s, L);
    }
    InvFree(Flush(s).s, L);
    SameTrades(s.v, Flush(s).s.v, L.own.Keys);
  }

  lemma FlushStepRefines(w: World, Ls: map<int, Layout>, reserved: set<int>, id: int)
    requires WorldOK(w, Ls, reserved) && IsOpen(w, id)
    ensures Refined(w, Ls, FlushFile(id), Step(w, FlushFile(id)), Ls, reserved)
  {
    hide Inv, Flush, Content, WorldOK, Traded, Views, Step, Output, AtRest;
    OpenFacts(w, Ls, reserved, id);
    var s, L := State(w, id), Ls[id];
    FlushAnyMode(s, L);
    ChangeOpen(w, Ls, reserved, id, Flush(s).s, L);
    StepFlush(w, id);
    assert Ls[id := L] == Ls;
    assert Views(w, Ls)[id := Views(w, Ls)[id]] == Views(w, Ls);
  }

  lemma StepClose(w: World, id: int)
    requires VolOK(w.v) && IsOpen(w, id)
    ensures var t := Flush(State(w, id)).s;
            Step(w, CloseFile(id)) == World(t.v, w.files[id := Closed(t.h.hdr.headerKey)])
    ensures Output(w, CloseFile(id)) == []
  {
    hide Flush;
  }

  lemma RestIsClosed(t: FS, L: Layout)
    requires AtRest(t, L)
    ensures FileOK(t.v, Closed(t.h.hdr.headerKey), L)
    ensures ViewOf(t.v, Closed(t.h.hdr.headerKey), L) ==
            View(DiskContent(t.v, L, t.h.hdr.byteSize), 0, false, false, false)
  {
  }

  /** A closed file holds on the disk what was written to it while it was open. */
  lemma CloseStepRefines(w: World, Ls: map<int, Layout>, reserved: set<int>, id: int)
    requires WorldOK(w, Ls, reserved) && IsOpen(w, id)
    ensures Refined(w, Ls, CloseFile(id), Step(w, CloseFile(id)), Ls, reserved)
  {
    hide Inv, Flush, Content, DiskContent, WorldOK, Traded, Views, Step, Output, AtRest, FileOK, ViewOf;
    OpenFacts(w, Ls, reserved, id);
    var s, L := State(w, id), Ls[id];
    FlushAnyMode(s, L);
    var t := Flush(s).s;
    RestIsClosed(t, L);
    ChangeFile(w, Ls, reserved, id, t.v, Closed(t.h.hdr.headerKey), L);
    StepClose(w, id);
    assert Ls[id := L] == Ls;
  }

  lemma ClosedFacts(w: World, Ls: map<int, Layout>, reserved: set<int>, id: int)
    requires WorldOK(w, Ls, reserved) && IsClosed(w, id)
    ensures id in Ls && VolOK(w.v) && Ls.Keys == w.files.Keys
    ensures var r := ReadNode(w.v, w.files[id].header);
            && r.Some? && Stored(w.v, r.value, Ls[id]) && w.files[id].header == Ls[id].header
            && id in Views(w, Ls)
            && Views(w, Ls)[id] == View(DiskContent(w.v, Ls[id], r.value.byteSize), 0, false, false, false)
  {
  }

  lemma StepOpen(w: World, id: int, r: bool, m: bool, hdr: Node)
    requires VolOK(w.v) && IsClosed(w, id) && (r || m) && ReadNode(w.v, w.files[id].header) == Some(hdr)
    ensures Step(w, OpenFile(id, r, m)) == WithState(w, id, Seek(FS(w.v, NewHandle(hdr, r, m)), 0).s)
    ensures Output(w, OpenFile(id, r, m)) == []
  {
    hide Seek, ReadNode;
  }

  /** Reopening a closed file finds the bytes it was closed with. */
  lemma OpenStepRefines(w: World, Ls: map<int, Layout>, reserved: set<int>, id: int, r: bool, m: bool)
    requires WorldOK(w, Ls, reserved) && IsClosed(w, id) && (r || m)
    ensures Refined(w, Ls, OpenFile(id, r, m), Step(w, OpenFile(id, r, m)), Ls, reserved)
  {
    hide Inv, Seek, Content, DiskContent, WorldOK, Traded, Views, Step, Output, Stored, ReadNode;
    ClosedFacts(w, Ls, reserved, id);
    var hdr, L := ReadNode(w.v, w.files[id].header).value, Ls[id];
    OpenStored(w.v, hdr, L, r, m);
    var t := Seek(FS(w.v, NewHandle(hdr, r, m)), 0).s;
    InvFree(t, L);
    SameTrades(w.v, t.v, L.own.Keys);
    ReopenWorld(w, Ls, reserved, id, t);
    StepOpen(w, id, r, m, hdr);
  }

  lemma ReopenWorld(w: World, Ls: map<int, Layout>, reserved: set<int>, id: int, t: FS)
    requires WorldOK(w, Ls, reserved) && id in w.files && id in Ls
    requires Inv(t, Ls[id]) && Traded(w.v, t.v, Ls[id].own.Keys, Ls[id].own.Keys)
    ensures Ls.Keys == w.files.Keys
    ensures var w' := WithState(w, id, t);
            && WorldOK(w', Ls, reserved)
            && ReservedSame(w.v, w'.v, reserved)
            && OthersSame(w, Ls, id, w', Ls)
            && Views(w', Ls) ==
               Views(w, Ls)[id := View(Content(t, Ls[id]), t.h.pos, true, t.h.modeRead, t.h.modeWrite)]
  {
    var f := Open(t.h);
    assert FS(t.v, t.h) == t;
    assert FileOK(t.v, f, Ls[id]);
    assert ViewOf(t.v, f, Ls[id]) == View(Content(t, Ls[id]), t.h.pos, true, t.h.modeRead, t.h.modeWrite);
    hide Inv, Content, Traded, FileOK, ViewOf, OthersSame;
    ChangeFile(w, Ls, reserved, id, t.v, f, Ls[id]);
    assert Ls[id := Ls[id]] == Ls;
  }

  lemma StoredInRange(v: Vol, hdr: Node, L: Layout)
    requires Stored(v, hdr, L)
    ensures forall s :: s in L.own.Keys ==> 2 <= s <= v.last
  {
  }

  lemma StepTruncate(w: World, id: int, size: nat)
    requires VolOK(w.v) && IsOpen(w, id)
    ensures Step(w, TruncateFile(id, size)) == WithState(w, id, Truncate(State(w, id), size).s)
    ensures Output(w, TruncateFile(id, size)) == []
  {
    hide Truncate;
  }

  /** What the guard of a truncation says of the file. */
  lemma TruncateAllowed(w: World, Ls: map<int, Layout>, id: int, size: nat)
    requires IsOpen(w, id) && id in Ls && Inv(State(w, id), Ls[id]) && State(w, id).h.modeWrite
    requires Allowed(w, TruncateFile(id, size))
    ensures var s, L := State(w, id), Ls[id];
            if size < s.h.hdr.byteSize then KeepsHandle(s.h, size) && ListsRemoval(s.v, s.h.hdr, L, size)
            else RoomFor(s, L, size)
  {
    var s, L := State(w, id), Ls[id];
    SizeBlocks(s, L);
    if size < s.h.hdr.byteSize && s.h.changed {
      if s.h.hdr.byteSize > FFS_BLOCK * MAX_DATABLK {
        FlushAnyMode(s, L);
      } else {
        SmallFileListed(s, L);
      }
    }
    if size < s.h.hdr.byteSize {
      BlocksToRemoveExact(s.v, s.h.hdr, L, size);
    }
  }

  lemma SmallFileListed(s: FS, L: Layout)
    requires Inv(s, L) && s.h.hdr.byteSize <= FFS_BLOCK * MAX_DATABLK
    ensures ChainOnDisk(s.v, s.h.hdr, L)
  {
    assert |L.data| <= MAX_DATABLK;
  }

  /** A truncated file has traded sectors and holds the resized bytes. */
  lemma TruncatedTrades(s: FS, L: Layout, o: Outcome, L': Layout, size: nat)
    requires Inv(s, L) && Truncated(s, L, o, L', size) && s.h.modeWrite
    requires if size < s.h.hdr.byteSize then KeepsHandle(s.h, size) && ListsRemoval(s.v, s.h.hdr, L, size) else RoomFor(s, L, size)
    ensures Inv(o.s, L') && o.s.h.pos == size && Content(o.s, L') == Resized(Content(s, L), size)
    ensures Traded(s.v, o.s.v, L.own.Keys, L'.own.Keys) && L'.header == L.header
    ensures o.s.h.modeRead == s.h.modeRead && o.s.h.modeWrite == s.h.modeWrite
  {
    hide Inv, Content, KeepsHandle, RoomFor, RealSize, ShrunkTo, Sought, Extends, Traded, ListsRemoval, StoppedBefore;
    ContentLength(s, L);
    if size < s.h.hdr.byteSize {
      ShrunkTrades(s, L, o.s, L', size);
    } else if size == s.h.hdr.byteSize {
      SoughtTrades(s, o, L, size);
    } else {
      ExtendsTrades(s, L, o.s, L');
    }
  }

  lemma ShrunkTrades(s: FS, L: Layout, t: FS, L': Layout, size: nat)
    requires ShrunkTo(s, L, t, L', size)
    ensures Inv(t, L') && t.h.pos == size && size <= |Content(s, L)| && Content(t, L') == Content(s, L)[..size]
    ensures Traded(s.v, t.v, L.own.Keys, L'.own.Keys) && L'.header == L.header
    ensures t.h.modeRead == s.h.modeRead && t.h.modeWrite == s.h.modeWrite
  {
    hide Inv, Content, RealSize;
    InvFree(t, L');
    var b, a, f, f' := L.own.Keys, L'.own.Keys, s.v.free, t.v.free;
    assert b + a == b;
    assert f' + a == f + b;
  }

  lemma TruncateStepRefines(w: World, Ls: map<int, Layout>, reserved: set<int>, id: int, size: nat)
    returns (Ls': map<int, Layout>)
    requires WorldOK(w, Ls, reserved) && Allowed(w, TruncateFile(id, size)) && IsOpen(w, id)
    requires State(w, id).h.modeWrite
    ensures Refined(w, Ls, TruncateFile(id, size), Step(w, TruncateFile(id, size)), Ls', reserved)
  {
    hide Inv, Truncate, Truncated, Content, Resized, WorldOK, Traded, Views, Step, Output, Allowed, RoomFor, OthersSame, KeepsHandle,
         ListsRemoval;
    OpenFacts(w, Ls, reserved, id);
    TruncateAllowed(w, Ls, id, size);
    var s, L := State(w, id), Ls[id];
    var L' := TruncateRefines(s, L, size);
    var t := Truncate(s, size).s;
    TruncatedTrades(s, L, Truncate(s, size), L', size);
    ChangeOpen(w, Ls, reserved, id, t, L');
    StepTruncate(w, id, size);
    Ls' := Ls[id := L'];
  }

  /** Does the operation find its file in the state it needs? */
  predicate Applies(w: World, op: Op) {
    match op
    case OpenFile(id, r, m) => IsClosed(w, id) && (r || m)
    case CloseFile(id) => IsOpen(w, id)
    case WriteFile(id, _) => IsOpen(w, id) && w.files[id].h.modeWrite
    case ReadFile(id, _) => IsOpen(w, id) && w.files[id].h.modeRead
    case SeekFile(id, _) => IsOpen(w, id)
    case FlushFile(id) => IsOpen(w, id)
    case TruncateFile(id, _) => IsOpen(w, id) && w.files[id].h.modeWrite
  }

  lemma ViewKinds(w: World, Ls: map<int, Layout>, id: int)
    requires Ls.Keys == w.files.Keys
    ensures id in Views(w, Ls) <==> id in w.files
    ensures id in w.files ==> (Views(w, Ls)[id].open <==> IsOpen(w, id))
    ensures IsOpen(w, id) ==>
              && Views(w, Ls)[id].modeRead == w.files[id].h.modeRead
              && Views(w, Ls)[id].modeWrite == w.files[id].h.modeWrite
  {
  }

  lemma NothingToDo(w: World, Ls: map<int, Layout>, op: Op)
    requires VolOK(w.v) && Ls.Keys == w.files.Keys && !Applies(w, op)
    ensures Step(w, op) == w && ViewStep(Views(w, Ls), op) == Views(w, Ls)
    ensures Output(w, op) == [] && ViewOutput(Views(w, Ls), op) == []
  {
    ViewKinds(w, Ls, op.id);
    hide Views, Seek, Flush, FreeFileBlocks;
    if IsOpen(w, op.id) {
      assert w.files[op.id := w.files[op.id]] == w.files;
      assert WithState(w, op.id, State(w, op.id)) == w;
    }
  }

  /** Every operation takes a whole world to a whole world, as the simple model says. */
  lemma StepRefines(w: World, Ls: map<int, Layout>, reserved: set<int>, op: Op) returns (Ls': map<int, Layout>)
    requires WorldOK(w, Ls, reserved) && Allowed(w, op)
    ensures VolOK(w.v) && Ls.Keys == w.files.Keys
    ensures Refined(w, Ls, op, Step(w, op), Ls', reserved)
  {
    Ls' := Ls;
    if !Applies(w, op) {
      NothingToDo(w, Ls, op);
    } else {
      assert VolOK(w.v) && Ls.Keys == w.files.Keys;
      hide WorldOK, Refined, Step;
      match op
      case OpenFile(id, r, m) => OpenStepRefines(w, Ls, reserved, id, r, m);
      case CloseFile(id) => CloseStepRefines(w, Ls, reserved, id);
      case WriteFile(id, buf) => Ls' := WriteStepRefines(w, Ls, reserved, id, buf);
      case ReadFile(id, n) => ReadStepRefines(w, Ls, reserved, id, n);
      case SeekFile(id, pos) => SeekStepRefines(w, Ls, reserved, id, pos);
      case FlushFile(id) => FlushStepRefines(w, Ls, reserved, id);
      case TruncateFile(id, size) => Ls' := TruncateStepRefines(w, Ls, reserved, id, size);
    }
  }

  /* ---- whole runs ---- */

  ghost function Run(w: World, ops: seq<Op>): World
    decreases |ops|
  {
    if ops == [] || !VolOK(w.v) then w else Run(Step(w, ops[0]), ops[1..])
  }

  ghost function Outputs(w: World, ops: seq<Op>): seq<seq<byte>>
    decreases |ops|
  {
    if ops == [] || !VolOK(w.v) then [] else [Output(w, ops[0])] + Outputs(Step(w, ops[0]), ops[1..])
  }

  ghost predicate AllAllowed(w: World, ops: seq<Op>)
    decreases |ops|
  {
    ops == [] || !VolOK(w.v) || (Allowed(w, ops[0]) && AllAllowed(Step(w, ops[0]), ops[1..]))
  }

  ghost function ViewRun(m: map<int, View>, ops: seq<Op>): map<int, View>
    decreases |ops|
  {
    if ops == [] then m else ViewRun(ViewStep(m, ops[0]), ops[1..])
  }

  ghost function ViewOutputs(m: map<int, View>, ops: seq<Op>): seq<seq<byte>>
    decreases |ops|
  {
    if ops == [] then [] else [ViewOutput(m, ops[0])] + ViewOutputs(ViewStep(m, ops[0]), ops[1..])
  }

  /**
    Over every run of allowed operations the files behave as byte strings with a
    position, whatever blocks they are spread over, and every sector keeps exactly one
    owner: it is free, reserved, or plays one role in one file.
  */
  lemma {:induction false} RunRefines(w: World, Ls: map<int, Layout>, reserved: set<int>, ops: seq<Op>)
    returns (Ls': map<int, Layout>)
    requires WorldOK(w, Ls, reserved) && AllAllowed(w, ops)
    ensures Ls.Keys == w.files.Keys
    ensures WorldOK(Run(w, ops), Ls', reserved) && ReservedSame(w.v, Run(w, ops).v, reserved)
    ensures Views(Run(w, ops), Ls') == ViewRun(Views(w, Ls), ops)
    ensures Outputs(w, ops) == ViewOutputs(Views(w, Ls), ops)
    decreases |ops|
  {
    if ops == [] {
      Ls' := Ls;
    } else {
      hide WorldOK, Step, Views, Output, ViewOutput, ViewStep, VolOK, Allowed;
      var Ls1 := StepRefines(w, Ls, reserved, ops[0]);
      var w1 := Step(w, ops[0]);
      Ls' := RunRefines(w1, Ls1, reserved, ops[1..]);
    }
  }

  /** The sectors the files own and the free ones are as many after a run as before. */
  lemma RunConserves(w: World, Ls: map<int, Layout>, reserved: set<int>, ops: seq<Op>) returns (Ls': map<int, Layout>)
    requires WorldOK(w, Ls, reserved) && AllAllowed(w, ops)
    ensures WorldOK(Run(w, ops), Ls', reserved)
    ensures Run(w, ops).v.last == w.v.last
    ensures Run(w, ops).v.free + Owned(Ls') == w.v.free + Owned(Ls)
    ensures |Run(w, ops).v.free| + |Owned(Ls')| == |w.v.free| + |Owned(Ls)|
  {
    hide WorldOK, Run, Owned, AllAllowed, Views, ViewRun, Outputs, ViewOutputs;
    Ls' := RunRefines(w, Ls, reserved, ops);
    var w' := Run(w, ops);
    OwnedIsRest(w, Ls, reserved);
    OwnedIsRest(w', Ls', reserved);
    var before, after := w.v.free + Owned(Ls), w'.v.free + Owned(Ls');
    forall s ensures s in after <==> s in before {
    }
    assert after == before;
    assert |w'.v.free + Owned(Ls')| == |w'.v.free| + |Owned(Ls')|;
    assert |w.v.free + Owned(Ls)| == |w.v.free| + |Owned(Ls)|;
  }

  /** The sectors that belong to files. */
  ghost function Owned(Ls: map<int, Layout>): set<int> {
    set id, s | id in Ls && s in Ls[id].own.Keys :: s
  }

  lemma FileInRange(v: Vol, f: File, L: Layout)
    requires FileOK(v, f, L)
    ensures forall s :: s in L.own.Keys ==> 2 <= s <= v.last
  {
  }

  lemma OwnedIsRest(w: World, Ls: map<int, Layout>, reserved: set<int>)
    requires WorldOK(w, Ls, reserved)
    ensures w.v.free !! Owned(Ls)
    ensures forall s :: s in w.v.free || s in Owned(Ls) <==> 2 <= s <= w.v.last && s !in reserved
  {
    forall id | id in Ls ensures forall s :: s in Ls[id].own.Keys ==> 2 <= s <= w.v.last {
      FileInRange(w.v, w.files[id], Ls[id]);
    }
    hide FileOK;
  }
}
