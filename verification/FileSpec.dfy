/**
  What each step of the open-file engine does to the volume and the file handle,
  as functions on values. The methods of class AdfFile are proved to compute
  these functions; the properties of the engine are proved about them.
  Models adf_file.c on FFS volumes (512 data bytes in each data block).
*/
module FileSpec {
  import opened FileUtil
  import opened Blocks

  datatype Rc = RcOk | RcError | RcVolFull | RcBlockRead | RcBlockOutOfRange

  /** The fields of an open file; `data` and `ext` are the cached blocks. */
  datatype Handle = Handle(
    hdr: Node,
    data: Buf,
    ext: Option<Node>,
    nDataBlock: nat,
    curDataPtr: int,
    pos: nat,
    posInDataBlk: nat,
    posInExtBlk: nat,
    modeRead: bool,
    modeWrite: bool,
    changed: bool)

  /** The handle adfFileOpen sets up before it seeks to the start. */
  function NewHandle(hdr: Node, modeRead: bool, modeWrite: bool): Handle {
    Handle(hdr, ZeroBuf(), None, 0, 0, 0, 0, 0, modeRead, modeWrite, false)
  }

  /** A volume and one open file on it. */
  datatype FS = FS(v: Vol, h: Handle)

  datatype Outcome = Outcome(s: FS, rc: Rc)

  function Min(a: int, b: int): int { if a <= b then a else b }
  function Max(a: int, b: int): int { if a >= b then a else b }

  /* ---- writing cached blocks back ---- */

  function SealHdr(n: Node): Node {
    n.(typ := T_HEADER, secType := ST_FILE)
  }

  function SealExt(n: Node): Node {
    n.(typ := T_LIST, secType := ST_FILE, firstData := 0)
  }

  function StoreHdr(s: FS): Outcome {
    var hdr := SealHdr(s.h.hdr);
    Outcome(FS(Store(s.v, hdr.headerKey, Meta(hdr)), s.h.(hdr := hdr)),
            if OnDisk(s.v, hdr.headerKey) then RcOk else RcBlockOutOfRange)
  }

  /** Without a cached extension block there is nothing to store. */
  function StoreExt(s: FS): Outcome {
    match s.h.ext
    case None => Outcome(s, RcOk)
    case Some(x) =>
      var ext := SealExt(x);
      Outcome(FS(Store(s.v, ext.headerKey, Meta(ext)), s.h.(ext := Some(ext))),
              if OnDisk(s.v, ext.headerKey) then RcOk else RcBlockOutOfRange)
  }

  function StoreData(s: FS): Outcome {
    if s.h.curDataPtr < 1 then Outcome(s, RcError)
    else
      Outcome(FS(Store(s.v, s.h.curDataPtr, Data(s.h.data)), s.h),
              if OnDisk(s.v, s.h.curDataPtr) then RcOk else RcBlockOutOfRange)
  }

  function StoreCurrentData(s: FS): Outcome {
    if s.h.hdr.byteSize > 0 && s.h.curDataPtr != 0 then StoreData(s) else Outcome(s, RcOk)
  }

  /** adfFileFlush: the cached extension block, the cached data block, then the header. */
  function Flush(s: FS): (o: Outcome)
    ensures o.s.h.hdr.byteSize == s.h.hdr.byteSize
  {
    if !s.h.modeWrite then Outcome(s, RcOk)
    else
      var o1 := StoreExt(s);
      if o1.rc != RcOk then o1
      else
        var o2 := StoreCurrentData(o1.s);
        if o2.rc != RcOk then o2 else StoreHdr(o2.s)
  }

  function Clean(s: FS): FS {
    FS(s.v, s.h.(changed := false))
  }

  /** Flush before the cached data block is replaced. */
  function FlushIfChanged(s: FS): (t: FS)
    ensures t.h.hdr.byteSize == s.h.hdr.byteSize
  {
    if s.h.modeWrite && s.h.changed then Clean(Flush(s).s) else s
  }

  /* ---- moving to the next data block ---- */

  function LoadBlock(s: FS, nSect: int): Outcome {
    if nSect < 2 then Outcome(s, RcError)
    else
      match ReadData(s.v, nSect)
      case None =>
        Outcome(FS(s.v, s.h.(curDataPtr := nSect, nDataBlock := s.h.nDataBlock + 1)), RcBlockRead)
      case Some(b) =>
        Outcome(FS(s.v, s.h.(data := b, curDataPtr := nSect, nDataBlock := s.h.nDataBlock + 1)), RcOk)
  }

  /** The next slot of the cached extension block; its absence would be a null pointer. */
  function NextFromExt(s: FS): Outcome {
    if s.h.ext.None? || s.h.posInExtBlk >= MAX_DATABLK then Outcome(s, RcError)
    else
      var nSect := Slot(s.h.ext.value, s.h.posInExtBlk);
      LoadBlock(FS(s.v, s.h.(posInExtBlk := s.h.posInExtBlk + 1)), nSect)
  }

  function LoadExt(s: FS, key: int): Outcome {
    match ReadNode(s.v, key)
    case None => Outcome(s, RcBlockRead)
    case Some(x) => NextFromExt(FS(s.v, s.h.(ext := Some(x), posInExtBlk := 0)))
  }

  /** adfFileReadNextBlock */
  function ReadNextBlock(s: FS): Outcome {
    if s.h.nDataBlock == 0 then LoadBlock(s, s.h.hdr.firstData)
    else if s.h.nDataBlock < MAX_DATABLK then LoadBlock(s, Slot(s.h.hdr, s.h.nDataBlock))
    else if s.h.nDataBlock == MAX_DATABLK then LoadExt(s, s.h.hdr.extension)
    else if s.h.ext.Some? && s.h.posInExtBlk == MAX_DATABLK then LoadExt(s, s.h.ext.value.extension)
    else NextFromExt(s)
  }

  /* ---- appending a data block ---- */

  /** A full last block is written before the file grows beyond it. */
  function Retire(s: FS): FS {
    if s.h.pos >= FFS_BLOCK then FS(StoreData(s).s.v, s.h.(data := ZeroBuf())) else s
  }

  /** The file ends in data block `x` from now on. */
  function Advance(s: FS, x: int): FS {
    var s1 := Retire(s);
    FS(s1.v, s1.h.(curDataPtr := x, nDataBlock := s1.h.nDataBlock + 1))
  }

  function AppendToHdr(s: FS): Outcome
    requires VolOK(s.v) && s.h.nDataBlock < MAX_DATABLK
  {
    var x := FirstFree(s.v);
    if x == -1 then Outcome(s, RcVolFull)
    else
      var hdr := SetSlot(s.h.hdr, s.h.nDataBlock, x);
      var first := if s.h.nDataBlock == 0 then x else hdr.firstData;
      Outcome(Advance(FS(Take(s.v, x), s.h.(hdr := hdr.(firstData := first, highSeq := hdr.highSeq + 1))), x), RcOk)
  }

  function NewExt(e: int, parent: int): Node {
    Node(0, e, 0, 0, NoSlots(), 0, [], 0, parent, 0, 0)
  }

  /** The first extension block is linked from the header. */
  function LinkFirst(s: FS, e: int): FS {
    if s.h.nDataBlock == MAX_DATABLK then FS(s.v, s.h.(hdr := s.h.hdr.(extension := e))) else s
  }

  /** A later one is linked from the one before it, which is written. */
  function LinkNext(s: FS, e: int): FS {
    if s.h.nDataBlock >= 2 * MAX_DATABLK && s.h.ext.Some? then
      var x := s.h.ext.value;
      StoreExt(FS(s.v, s.h.(ext := Some(x.(extension := e))))).s
    else s
  }

  /** Extension block `e`, already taken from the free sectors, becomes the last one of the file. */
  function LinkExt(s: FS, e: int): FS {
    var s1 := LinkNext(LinkFirst(s, e), e);
    FS(s1.v, s1.h.(ext := Some(NewExt(e, s1.h.hdr.headerKey)), posInExtBlk := 0))
  }

  function AppendToExt(s: FS): Outcome
    requires VolOK(s.v)
  {
    var x := FirstFree(s.v);
    if s.h.ext.None? || s.h.posInExtBlk >= MAX_DATABLK then Outcome(s, RcError)
    else if x == -1 then Outcome(s, RcVolFull)
    else
      var ext := SetSlot(s.h.ext.value, s.h.posInExtBlk, x);
      Outcome(Advance(FS(Take(s.v, x),
                         s.h.(ext := Some(ext.(highSeq := ext.highSeq + 1)),
                              posInExtBlk := s.h.posInExtBlk + 1)), x), RcOk)
  }

  lemma LinkExtVolOK(s: FS, e: int)
    requires VolOK(s.v)
    ensures VolOK(LinkExt(FS(Take(s.v, e), s.h), e).v)
  {
  }

  /** adfFileCreateNextBlock */
  function CreateNextBlock(s: FS): Outcome
    requires VolOK(s.v)
  {
    if s.h.nDataBlock < MAX_DATABLK then AppendToHdr(s)
    else if s.h.nDataBlock % MAX_DATABLK == 0 then
      var e := FirstFree(s.v);
      if e == -1 then Outcome(s, RcVolFull)
      else
        LinkExtVolOK(s, e);
        AppendToExt(LinkExt(FS(Take(s.v, e), s.h), e))
    else AppendToExt(s)
  }

  /* ---- writing ---- */

  function AtBlockStart(s: FS): FS {
    FS(s.v, s.h.(posInDataBlk := 0))
  }

  function Invalidate(s: FS): FS {
    FS(s.v, s.h.(curDataPtr := 0))
  }

  /** The part of a round of adfFileWrite's loop that makes room in the cached data block. */
  function PrepareWrite(s: FS): Outcome
    requires VolOK(s.v)
  {
    if s.h.pos % FFS_BLOCK != 0 then Outcome(s, RcOk)
    else if s.h.pos == s.h.hdr.byteSize then
      var o := CreateNextBlock(s);
      if o.rc != RcOk then Outcome(Clean(o.s), o.rc) else Outcome(AtBlockStart(Clean(o.s)), RcOk)
    else if s.h.posInDataBlk == FFS_BLOCK then
      var o := ReadNextBlock(FlushIfChanged(s));
      if o.rc != RcOk then Outcome(Invalidate(o.s), o.rc) else Outcome(AtBlockStart(o.s), RcOk)
    else Outcome(AtBlockStart(s), RcOk)
  }

  /** Copy `chunk` into the cached data block at the current position. */
  function CopyIn(s: FS, chunk: seq<byte>): FS
    requires s.h.posInDataBlk + |chunk| <= FFS_BLOCK
  {
    var p, pos := s.h.posInDataBlk, s.h.pos + |chunk|;
    FS(s.v, s.h.(data := s.h.data[..p] + chunk + s.h.data[p + |chunk|..],
                 pos := pos,
                 posInDataBlk := p + |chunk|,
                 changed := true,
                 hdr := s.h.hdr.(byteSize := Max(s.h.hdr.byteSize, pos))))
  }

  datatype Written = Written(s: FS, count: nat)

  /** Reading leaves the volume alone. */
  lemma ReadNextBlockReads(s: FS)
    ensures ReadNextBlock(s).s.v == s.v
  {
  }

  /** Flushing stores blocks; it neither takes nor frees sectors. */
  lemma FlushKeepsFree(s: FS)
    ensures var v := Flush(s).s.v;
            v.free == s.v.free && v.root == s.v.root && v.last == s.v.last && |v.disk| == |s.v.disk|
  {
    hide Store;
    forall v, x, b ensures var w := Store(v, x, b);
                           w.free == v.free && w.root == v.root && w.last == v.last && |w.disk| == |v.disk|
    {
      StoreKeepsFree(v, x, b);
    }
  }

  lemma StoreKeepsFree(v: Vol, x: int, b: Block)
    ensures var w := Store(v, x, b);
            w.free == v.free && w.root == v.root && w.last == v.last && |w.disk| == |v.disk|
  {
  }

  lemma CreateNextBlockVolOK(s: FS)
    requires VolOK(s.v)
    ensures VolOK(CreateNextBlock(s).s.v)
  {
    if s.h.nDataBlock >= MAX_DATABLK && s.h.nDataBlock % MAX_DATABLK == 0 && s.v.free != {} {
      LinkExtVolOK(s, FirstFree(s.v));
    }
  }

  lemma PrepareWriteVolOK(s: FS)
    requires VolOK(s.v)
    ensures VolOK(PrepareWrite(s).s.v)
  {
    if s.h.pos == s.h.hdr.byteSize {
      CreateNextBlockVolOK(s);
    } else {
      FlushKeepsFree(s);
      ReadNextBlockReads(FlushIfChanged(s));
    }
  }

  /** The loop of adfFileWrite. */
  function WriteLoop(s: FS, buf: seq<byte>): (w: Written)
    requires VolOK(s.v)
    decreases |buf|
  {
    if buf == [] then Written(s, 0)
    else
      PrepareWriteVolOK(s);
      var o := PrepareWrite(s);
      if o.rc != RcOk || o.s.h.posInDataBlk >= FFS_BLOCK then Written(o.s, 0)
      else
        var size := Min(|buf|, FFS_BLOCK - o.s.h.posInDataBlk);
        var w := WriteLoop(CopyIn(o.s, buf[..size]), buf[size..]);
        Written(w.s, size + w.count)
  }

  /** adfFileWrite */
  function Write(s: FS, buf: seq<byte>): Written
    requires VolOK(s.v)
  {
    if !s.h.modeWrite then Written(s, 0) else WriteLoop(s, buf)
  }

  /* ---- reading ---- */

  function PrepareRead(s: FS): Outcome {
    if s.h.posInDataBlk != FFS_BLOCK then Outcome(s, RcOk)
    else
      var o := ReadNextBlock(s);
      if o.rc != RcOk then Outcome(Invalidate(o.s), o.rc) else Outcome(AtBlockStart(Clean(o.s)), RcOk)
  }

  datatype ReadResult = ReadResult(s: FS, bytes: seq<byte>)

  /** The loop of adfFileRead. */
  function ReadLoop(s: FS, n: nat): ReadResult
    decreases n
  {
    if n == 0 then ReadResult(s, [])
    else
      var o := PrepareRead(s);
      if o.rc != RcOk || o.s.h.posInDataBlk >= FFS_BLOCK then ReadResult(o.s, [])
      else
        var p := o.s.h.posInDataBlk;
        var size := Min(n, FFS_BLOCK - p);
        var r := ReadLoop(FS(o.s.v, o.s.h.(pos := o.s.h.pos + size, posInDataBlk := p + size)), n - size);
        ReadResult(r.s, o.s.h.data[p..p + size] + r.bytes)
  }

  /** adfFileRead; the sum of position and count is a 32-bit one. */
  function Read(s: FS, n: nat): ReadResult {
    var size := s.h.hdr.byteSize;
    if !s.h.modeRead || n == 0 || size == 0 || s.h.pos == size then ReadResult(s, [])
    else if (s.h.pos + n) % U32 > size then ReadLoop(s, (size - s.h.pos) % U32)
    else ReadLoop(s, n)
  }

  /* ---- seeking ---- */

  function Rewound(h: Handle): Handle {
    h.(pos := 0, posInExtBlk := 0, posInDataBlk := 0, nDataBlock := 0, curDataPtr := 0)
  }

  /** adfFileSeekStart_ */
  function SeekStart(s: FS): Outcome {
    var s1 := FS(s.v, Rewound(s.h));
    if s1.h.hdr.byteSize == 0 then Outcome(s1, RcOk)
    else
      var o := ReadNextBlock(s1);
      if o.rc != RcOk then Outcome(Invalidate(o.s), o.rc) else o
  }

  /** Follow `k` links from extension block `key`. */
  function ExtChain(v: Vol, key: int, k: nat): Option<Node>
    decreases k
  {
    if key == 0 then None
    else
      match ReadNode(v, key)
      case None => None
      case Some(x) => if k == 0 then Some(x) else ExtChain(v, x.extension, k - 1)
  }

  /** adfFileReadExtBlockN */
  function ReadExtBlockN(v: Vol, hdr: Node, extBlock: int): Option<Node> {
    if extBlock < 0 || extBlock > Size2Extblocks(hdr.byteSize, FFS_BLOCK) - 1 then None
    else ExtChain(v, hdr.extension, extBlock)
  }

  /** The cached data block becomes the one at `ptr`; a read error is not reported. */
  function LoadAt(s: FS, ptr: int): Outcome {
    var h := s.h.(curDataPtr := ptr);
    if ptr < 2 then Outcome(FS(s.v, h), RcError)
    else
      match ReadData(s.v, ptr)
      case None => Outcome(FS(s.v, h.(curDataPtr := 0, nDataBlock := h.nDataBlock + 1)), RcOk)
      case Some(b) => Outcome(FS(s.v, h.(data := b, nDataBlock := h.nDataBlock + 1)), RcOk)
  }

  /** adfFileSeekExt_, for a position before the end of the file that is already set. */
  function SeekInside(s: FS): Outcome {
    var p := Pos2DataBlock(s.h.pos, FFS_BLOCK);
    var h := s.h.(posInExtBlk := p.posInExtBlk, posInDataBlk := p.posInDataBlk, nDataBlock := p.curDataN);
    if p.extBlock == -1 then
      assert p.curDataN < MAX_DATABLK;
      LoadAt(FS(s.v, h), Slot(h.hdr, p.curDataN))
    else
      match ReadExtBlockN(s.v, h.hdr, p.extBlock)
      case None => Outcome(FS(s.v, h.(curDataPtr := 0)), RcError)
      case Some(x) =>
        LoadAt(FS(s.v, h.(ext := Some(x), posInExtBlk := p.posInExtBlk + 1)), Slot(x, p.posInExtBlk))
  }

  /** adfFileSeekExt_ */
  function SeekExt(s: FS, pos: nat): Outcome
    decreases if pos < s.h.hdr.byteSize then 0 else 1, 1
  {
    var s1 := FS(s.v, s.h.(pos := Min(pos, s.h.hdr.byteSize)));
    if s1.h.pos == s1.h.hdr.byteSize then SeekEOF(s1) else SeekInside(s1)
  }

  /** adfFileSeekEOF_ */
  function SeekEOF(s: FS): Outcome
    decreases 1, 0
  {
    var size := s.h.hdr.byteSize;
    if size == 0 then SeekStart(s)
    else
      var o := Seek(s, size - 1);
      if o.rc != RcOk then o
      else
        var h := o.s.h;
        Outcome(FS(o.s.v, h.(pos := h.hdr.byteSize,
                             posInDataBlk := if h.hdr.byteSize % FFS_BLOCK == 0 then FFS_BLOCK
                                             else h.hdr.byteSize % FFS_BLOCK)), RcOk)
  }

  /** adfFileSeek */
  function Seek(s: FS, pos: nat): Outcome
    decreases if pos < s.h.hdr.byteSize then 0 else 1, 2
  {
    var h := s.h;
    if h.pos == pos && h.curDataPtr != 0 then Outcome(s, RcOk)
    else
      var curDatablock := if h.nDataBlock > 0 then h.nDataBlock - 1 else 0;
      if h.curDataPtr != 0 && curDatablock == pos / FFS_BLOCK then
        var p := Min(pos, h.hdr.byteSize);
        Outcome(FS(s.v, h.(pos := p, posInDataBlk := p % FFS_BLOCK)), RcOk)
      else
        var s1 := FlushIfChanged(s);
        if pos == 0 then SeekStart(s1) else SeekExt(s1, pos)
  }
}
