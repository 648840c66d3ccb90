/**
  An open file, changed in place by reading, writing, seeking and flushing.
  Each method computes the function of the same name on the state of the handle and
  its volume; where the handle is whole, reading and writing are proved to be reading
  and splicing of the file's bytes. Models adf_file.c.
*/
module AdfFileModule {
  import opened FileUtil
  import opened Blocks
  import opened FileSpec
  import Spec = FileSpec
  import opened FileInv
  import opened FileSteps
  import opened FileWrite
  import opened FileSeek
  import opened FileRead
  import opened FileEnlarge
  import opened FileShrink
  import opened FileBlocks
  import opened FileTruncate
  import opened FileResize
  import FileVectors
  import TruncateSpec
  import opened Volume

  class AdfFile {
    const volume: AdfVolume
    var fileHdr: Node
    const currentData: array<byte>
    var currentExt: Option<Node>
    var nDataBlock: nat
    var curDataPtr: int
    var pos: nat
    var posInDataBlk: nat
    var posInExtBlk: nat
    const modeRead: bool
    const modeWrite: bool
    var currentDataBlockChanged: bool

    /** Where the blocks of the file are. */
    ghost var layout: Layout

    /** The handle adfFileOpen sets up before it seeks to the start of the file with header `hdr`. */
    constructor (volume: AdfVolume, hdr: Node, modeRead: bool, modeWrite: bool, ghost layout: Layout)
      requires volume.Valid()
      ensures this.volume == volume && this.layout == layout && fresh(currentData)
      ensures Ready() && S() == FS(volume.V(), NewHandle(hdr, modeRead, modeWrite))
    {
      this.volume, this.layout := volume, layout;
      fileHdr, currentExt := hdr, None;
      currentData := new byte[FFS_BLOCK](_ => 0);
      nDataBlock, curDataPtr, pos, posInDataBlk, posInExtBlk := 0, 0, 0, 0, 0;
      this.modeRead, this.modeWrite, currentDataBlockChanged := modeRead, modeWrite, false;
      new;
      assert currentData[..] == ZeroBuf();
    }

    ghost function Repr(): set<object> {
      {this, currentData, volume, volume.disk, volume.table, volume.blocksChg, volume.pages}
    }

    /** The volume is mounted and the buffer holds one block. */
    ghost predicate Ready()
      reads volume.blocksChg, volume.table, volume.pages
    {
      volume.Valid() && currentData.Length == FFS_BLOCK
    }

    /** The state of the handle and its volume, as a value. */
    ghost function S(): FS
      requires Ready()
      reads this, currentData, volume.disk, volume.table, volume.blocksChg, volume.pages
    {
      FS(volume.V(),
         Handle(fileHdr, currentData[..], currentExt, nDataBlock, curDataPtr, pos, posInDataBlk, posInExtBlk,
                modeRead, modeWrite, currentDataBlockChanged))
    }

    /** The handle is whole. */
    ghost predicate Valid()
      reads this, currentData, volume.disk, volume.table, volume.blocksChg, volume.pages
    {
      Ready() && Inv(S(), layout)
    }

    /** The bytes of the file. */
    ghost function Bytes(): seq<byte>
      requires Ready()
      reads this, currentData, volume.disk, volume.table, volume.blocksChg, volume.pages
    {
      Content(S(), layout)
    }

    /** Copy a block into the buffer. */
    method FillData(b: Buf)
      requires Ready()
      modifies currentData
      ensures Ready() && S() == old(S()).(h := old(S()).h.(data := b))
    {
      forall i | 0 <= i < FFS_BLOCK {
        currentData[i] := b[i];
      }
      assert currentData[..] == b;
    }

    /** Write the cached extension block, if there is one. */
    method WriteExt() returns (rc: Rc)
      requires Ready()
      modifies Repr()
      ensures Ready() && Outcome(S(), rc) == StoreExt(old(S()))
      ensures layout == old(layout)
    {
      rc := RcOk;
      if currentExt.Some? {
        currentExt := Some(SealExt(currentExt.value));
        var ok := volume.WriteBlock(currentExt.value.headerKey, Meta(currentExt.value));
        rc := if ok then RcOk else RcBlockOutOfRange;
      }
    }

    /** adfWriteDataBlock for the cached data block */
    method WriteData() returns (rc: Rc)
      requires Ready()
      modifies Repr()
      ensures Ready() && Outcome(S(), rc) == StoreData(old(S()))
      ensures layout == old(layout)
    {
      if curDataPtr < 1 {
        return RcError;
      }
      var ok := volume.WriteBlock(curDataPtr, Data(currentData[..]));
      rc := if ok then RcOk else RcBlockOutOfRange;
    }

    /** adfWriteFileHdrBlock for the header */
    method WriteHdr() returns (rc: Rc)
      requires Ready()
      modifies Repr()
      ensures Ready() && Outcome(S(), rc) == StoreHdr(old(S()))
      ensures layout == old(layout)
    {
      fileHdr := SealHdr(fileHdr);
      var ok := volume.WriteBlock(fileHdr.headerKey, Meta(fileHdr));
      rc := if ok then RcOk else RcBlockOutOfRange;
    }

    /** adfFileFlush */
    method Flush() returns (rc: Rc)
      requires Ready()
      modifies Repr()
      ensures Ready() && Outcome(S(), rc) == Spec.Flush(old(S()))
      ensures layout == old(layout)
      ensures rc == RcOk && modeWrite ==> volume.FreeOf(volume.pages) == volume.Free()
      ensures !modeWrite ==> rc == RcOk && S() == old(S())
      ensures old(Valid()) ==> rc == RcOk
    {
      ghost var s := S();
      WholeFlushes(s, layout);
      hide Inv;
      rc := RcOk;
      if !modeWrite {
        return;
      }
      rc := WriteExt();
      if rc != RcOk {
        return;
      }
      if fileHdr.byteSize > 0 && curDataPtr != 0 {
        rc := WriteData();
        if rc != RcOk {
          return;
        }
      }
      rc := WriteHdr();
      if rc == RcOk {
        volume.UpdateBitmap();
      }
    }

    /* ---- the next data block ---- */

    /** The end of adfFileReadNextBlock: data block `nSect` is read into the buffer. */
    method LoadBlock(nSect: int) returns (rc: Rc)
      requires Ready()
      modifies this, currentData
      ensures Ready() && Outcome(S(), rc) == Spec.LoadBlock(old(S()), nSect)
      ensures layout == old(layout)
    {
      if nSect < 2 {
        return RcError;
      }
      var b := volume.ReadDataBlock(nSect);
      if b.Some? {
        FillData(b.value);
      }
      rc := if b.Some? then RcOk else RcBlockRead;
      curDataPtr := nSect;
      nDataBlock := nDataBlock + 1;
    }

    method NextFromExt() returns (rc: Rc)
      requires Ready()
      modifies this, currentData
      ensures Ready() && Outcome(S(), rc) == Spec.NextFromExt(old(S()))
      ensures layout == old(layout)
    {
      if currentExt.None? || posInExtBlk >= MAX_DATABLK {
        return RcError;
      }
      var nSect := Slot(currentExt.value, posInExtBlk);
      posInExtBlk := posInExtBlk + 1;
      rc := LoadBlock(nSect);
    }

    method LoadExt(key: int) returns (rc: Rc)
      requires Ready()
      modifies this, currentData
      ensures Ready() && Outcome(S(), rc) == Spec.LoadExt(old(S()), key)
      ensures layout == old(layout)
    {
      var x := volume.ReadNodeBlock(key);
      if x.None? {
        return RcBlockRead;
      }
      currentExt := x;
      posInExtBlk := 0;
      rc := NextFromExt();
    }

    /** adfFileReadNextBlock */
    method ReadNextBlock() returns (rc: Rc)
      requires Ready()
      modifies this, currentData
      ensures Ready() && Outcome(S(), rc) == Spec.ReadNextBlock(old(S()))
      ensures layout == old(layout)
    {
      if nDataBlock == 0 {
        rc := LoadBlock(fileHdr.firstData);
      } else if nDataBlock < MAX_DATABLK {
        rc := LoadBlock(Slot(fileHdr, nDataBlock));
      } else if nDataBlock == MAX_DATABLK {
        rc := LoadExt(fileHdr.extension);
      } else if currentExt.Some? && posInExtBlk == MAX_DATABLK {
        rc := LoadExt(currentExt.value.extension);
      } else {
        rc := NextFromExt();
      }
    }

    /* ---- appending a data block ---- */

    /** A new extension block at sector `e` follows the one that is full. */
    method LinkExt(e: int)
      requires Ready()
      modifies Repr()
      ensures Ready() && S() == Spec.LinkExt(old(S()), e)
      ensures layout == old(layout)
    {
      if nDataBlock == MAX_DATABLK {
        fileHdr := fileHdr.(extension := e);
      }
      if nDataBlock >= 2 * MAX_DATABLK && currentExt.Some? {
        var x := currentExt.value;
        currentExt := Some(x.(extension := e));
        var rc := WriteExt();
      }
      currentExt := Some(NewExt(e, fileHdr.headerKey));
      posInExtBlk := 0;
    }

    /** The end of adfFileCreateNextBlock: data block `nSect` becomes the cached one. */
    method Advance(nSect: int)
      requires Ready()
      modifies Repr()
      ensures Ready() && S() == Spec.Advance(old(S()), nSect)
      ensures layout == old(layout)
    {
      if pos >= FFS_BLOCK {
        var rc := WriteData();
        FillData(ZeroBuf());
      }
      curDataPtr := nSect;
      nDataBlock := nDataBlock + 1;
    }

    method AppendToHdr() returns (rc: Rc)
      requires Ready() && nDataBlock < MAX_DATABLK
      modifies Repr()
      ensures VolOK(old(S()).v)
      ensures Ready() && Outcome(S(), rc) == Spec.AppendToHdr(old(S()))
      ensures layout == old(layout)
    {
      hide Spec.Advance, FirstFree, Take;
      volume.VIsOK();
      var nSect := volume.Get1FreeBlock();
      if nSect == -1 {
        return RcVolFull;
      }
      if nDataBlock == 0 {
        fileHdr := fileHdr.(firstData := nSect);
      }
      fileHdr := SetSlot(fileHdr, nDataBlock, nSect);
      fileHdr := fileHdr.(highSeq := fileHdr.highSeq + 1);
      Advance(nSect);
      rc := RcOk;
    }

    method AppendToExt() returns (rc: Rc)
      requires Ready()
      modifies Repr()
      ensures VolOK(old(S()).v)
      ensures Ready() && Outcome(S(), rc) == Spec.AppendToExt(old(S()))
      ensures layout == old(layout)
    {
      hide Spec.Advance, FirstFree, SetSlot, Take;
      volume.VIsOK();
      if currentExt.None? || posInExtBlk >= MAX_DATABLK {
        return RcError;
      }
      var nSect := volume.Get1FreeBlock();
      if nSect == -1 {
        return RcVolFull;
      }
      var ext := SetSlot(currentExt.value, posInExtBlk, nSect);
      currentExt := Some(ext.(highSeq := ext.highSeq + 1));
      posInExtBlk := posInExtBlk + 1;
      Advance(nSect);
      rc := RcOk;
    }

    /** adfFileCreateNextBlock */
    method CreateNextBlock() returns (rc: Rc)
      requires Ready()
      modifies Repr()
      ensures VolOK(old(S()).v)
      ensures Ready() && Outcome(S(), rc) == Spec.CreateNextBlock(old(S()))
      ensures layout == old(layout)
    {
      volume.VIsOK();
      if nDataBlock < MAX_DATABLK {
        rc := AppendToHdr();
      } else {
        if nDataBlock % MAX_DATABLK == 0 {
          var extSect := volume.Get1FreeBlock();
          if extSect == -1 {
            return RcVolFull;
          }
          LinkExt(extSect);
        }
        rc := AppendToExt();
      }
    }

    /* ---- writing ---- */

    /** Flush before the cached data block is replaced. */
    method FlushIfChanged()
      requires Ready()
      modifies Repr()
      ensures Ready() && S() == Spec.FlushIfChanged(old(S()))
      ensures layout == old(layout)
    {
      if modeWrite && currentDataBlockChanged {
        var rc := Flush();
        currentDataBlockChanged := false;
      }
    }

    /** Make room in the cached data block at the current position. */
    method PrepareWrite() returns (rc: Rc)
      requires Ready()
      modifies Repr()
      ensures VolOK(old(S()).v)
      ensures Ready() && Outcome(S(), rc) == Spec.PrepareWrite(old(S()))
      ensures layout == old(layout)
    {
      volume.VIsOK();
      rc := RcOk;
      if pos % FFS_BLOCK == 0 {
        if pos == fileHdr.byteSize {
          rc := CreateNextBlock();
          currentDataBlockChanged := false;
          if rc != RcOk {
            return;
          }
        } else if posInDataBlk == FFS_BLOCK {
          FlushIfChanged();
          rc := ReadNextBlock();
          if rc != RcOk {
            curDataPtr := 0;
            return;
          }
        }
        posInDataBlk := 0;
      }
    }

    /** Copy `size` bytes of the caller's buffer into the cached data block. */
    method CopyIn(buffer: array<byte>, from: nat, size: nat)
      requires Ready() && buffer != currentData
      requires from + size <= buffer.Length && posInDataBlk + size <= FFS_BLOCK
      modifies this, currentData
      ensures Ready() && S() == Spec.CopyIn(old(S()), buffer[from..from + size])
      ensures layout == old(layout)
    {
      ghost var before := currentData[..];
      forall i | 0 <= i < size {
        currentData[posInDataBlk + i] := buffer[from + i];
      }
      assert currentData[..] ==
             before[..posInDataBlk] + buffer[from..from + size] + before[posInDataBlk + size..];
      pos := pos + size;
      posInDataBlk := posInDataBlk + size;
      currentDataBlockChanged := true;
      fileHdr := fileHdr.(byteSize := Max(fileHdr.byteSize, pos));
    }

    /** The loop of adfFileWrite. */
    method WriteBlocks(n: nat, buffer: array<byte>) returns (bytesWritten: nat)
      requires Valid() && modeWrite && n <= buffer.Length && buffer != currentData
      modifies Repr()
      ensures VolOK(old(S()).v)
      ensures Ready() && Written(S(), bytesWritten) == Spec.WriteLoop(old(S()), old(buffer[..n]))
      ensures bytesWritten <= n && buffer[..n] == old(buffer[..n]) && layout == old(layout)
    {
      hide Inv, Spec.PrepareWrite, Spec.WriteLoop, LoopsTo, Spec.CopyIn;
      volume.VIsOK();
      bytesWritten := 0;
      ghost var s0, buf := S(), buffer[..n];
      ghost var L := layout;
      LoopsStart(s0, buf);
      while bytesWritten < n
        invariant 0 <= bytesWritten <= n
        invariant Ready() && VolOK(S().v) && Inv(S(), L) && S().h.modeWrite && layout == old(layout)
        invariant buffer[..n] == buf
        invariant LoopsTo(s0, buf, S(), bytesWritten)
      {
        ghost var s, rest := S(), buf[bytesWritten..];
        L := WriteRound(s, L, rest);
        var rc := PrepareWrite();
        if rc != RcOk {
          LoopsRefused(s0, buf, s, bytesWritten, S());
          return;
        }
        var size := Min(n - bytesWritten, FFS_BLOCK - posInDataBlk);
        CopyIn(buffer, bytesWritten, size);
        assert buffer[..n] == buf;
        NextPart(buffer[..], n, bytesWritten, size);
        LoopsOn(s0, buf, s, bytesWritten, S(), size);
        bytesWritten := bytesWritten + size;
      }
      LoopsDone(s0, buf, S());
    }

    /**
      adfFileWrite: with room on the volume all `n` bytes are spliced into the file at the
      position; without it fewer are written.
    */
    method Write(n: nat, buffer: array<byte>) returns (bytesWritten: nat)
      requires Valid() && n <= buffer.Length && buffer != currentData
      modifies Repr()
      ensures VolOK(old(S()).v)
      ensures Ready() && Written(S(), bytesWritten) == Spec.Write(old(S()), old(buffer[..n]))
      ensures bytesWritten <= n && buffer[..n] == old(buffer[..n])
      ensures var room := RoomFor(old(S()), old(layout), Max(old(fileHdr.byteSize), old(pos) + n));
              modeWrite ==>
                if room then
                  && bytesWritten == n && Valid()
                  && pos == old(pos) + n
                  && old(pos) <= |old(Bytes())|
                  && Bytes() == Splice(old(Bytes()), old(pos), old(buffer[..n]))
                  && Extends(old(S()), old(layout), S(), layout)
                else bytesWritten < n
      ensures !modeWrite ==> bytesWritten == 0 && S() == old(S()) && layout == old(layout)
    {
      hide Inv, Spec.WriteLoop, Content, Splice, Extends, RoomFor, CutShort;
      volume.VIsOK();
      bytesWritten := 0;
      if !modeWrite {
        return;
      }
      ghost var s0, buf := S(), buffer[..n];
      bytesWritten := WriteBlocks(n, buffer);
      if RoomFor(s0, layout, Max(s0.h.hdr.byteSize, s0.h.pos + n)) {
        layout := WriteRefines(s0, layout, buf);
      } else {
        WriteShort(s0, layout, buf);
        CutShortCount(s0, buf, Spec.WriteLoop(s0, buf));
      }
    }

    /* ---- reading ---- */

    /** Load the next data block when the cached one has been read to its end. */
    method PrepareRead() returns (rc: Rc)
      requires Ready()
      modifies this, currentData
      ensures Ready() && Outcome(S(), rc) == Spec.PrepareRead(old(S()))
      ensures layout == old(layout)
    {
      rc := RcOk;
      if posInDataBlk == FFS_BLOCK {
        rc := ReadNextBlock();
        if rc != RcOk {
          curDataPtr := 0;
          return;
        }
        posInDataBlk := 0;
        currentDataBlockChanged := false;
      }
    }

    /** Copy `size` bytes of the cached data block into the caller's buffer. */
    method CopyOut(buffer: array<byte>, from: nat, size: nat)
      requires Ready() && buffer != currentData
      requires from + size <= buffer.Length && posInDataBlk + size <= FFS_BLOCK
      modifies this, buffer
      ensures Ready() && S() == Forward(old(S()), size)
      ensures posInDataBlk == old(posInDataBlk) + size
      ensures buffer[..from + size] == old(buffer[..from]) + old(S().h.data[posInDataBlk..posInDataBlk + size])
      ensures layout == old(layout)
    {
      forall i | 0 <= i < size {
        buffer[from + i] := currentData[posInDataBlk + i];
      }
      assert buffer[..from + size] == buffer[..from] + currentData[..][posInDataBlk..posInDataBlk + size];
      pos := pos + size;
      posInDataBlk := posInDataBlk + size;
    }

    /** The loop of adfFileRead. */
    method ReadBlocks(m: nat, buffer: array<byte>) returns (bytesRead: nat)
      requires Ready() && m <= buffer.Length && buffer != currentData && posInDataBlk <= FFS_BLOCK
      modifies this, currentData, buffer
      ensures Ready() && bytesRead <= m && layout == old(layout)
      ensures ReadResult(S(), buffer[..bytesRead]) == Spec.ReadLoop(old(S()), m)
    {
      hide Spec.PrepareRead, Spec.ReadLoop, ReadsTo, Forward;
      bytesRead := 0;
      ghost var s0 := S();
      ReadsStart(s0, m);
      while bytesRead < m
        invariant 0 <= bytesRead <= m
        invariant Ready() && posInDataBlk <= FFS_BLOCK && layout == old(layout)
        invariant ReadsTo(s0, m, S(), buffer[..bytesRead])
      {
        ghost var s, got := S(), buffer[..bytesRead];
        var rc := PrepareRead();
        if rc != RcOk {
          ReadsRefused(s0, m, s, got);
          return;
        }
        PreparedToRead(s);
        var size := Min(m - bytesRead, FFS_BLOCK - posInDataBlk);
        CopyOut(buffer, bytesRead, size);
        ReadsOn(s0, m, s, got, size);
        bytesRead := bytesRead + size;
      }
      ReadsDone(s0, m, S(), buffer[..m]);
    }

    /**
      adfFileRead: the bytes from the position to the end of the read or of the file come
      back in the buffer. Sizes and counts have 32 bits.
    */
    method Read(n: nat, buffer: array<byte>) returns (bytesRead: nat)
      requires Valid() && n <= buffer.Length && buffer != currentData
      requires n < U32 && fileHdr.byteSize < U32
      modifies this, currentData, buffer
      ensures Ready() && bytesRead <= n && layout == old(layout)
      ensures ReadResult(S(), buffer[..bytesRead]) == Spec.Read(old(S()), n)
      ensures modeRead && old(pos) + n < U32 ==> ReturnsBytes(old(S()), layout, n, S(), buffer[..bytesRead])
      ensures !modeRead ==> bytesRead == 0 && S() == old(S())
    {
      bytesRead := 0;
      ghost var s0 := S();
      PosInFile(s0, layout);
      ReadReaches(s0, layout, n);
      ReadClips(s0, n);
      hide Inv, Spec.Read, Spec.ReadLoop, ReturnsBytes, Clipped;
      if !modeRead || n == 0 || fileHdr.byteSize == 0 || pos == fileHdr.byteSize {
        return;
      }
      CursorFacts(s0, layout);
      bytesRead := ReadBlocks(Clipped(pos, n, fileHdr.byteSize), buffer);
    }

    /* ---- seeking ---- */

    /** adfFileSeekStart_ */
    method SeekStart() returns (rc: Rc)
      requires Ready()
      modifies this, currentData
      ensures Ready() && Outcome(S(), rc) == Spec.SeekStart(old(S()))
      ensures layout == old(layout)
    {
      pos, posInExtBlk, posInDataBlk, nDataBlock, curDataPtr := 0, 0, 0, 0, 0;
      if fileHdr.byteSize == 0 {
        return RcOk;
      }
      rc := ReadNextBlock();
      if rc != RcOk {
        curDataPtr := 0;
      }
    }

    /** adfFileReadExtBlockN */
    method ReadExtBlockN(extBlock: int) returns (x: Option<Node>)
      requires Ready()
      ensures x == Spec.ReadExtBlockN(S().v, fileHdr, extBlock)
    {
      if extBlock < 0 || extBlock > Size2Extblocks(fileHdr.byteSize, FFS_BLOCK) - 1 {
        return None;
      }
      x := None;
      var nSect, i := fileHdr.extension, -1;
      ghost var v := S().v;
      while i < extBlock && nSect != 0
        invariant -1 <= i <= extBlock
        invariant if i < extBlock then Spec.ExtChain(v, fileHdr.extension, extBlock) == Spec.ExtChain(v, nSect, extBlock - i - 1)
                  else Spec.ExtChain(v, fileHdr.extension, extBlock) == x
      {
        x := volume.ReadNodeBlock(nSect);
        if x.None? {
          return;
        }
        nSect := x.value.extension;
        i := i + 1;
      }
      if i != extBlock {
        x := None;
      }
    }

    /** The end of adfFileSeekExt_: data block `ptr` is read into the buffer. */
    method LoadAt(ptr: int) returns (rc: Rc)
      requires Ready()
      modifies this, currentData
      ensures Ready() && Outcome(S(), rc) == Spec.LoadAt(old(S()), ptr)
      ensures layout == old(layout)
    {
      curDataPtr := ptr;
      if ptr < 2 {
        return RcError;
      }
      var b := volume.ReadDataBlock(ptr);
      if b.Some? {
        FillData(b.value);
      } else {
        curDataPtr := 0;
      }
      nDataBlock := nDataBlock + 1;
      rc := RcOk;
    }

    /** adfFileSeekExt_ for a position before the end of the file. */
    method SeekInside() returns (rc: Rc)
      requires Ready()
      modifies this, currentData
      ensures Ready() && Outcome(S(), rc) == Spec.SeekInside(old(S()))
      ensures layout == old(layout)
    {
      hide Pos2DataBlock, Spec.LoadAt, Spec.ReadExtBlockN, Spec.SeekInside;
      ghost var s := S();
      var p := Pos2DataBlock(pos, FFS_BLOCK);
      posInExtBlk, posInDataBlk, nDataBlock := p.posInExtBlk, p.posInDataBlk, p.curDataN;
      var ptr;
      if p.extBlock == -1 {
        SeekInHeader(s, p, S());
        ptr := Slot(fileHdr, nDataBlock);
      } else {
        var x := ReadExtBlockN(p.extBlock);
        SeekInExt(s, p, x);
        if x.None? {
          curDataPtr := 0;
          return RcError;
        }
        currentExt := x;
        ptr := Slot(x.value, posInExtBlk);
        posInExtBlk := posInExtBlk + 1;
      }
      assert Spec.SeekInside(s) == Spec.LoadAt(S(), ptr);
      rc := LoadAt(ptr);
    }

    /** adfFileSeekExt_ */
    method SeekExt(pos: nat) returns (rc: Rc)
      requires Ready()
      modifies Repr()
      ensures Ready() && Outcome(S(), rc) == Spec.SeekExt(old(S()), pos)
      ensures layout == old(layout)
      decreases if pos < fileHdr.byteSize then 0 else 1, 1
    {
      hide Spec.SeekInside, Spec.SeekEOF;
      this.pos := Min(pos, fileHdr.byteSize);
      if this.pos == fileHdr.byteSize {
        rc := SeekEOF();
      } else {
        rc := SeekInside();
      }
    }

    /** adfFileSeekEOF_ */
    method SeekEOF() returns (rc: Rc)
      requires Ready()
      modifies Repr()
      ensures Ready() && Outcome(S(), rc) == Spec.SeekEOF(old(S()))
      ensures layout == old(layout)
      decreases 1, 0
    {
      hide Spec.SeekStart, Spec.Seek;
      if fileHdr.byteSize == 0 {
        rc := SeekStart();
      } else {
        rc := SeekTo(fileHdr.byteSize - 1);
        if rc != RcOk {
          return;
        }
        pos := fileHdr.byteSize;
        posInDataBlk := if fileHdr.byteSize % FFS_BLOCK == 0 then FFS_BLOCK else fileHdr.byteSize % FFS_BLOCK;
      }
    }

    /** adfFileSeek, whatever state the handle is in. */
    method SeekTo(pos: nat) returns (rc: Rc)
      requires Ready()
      modifies Repr()
      ensures Ready() && Outcome(S(), rc) == Spec.Seek(old(S()), pos)
      ensures layout == old(layout)
      decreases if pos < fileHdr.byteSize then 0 else 1, 2
    {
      hide Spec.FlushIfChanged, Spec.SeekStart, Spec.SeekExt;
      if this.pos == pos && curDataPtr != 0 {
        return RcOk;
      }
      var curDatablock := if nDataBlock > 0 then nDataBlock - 1 else 0;
      if curDataPtr != 0 && curDatablock == pos / FFS_BLOCK {
        this.pos := Min(pos, fileHdr.byteSize);
        posInDataBlk := this.pos % FFS_BLOCK;
        return RcOk;
      }
      FlushIfChanged();
      if pos == 0 {
        rc := SeekStart();
      } else {
        rc := SeekExt(pos);
      }
    }

    /**
      adfFileSeek on a whole handle: the position asked for is reached, or the end of the
      file, and the file is as it was.
    */
    method Seek(pos: nat) returns (rc: Rc)
      requires Valid()
      modifies Repr()
      ensures Ready() && Outcome(S(), rc) == Spec.Seek(old(S()), pos)
      ensures rc == RcOk && Valid() && layout == old(layout)
      ensures this.pos == Min(pos, old(fileHdr.byteSize)) && fileHdr == old(fileHdr)
      ensures Bytes() == old(Bytes()) && volume.Free() == old(volume.Free())
    {
      ghost var s := S();
      rc := SeekTo(pos);
      SeekReaches(s, layout, pos);
      hide Inv, Spec.Seek, Content;
    }

    /* ---- truncating ---- */

    /** Add pointers `from` to `end` - 1 of a node to a list of blocks. */
    static method ListSlots(x: Node, from: nat, end: nat, blocks: array<int>, count: nat) returns (c: nat)
      requires from <= 72 && end <= 72 && count + |TruncateSpec.SlotRange(x, from, end)| <= blocks.Length
      modifies blocks
      ensures c == count + |TruncateSpec.SlotRange(x, from, end)|
      ensures blocks[..c] == old(blocks[..count]) + TruncateSpec.SlotRange(x, from, end)
    {
      c := count;
      var i := from;
      assert blocks[..c] + [] == blocks[..c];
      while i < end
        invariant from <= i <= 72 && (i == from || i <= end)
        invariant c == count + (i - from)
        invariant blocks[..c] == old(blocks[..count]) + TruncateSpec.SlotRange(x, from, i)
      {
        blocks[c] := Slot(x, i);
        c := c + 1;
        i := i + 1;
      }
    }

    /** All extension blocks from number `i0` on, each after the data blocks it lists. */
    method ListExts(first: int, n: nat, e: nat, i0: nat, blocks: array<int>, count: nat) returns (ok: bool, c: nat)
      requires Ready() && e == Datablocks2Extblocks(n) && i0 <= e && TruncateSpec.ExtsFit(S().v, first, e, i0)
      requires count <= blocks.Length && count + LeftFrom(n, e, i0) <= blocks.Length
      modifies blocks
      ensures match TruncateSpec.RemoveExts(S().v, first, n, e, i0)
              case None => !ok
              case Some(list) => ok && c == count + |list| <= blocks.Length && blocks[..c] == old(blocks[..count]) + list
    {
      hide TruncateSpec.LastInExt, TruncateSpec.SlotRange, ReadNode, Datablocks2Extblocks, LeftFrom, TruncateSpec.RemoveExts;
      var nextExt, i := first, i0;
      ok, c := true, count;
      ghost var v, listed := S().v, [];
      AfterNothing(TruncateSpec.RemoveExts(v, first, n, e, i0));
      assert blocks[..c] + [] == blocks[..c];
      while nextExt != 0
        invariant i0 <= i <= e && TruncateSpec.ExtsFit(v, nextExt, e, i)
        invariant c == count + |listed| <= blocks.Length && c + LeftFrom(n, e, i) <= blocks.Length
        invariant blocks[..c] == old(blocks[..count]) + listed
        invariant TruncateSpec.RemoveExts(v, first, n, e, i0) == After(listed, TruncateSpec.RemoveExts(v, nextExt, n, e, i))
        decreases e - i
      {
        RemoveExtsUnfolds(v, nextExt, n, e, i);
        var x := volume.ReadNodeBlock(nextExt);
        if x.None? {
          return false, c;
        }
        LeftStep(n, e, i);
        ghost var before, here := blocks[..c], TruncateSpec.SlotRange(x.value, 0, TruncateSpec.LastInExt(n, e, i));
        c := ListSlots(x.value, 0, TruncateSpec.LastInExt(n, e, i), blocks, c);
        blocks[c] := nextExt;
        c := c + 1;
        assert blocks[..c] == before + here + [nextExt];
        ListedOn(old(blocks[..count]), listed, here, nextExt);
        AfterAfter(listed, here + [nextExt], TruncateSpec.RemoveExts(v, x.value.extension, n, e, i + 1));
        listed := listed + (here + [nextExt]);
        nextExt := x.value.extension;
        i := i + 1;
      }
      NoExtsLeft(v, n, e, i);
      assert listed + [] == listed;
    }

    /** The pointers to remove from the extension block that becomes the last one. */
    method ListInExt(x: Node, n: nat, n': nat, e: nat, e': nat, blocks: array<int>) returns (c: nat)
      requires MAX_DATABLK < n' < n && e == Datablocks2Extblocks(n) && e' == Datablocks2Extblocks(n')
      requires blocks.Length == n + e - (n' + e')
      modifies blocks
      ensures var last := if e' == e then TruncateSpec.LastInExt(n, e', e' - 1) else MAX_DATABLK;
              && c <= blocks.Length && c + LeftFrom(n, e, e') <= blocks.Length
              && blocks[..c] == if n' % MAX_DATABLK != 0 then TruncateSpec.SlotRange(x, n' % MAX_DATABLK, last) else []
    {
      LastToRemove(n, n');
      hide TruncateSpec.LastInExt, TruncateSpec.SlotRange, Datablocks2Extblocks;
      c := 0;
      if n' / MAX_DATABLK > 0 && n' % MAX_DATABLK != 0 {
        var first := if n' - MAX_DATABLK * e' == MAX_DATABLK then MAX_DATABLK else n' % MAX_DATABLK + 1;
        var last := if e' == e then TruncateSpec.LastInExt(n, e, e' - 1) else MAX_DATABLK;
        c := ListSlots(x, first - 1, last, blocks, 0);
        assert blocks[..c] == TruncateSpec.SlotRange(x, n' % MAX_DATABLK, last);
      } else {
        assert blocks[..c] == [];
      }
    }

    /**
      The pointers to remove from the table that becomes the last one, and the extension
      block after it.
    */
    method ListFirst(n: nat, n': nat, e: nat, e': nat, blocks: array<int>) returns (ok: bool, c: nat, nextExt: int)
      requires Ready() && n' < n && n > MAX_DATABLK && e == Datablocks2Extblocks(n) && e' == Datablocks2Extblocks(n')
      requires blocks.Length == n + e - (n' + e')
      modifies blocks
      ensures match TruncateSpec.RemoveFirst(S().v, fileHdr, n', e', n, e)
              case None => !ok
              case Some((list, next)) =>
                && ok && nextExt == next && c == |list| && c + LeftFrom(n, e, e') <= blocks.Length && blocks[..c] == list
    {
      hide TruncateSpec.SlotRange, Spec.ReadExtBlockN, TruncateSpec.LastInExt;
      ok, c, nextExt := true, 0, 0;
      NoExts(n');
      if e' < 1 {
        c := ListSlots(fileHdr, n', MAX_DATABLK, blocks, 0);
        assert blocks[..c] == TruncateSpec.SlotRange(fileHdr, n', MAX_DATABLK);
        nextExt := fileHdr.extension;
      } else {
        RemoveFirstUnfolds(S().v, fileHdr, n', e', n, e);
        hide TruncateSpec.RemoveFirst, Datablocks2Extblocks;
        var x := ReadExtBlockN(e' - 1);
        if x.None? {
          return false, c, nextExt;
        }
        c := ListInExt(x.value, n, n', e, e', blocks);
        nextExt := x.value.extension;
      }
    }

    /** Every block beyond the new size of a file with extension blocks. */
    method ListAll(n: nat, n': nat, e: nat, e': nat, blocks: array<int>) returns (ok: bool, count: nat)
      requires Ready() && n' < n && n > MAX_DATABLK && e == Datablocks2Extblocks(n) && e' == Datablocks2Extblocks(n')
      requires blocks.Length == n + e - (n' + e')
      requires match TruncateSpec.RemoveFirst(S().v, fileHdr, n', e', n, e)
               case None => true
               case Some((_, next)) => TruncateSpec.ExtsFit(S().v, next, e, e')
      modifies blocks
      ensures var all := match TruncateSpec.RemoveFirst(S().v, fileHdr, n', e', n, e)
                         case None => None
                         case Some((list, next)) => After(list, TruncateSpec.RemoveExts(S().v, next, n, e, e'));
              match all
              case None => !ok
              case Some(list) => ok && count == |list| <= blocks.Length && blocks[..count] == list
    {
      var nextExt;
      assert e' <= e;
      hide TruncateSpec.RemoveFirst, TruncateSpec.RemoveExts, TruncateSpec.ExtsFit, Datablocks2Extblocks, LeftFrom;
      ok, count, nextExt := ListFirst(n, n', e, e', blocks);
      if ok {
        ok, count := ListExts(nextExt, n, e, e', blocks, count);
      }
    }

    /**
      adfFileTruncateGetBlocksToRemove: the vector is filled with what the walk lists, as far
      as the vector has room.
    */
    method GetBlocksToRemove(size': nat) returns (rc: Rc, blocks: array<int>)
      requires Ready() && TruncateSpec.RemovalFits(S().v, fileHdr, size')
      ensures fresh(blocks) && blocks !in Repr()
      ensures match TruncateSpec.BlocksToRemove(S().v, fileHdr, size')
              case None => rc != RcOk
              case Some(list) => rc == RcOk && blocks[..] == list
    {
      rc := RcOk;
      var isNull;
      blocks, isNull := FileVectors.CreateVector(Repr(), 0);
      if fileHdr.byteSize < size' {
        return;
      }
      var n, n' := Size2Datablocks(fileHdr.byteSize, FFS_BLOCK), Size2Datablocks(size', FFS_BLOCK);
      var e, e' := Datablocks2Extblocks(n), Datablocks2Extblocks(n');
      var nBlocksToRemove := n + e - (n' + e');
      SizeOrder(size', fileHdr.byteSize);
      ExtsShrink(n', n);
      NoExts(n);
      hide Size2Datablocks, Datablocks2Extblocks, TruncateSpec.RemoveFirst, TruncateSpec.RemoveExts, TruncateSpec.ExtsFit,
           TruncateSpec.SlotRange;
      if nBlocksToRemove < 1 {
        return;
      }
      blocks, isNull := FileVectors.CreateVector(Repr(), nBlocksToRemove);
      if isNull {
        return RcError, blocks;
      }
      var ok, count := true, 0;
      if e < 1 {
        count := ListSlots(fileHdr, n', n, blocks, 0);
        assert blocks[..count] == TruncateSpec.SlotRange(fileHdr, n', n);
      } else {
        ok, count := ListAll(n, n', e, e', blocks);
      }
      if !ok || count != blocks.Length {
        rc := RcError;
      }
      assert blocks[..blocks.Length] == blocks[..];
    }

    /** Set pointers `from` to `end` - 1 of a node to 0. */
    static method ClearPointers(x: Node, from: nat, end: nat) returns (y: Node)
      requires from <= 72 && end <= 72
      ensures y == TruncateSpec.ClearSlots(x, from, end)
    {
      y := x;
      var i := from;
      while i < end
        invariant from <= i <= 72 && (i == from || i <= end)
        invariant y == TruncateSpec.ClearSlots(x, from, i)
      {
        y := SetSlot(y, i, 0);
        i := i + 1;
      }
    }

    /** The pointers of the table that becomes the last one are cut. */
    static method CutPointers(x: Node, n': nat, n: nat, e': nat, e: nat) returns (y: Node)
      ensures y == TruncateSpec.CutTable(x, n', n, e', e)
    {
      y := x;
      if n' % MAX_DATABLK != 0 {
        var first := n' % MAX_DATABLK;
        var last := if e' < e || n % MAX_DATABLK == 0 then MAX_DATABLK - 1 else n % MAX_DATABLK;
        y := ClearPointers(x, first, last + 1);
        y := y.(highSeq := first);
      }
      y := y.(extension := 0);
    }

    /** Header and cached extension block are brought to the new size. */
    method CutTo(size': nat)
      requires Ready()
      modifies this
      ensures Ready() && S() == FS(old(S()).v, TruncateSpec.CutHandle(old(S()).h, size'))
      ensures layout == old(layout)
    {
      hide TruncateSpec.CutTable, Size2Datablocks, Datablocks2Extblocks;
      var n, n' := Size2Datablocks(fileHdr.byteSize, FFS_BLOCK), Size2Datablocks(size', FFS_BLOCK);
      var e, e' := Datablocks2Extblocks(n), Datablocks2Extblocks(n');
      if size' == 0 {
        fileHdr := fileHdr.(byteSize := size', firstData := 0, slots := NoSlots(), highSeq := 0, extension := 0);
      } else if e' < 1 {
        fileHdr := CutPointers(fileHdr.(byteSize := size'), n', n, e', e);
        currentDataBlockChanged := true;
      } else if currentExt.Some? {
        fileHdr := fileHdr.(byteSize := size');
        var x := CutPointers(currentExt.value, n', n, e', e);
        currentExt := Some(x);
        currentDataBlockChanged := true;
      }
    }

    /** The blocks beyond the new size are cut off the file, and the bitmap is written. */
    method CutOff(size': nat, blocks: array<int>)
      requires Ready() && FileVectors.OnVolume(blocks[..], volume.Last())
      modifies Repr()
      ensures Ready()
      ensures S() == FS(TruncateSpec.Release(old(S()).v, old(blocks[..])), TruncateSpec.CutHandle(old(S()).h, size'))
      ensures layout == old(layout)
    {
      hide TruncateSpec.CutHandle, FileVectors.OnVolume, Elements;
      CutTo(size');
      FileVectors.SetFree(volume, blocks);
      volume.UpdateBitmap();
    }

    /** adfFileTruncate to a smaller size. */
    method Shrink(size': nat) returns (rc: Rc)
      requires Valid() && size' < fileHdr.byteSize && CanRemove(S(), size')
      modifies Repr()
      ensures Ready() && Outcome(S(), rc) == TruncateSpec.Shrink(old(S()), size') && layout == old(layout)
    {
      ghost var s := S();
      ShrinkSteps(s, layout, size');
      hide Inv, TruncateSpec.Shrink, TruncateSpec.BlocksToRemove, TruncateSpec.CutHandle, TruncateSpec.Release, Size2Datablocks,
           Spec.Seek, FileVectors.OnVolume, TruncateSpec.RemovalFits;
      var blocks;
      rc, blocks := GetBlocksToRemove(size');
      if rc != RcOk {
        rc := RcError;
        return;
      }
      rc := SeekTo(size');
      CutOff(size', blocks);
    }

    /** The buffer of zeros adfFileWriteFilled writes from. */
    method CreateZeros() returns (buffer: array<byte>)
      ensures fresh(buffer) && buffer !in Repr() && buffer != currentData
      ensures buffer.Length == TruncateSpec.FILL_CHUNK && forall k :: 0 <= k < buffer.Length ==> buffer[k] == 0
    {
      buffer := new byte[TruncateSpec.FILL_CHUNK](_ => 0);
    }

    /** adfFileWriteFilled with fill value 0 */
    method WriteFilled(size: nat) returns (bytesWritten: nat)
      requires Valid() && modeWrite
      modifies Repr()
      ensures VolOK(old(S()).v)
      ensures Ready() && Written(S(), bytesWritten) == TruncateSpec.WriteFilled(old(S()), size)
    {
      hide Inv, TruncateSpec.WriteFilled, Spec.Write, Content, Splice, Extends, RoomFor;
      volume.VIsOK();
      ghost var s0 := S();
      FillsStart(s0, size);
      var buffer := CreateZeros();
      bytesWritten := 0;
      var left := size;
      while left > 0
        invariant 0 <= left <= size && bytesWritten == size - left
        invariant Valid() && modeWrite && VolOK(S().v)
        invariant forall k :: 0 <= k < buffer.Length ==> buffer[k] == 0
        invariant FillsTo(s0, size, S(), bytesWritten)
      {
        ghost var s := S();
        var chunkLen := Min(left, TruncateSpec.FILL_CHUNK);
        assert buffer[..chunkLen] == TruncateSpec.Zeros(chunkLen);
        var chunkBytesWritten := Write(chunkLen, buffer);
        volume.VIsOK();
        FillsOn(s0, size, s, bytesWritten, S(), chunkBytesWritten);
        bytesWritten := bytesWritten + chunkBytesWritten;
        if chunkBytesWritten != chunkLen {
          return;
        }
        left := left - chunkLen;
        assert buffer[..chunkLen] == TruncateSpec.Zeros(chunkLen);
      }
      FillsDone(s0, size, S());
    }

    /** adfFileTruncate to a larger size. */
    method Enlarge(size': nat) returns (rc: Rc)
      requires Valid() && modeWrite && size' > fileHdr.byteSize
      modifies Repr()
      ensures VolOK(old(S()).v) && VolOK(Spec.Seek(old(S()), old(fileHdr.byteSize)).s.v)
      ensures Ready() && Outcome(S(), rc) == TruncateSpec.Enlarge(old(S()), size')
    {
      hide Inv, Spec.Seek, TruncateSpec.WriteFilled, Content;
      volume.VIsOK();
      var size := fileHdr.byteSize;
      rc := Seek(size);
      volume.VIsOK();
      var bytesWritten := WriteFilled(size' - size);
      rc := if bytesWritten == size' - size then RcOk else RcError;
    }

    /**
      adfFileTruncate. Where the handle can be kept whole, and the walk finds the blocks to
      remove, the file is cut to its first bytes, or zeros are appended to it.
    */
    method Truncate(size': nat) returns (rc: Rc)
      requires Valid() && (size' < fileHdr.byteSize ==> CanRemove(S(), size'))
      modifies Repr()
      ensures VolOK(old(S()).v)
      ensures Ready() && Outcome(S(), rc) == TruncateSpec.Truncate(old(S()), size')
      ensures Truncated(old(S()), old(layout), Outcome(S(), rc), layout, size')
    {
      hide Inv, CanRemove, Spec.Seek, TruncateSpec.Shrink, TruncateSpec.Enlarge, Truncated;
      volume.VIsOK();
      ghost var s, L := S(), layout;
      if !modeWrite {
        layout := TruncateRefines(s, L, size');
        return RcError;
      }
      if size' == fileHdr.byteSize {
        rc := SeekTo(size');
      } else if size' > fileHdr.byteSize {
        rc := Enlarge(size');
      } else {
        rc := Shrink(size');
      }
      layout := TruncateRefines(s, L, size');
    }

    /* ---- opening and closing ---- */

    /** The end of adfFileOpen for a file that exists: the new handle stands at the start of the file. */
    static method Open(volume: AdfVolume, hdr: Node, modeRead: bool, modeWrite: bool, ghost layout: Layout)
      returns (file: AdfFile)
      requires volume.Valid() && Stored(volume.V(), hdr, layout)
      modifies volume, volume.disk, volume.table, volume.blocksChg, volume.pages
      ensures fresh(file) && fresh(file.currentData)
      ensures file.volume == volume && file.layout == layout && file.Valid()
      ensures file.pos == 0 && file.modeRead == modeRead && file.modeWrite == modeWrite && file.fileHdr == hdr
      ensures volume.V() == old(volume.V())
      ensures file.Bytes() == DiskContent(old(volume.V()), layout, hdr.byteSize)
    {
      file := new AdfFile(volume, hdr, modeRead, modeWrite, layout);
      OpenStored(volume.V(), hdr, layout, modeRead, modeWrite);
      hide Inv, Stored, Content, DiskContent, Spec.Seek;
      var rc := file.SeekTo(0);
    }

    /** adfFileClose: the disk alone holds the bytes of the file. */
    method Close()
      requires Valid()
      modifies Repr()
      ensures Ready() && Stored(volume.V(), fileHdr, layout) && layout == old(layout)
      ensures DiskContent(volume.V(), layout, fileHdr.byteSize) == old(Bytes())
      ensures volume.Free() == old(volume.Free())
      ensures SameOutside(old(volume.V()), volume.V(), layout.own.Keys)
    {
      ghost var s := S();
      FlushStores(s, layout);
      hide Inv, Spec.Flush, Stored, Content, DiskContent, SameOutside;
      var rc := Flush();
    }
  }

  /** The next part of the first `n` bytes. */
  lemma NextPart(b: seq<byte>, n: nat, done: nat, size: nat)
    requires done + size <= n <= |b|
    ensures b[done..done + size] == b[..n][done..][..size]
  {
  }

  /** A whole handle is flushed without an error. */
  lemma WholeFlushes(s: FS, L: Layout)
    ensures Inv(s, L) ==> Spec.Flush(s).rc == RcOk
  {
    hide Inv, Spec.Flush;
    if Inv(s, L) && s.h.modeWrite {
      FlushStep(s, L);
    } else {
      ReadOnlyFlush(s);
    }
  }

  lemma ReadOnlyFlush(s: FS)
    ensures !s.h.modeWrite ==> Spec.Flush(s).rc == RcOk
  {
  }

  /* ---- rounds of the write loop ---- */

  lemma LoopsStart(s: FS, buf: seq<byte>)
    requires VolOK(s.v)
    ensures LoopsTo(s, buf, s, 0)
  {
    assert buf[0..] == buf;
  }

  /** The write loop goes on step by step. */
  lemma LoopsOn(s0: FS, buf: seq<byte>, s: FS, done: nat, t: FS, size: nat)
    requires VolOK(s0.v) && VolOK(s.v) && VolOK(t.v) && done + size <= |buf|
    requires LoopsTo(s0, buf, s, done) && LoopsTo(s, buf[done..], t, size)
    ensures LoopsTo(s0, buf, t, done + size)
  {
    assert buf[done..][size..] == buf[done + size..];
  }

  lemma CutShortCount(s: FS, buf: seq<byte>, w: Written)
    requires VolOK(s.v) && CutShort(s, buf, w)
    ensures w.count < |buf|
  {
  }

  lemma LoopsDone(s0: FS, buf: seq<byte>, t: FS)
    requires VolOK(s0.v) && VolOK(t.v) && LoopsTo(s0, buf, t, |buf|)
    ensures WriteLoop(s0, buf) == Written(t, |buf|)
  {
    assert buf[|buf|..] == [];
  }

  lemma LoopsRefused(s0: FS, buf: seq<byte>, s: FS, done: nat, t: FS)
    requires VolOK(s0.v) && VolOK(s.v) && done <= |buf|
    requires LoopsTo(s0, buf, s, done) && WriteLoop(s, buf[done..]) == Written(t, 0)
    ensures WriteLoop(s0, buf) == Written(t, done)
  {
    hide WriteLoop;
  }

  lemma SeekInHeader(s: FS, p: BlockPos, u: FS)
    requires p == Pos2DataBlock(s.h.pos, FFS_BLOCK) && p.extBlock == -1
    requires u == FS(s.v, s.h.(posInExtBlk := p.posInExtBlk, posInDataBlk := p.posInDataBlk, nDataBlock := p.curDataN))
    ensures 0 <= p.curDataN < 72 && Spec.SeekInside(s) == Spec.LoadAt(u, Slot(u.h.hdr, p.curDataN))
  {
    PosInBlock(s.h.pos);
    hide Spec.LoadAt, Spec.ReadExtBlockN;
  }

  lemma SeekInExt(s: FS, p: BlockPos, x: Option<Node>)
    requires p == Pos2DataBlock(s.h.pos, FFS_BLOCK) && p.extBlock != -1
    requires x == Spec.ReadExtBlockN(s.v, s.h.hdr, p.extBlock)
    ensures 0 <= p.posInExtBlk < 72
    ensures var h := s.h.(posInExtBlk := p.posInExtBlk, posInDataBlk := p.posInDataBlk, nDataBlock := p.curDataN);
            Spec.SeekInside(s) ==
            if x.None? then Outcome(FS(s.v, h.(curDataPtr := 0)), RcError)
            else Spec.LoadAt(FS(s.v, h.(ext := x, posInExtBlk := p.posInExtBlk + 1)), Slot(x.value, p.posInExtBlk))
  {
    PosInBlock(s.h.pos);
    hide Spec.LoadAt, Spec.ReadExtBlockN;
  }

  /* ---- rounds of the read loop ---- */

  /** The read of `m` bytes that began in state `s0` has come to state `t` with the bytes `got`. */
  ghost predicate ReadsTo(s0: FS, m: nat, t: FS, got: seq<byte>) {
    && |got| <= m
    && var r := Spec.ReadLoop(t, m - |got|);
       Spec.ReadLoop(s0, m) == ReadResult(r.s, got + r.bytes)
  }

  lemma ReadsStart(s0: FS, m: nat)
    ensures ReadsTo(s0, m, s0, [])
  {
    hide ReadLoop;
  }

  lemma PreparedToRead(s: FS)
    requires s.h.posInDataBlk <= FFS_BLOCK
    ensures Spec.PrepareRead(s).rc == RcOk ==> Spec.PrepareRead(s).s.h.posInDataBlk < FFS_BLOCK
  {
  }

  lemma ReadsRefused(s0: FS, m: nat, s: FS, got: seq<byte>)
    requires ReadsTo(s0, m, s, got) && |got| < m && Spec.PrepareRead(s).rc != RcOk
    ensures Spec.ReadLoop(s0, m) == ReadResult(Spec.PrepareRead(s).s, got)
  {
    hide Spec.PrepareRead;
  }

  lemma ReadsOn(s0: FS, m: nat, s: FS, got: seq<byte>, size: nat)
    requires ReadsTo(s0, m, s, got) && |got| < m
    requires Spec.PrepareRead(s).rc == RcOk && Spec.PrepareRead(s).s.h.posInDataBlk < FFS_BLOCK
    requires size == Min(m - |got|, FFS_BLOCK - Spec.PrepareRead(s).s.h.posInDataBlk)
    ensures var u := Spec.PrepareRead(s).s;
            ReadsTo(s0, m, Forward(u, size), got + u.h.data[u.h.posInDataBlk..u.h.posInDataBlk + size])
  {
    hide Spec.PrepareRead, Spec.ReadLoop;
    ReadLoopUnfolds(s, m - |got|, size);
  }

  lemma ReadsDone(s0: FS, m: nat, t: FS, got: seq<byte>)
    requires ReadsTo(s0, m, t, got) && |got| == m
    ensures Spec.ReadLoop(s0, m) == ReadResult(t, got)
  {
    ReadNothing(t);
    assert got + [] == got;
  }

  /** The number of bytes adfFileRead asks its loop for. */
  function Clipped(pos: nat, n: nat, size: nat): nat {
    if (pos + n) % U32 > size then (size - pos) % U32 else n
  }

  lemma ReadClips(s: FS, n: nat)
    requires s.h.pos <= s.h.hdr.byteSize < U32 && n < U32
    ensures var m := Clipped(s.h.pos, n, s.h.hdr.byteSize);
            && m <= n
            && Spec.Read(s, n) ==
               if !s.h.modeRead || n == 0 || s.h.hdr.byteSize == 0 || s.h.pos == s.h.hdr.byteSize then ReadResult(s, [])
               else Spec.ReadLoop(s, m)
  {
    hide ReadLoop;
  }

  /** The bytes from the position to the end of the read or of the file come back, and the position is behind them. */
  ghost predicate ReturnsBytes(s: FS, L: Layout, n: nat, t: FS, bytes: seq<byte>) {
    var end := Min(s.h.pos + n, s.h.hdr.byteSize);
    && s.h.pos <= end <= |Content(s, L)|
    && bytes == Content(s, L)[s.h.pos..end]
    && Inv(t, L) && t.h.pos == end
    && Content(t, L) == ContentAfterRead(s, L, |bytes|)
  }

  lemma ReadReaches(s: FS, L: Layout, n: nat)
    requires Inv(s, L) && s.h.hdr.byteSize < U32
    ensures s.h.modeRead && s.h.pos + n < U32 ==> ReturnsBytes(s, L, n, Spec.Read(s, n).s, Spec.Read(s, n).bytes)
  {
    hide Inv, Content, Spec.Read, ContentAfterRead;
    if s.h.modeRead && s.h.pos + n < U32 {
      ReadReturns(s, L, n);
    }
  }

  /* ---- filling the vector of blocks to remove ---- */

  /** How many blocks the extension blocks from number `i` on list and are. */
  function LeftFrom(n: nat, e: nat, i: nat): int {
    if i < e then n - MAX_DATABLK * (i + 1) + (e - i) else 0
  }

  lemma LeftStep(n: nat, e: nat, i: nat)
    requires i < e == Datablocks2Extblocks(n)
    ensures 0 < TruncateSpec.LastInExt(n, e, i) <= 72
    ensures LeftFrom(n, e, i) == TruncateSpec.LastInExt(n, e, i) + 1 + LeftFrom(n, e, i + 1) && LeftFrom(n, e, i + 1) >= 0
  {
    LastInExtIs(n, e, i);
    if i + 1 < e {
      LastInExtIs(n, e, i + 1);
    }
  }

  lemma RemoveExtsUnfolds(v: Vol, key: int, n: nat, e: nat, i: nat)
    requires key != 0 && TruncateSpec.ExtsFit(v, key, e, i)
    ensures i < e
    ensures match ReadNode(v, key)
            case None => TruncateSpec.RemoveExts(v, key, n, e, i) == None
            case Some(x) =>
              && TruncateSpec.ExtsFit(v, x.extension, e, i + 1)
              && TruncateSpec.RemoveExts(v, key, n, e, i) ==
                 After(TruncateSpec.SlotRange(x, 0, TruncateSpec.LastInExt(n, e, i)) + [key],
                       TruncateSpec.RemoveExts(v, x.extension, n, e, i + 1))
  {
  }

  lemma NoExtsLeft(v: Vol, n: nat, e: nat, i: nat)
    ensures TruncateSpec.RemoveExts(v, 0, n, e, i) == Some([])
  {
  }

  lemma ListedOn(a: seq<int>, b: seq<int>, c: seq<int>, key: int)
    ensures a + b + c + [key] == a + (b + (c + [key]))
  {
  }

  lemma SizeOrder(size': nat, size: nat)
    requires size' <= size
    ensures Size2Datablocks(size', FFS_BLOCK) <= Size2Datablocks(size, FFS_BLOCK)
  {
    var n := Size2Datablocks(size, FFS_BLOCK);
    Size2DatablocksLeast(size, FFS_BLOCK, n);
    Size2DatablocksLeast(size', FFS_BLOCK, n);
  }

  /** What a shrink lists to remove fits the vector, and is on the volume. */
  ghost predicate CanRemove(s: FS, size': nat) {
    && TruncateSpec.RemovalFits(s.v, s.h.hdr, size')
    && match TruncateSpec.BlocksToRemove(s.v, s.h.hdr, size')
       case None => true
       case Some(list) => FileVectors.OnVolume(list, s.v.last)
  }

  /** So it does when the walk finds exactly the blocks beyond the new size. */
  lemma ListedCanRemove(s: FS, L: Layout, size': nat)
    requires Inv(s, L) && size' < s.h.hdr.byteSize && ListsRemoval(s.v, s.h.hdr, L, size')
    ensures CanRemove(s, size')
  {
    TruncateSpec.RemovalFound(s.v, s.h.hdr, size');
    OwnInRange(s, L);
    RemovedSectors(L, Size2Datablocks(size', FFS_BLOCK));
    var list := RemovalOrder(L, Size2Datablocks(size', FFS_BLOCK));
    forall k | 0 <= k < |list| ensures list[k] in L.own.Keys {
      assert list[k] in Elements(list);
    }
    hide Inv, RemovalOrder, Size2Datablocks, TruncateSpec.RemovalFits, TruncateSpec.BlocksToRemove;
  }

  /** The shrink as its steps. */
  lemma ShrinkSteps(s: FS, L: Layout, size': nat)
    requires Inv(s, L) && size' < s.h.hdr.byteSize
    ensures var t := Spec.Seek(s, size').s;
            && Spec.Seek(s, size').rc == RcOk && t.v.last == s.v.last
            && TruncateSpec.Shrink(s, size') ==
               match TruncateSpec.BlocksToRemove(s.v, s.h.hdr, size')
               case None => Outcome(s, RcError)
               case Some(list) => Outcome(FS(TruncateSpec.Release(t.v, list), TruncateSpec.CutHandle(t.h, size')), RcOk)
  {
    SeekReaches(s, L, size');
    hide Inv, TruncateSpec.BlocksToRemove, Spec.Seek, TruncateSpec.CutHandle, Content;
  }

  lemma OwnInRange(s: FS, L: Layout)
    requires Inv(s, L)
    ensures OwnOK(L) && |L.exts| == Datablocks2Extblocks(|L.data|)
    ensures forall x :: x in L.own.Keys ==> 2 <= x <= s.v.last
  {
  }

  /* ---- rounds of the fill loop ---- */

  /** The fill that began in state `s0` has come to state `t` with `done` zeros written. */
  ghost predicate FillsTo(s0: FS, size: nat, t: FS, done: nat)
    requires VolOK(s0.v) && VolOK(t.v)
  {
    && done <= size
    && var r := TruncateSpec.WriteFilled(t, size - done);
       TruncateSpec.WriteFilled(s0, size) == Written(r.s, done + r.count)
  }

  lemma FillsStart(s0: FS, size: nat)
    requires VolOK(s0.v)
    ensures FillsTo(s0, size, s0, 0)
  {
    hide TruncateSpec.WriteFilled;
  }

  lemma FillsOn(s0: FS, size: nat, s: FS, done: nat, t: FS, count: nat)
    requires VolOK(s0.v) && VolOK(s.v) && VolOK(t.v)
    requires FillsTo(s0, size, s, done) && done < size
    requires Spec.Write(s, TruncateSpec.Zeros(Min(size - done, TruncateSpec.FILL_CHUNK))) == Written(t, count)
    ensures if count == Min(size - done, TruncateSpec.FILL_CHUNK) then FillsTo(s0, size, t, done + count)
            else TruncateSpec.WriteFilled(s0, size) == Written(t, done + count)
  {
    hide Spec.Write;
  }

  lemma FillsDone(s0: FS, size: nat, t: FS)
    requires VolOK(s0.v) && VolOK(t.v) && FillsTo(s0, size, t, size)
    ensures TruncateSpec.WriteFilled(s0, size) == Written(t, size)
  {
  }

  /* ---- flushing ---- */

  /** After a flush the disk alone holds the bytes of the file. */
  lemma FlushStores(s: FS, L: Layout)
    requires Inv(s, L)
    ensures var t := Spec.Flush(s).s;
            && Stored(t.v, t.h.hdr, L)
            && DiskContent(t.v, L, t.h.hdr.byteSize) == Content(s, L)
            && t.v.free == s.v.free
            && SameOutside(s.v, t.v, L.own.Keys)
  {
    if s.h.modeWrite {
      FlushStep(s, L);
      FlushKeepsInv(s, L);
      CleanContent(Clean(Spec.Flush(s).s), L);
    } else {
      CleanContent(s, L);
    }
  }
}
