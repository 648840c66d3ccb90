/**
  Resizing an open file, as functions on values: the list of blocks a smaller size
  no longer needs, and the shrinking and growing themselves.
  Models adfFileTruncateGetBlocksToRemove, adfFileTruncate and adfFileWriteFilled.
*/
module TruncateSpec {
  import opened FileUtil
  import opened Blocks
  import opened FileSpec
  import opened FileBlocks

  /** Pointers `from` to `end` - 1 of a node. */
  function SlotRange(x: Node, from: nat, end: nat): (r: seq<int>)
    requires end <= 72
    ensures |r| == (if from < end then end - from else 0)
    ensures forall k :: 0 <= k < |r| ==> r[k] == Slot(x, from + k)
    decreases end
  {
    if from >= end then [] else SlotRange(x, from, end - 1) + [Slot(x, end - 1)]
  }

  /** How many pointers extension block `i` of a file of `n` data blocks and `e` extension blocks holds. */
  function LastInExt(n: nat, e: nat, i: nat): int {
    if i + 1 == e then
      (if n - MAX_DATABLK * (i + 1) == MAX_DATABLK then MAX_DATABLK else n % MAX_DATABLK)
    else MAX_DATABLK
  }

  /**
    The blocks to remove from extension block `i`, at sector `key`, to the end of the
    chain; None when one cannot be read, or there are more than the size calls for.
  */
  function RemoveExts(v: Vol, key: int, n: nat, e: nat, i: nat): Option<seq<int>>
    decreases e - i
  {
    if key == 0 then Some([])
    else if i >= e then None
    else
      match ReadNode(v, key)
      case None => None
      case Some(x) => After(SlotRange(x, 0, LastInExt(n, e, i)) + [key], RemoveExts(v, x.extension, n, e, i + 1))
  }

  /** The pointers to remove from the table that becomes the last one, and the extension block after it. */
  function RemoveFirst(v: Vol, hdr: Node, n': nat, e': nat, n: nat, e: nat): Option<(seq<int>, int)> {
    if e' < 1 then Some((SlotRange(hdr, n', MAX_DATABLK), hdr.extension))
    else
      match ReadExtBlockN(v, hdr, e' - 1)
      case None => None
      case Some(x) =>
        var first := if n' - MAX_DATABLK * e' == MAX_DATABLK then MAX_DATABLK else n' % MAX_DATABLK + 1;
        var last := if e' == e then LastInExt(n, e', e' - 1) else MAX_DATABLK;
        var list := if n' / MAX_DATABLK > 0 && n' % MAX_DATABLK != 0 then SlotRange(x, first - 1, last) else [];
        Some((list, x.extension))
  }

  /** adfFileTruncateGetBlocksToRemove */
  function BlocksToRemove(v: Vol, hdr: Node, size': nat): Option<seq<int>> {
    var n, n' := Size2Datablocks(hdr.byteSize, FFS_BLOCK), Size2Datablocks(size', FFS_BLOCK);
    var e, e' := Datablocks2Extblocks(n), Datablocks2Extblocks(n');
    if hdr.byteSize < size' || n + e - (n' + e') < 1 then Some([])
    else
      var all :=
        if e < 1 then Some(SlotRange(hdr, n', Min(n, MAX_DATABLK)))
        else
          (match RemoveFirst(v, hdr, n', e', n, e)
           case None => None
           case Some((list, next)) => After(list, RemoveExts(v, next, n, e, e')));
      if all.Some? && |all.value| != n + e - (n' + e') then None else all
  }

  /** From `key` on, the extension blocks on the disk end before number `e`, or one of them cannot be read. */
  predicate ExtsFit(v: Vol, key: int, e: nat, i: nat)
    decreases e - i
  {
    key == 0 || (i < e && (ReadNode(v, key).Some? ==> ExtsFit(v, ReadNode(v, key).value.extension, e, i + 1)))
  }

  /** The vector has room for all that the walk lists. */
  predicate RemovalFits(v: Vol, hdr: Node, size': nat) {
    var n, n' := Size2Datablocks(hdr.byteSize, FFS_BLOCK), Size2Datablocks(size', FFS_BLOCK);
    var e, e' := Datablocks2Extblocks(n), Datablocks2Extblocks(n');
    n' < n && e >= 1 ==>
      match RemoveFirst(v, hdr, n', e', n, e)
      case None => true
      case Some((_, next)) => ExtsFit(v, next, e, e')
  }

  /** It has when the walk succeeds. */
  lemma {:induction false} FoundFits(v: Vol, key: int, n: nat, e: nat, i: nat)
    requires RemoveExts(v, key, n, e, i).Some?
    ensures ExtsFit(v, key, e, i)
    decreases e - i
  {
    if key != 0 {
      FoundFits(v, ReadNode(v, key).value.extension, n, e, i + 1);
    }
  }

  lemma RemovalFound(v: Vol, hdr: Node, size': nat)
    requires BlocksToRemove(v, hdr, size').Some? && size' <= hdr.byteSize
    ensures RemovalFits(v, hdr, size')
  {
    hide RemoveExts, ExtsFit, RemoveFirst, Size2Datablocks;
    var n, n' := Size2Datablocks(hdr.byteSize, FFS_BLOCK), Size2Datablocks(size', FFS_BLOCK);
    var e, e' := Datablocks2Extblocks(n), Datablocks2Extblocks(n');
    if n' < n && e >= 1 {
      assert e >= e';
      match RemoveFirst(v, hdr, n', e', n, e)
      case None =>
      case Some((_, next)) => FoundFits(v, next, n, e, e');
    }
  }

  /** Pointers `from` to `end` - 1 of a node set to 0. */
  function ClearSlots(x: Node, from: nat, end: nat): (y: Node)
    requires end <= 72
    ensures y == x.(slots := y.slots)
    ensures forall k {:trigger Slot(y, k)} :: 0 <= k < 72 ==> Slot(y, k) == (if from <= k < end then 0 else Slot(x, k))
    decreases end
  {
    if from >= end then x
    else
      var z := ClearSlots(x, from, end - 1);
      var y := SetSlot(z, end - 1, 0);
      assert forall k {:trigger Slot(y, k)} :: 0 <= k < 72 ==> Slot(y, k) == (if k == end - 1 then 0 else Slot(z, k));
      y
  }

  /** The table that becomes the last one: pointers beyond the new size cleared, no extension block after it. */
  function CutTable(x: Node, n': nat, n: nat, e': nat, e: nat): Node {
    var first := n' % MAX_DATABLK;
    var last := if e' < e || n % MAX_DATABLK == 0 then MAX_DATABLK - 1 else n % MAX_DATABLK;
    (if first != 0 then ClearSlots(x, first, last + 1).(highSeq := first) else x).(extension := 0)
  }

  /** The header and cached extension block after a cut to `size'` bytes. */
  function CutHandle(h: Handle, size': nat): Handle {
    var n, n' := Size2Datablocks(h.hdr.byteSize, FFS_BLOCK), Size2Datablocks(size', FFS_BLOCK);
    var e, e' := Datablocks2Extblocks(n), Datablocks2Extblocks(n');
    var hdr := h.hdr.(byteSize := size');
    if size' == 0 then h.(hdr := hdr.(firstData := 0, slots := NoSlots(), highSeq := 0, extension := 0))
    else if e' < 1 then h.(hdr := CutTable(hdr, n', n, e', e), changed := true)
    else if h.ext.Some? then h.(hdr := hdr, ext := Some(CutTable(h.ext.value, n', n, e', e)), changed := true)
    else h
  }

  function Release(v: Vol, list: seq<int>): Vol {
    v.(free := v.free + Elements(list))
  }

  /** adfFileTruncate to a smaller size */
  function Shrink(s: FS, size': nat): Outcome {
    match BlocksToRemove(s.v, s.h.hdr, size')
    case None => Outcome(s, RcError)
    case Some(list) =>
      var o := Seek(s, size');
      if o.rc != RcOk then o
      else Outcome(FS(Release(o.s.v, list), CutHandle(o.s.h, size')), RcOk)
  }

  const FILL_CHUNK := 4096

  function Zeros(n: nat): (z: seq<byte>)
    ensures |z| == n && forall k :: 0 <= k < n ==> z[k] == 0
  {
    seq(n, _ => 0)
  }

  /** adfFileWriteFilled with fill value 0 */
  function WriteFilled(s: FS, size: nat): Written
    requires VolOK(s.v)
    decreases size
  {
    if size == 0 then Written(s, 0)
    else
      var chunk := Min(size, FILL_CHUNK);
      var w := Write(s, Zeros(chunk));
      if w.count != chunk || !VolOK(w.s.v) then Written(w.s, w.count)
      else
        var r := WriteFilled(w.s, size - chunk);
        Written(r.s, chunk + r.count)
  }

  /** adfFileTruncate to a larger size */
  function Enlarge(s: FS, size': nat): Outcome
    requires VolOK(s.v) && VolOK(Seek(s, s.h.hdr.byteSize).s.v) && size' > s.h.hdr.byteSize
  {
    var o := Seek(s, s.h.hdr.byteSize);
    if o.rc != RcOk then o
    else
      var w := WriteFilled(o.s, size' - s.h.hdr.byteSize);
      Outcome(w.s, if w.count == size' - s.h.hdr.byteSize then RcOk else RcError)
  }

  /** A seek neither takes nor frees sectors. */
  lemma SeekVolOK(s: FS, pos: nat)
    requires VolOK(s.v)
    ensures VolOK(Seek(s, pos).s.v)
    decreases if pos < s.h.hdr.byteSize then 0 else 1
  {
    hide SeekStart, SeekInside, FlushIfChanged, VolOK;
    FlushedVolOK(s);
    var s1 := FlushIfChanged(s);
    var size := s1.h.hdr.byteSize;
    var s2 := FS(s1.v, s1.h.(pos := Min(pos, size)));
    SeekStartReads(s1);
    SeekStartReads(s2);
    SeekInsideReads(s2);
    if pos >= size > 0 {
      SeekVolOK(s2, size - 1);
    }
    assert VolOK(SeekEOF(s2).s.v) || s2.h.pos != size;
    assert VolOK(SeekExt(s1, pos).s.v);
  }

  lemma FlushedVolOK(s: FS)
    requires VolOK(s.v)
    ensures VolOK(FlushIfChanged(s).v)
  {
    FlushKeepsFree(s);
    hide Flush;
  }

  lemma SeekStartReads(s: FS)
    ensures SeekStart(s).s.v == s.v
  {
    ReadNextBlockReads(FS(s.v, Rewound(s.h)));
    hide ReadNextBlock;
  }

  lemma SeekInsideReads(s: FS)
    ensures SeekInside(s).s.v == s.v
  {
  }

  /** adfFileTruncate */
  function Truncate(s: FS, size': nat): Outcome
    requires VolOK(s.v)
  {
    if !s.h.modeWrite then Outcome(s, RcError)
    else if size' == s.h.hdr.byteSize then Seek(s, size')
    else if size' > s.h.hdr.byteSize then
      SeekVolOK(s, s.h.hdr.byteSize);
      Enlarge(s, size')
    else Shrink(s, size')
  }
}
