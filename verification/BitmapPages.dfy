/**
  Where the pages of a bitmap are on the disk: the pointers of the root block and of the
  bitmap extension blocks, how a new volume gets them, and how they are found again. Models
  adfCreateBitmap, adfWriteNewBitmap and the walks of adfReadBitmap and adfReconstructBitmap.
*/
module BitmapPages {
  import opened FileUtil
  import opened Blocks
  import opened FileSpec
  import opened Volume

  const BM_PAGES_ROOT_SIZE := 25
  const BM_PAGES_EXT_SIZE := 127

  /** The pointers to bitmap pages in a root or bitmap extension block, and the extension block behind it. */
  datatype Pointers = Pointers(bmPages: seq<int>, next: int)

  ghost predicate PointersOK(root: Pointers, exts: map<int, Pointers>) {
    && |root.bmPages| == BM_PAGES_ROOT_SIZE
    && forall x :: x in exts ==> |exts[x].bmPages| == BM_PAGES_EXT_SIZE
  }

  /** From sector `sect` on there are at most `n` extension blocks, before the end or one that cannot be read. */
  ghost predicate Ends(exts: map<int, Pointers>, sect: int, n: nat)
    decreases n
  {
    sect == 0 || sect !in exts || (n > 0 && Ends(exts, exts[sect].next, n - 1))
  }

  /* ---- finding the pages ---- */

  predicate SectNumValid(s: int, last: int) {
    0 <= s <= last
  }

  ghost predicate AllValid(sects: seq<int>, last: int) {
    forall i :: 0 <= i < |sects| ==> SectNumValid(sects[i], last)
  }

  /** How many pointers of the root are used: up to the first one that is 0, and no more than there are pages. */
  ghost function RootCount(root: Pointers, size: nat, i: nat): nat
    requires i <= |root.bmPages|
    ensures i <= RootCount(root, size, i) <= |root.bmPages|
    decreases |root.bmPages| - i
  {
    if i < size && i < |root.bmPages| && root.bmPages[i] != 0 then RootCount(root, size, i + 1) else i
  }

  /** The pages that the extension blocks from sector `sect` on point to, of which `need` are missing yet. */
  ghost function ExtPages(exts: map<int, Pointers>, sect: int, need: nat, last: int, n: nat): Option<seq<int>>
    requires Ends(exts, sect, n) && forall x :: x in exts ==> |exts[x].bmPages| == BM_PAGES_EXT_SIZE
    decreases n
  {
    if sect == 0 then Some([])
    else if sect !in exts then None
    else
      var here := exts[sect].bmPages[..Min(need, BM_PAGES_EXT_SIZE)];
      if !AllValid(here, last) then None
      else
        After(here, ExtPages(exts, exts[sect].next, need - |here|, last, n - 1))
  }

  /** The sectors of a bitmap of `size` pages, if the pointers lead to them. */
  ghost function Found(root: Pointers, exts: map<int, Pointers>, size: nat, last: int, n: nat): Option<seq<int>>
    requires PointersOK(root, exts) && Ends(exts, root.next, n)
  {
    var count := RootCount(root, size, 0);
    var inRoot := root.bmPages[..count];
    if !AllValid(inRoot, last) then None
    else if count < size && (count < BM_PAGES_ROOT_SIZE || root.next == 0) then None
    else
      After(inRoot, ExtPages(exts, root.next, if count < size then size - count else 0, last, n))
  }

  lemma {:induction false} RootCountExact(root: Pointers, size: nat, i: nat)
    requires i <= size <= |root.bmPages|
    ensures RootCount(root, size, i) <= size
    ensures RootCount(root, size, i) == size <==> forall j :: i <= j < size ==> root.bmPages[j] != 0
    decreases size - i
  {
    if i < size && root.bmPages[i] != 0 {
      RootCountExact(root, size, i + 1);
    }
  }

  /** Of a bitmap that needs no extension block, the pages are found exactly if each pointer is a sector of the volume. */
  lemma FoundInRoot(root: Pointers, exts: map<int, Pointers>, size: nat, last: int, n: nat)
    requires PointersOK(root, exts) && size <= 25 && root.next == 0
    ensures Found(root, exts, size, last, n) ==
            if forall i :: 0 <= i < size ==> 1 <= root.bmPages[i] <= last then Some(root.bmPages[..size]) else None
  {
    RootCountExact(root, size, 0);
    var count := RootCount(root, size, 0);
    var inRoot := root.bmPages[..count];
    if count == size {
      assert AllValid(inRoot, last) <==> forall i :: 0 <= i < size ==> 1 <= root.bmPages[i] <= last by {
        assert forall i :: 0 <= i < size ==> inRoot[i] == root.bmPages[i];
      }
      assert inRoot + [] == inRoot;
    }
  }

  /** The list has `here` from place `start` on, and is as it was everywhere else. */
  twostate predicate ListFilled(blocks: array<int>, start: nat, here: seq<int>)
    reads blocks
  {
    && start + |here| <= blocks.Length
    && (forall i :: 0 <= i < |here| ==> blocks[start + i] == here[i])
    && forall k :: 0 <= k < blocks.Length && !(start <= k < start + |here|) ==> blocks[k] == old(blocks[k])
  }

  /** The part of the walk that is in one extension block. */
  method FindInExt(ext: Pointers, blocks: array<int>, start: nat, last: int) returns (ok: bool, j: nat)
    requires |ext.bmPages| == BM_PAGES_EXT_SIZE && start <= blocks.Length
    modifies blocks
    ensures var here := ext.bmPages[..Min(blocks.Length - start, BM_PAGES_EXT_SIZE)];
            && ok == AllValid(here, last)
            && (ok ==> j == start + |here| && ListFilled(blocks, start, here))
  {
    var i := 0;
    ok, j := true, start;
    while i < BM_PAGES_EXT_SIZE && j < blocks.Length
      invariant 0 <= i <= BM_PAGES_EXT_SIZE && j == start + i <= blocks.Length
      invariant ListFilled(blocks, start, ext.bmPages[..i])
      invariant AllValid(ext.bmPages[..i], last)
    {
      var bmSect := ext.bmPages[i];
      if !SectNumValid(bmSect, last) {
        ok := false;
        assert ext.bmPages[..Min(blocks.Length - start, BM_PAGES_EXT_SIZE)][i] == bmSect;
        return;
      }
      blocks[j] := bmSect;
      i, j := i + 1, j + 1;
    }
  }

  lemma RootInvalid(root: Pointers, size: nat, i: nat, last: int)
    requires i < size && i < |root.bmPages| && root.bmPages[i] != 0 && RootCount(root, size, 0) == RootCount(root, size, i)
    requires !SectNumValid(root.bmPages[i], last)
    ensures !AllValid(root.bmPages[..RootCount(root, size, 0)], last)
  {
    assert root.bmPages[..RootCount(root, size, 0)][i] == root.bmPages[i];
  }

  lemma RootStep(root: Pointers, size: nat, i: nat, last: int)
    requires i < |root.bmPages|
    ensures i < size && root.bmPages[i] != 0 ==> RootCount(root, size, i) == RootCount(root, size, i + 1)
    ensures !(i < size && root.bmPages[i] != 0) ==> RootCount(root, size, i) == i
    ensures AllValid(root.bmPages[..i], last) && SectNumValid(root.bmPages[i], last) ==> AllValid(root.bmPages[..i + 1], last)
  {
  }

  /** The part of the walk that is in the root block. */
  method FindInRoot(root: Pointers, blocks: array<int>, last: int) returns (ok: bool, i: nat)
    requires |root.bmPages| == BM_PAGES_ROOT_SIZE
    modifies blocks
    ensures var inRoot := root.bmPages[..RootCount(root, blocks.Length, 0)];
            && ok == AllValid(inRoot, last)
            && (ok ==> i == |inRoot| && ListFilled(blocks, 0, inRoot))
  {
    hide RootCount, AllValid, SectNumValid;
    i := 0;
    ok := true;
    RootStart(root, blocks.Length, last);
    while i < blocks.Length && i < BM_PAGES_ROOT_SIZE && root.bmPages[i] != 0
      invariant 0 <= i <= BM_PAGES_ROOT_SIZE && i <= blocks.Length
      invariant RootCount(root, blocks.Length, 0) == RootCount(root, blocks.Length, i)
      invariant ListFilled(blocks, 0, root.bmPages[..i])
      invariant AllValid(root.bmPages[..i], last)
    {
      var bmSect := root.bmPages[i];
      blocks[i] := bmSect;
      if !SectNumValid(bmSect, last) {
        RootInvalid(root, blocks.Length, i, last);
        ok := false;
        return;
      }
      RootStep(root, blocks.Length, i, last);
      i := i + 1;
      assert forall k :: 0 <= k < i ==> blocks[0 + k] == root.bmPages[..i][k];
    }
    if i < BM_PAGES_ROOT_SIZE {
      RootStep(root, blocks.Length, i, last);
    }
  }

  lemma RootStart(root: Pointers, size: nat, last: int)
    requires |root.bmPages| == BM_PAGES_ROOT_SIZE
    ensures AllValid(root.bmPages[..0], last)
    ensures RootCount(root, size, BM_PAGES_ROOT_SIZE) == BM_PAGES_ROOT_SIZE
  {
  }

  /** The part of the walk that is in the extension blocks. */
  method FindInExts(exts: map<int, Pointers>, sect: int, blocks: array<int>, start: nat, last: int, ghost n: nat)
    returns (ok: bool, ghost j: nat)
    requires (forall x :: x in exts ==> |exts[x].bmPages| == BM_PAGES_EXT_SIZE) && Ends(exts, sect, n) && start <= blocks.Length
    modifies blocks
    ensures match ExtPages(exts, sect, blocks.Length - start, last, n)
            case None => !ok
            case Some(p) => ok && j == start + |p| && ListFilled(blocks, start, p)
  {
    var at, bmExtSect := start, sect;
    ghost var m, found := n, [];
    AfterNothing(ExtPages(exts, sect, blocks.Length - start, last, n));
    while bmExtSect != 0
      invariant start <= at <= blocks.Length && at == start + |found| && Ends(exts, bmExtSect, m)
      invariant ListFilled(blocks, start, found)
      invariant ExtPages(exts, sect, blocks.Length - start, last, n) ==
                After(found, ExtPages(exts, bmExtSect, blocks.Length - at, last, m))
      decreases m
    {
      if bmExtSect !in exts {
        return false, at;
      }
      ghost var before, here := found, exts[bmExtSect].bmPages[..Min(blocks.Length - at, BM_PAGES_EXT_SIZE)];
      var valid, at' := FindInExt(exts[bmExtSect], blocks, at, last);
      if !valid {
        return false, at;
      }
      found := found + here;
      AfterAfter(before, here, ExtPages(exts, exts[bmExtSect].next, blocks.Length - at', last, m - 1));
      at, bmExtSect, m := at', exts[bmExtSect].next, m - 1;
    }
    assert found + [] == found;
    ok, j := true, at;
  }

  /**
    The walk of adfReadBitmap and adfReconstructBitmap along the pointers to the bitmap
    pages. When the extension blocks end too early the rest of the list stays as it was.
  */
  method FindPages(root: Pointers, exts: map<int, Pointers>, blocks: array<int>, last: int, ghost n: nat) returns (rc: Rc)
    requires PointersOK(root, exts) && Ends(exts, root.next, n)
    modifies blocks
    ensures match Found(root, exts, blocks.Length, last, n)
            case None => rc != RcOk
            case Some(p) => rc == RcOk && ListFilled(blocks, 0, p)
  {
    hide RootCount, ExtPages, AllValid;
    var ok, i := FindInRoot(root, blocks, last);
    if !ok {
      return RcError;
    }
    if i < blocks.Length && i < BM_PAGES_ROOT_SIZE {
      return RcError;
    }
    if i < blocks.Length && root.next == 0 {
      return RcError;
    }
    ghost var j;
    ok, j := FindInExts(exts, root.next, blocks, i, last, n);
    rc := if ok then RcOk else RcError;
  }

  /* ---- the pages of a new volume ---- */

  /** The number of extension blocks for the pages that the root has no pointers for. */
  function ExtCount(size: nat): nat {
    if size <= BM_PAGES_ROOT_SIZE then 0
    else
      var more := size - BM_PAGES_ROOT_SIZE;
      more / BM_PAGES_EXT_SIZE + (if more % BM_PAGES_EXT_SIZE != 0 then 1 else 0)
  }

  /** The sector that page `b` gets: the list of sectors is begun anew in every extension block. */
  function PageSector(sects: seq<int>, b: nat): int
    requires b < |sects|
  {
    if b < BM_PAGES_ROOT_SIZE then sects[b] else sects[(b - BM_PAGES_ROOT_SIZE) % BM_PAGES_EXT_SIZE]
  }

  function PageSectors(sects: seq<int>): seq<int> {
    seq(|sects|, b requires 0 <= b < |sects| => PageSector(sects, b))
  }

  /** The first pointers of the root are those to the first pages. */
  ghost predicate RootWritten(sects: seq<int>, root: Pointers, root': Pointers) {
    && |root.bmPages| == |root'.bmPages| == BM_PAGES_ROOT_SIZE
    && forall i :: 0 <= i < BM_PAGES_ROOT_SIZE ==> root'.bmPages[i] == if i < |sects| then sects[i] else root.bmPages[i]
  }

  /** Extension block `e` points at its pages and at the next extension block. */
  ghost predicate ExtWritten(sects: seq<int>, extSects: seq<int>, exts: map<int, Pointers>, e: int)
    requires 0 <= e < |extSects|
  {
    && extSects[e] in exts
    && var ext := exts[extSects[e]];
       && |ext.bmPages| == BM_PAGES_EXT_SIZE
       && ext.next == (if e + 1 < |extSects| then extSects[e + 1] else 0)
       && forall i :: 0 <= i < BM_PAGES_EXT_SIZE && BM_PAGES_ROOT_SIZE + BM_PAGES_EXT_SIZE * e + i < |sects| ==> ext.bmPages[i] == sects[i]
  }

  /** What adfWriteNewBitmap leaves in the root, in the extension blocks and in the list of pages. */
  ghost predicate PointersWritten(sects: seq<int>, extSects: seq<int>, root: Pointers, root': Pointers, exts: map<int, Pointers>,
                          blocks: seq<int>) {
    && |extSects| == ExtCount(|sects|)
    && blocks == PageSectors(sects)
    && RootWritten(sects, root, root')
    && root'.next == (if extSects == [] then root.next else extSects[0])
    && exts.Keys == Elements(extSects)
    && forall e :: 0 <= e < |extSects| ==> ExtWritten(sects, extSects, exts, e)
  }

  /** The pointers of one extension block. */
  method FillExt(sectList: array<int>, blocks: array<int>, start: nat, bmPages: seq<int>, ghost e: nat)
    returns (bmPages': seq<int>, nBlock: nat)
    requires sectList.Length == blocks.Length && sectList != blocks && |bmPages| == BM_PAGES_EXT_SIZE
    requires start == BM_PAGES_ROOT_SIZE + BM_PAGES_EXT_SIZE * e < blocks.Length
    modifies blocks
    ensures nBlock == Min(start + BM_PAGES_EXT_SIZE, blocks.Length) && |bmPages'| == BM_PAGES_EXT_SIZE
    ensures forall i :: 0 <= i < BM_PAGES_EXT_SIZE && start + i < blocks.Length ==> bmPages'[i] == sectList[i]
    ensures forall b :: 0 <= b < start ==> blocks[b] == old(blocks[b])
    ensures forall b :: start <= b < nBlock ==> blocks[b] == PageSector(sectList[..], b)
  {
    var i := 0;
    bmPages', nBlock := bmPages, start;
    while i < BM_PAGES_EXT_SIZE && nBlock < blocks.Length
      invariant 0 <= i <= BM_PAGES_EXT_SIZE && nBlock == start + i <= blocks.Length && |bmPages'| == BM_PAGES_EXT_SIZE
      invariant forall k :: 0 <= k < i ==> bmPages'[k] == sectList[k]
      invariant forall b :: 0 <= b < start ==> blocks[b] == old(blocks[b])
      invariant forall b :: start <= b < nBlock ==> blocks[b] == sectList[b - start]
    {
      blocks[nBlock] := sectList[i];
      bmPages' := bmPages'[i := sectList[i]];
      i, nBlock := i + 1, nBlock + 1;
    }
    forall b | start <= b < nBlock ensures blocks[b] == PageSector(sectList[..], b) {
      InExt(e, b - start);
    }
  }

  lemma InExt(e: nat, i: nat)
    requires i < BM_PAGES_EXT_SIZE
    ensures (BM_PAGES_EXT_SIZE * e + i) % BM_PAGES_EXT_SIZE == i
  {
  }

  lemma ExtsNeeded(size: nat, e: nat)
    requires size > BM_PAGES_ROOT_SIZE
    ensures ExtCount(size) > 0
    ensures BM_PAGES_ROOT_SIZE + BM_PAGES_EXT_SIZE * e < size <==> e < ExtCount(size)
  {
  }

  /** The extension blocks of a new volume, one after the other. */
  method WriteExts(sectList: array<int>, blocks: array<int>, bitExtBlock: array<int>, bitme: seq<int>)
    returns (exts: map<int, Pointers>)
    requires sectList.Length == blocks.Length > BM_PAGES_ROOT_SIZE && sectList != blocks && bitExtBlock != blocks
    requires bitExtBlock.Length == ExtCount(blocks.Length) && |bitme| == BM_PAGES_EXT_SIZE && NoDuplicates(bitExtBlock[..])
    requires forall b :: 0 <= b < BM_PAGES_ROOT_SIZE ==> blocks[b] == sectList[b]
    modifies blocks
    ensures blocks[..] == PageSectors(sectList[..])
    ensures exts.Keys == Elements(bitExtBlock[..])
    ensures forall e :: 0 <= e < bitExtBlock.Length ==> ExtWritten(sectList[..], bitExtBlock[..], exts, e)
  {
    exts := map[];
    var k, nBlock, bmPages := 0, BM_PAGES_ROOT_SIZE, bitme;
    ghost var sects, extSects := sectList[..], bitExtBlock[..];
    ExtsNeeded(blocks.Length, 0);
    while nBlock < blocks.Length
      invariant 0 <= k <= bitExtBlock.Length && |bmPages| == BM_PAGES_EXT_SIZE
      invariant nBlock == Min(BM_PAGES_ROOT_SIZE + BM_PAGES_EXT_SIZE * k, blocks.Length)
      invariant sectList[..] == sects && bitExtBlock[..] == extSects
      invariant forall b :: 0 <= b < nBlock ==> blocks[b] == PageSector(sects, b)
      invariant exts.Keys == Elements(extSects[..k])
      invariant forall e :: 0 <= e < k ==> ExtWritten(sects, extSects, exts, e)
    {
      ExtsNeeded(blocks.Length, k);
      bmPages, nBlock := FillExt(sectList, blocks, nBlock, bmPages, k);
      var next := if k + 1 < bitExtBlock.Length then bitExtBlock[k + 1] else 0;
      ghost var before := exts;
      exts := exts[bitExtBlock[k] := Pointers(bmPages, next)];
      OneMoreExt(sects, extSects, before, exts, k, Pointers(bmPages, next));
      k := k + 1;
    }
    ExtsNeeded(blocks.Length, k);
    assert extSects[..k] == extSects;
  }

  lemma OneMoreExt(sects: seq<int>, extSects: seq<int>, exts: map<int, Pointers>, exts': map<int, Pointers>, k: nat, ext: Pointers)
    requires k < |extSects| && NoDuplicates(extSects) && exts' == exts[extSects[k] := ext]
    requires exts.Keys == Elements(extSects[..k]) && forall e :: 0 <= e < k ==> ExtWritten(sects, extSects, exts, e)
    requires |ext.bmPages| == BM_PAGES_EXT_SIZE && ext.next == (if k + 1 < |extSects| then extSects[k + 1] else 0)
    requires forall i :: 0 <= i < BM_PAGES_EXT_SIZE && BM_PAGES_ROOT_SIZE + BM_PAGES_EXT_SIZE * k + i < |sects| ==>
               ext.bmPages[i] == sects[i]
    ensures exts'.Keys == Elements(extSects[..k + 1])
    ensures forall e :: 0 <= e < k + 1 ==> ExtWritten(sects, extSects, exts', e)
  {
    assert extSects[..k + 1] == extSects[..k] + [extSects[k]];
    forall e | 0 <= e < k ensures ExtWritten(sects, extSects, exts', e) {
      assert extSects[e] != extSects[k];
      assert ExtWritten(sects, extSects, exts, e);
    }
  }

  /** The pointers of the root of a new volume. */
  method WriteRoot(root: Pointers, sectList: array<int>, blocks: array<int>) returns (root': Pointers)
    requires sectList.Length == blocks.Length && sectList != blocks && |root.bmPages| == BM_PAGES_ROOT_SIZE
    modifies blocks
    ensures RootWritten(sectList[..], root, root') && root'.next == root.next
    ensures forall b :: 0 <= b < Min(blocks.Length, BM_PAGES_ROOT_SIZE) ==> blocks[b] == sectList[b]
  {
    var i := 0;
    root' := root;
    while i < Min(blocks.Length, BM_PAGES_ROOT_SIZE)
      invariant 0 <= i <= Min(blocks.Length, BM_PAGES_ROOT_SIZE) && |root'.bmPages| == BM_PAGES_ROOT_SIZE
      invariant root'.next == root.next
      invariant forall k :: 0 <= k < BM_PAGES_ROOT_SIZE ==> root'.bmPages[k] == if k < i then sectList[k] else root.bmPages[k]
      invariant forall b :: 0 <= b < i ==> blocks[b] == sectList[b]
    {
      blocks[i] := sectList[i];
      root' := root'.(bmPages := root'.bmPages[i := sectList[i]]);
      i := i + 1;
    }
  }

  /** The first `n` free sectors of the circular scan, or all of them when there are fewer. */
  ghost function FirstSectors(v: Vol, n: nat): seq<int>
    requires VolOK(v)
  {
    var order := ScanOrder(v);
    if n <= |order| then order[..n] else order
  }

  lemma FirstSectorsAre(v: Vol, n: nat)
    requires VolOK(v) && n <= |v.free|
    ensures var r := FirstSectors(v, n);
            && |r| == n && NoDuplicates(r) && Elements(r) <= v.free && |v.free - Elements(r)| == |v.free| - n
            && VolOK(WithoutSectors(v, r))
  {
    ScanOrderIsFree(v);
    var sects := ScanOrder(v)[..n];
    DistinctCount(sects, Elements(sects));
  }

  ghost function WithoutSectors(v: Vol, sects: seq<int>): Vol {
    v.(free := v.free - Elements(sects))
  }

  /** Taking the first `n` free sectors, into a list of that many. */
  method TakeFirst(vol: AdfVolume, sectList: array<int>) returns (ok: bool)
    requires vol.Valid()
    modifies vol.table, vol.blocksChg, sectList
    ensures vol.Valid() && VolOK(old(vol.V())) && VolOK(vol.V()) && ok == (sectList.Length <= |old(vol.V()).free|)
    ensures ok ==>
              && sectList[..] == FirstSectors(old(vol.V()), sectList.Length)
              && vol.V() == WithoutSectors(old(vol.V()), sectList[..])
    ensures !ok ==> vol.V() == old(vol.V())
  {
    hide FreeInOrder;
    vol.VIsOK();
    ScanOrderIsFree(vol.V());
    ok := vol.GetFreeBlocks(sectList.Length, sectList);
    assert sectList[..sectList.Length] == sectList[..];
    vol.VIsOK();
  }

  /** What adfWriteNewBitmap leaves of a volume: the pages and the extension blocks are taken, as far as there is room. */
  ghost function NewBitmapTaken(v: Vol, size: nat): Vol
    requires VolOK(v)
  {
    if size > |v.free| then v
    else
      var w := WithoutSectors(v, FirstSectors(v, size));
      if ExtCount(size) > |w.free| then w else WithoutSectors(w, FirstSectors(w, ExtCount(size)))
  }

  lemma NewBitmapTakenIs(v: Vol, size: nat)
    requires VolOK(v)
    ensures size > |v.free| ==> NewBitmapTaken(v, size) == v
    ensures size <= |v.free| ==>
              var w := WithoutSectors(v, FirstSectors(v, size));
              && VolOK(w) && |w.free| == |v.free| - size
              && NewBitmapTaken(v, size) ==
                 if ExtCount(size) > |w.free| then w else WithoutSectors(w, FirstSectors(w, ExtCount(size)))
  {
    hide FirstSectors;
    if size <= |v.free| {
      FirstSectorsAre(v, size);
    }
  }

  /** The pointers that adfWriteNewBitmap leaves, when there is room. */
  ghost predicate NewPointers(v: Vol, root: Pointers, root': Pointers, exts: map<int, Pointers>, blocks: seq<int>)
    requires VolOK(v)
  {
    var sects := FirstSectors(v, |blocks|);
    VolOK(WithoutSectors(v, sects)) &&
    PointersWritten(sects, FirstSectors(WithoutSectors(v, sects), ExtCount(|blocks|)), root, root', exts, blocks)
  }

  /** The part of adfWriteNewBitmap for bitmaps that the root has not enough pointers for. */
  method WriteMore(vol: AdfVolume, root: Pointers, sectList: array<int>, bitme: seq<int>, blocks: array<int>)
    returns (ok: bool, next: int, exts: map<int, Pointers>)
    requires vol.Valid() && |bitme| == BM_PAGES_EXT_SIZE && sectList != blocks
    requires sectList.Length == blocks.Length > BM_PAGES_ROOT_SIZE
    requires forall b :: 0 <= b < BM_PAGES_ROOT_SIZE ==> blocks[b] == sectList[b]
    modifies vol.table, vol.blocksChg, blocks
    ensures vol.Valid() && VolOK(old(vol.V())) && ok == (ExtCount(blocks.Length) <= |old(vol.V()).free|)
    ensures !ok ==> vol.V() == old(vol.V())
    ensures ok ==>
              var extSects := FirstSectors(old(vol.V()), ExtCount(blocks.Length));
              && vol.V() == WithoutSectors(old(vol.V()), extSects)
              && extSects != [] && next == extSects[0]
              && blocks[..] == PageSectors(sectList[..]) && exts.Keys == Elements(extSects)
              && forall e :: 0 <= e < |extSects| ==> ExtWritten(sectList[..], extSects, exts, e)
  {
    hide ExtWritten, PageSectors, FirstSectors, VolOK, WithoutSectors, AdfVolume.V;
    next, exts := root.next, map[];
    var size := blocks.Length;
    var nExtBlock := (size - BM_PAGES_ROOT_SIZE) / BM_PAGES_EXT_SIZE;
    if (size - BM_PAGES_ROOT_SIZE) % BM_PAGES_EXT_SIZE != 0 {
      nExtBlock := nExtBlock + 1;
    }
    assert nExtBlock == ExtCount(size);
    hide ExtCount;
    var bitExtBlock := new int[nExtBlock];
    ghost var v := vol.V();
    ok := TakeFirst(vol, bitExtBlock);
    if ok {
      FirstSectorsAre(v, nExtBlock);
      ExtsNeeded(size, 0);
      next := bitExtBlock[0];
      exts := WriteExts(sectList, blocks, bitExtBlock, bitme);
    }
  }

  /** The pointers to the pages, in the root and in the extension blocks. */
  method WritePointers(vol: AdfVolume, root: Pointers, sectList: array<int>, bitme: seq<int>, blocks: array<int>)
    returns (ok: bool, root': Pointers, exts: map<int, Pointers>)
    requires vol.Valid() && |root.bmPages| == BM_PAGES_ROOT_SIZE && |bitme| == BM_PAGES_EXT_SIZE
    requires sectList.Length == blocks.Length && sectList != blocks
    modifies vol.table, vol.blocksChg, blocks
    ensures vol.Valid() && VolOK(old(vol.V())) && ok == (ExtCount(blocks.Length) <= |old(vol.V()).free|)
    ensures !ok ==> vol.V() == old(vol.V())
    ensures ok ==>
              var extSects := FirstSectors(old(vol.V()), ExtCount(blocks.Length));
              && vol.V() == WithoutSectors(old(vol.V()), extSects)
              && PointersWritten(sectList[..], extSects, root, root', exts, blocks[..])
  {
    hide RootWritten, ExtWritten, PageSectors, FirstSectors, VolOK, WithoutSectors, AdfVolume.V, PointersWritten, ExtCount;
    ghost var sects, w, extSects := sectList[..], vol.V(), [];
    vol.VIsOK();
    exts, ok := map[], true;
    root' := WriteRoot(root, sectList, blocks);
    if blocks.Length > BM_PAGES_ROOT_SIZE {
      var next;
      ok, next, exts := WriteMore(vol, root', sectList, bitme, blocks);
      if !ok {
        return;
      }
      extSects := FirstSectors(w, ExtCount(blocks.Length));
      FirstSectorsAre(w, ExtCount(blocks.Length));
      NextOnly(sects, root, root', next);
      root' := root'.(next := next);
    } else {
      PagesInRoot(sects, blocks[..], w);
    }
    PointersWrittenIs(sects, extSects, root, root', exts, blocks[..]);
  }

  /**
    adfWriteNewBitmap: the pages and the extension blocks get the first free sectors. If
    there are too few for the extension blocks, the sectors for the pages stay taken.
  */
  method WriteNewBitmap(vol: AdfVolume, root: Pointers, bitme: seq<int>, blocks: array<int>)
    returns (rc: Rc, root': Pointers, exts: map<int, Pointers>)
    requires vol.Valid() && |root.bmPages| == BM_PAGES_ROOT_SIZE && |bitme| == BM_PAGES_EXT_SIZE
    modifies vol.table, vol.blocksChg, blocks
    ensures vol.Valid() && VolOK(old(vol.V())) && vol.V() == NewBitmapTaken(old(vol.V()), blocks.Length)
    ensures rc == RcOk <==> blocks.Length + ExtCount(blocks.Length) <= |old(vol.V()).free|
    ensures rc == RcOk ==> NewPointers(old(vol.V()), root, root', exts, blocks[..])
  {
    hide FirstSectors, VolOK, NewBitmapTaken, WithoutSectors, AdfVolume.V, PointersWritten, ExtCount;
    ghost var v := vol.V();
    vol.VIsOK();
    NewBitmapTakenIs(v, blocks.Length);
    root', exts := root, map[];
    var sectList := new int[blocks.Length];
    var ok := TakeFirst(vol, sectList);
    if !ok {
      return RcVolFull, root', exts;
    }
    ok, root', exts := WritePointers(vol, root, sectList, bitme, blocks);
    rc := if ok then RcOk else RcVolFull;
  }

  lemma PointersWrittenIs(sects: seq<int>, extSects: seq<int>, root: Pointers, root': Pointers, exts: map<int, Pointers>, blocks: seq<int>)
    requires |extSects| == ExtCount(|sects|) && blocks == PageSectors(sects) && RootWritten(sects, root, root')
    requires root'.next == (if extSects == [] then root.next else extSects[0]) && exts.Keys == Elements(extSects)
    requires forall e :: 0 <= e < |extSects| ==> ExtWritten(sects, extSects, exts, e)
    ensures PointersWritten(sects, extSects, root, root', exts, blocks)
  {
  }

  lemma NextOnly(sects: seq<int>, root: Pointers, root': Pointers, next: int)
    requires RootWritten(sects, root, root')
    ensures RootWritten(sects, root, root'.(next := next))
  {
  }

  lemma PagesInRoot(sects: seq<int>, blocks: seq<int>, w: Vol)
    requires |sects| == |blocks| <= BM_PAGES_ROOT_SIZE && VolOK(w) && forall b :: 0 <= b < |blocks| ==> blocks[b] == sects[b]
    ensures blocks == PageSectors(sects) && ExtCount(|sects|) == 0
    ensures FirstSectors(w, 0) == [] && WithoutSectors(w, []) == w && Elements([]) == {}
  {
  }

  /* ---- written, and found again ---- */

  /** The extension block number `e`; 0 behind the last one. */
  function ExtSector(extSects: seq<int>, e: nat): int {
    if e < |extSects| then extSects[e] else 0
  }

  /** The first page of extension block `e`. */
  function FirstPage(size: nat, e: nat): (b: nat)
    requires size > BM_PAGES_ROOT_SIZE
    ensures b <= size
  {
    Min(BM_PAGES_ROOT_SIZE + BM_PAGES_EXT_SIZE * e, size)
  }

  ghost predicate ExtsWritten(sects: seq<int>, extSects: seq<int>, exts: map<int, Pointers>) {
    && |extSects| == ExtCount(|sects|) && exts.Keys == Elements(extSects)
    && (forall e :: 0 <= e < |extSects| ==> extSects[e] != 0 && ExtWritten(sects, extSects, exts, e))
  }

  lemma ExtsHavePointers(sects: seq<int>, extSects: seq<int>, exts: map<int, Pointers>)
    requires ExtsWritten(sects, extSects, exts)
    ensures forall x :: x in exts ==> |exts[x].bmPages| == BM_PAGES_EXT_SIZE
  {
    forall x | x in exts ensures |exts[x].bmPages| == BM_PAGES_EXT_SIZE {
      assert x in exts.Keys;
      var e :| 0 <= e < |extSects| && extSects[e] == x;
      assert ExtWritten(sects, extSects, exts, e);
    }
  }

  /** The pointers of extension block `e` are those to its pages. */
  lemma ExtHolds(sects: seq<int>, extSects: seq<int>, exts: map<int, Pointers>, e: nat)
    requires ExtsWritten(sects, extSects, exts) && e < |extSects| && |sects| > BM_PAGES_ROOT_SIZE
    ensures extSects[e] in exts && extSects[e] != 0 && exts[extSects[e]].next == ExtSector(extSects, e + 1)
    ensures |exts[extSects[e]].bmPages| == BM_PAGES_EXT_SIZE
    ensures var from := FirstPage(|sects|, e);
            var n := Min(|sects| - from, BM_PAGES_EXT_SIZE);
            && from + n == FirstPage(|sects|, e + 1)
            && exts[extSects[e]].bmPages[..n] == PageSectors(sects)[from..from + n]
  {
    ExtsNeeded(|sects|, e);
    assert ExtWritten(sects, extSects, exts, e);
    hide ExtCount, ExtsWritten, PageSectors;
    var from := FirstPage(|sects|, e);
    var n := Min(|sects| - from, BM_PAGES_EXT_SIZE);
    var ext := exts[extSects[e]];
    assert ext.bmPages[..n] == sects[..n];
    SameSectors(sects, e, n);
  }

  lemma SameSectors(sects: seq<int>, e: nat, n: nat)
    requires n <= BM_PAGES_EXT_SIZE && BM_PAGES_ROOT_SIZE + BM_PAGES_EXT_SIZE * e + n <= |sects|
    ensures var from := BM_PAGES_ROOT_SIZE + BM_PAGES_EXT_SIZE * e;
            |PageSectors(sects)| == |sects| && sects[..n] == PageSectors(sects)[from..from + n]
  {
    var from := BM_PAGES_ROOT_SIZE + BM_PAGES_EXT_SIZE * e;
    forall i | 0 <= i < n ensures sects[..n][i] == PageSectors(sects)[from..from + n][i] {
      if i < BM_PAGES_EXT_SIZE {
        InExt(e, i);
      }
      assert from + i - BM_PAGES_ROOT_SIZE == BM_PAGES_EXT_SIZE * e + i;
    }
  }

  lemma {:induction false} ExtsLead(sects: seq<int>, extSects: seq<int>, exts: map<int, Pointers>, last: int, e: nat)
    requires ExtsWritten(sects, extSects, exts) && e <= |extSects| && |sects| > BM_PAGES_ROOT_SIZE
    requires AllValid(sects, last)
    ensures forall x :: x in exts ==> |exts[x].bmPages| == BM_PAGES_EXT_SIZE
    ensures Ends(exts, ExtSector(extSects, e), |extSects| - e)
    ensures ExtPages(exts, ExtSector(extSects, e), |sects| - FirstPage(|sects|, e), last, |extSects| - e) ==
            Some(PageSectors(sects)[FirstPage(|sects|, e)..])
    decreases |extSects| - e
  {
    hide ExtsWritten, PageSectors, ExtPages, ExtCount, Ends, AllValid, FirstPage;
    ExtsHavePointers(sects, extSects, exts);
    ExtCounted(sects, extSects, exts);
    var all := PageSectors(sects);
    if e < |extSects| {
      ExtsLead(sects, extSects, exts, last, e + 1);
      ExtHolds(sects, extSects, exts, e);
      var from, to := FirstPage(|sects|, e), FirstPage(|sects|, e + 1);
      PagesValid(sects, last, from, to);
      assert all[from..to] + all[to..] == all[from..];
      ExtStep(exts, extSects[e], |sects| - from, last, |extSects| - e, all[from..to], all[to..]);
    } else {
      AllPagesFound(|sects|);
      NothingMore(exts, last, 0);
      PagesValid(sects, last, 0, 0);
      assert all[|sects|..] == [];
    }
  }

  lemma ExtCounted(sects: seq<int>, extSects: seq<int>, exts: map<int, Pointers>)
    requires ExtsWritten(sects, extSects, exts)
    ensures |extSects| == ExtCount(|sects|)
  {
  }

  lemma AllPagesFound(size: nat)
    requires size > BM_PAGES_ROOT_SIZE
    ensures FirstPage(size, ExtCount(size)) == size
  {
    ExtsNeeded(size, ExtCount(size));
  }

  lemma PagesValid(sects: seq<int>, last: int, from: nat, to: nat)
    requires AllValid(sects, last) && from <= to <= |sects|
    ensures |PageSectors(sects)| == |sects| && AllValid(PageSectors(sects)[from..to], last)
  {
  }

  lemma ExtStep(exts: map<int, Pointers>, sect: int, need: nat, last: int, n: nat, here: seq<int>, rest: seq<int>)
    requires forall x :: x in exts ==> |exts[x].bmPages| == BM_PAGES_EXT_SIZE
    requires sect != 0 && sect in exts && n > 0 && Ends(exts, exts[sect].next, n - 1)
    requires here == exts[sect].bmPages[..Min(need, BM_PAGES_EXT_SIZE)] && AllValid(here, last)
    requires ExtPages(exts, exts[sect].next, need - |here|, last, n - 1) == Some(rest)
    ensures Ends(exts, sect, n) && ExtPages(exts, sect, need, last, n) == Some(here + rest)
  {
  }

  lemma {:induction false} RootCounted(root: Pointers, size: nat, i: nat)
    requires |root.bmPages| == BM_PAGES_ROOT_SIZE && i <= Min(size, BM_PAGES_ROOT_SIZE)
    requires forall k :: 0 <= k < Min(size, BM_PAGES_ROOT_SIZE) ==> root.bmPages[k] != 0
    ensures RootCount(root, size, i) == Min(size, BM_PAGES_ROOT_SIZE)
    decreases BM_PAGES_ROOT_SIZE - i
  {
    if i < Min(size, BM_PAGES_ROOT_SIZE) {
      RootCounted(root, size, i + 1);
    }
  }

  /** The pages of a new bitmap are found again, however many they are. */
  lemma PagesFound(sects: seq<int>, extSects: seq<int>, root: Pointers, root': Pointers, exts: map<int, Pointers>,
                   blocks: seq<int>, last: int)
    requires PointersWritten(sects, extSects, root, root', exts, blocks)
    requires (forall i :: 0 <= i < |sects| ==> 2 <= sects[i] <= last) && 0 !in extSects
    requires |sects| <= BM_PAGES_ROOT_SIZE ==> root.next == 0
    ensures PointersOK(root', exts) && Ends(exts, root'.next, |extSects|)
    ensures Found(root', exts, |sects|, last, |extSects|) == Some(blocks)
  {
    hide ExtPages, ExtCount, ExtWritten;
    var n := Min(|sects|, BM_PAGES_ROOT_SIZE);
    RootCounted(root', |sects|, 0);
    assert ExtsWritten(sects, extSects, exts);
    ExtsHavePointers(sects, extSects, exts);
    hide ExtsWritten, RootCount;
    assert root'.bmPages[..n] == blocks[..n];
    PagesValid(sects, last, 0, n);
    if |sects| > BM_PAGES_ROOT_SIZE {
      ExtsNeeded(|sects|, 0);
      ExtsLead(sects, extSects, exts, last, 0);
      assert blocks[..n] + blocks[n..] == blocks;
    } else {
      FewPages(|sects|);
      NothingMore(exts, last, |extSects|);
      assert blocks[..n] + [] == blocks;
    }
  }

  lemma FewPages(size: nat)
    requires size <= BM_PAGES_ROOT_SIZE
    ensures ExtCount(size) == 0
  {
  }

  lemma NothingMore(exts: map<int, Pointers>, last: int, n: nat)
    requires forall x :: x in exts ==> |exts[x].bmPages| == BM_PAGES_EXT_SIZE
    ensures Ends(exts, 0, n) && ExtPages(exts, 0, 0, last, n) == Some([])
  {
  }

  /** Every page has a sector of its own exactly if the root has pointers for all of them. */
  lemma PagesApart(sects: seq<int>)
    requires NoDuplicates(sects)
    ensures NoDuplicates(PageSectors(sects)) <==> |sects| <= BM_PAGES_ROOT_SIZE
    ensures Elements(PageSectors(sects)) == Elements(sects) <==> |sects| <= BM_PAGES_ROOT_SIZE
  {
    var all := PageSectors(sects);
    if |sects| > BM_PAGES_ROOT_SIZE {
      assert all[BM_PAGES_ROOT_SIZE] == sects[0] == all[0];
      var s := sects[|sects| - 1];
      assert s in Elements(sects);
      forall b | 0 <= b < |all| ensures all[b] != s {
        var i := if b < BM_PAGES_ROOT_SIZE then b else (b - BM_PAGES_ROOT_SIZE) % BM_PAGES_EXT_SIZE;
        assert all[b] == sects[i] && i < |sects| - 1;
      }
    } else {
      assert all == sects;
    }
  }

  /* ---- what is on the pages ---- */

  /** The blocks of the disk once all pages are written, one after the other. */
  function StorePages(disk: map<int, seq<bv32>>, blocks: seq<int>, table: seq<seq<bv32>>): map<int, seq<bv32>>
    requires |blocks| == |table|
    decreases |blocks|
  {
    if blocks == [] then disk else StorePages(disk[blocks[0] := table[0]], blocks[1..], table[1..])
  }

  lemma {:induction false} StoredPage(disk: map<int, seq<bv32>>, blocks: seq<int>, table: seq<seq<bv32>>, s: int)
    requires |blocks| == |table|
    ensures s !in blocks ==> (s in StorePages(disk, blocks, table) <==> s in disk)
    ensures s !in blocks && s in disk ==> StorePages(disk, blocks, table)[s] == disk[s]
    decreases |blocks|
  {
    if blocks != [] {
      StoredPage(disk[blocks[0] := table[0]], blocks[1..], table[1..], s);
    }
  }

  /** Page `b` is read back as it was written if no page behind it is on its sector. */
  lemma {:induction false} PageReadBack(disk: map<int, seq<bv32>>, blocks: seq<int>, table: seq<seq<bv32>>, b: nat)
    requires |blocks| == |table| && b < |blocks| && forall c :: b < c < |blocks| ==> blocks[c] != blocks[b]
    ensures blocks[b] in StorePages(disk, blocks, table) && StorePages(disk, blocks, table)[blocks[b]] == table[b]
    decreases |blocks|
  {
    if b == 0 {
      StoredPage(disk[blocks[0] := table[0]], blocks[1..], table[1..], blocks[0]);
    } else {
      PageReadBack(disk[blocks[0] := table[0]], blocks[1..], table[1..], b - 1);
    }
  }

  /** After writing all pages, each of them can be read again. */
  ghost predicate Survive(blocks: seq<int>, table: seq<seq<bv32>>)
    requires |blocks| == |table|
  {
    forall b :: 0 <= b < |blocks| ==> blocks[b] in StorePages(map[], blocks, table) && StorePages(map[], blocks, table)[blocks[b]] == table[b]
  }

  lemma OneSectorOnePage(blocks: seq<int>, table: seq<seq<bv32>>, i: nat, j: nat)
    requires |blocks| == |table| && Survive(blocks, table) && i < |blocks| && j < |blocks| && blocks[i] == blocks[j]
    ensures table[i] == table[j]
  {
  }

  /** The pages survive, whatever is on them, exactly if no two are on one sector. */
  lemma SurviveIfApart(blocks: seq<int>)
    ensures (forall table: seq<seq<bv32>> :: |table| == |blocks| ==> Survive(blocks, table)) <==> NoDuplicates(blocks)
  {
    if NoDuplicates(blocks) {
      forall table: seq<seq<bv32>> | |table| == |blocks| ensures Survive(blocks, table) {
        forall b | 0 <= b < |blocks|
          ensures blocks[b] in StorePages(map[], blocks, table) && StorePages(map[], blocks, table)[blocks[b]] == table[b]
        {
          PageReadBack(map[], blocks, table, b);
        }
      }
    } else {
      var i: nat, j: nat :| i < j < |blocks| && blocks[i] == blocks[j];
      var table: seq<seq<bv32>> := seq(|blocks|, b => if b == i then [1] else []);
      if Survive(blocks, table) {
        OneSectorOnePage(blocks, table, i, j);
      }
    }
  }

  /**
    A new bitmap can be written and read again, whatever the free sectors are, exactly if
    the root has pointers for all of its pages. Otherwise two pages share a sector, and
    others have a sector that no pointer leads to.
  */
  lemma NewBitmapSurvives(sects: seq<int>)
    requires NoDuplicates(sects)
    ensures (forall table: seq<seq<bv32>> :: |table| == |sects| ==> Survive(PageSectors(sects), table)) <==>
            |sects| <= BM_PAGES_ROOT_SIZE
    ensures Elements(PageSectors(sects)) == Elements(sects) <==> |sects| <= BM_PAGES_ROOT_SIZE
  {
    PagesApart(sects);
    SurviveIfApart(PageSectors(sects));
    hide PageSectors, Survive, NoDuplicates;
  }
}
