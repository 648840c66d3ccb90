/**
  Undeleting a file or a directory: its blocks are marked used again and its entry is added
  to its directory. Models adfCheckParent, adfUndelFile and adfUndelDir of adf_salv.c.
*/
module Salvage {
  import opened FileUtil
  import opened Blocks
  import opened Names
  import opened FileInv
  import opened FileSpec
  import FileBlocks
  import FileRuns
  import FileVectors
  import opened DirInv
  import opened DirLink
  import opened DirSpec
  import opened Dir
  import opened VolumeInv
  import opened VolumeOps
  import VolumeFrame
  import opened Volume

  /** Does `pSect` hold a directory that is in use? */
  ghost predicate ParentOK(v: Vol, pSect: int) {
    pSect !in v.free && IsNode(v, pSect) && NodeAt(v, pSect).secType in {ST_DIR, ST_ROOT}
  }

  /** adfCheckParent */
  method CheckParent(vol: AdfVolume, pSect: int) returns (rc: Rc)
    requires vol.Valid() && vol.HasBit(pSect)
    ensures rc == RcOk <==> ParentOK(vol.V(), pSect)
  {
    var free := vol.IsBlockFree(pSect);
    if free {
      return RcError;
    }
    var block := vol.ReadNodeBlock(pSect);
    if block.None? || block.value.typ != T_HEADER
       || (block.value.secType != ST_DIR && block.value.secType != ST_ROOT) {
      return RcError;
    }
    rc := RcOk;
  }

  /** The volume as it was while the sectors of the file were in use. */
  function WithoutFree(v: Vol, sectors: set<int>): Vol {
    v.(free := v.free - sectors)
  }

  /** The blocks of a deleted file are still on the disk. */
  ghost predicate Intact(v: Vol, entry: Node, L: Layout) {
    L.header == entry.headerKey && Stored(WithoutFree(v, L.own.Keys), entry, L)
  }

  /** The sectors adfGetFileBlocks lists for an entry, and that of its header; None if it fails. */
  ghost function SectorsOf(v: Vol, entry: Node): Option<set<int>> {
    match FileBlocks.GetFileBlocks(v, entry)
    case None => None
    case Some(b) => Some(Elements(b.data) + Elements(b.exts) + {entry.headerKey})
  }

  /** Can the deleted file with these sectors be added to directory `pSect` again? */
  ghost predicate Undeletable(v: Vol, F: Forest, intl: bool, pSect: int, nSect: int, entry: Node, sectors: set<int>) {
    && nSect == entry.headerKey && ParentOK(v, pSect) && pSect == entry.parent
    && sectors <= v.free
    && |entry.name| <= MAX_NAME_LEN && NewName(v, F, intl, pSect, entry.name)
  }

  /** The volume after the file is undeleted. */
  function Undeleted(v: Vol, F: Forest, pSect: int, entry: Node, sectors: set<int>, intl: bool): Vol
    requires pSect in F.chains && |F.chains[pSect]| == HT_SIZE
  {
    AddEntry(WithoutFree(v, sectors), F, pSect, Hash(entry.name, intl), entry.headerKey)
  }

  /** The sectors that are listed for an entry have bits in the bitmap. */
  ghost predicate ListedOnVolume(v: Vol, entry: Node) {
    match FileBlocks.GetFileBlocks(v, entry)
    case None => true
    case Some(b) => FileVectors.OnVolume(b.data, v.last) && FileVectors.OnVolume(b.exts, v.last)
  }

  /** What is listed for a deleted file whose blocks are still on the disk are all its sectors; for one without bytes it fails. */
  lemma IntactSectors(v: Vol, entry: Node, L: Layout)
    requires Intact(v, entry, L)
    ensures SectorsOf(v, entry) == if entry.byteSize == 0 then None else Some(L.own.Keys)
    ensures FileBlocks.BlocksFit(v, entry) && ListedOnVolume(v, entry)
  {
    hide Stored;
    var w := WithoutFree(v, L.own.Keys);
    IntactOwn(w, entry, L);
    StoredChain(w, entry, L);
    FileBlocks.WalkYieldsLayout(w, entry, L);
    FileBlocks.ChainFits(w, entry, L);
    FileVectors.OwnOnVolume(w, entry, L);
    FileBlocks.SameBlocksFound(v, w, entry);
    FileBlocks.OwnIsElements(L);
    FileBlocks.EmptyIsHeader(w, entry, L);
  }

  lemma IntactOwn(v: Vol, hdr: Node, L: Layout)
    requires Stored(v, hdr, L)
    ensures OwnOK(L)
  {
  }

  /** Are all sectors of the list free? */
  method AllFree(vol: AdfVolume, list: array<int>) returns (r: bool)
    requires vol.Valid() && FileVectors.OnVolume(list[..], vol.Last())
    ensures r <==> Elements(list[..]) <= vol.Free()
  {
    var i := 0;
    while i < list.Length
      invariant 0 <= i <= list.Length
      invariant forall k :: 0 <= k < i ==> list[k] in vol.Free()
    {
      var free := vol.IsBlockFree(list[i]);
      if !free {
        assert list[i] in list[..];
        assert list[i] in Elements(list[..]);
        return false;
      }
      i := i + 1;
    }
    r := true;
  }

  /** The sectors of the list are used from now on. */
  method MarkUsed(vol: AdfVolume, list: array<int>)
    requires vol.Valid() && FileVectors.OnVolume(list[..], vol.Last())
    modifies vol.Bits()
    ensures vol.Valid() && vol.V() == WithoutFree(old(vol.V()), Elements(list[..]))
  {
    vol.TakeSectors(list, list.Length);
    assert list[..list.Length] == list[..];
  }

  /** All blocks of the file are used from now on. */
  method MarkFileUsed(vol: AdfVolume, data: array<int>, exts: array<int>, nSect: int)
    requires vol.Valid() && vol.HasBit(nSect) && data !in vol.Bits() && exts !in vol.Bits()
    requires FileVectors.OnVolume(data[..], vol.Last()) && FileVectors.OnVolume(exts[..], vol.Last())
    modifies vol.Bits()
    ensures vol.Valid()
    ensures vol.V() == WithoutFree(old(vol.V()), Elements(data[..]) + Elements(exts[..]) + {nSect})
    ensures data[..] == old(data[..]) && exts[..] == old(exts[..])
  {
    hide FileVectors.OnVolume, Elements;
    MarkUsed(vol, data);
    MarkUsed(vol, exts);
    vol.SetBlockUsed(nSect);
  }

  /** All blocks of the file are free from now on. */
  method MarkFileFree(vol: AdfVolume, data: array<int>, exts: array<int>, nSect: int)
    requires vol.Valid() && vol.HasBit(nSect) && data !in vol.Bits() && exts !in vol.Bits()
    requires FileVectors.OnVolume(data[..], vol.Last()) && FileVectors.OnVolume(exts[..], vol.Last())
    modifies vol.Bits()
    ensures vol.Valid()
    ensures vol.V() == old(vol.V()).(free := old(vol.V()).free + (Elements(data[..]) + Elements(exts[..]) + {nSect}))
  {
    hide FileVectors.OnVolume, Elements;
    vol.SetBlockFree(nSect);
    FileVectors.SetFree(vol, exts);
    FileVectors.SetFree(vol, data);
  }

  lemma ParentIsDir(v: Vol, F: Forest, intl: bool, pSect: int)
    requires Linked(v, F, intl) && pSect in F.chains
    ensures ReadEntry(v, pSect) == Some(NodeAt(v, pSect))
  {
    DirEntryReads(v, F, intl, pSect);
  }

  lemma GiveBack(v: Vol, sectors: set<int>)
    requires sectors <= v.free
    ensures WithoutFree(v, sectors).(free := WithoutFree(v, sectors).free + sectors) == v
  {
  }

  /** The second half of adfUndelFile: the blocks are marked used, and the entry is added or they are given back. */
  method AddDeleted(vol: AdfVolume, pSect: int, nSect: int, entry: Node, data: array<int>, exts: array<int>,
                    ghost F: Forest) returns (rc: Rc)
    requires vol.Valid() && Linked(vol.V(), F, vol.intl) && pSect in F.chains && vol.HasBit(nSect)
    requires nSect == entry.headerKey && Elements(data[..]) + Elements(exts[..]) + {nSect} <= vol.V().free
    requires FileVectors.OnVolume(data[..], vol.Last()) && FileVectors.OnVolume(exts[..], vol.Last())
    requires data !in vol.Bits() && exts !in vol.Bits()
    modifies vol.disk, vol.Bits()
    ensures vol.Valid() && |F.chains[pSect]| == HT_SIZE
    ensures rc == RcOk <==>
            |entry.name| <= MAX_NAME_LEN && NewName(old(vol.V()), F, vol.intl, pSect, entry.name)
    ensures var sectors := Elements(old(data[..])) + Elements(old(exts[..])) + {nSect};
            vol.V() == if rc == RcOk then Undeleted(old(vol.V()), F, pSect, entry, sectors, vol.intl) else old(vol.V())
  {
    hide Linked, NewName, NodeAt, AddEntry, Hash, FileVectors.OnVolume, Elements, ReadEntry, FreeInOrder, Listing;
    ghost var v, sectors := vol.V(), Elements(data[..]) + Elements(exts[..]) + {nSect};
    FreeIsApart(v, F, vol.intl, v.free - sectors);
    NameStillNew(v, WithoutFree(v, sectors), F, vol.intl, pSect, entry.name);
    GiveBack(v, sectors);
    MarkFileUsed(vol, data, exts, nSect);
    ghost var w := vol.V();
    ParentIsDir(w, F, vol.intl, pSect);
    var parent := ReadEntryBlock(vol, pSect);
    var newSect, _ := CreateEntry(vol, parent.value, entry.name, entry.headerKey, F, pSect);
    if newSect == -1 {
      MarkFileFree(vol, data, exts, nSect);
      return RcError;
    }
    rc := RcOk;
  }

  /**
    adfUndelFile on any entry block. It succeeds exactly if the blocks of the file are found,
    they are all free, and the name is new in its directory; then the entry is in its
    directory and the sectors are in use. Otherwise bitmap and disk are exactly as before.
  */
  method UndelFile(vol: AdfVolume, pSect: int, nSect: int, entry: Node, ghost F: Forest) returns (rc: Rc)
    requires vol.Valid() && vol.HasBit(pSect) && vol.HasBit(nSect)
    requires Linked(vol.V(), F, vol.intl) && (ParentOK(vol.V(), pSect) ==> pSect in F.chains)
    requires FileBlocks.BlocksFit(vol.V(), entry) && ListedOnVolume(vol.V(), entry)
    modifies vol, vol.disk, vol.Bits(), vol.pages
    ensures vol.Valid()
    ensures var sectors := SectorsOf(old(vol.V()), entry);
            && (rc == RcOk <==>
                  sectors.Some? && Undeletable(old(vol.V()), F, vol.intl, pSect, nSect, entry, sectors.value))
            && (rc == RcOk ==>
                  && pSect in F.chains && |F.chains[pSect]| == HT_SIZE
                  && vol.V() == Undeleted(old(vol.V()), F, pSect, entry, sectors.value, vol.intl)
                  && vol.FreeOf(vol.pages) == vol.Free())
    ensures rc != RcOk ==> vol.V() == old(vol.V())
  {
    hide Linked, NewName, NodeAt, Undeleted, Hash, FileVectors.OnVolume, Elements, ParentOK, FileBlocks.GetFileBlocks,
         FileBlocks.BlocksFit;
    if nSect != entry.headerKey {
      return RcError;
    }
    rc := CheckParent(vol, pSect);
    if rc != RcOk {
      return;
    }
    if pSect != entry.parent {
      return RcError;
    }
    var free := vol.IsBlockFree(nSect);
    if !free {
      return RcError;
    }
    var ok, data, exts := FileVectors.GetFileBlocks(vol, entry);
    if !ok {
      return RcError;
    }
    var dataFree := AllFree(vol, data);
    if !dataFree {
      return RcError;
    }
    var extsFree := AllFree(vol, exts);
    if !extsFree {
      return RcError;
    }
    rc := AddDeleted(vol, pSect, nSect, entry, data, exts, F);
    if rc == RcOk {
      vol.UpdateBitmap();
    }
  }

  /* ---- directories ---- */

  /** The checks adfUndelDir makes before it takes the sector of the entry. */
  ghost predicate DirMayReturn(v: Vol, pSect: int, entry: Node) {
    ParentOK(v, pSect) && pSect == entry.parent && entry.headerKey in v.free
  }

  /** What adfUndelDir leaves: the sector is taken before the name is compared, and not given back. */
  ghost function UndelDirResult(v: Vol, F: Forest, intl: bool, pSect: int, entry: Node): Vol
    requires pSect in F.chains && |F.chains[pSect]| == HT_SIZE
  {
    if !DirMayReturn(v, pSect, entry) then v
    else if |entry.name| > MAX_NAME_LEN || !NewName(v, F, intl, pSect, entry.name) then Take(v, entry.headerKey)
    else AddEntry(Take(v, entry.headerKey), F, pSect, Hash(entry.name, intl), entry.headerKey)
  }

  /**
    adfUndelDir on any entry block. It succeeds exactly if the sector of the entry is free and
    the name is new in its directory; then the entry is in its directory. When the name is
    refused, the sector stays taken.
  */
  method UndelDir(vol: AdfVolume, pSect: int, entry: Node, ghost F: Forest) returns (rc: Rc)
    requires vol.Valid() && vol.HasBit(pSect) && vol.HasBit(entry.headerKey)
    requires Linked(vol.V(), F, vol.intl) && (ParentOK(vol.V(), pSect) ==> pSect in F.chains)
    modifies vol, vol.disk, vol.Bits(), vol.pages
    ensures vol.Valid()
    ensures var v := old(vol.V());
            && (rc == RcOk <==>
                  DirMayReturn(v, pSect, entry) && |entry.name| <= MAX_NAME_LEN && NewName(v, F, vol.intl, pSect, entry.name))
            && (!DirMayReturn(v, pSect, entry) ==> vol.V() == v)
            && (DirMayReturn(v, pSect, entry) ==>
                  pSect in F.chains && |F.chains[pSect]| == HT_SIZE && vol.V() == UndelDirResult(v, F, vol.intl, pSect, entry))
    ensures rc == RcOk ==> vol.FreeOf(vol.pages) == vol.Free()
  {
    hide Linked, NewName, NodeAt, AddEntry, Hash, ParentOK, Listing, ReadEntry, FreeInOrder;
    ghost var v := vol.V();
    rc := CheckParent(vol, pSect);
    if rc != RcOk {
      return;
    }
    if pSect != entry.parent {
      return RcError;
    }
    var free := vol.IsBlockFree(entry.headerKey);
    if !free {
      return RcError;
    }
    ParentIsDir(v, F, vol.intl, pSect);
    var parent := ReadEntryBlock(vol, pSect);
    vol.SetBlockUsed(entry.headerKey);
    ghost var w := vol.V();
    FreeIsApart(v, F, vol.intl, w.free);
    NameStillNew(v, w, F, vol.intl, pSect, entry.name);
    var newSect, _ := CreateEntry(vol, parent.value, entry.name, entry.headerKey, F, pSect);
    if newSect == -1 {
      return RcError;
    }
    rc := RcOk;
    vol.UpdateBitmap();
  }
}
