/** Opening a file by its name, and creating it where there is none. Models adfFileOpen. */
module FileOpen {
  import opened FileUtil
  import opened Blocks
  import opened Names
  import opened FileSpec
  import opened FileInv
  import opened DirInv
  import opened DirLink
  import opened DirSpec
  import opened Dir
  import opened DirChange
  import opened VolumeInv
  import opened VolumeOps
  import opened Volume
  import opened AdfFileModule

  /** The handle of a file without bytes. */
  lemma NewHandleIsWhole(v: Vol, hdr: Node, s: int, modeRead: bool, modeWrite: bool)
    requires Stored(v, hdr, EmptyLayout(s))
    ensures Inv(FS(v, NewHandle(hdr, modeRead, modeWrite)), EmptyLayout(s))
  {
    assert AtRest(FS(v, NewHandle(hdr, modeRead, modeWrite)), EmptyLayout(s));
  }

  /** A file of a whole volume is on the disk. */
  lemma FileStored(v: Vol, F: Forest, intl: bool, Ls: map<int, Layout>, own: set<int>, s: int)
    requires WholeOK(v, F, intl, Ls, own) && s in Ls
    ensures Ls[s].header == s && Stored(v, NodeAt(v, s), Ls[s])
  {
    hide TreeOK, Stored, EachOwned;
  }

  /** May the file be opened or, if there is none of the name, be created? */
  ghost predicate Opens(v: Vol, F: Forest, intl: bool, d: int, name: seq<byte>, modeRead: bool, modeWrite: bool) {
    var s := EntryNamed(v, F, intl, d, name);
    && (modeRead || modeWrite)
    && if s != -1 then s !in F.chains else modeWrite && !Refused(v, F, intl, d, name, -1)
  }

  /** The handle stands at the start of the file that was there. */
  ghost predicate OpenedOld(v: Vol, L: Layout, file: AdfFile, v': Vol)
    reads file, file.currentData, file.volume, file.volume.disk, file.volume.table, file.volume.blocksChg, file.volume.pages
  {
    v' == v && file.Valid() && file.layout == L && file.pos == 0 && file.Bytes() == Bytes(v, L)
  }

  /** The handle stands at the start of a new file without bytes. */
  ghost predicate OpenedNew(v: Vol, F: Forest, intl: bool, d: int, name: seq<byte>, file: AdfFile, v': Vol, F': Forest)
    reads file, file.currentData, file.volume, file.volume.disk, file.volume.table, file.volume.blocksChg, file.volume.pages
  {
    && VolOK(v) && v.free != {}
    && var s := FirstFree(v);
       && Grew(v, F, v', F', intl, d, NewEntryNode(s, d, name, ST_FILE), false)
       && file.Valid() && file.layout == EmptyLayout(s) && file.pos == 0 && file.Bytes() == []
  }

  /**
    adfFileOpen in directory `curDirPtr`: the file with the name is opened at its start, or
    a new one is created for writing. It fails, changing nothing, exactly if no mode is
    given, the name is that of a directory, or there is none and none can be created.
  */
  method OpenFile(vol: AdfVolume, curDirPtr: int, name: seq<byte>, modeRead: bool, modeWrite: bool, ghost F: Forest,
                  ghost Ls: map<int, Layout>, ghost own: set<int>)
    returns (file: AdfFile?, ghost F': Forest)
    requires vol.Valid() && WholeOK(vol.V(), F, vol.intl, Ls, own) && curDirPtr in F.chains
    requires var s := EntryNamed(vol.V(), F, vol.intl, curDirPtr, name); s == -1 || s !in own
    modifies vol, vol.disk, vol.Bits(), vol.pages
    ensures vol.Valid()
    ensures file != null <==> Opens(old(vol.V()), F, vol.intl, curDirPtr, name, modeRead, modeWrite)
    ensures file == null ==> vol.V() == old(vol.V()) && F' == F
    ensures file != null ==>
              var s := EntryNamed(old(vol.V()), F, vol.intl, curDirPtr, name);
              && fresh(file) && file.volume == vol && file.modeRead == modeRead && file.modeWrite == modeWrite
              && if s != -1 then s in Ls && F' == F && OpenedOld(old(vol.V()), Ls[s], file, vol.V())
                 else OpenedNew(old(vol.V()), F, vol.intl, curDirPtr, name, file, vol.V(), F')
  {
    hide Linked, Hash, Upper, WholeOK, HasPlace, Listing, ReadEntry, EntryNamed, NewName, Before, UpperName, Stored, Grew, Created,
         FreeInOrder, NodeAt, TreeOK, AddEntry, Inv, Content, DiskContent;
    ghost var v, intl := vol.V(), vol.intl;
    file, F' := null, F;
    if !(modeRead || modeWrite) {
      return;
    }
    WholeLinked(v, F, intl, Ls, own);
    DirEntryReads(v, F, intl, curDirPtr);
    var parent := ReadEntryBlock(vol, curDirPtr);
    var nSect, entry, nUpdSect := NameToEntryBlk(vol, parent.value.slots, name, F, curDirPtr);
    FindsNamed(v, F, intl, curDirPtr, name, nSect, entry, nUpdSect);
    if nSect != -1 {
      EntryFacts(v, F, intl, Ls, own, nSect);
      if entry.secType != ST_FILE {
        return;
      }
      FileStored(v, F, intl, Ls, own, nSect);
      file := AdfFile.Open(vol, entry, modeRead, modeWrite, Ls[nSect]);
      return;
    }
    if !modeWrite {
      return;
    }
    file, F' := CreateAndOpen(vol, curDirPtr, name, modeRead, modeWrite, F, Ls, own);
  }

  /** The second half of adfFileOpen for a file that does not exist. */
  method CreateAndOpen(vol: AdfVolume, curDirPtr: int, name: seq<byte>, modeRead: bool, modeWrite: bool, ghost F: Forest,
                       ghost Ls: map<int, Layout>, ghost own: set<int>)
    returns (file: AdfFile?, ghost F': Forest)
    requires vol.Valid() && WholeOK(vol.V(), F, vol.intl, Ls, own) && curDirPtr in F.chains && modeWrite
    modifies vol, vol.disk, vol.Bits(), vol.pages
    ensures vol.Valid()
    ensures file != null <==> !Refused(old(vol.V()), F, vol.intl, curDirPtr, name, -1)
    ensures file == null ==> vol.V() == old(vol.V()) && F' == F
    ensures file != null ==>
              && fresh(file) && file.volume == vol && file.modeRead == modeRead && file.modeWrite == modeWrite
              && OpenedNew(old(vol.V()), F, vol.intl, curDirPtr, name, file, vol.V(), F')
  {
    hide Linked, Hash, Upper, WholeOK, HasPlace, Listing, NewName, UpperName, Stored, Grew, Created, FreeInOrder, NodeAt, TreeOK,
         AddEntry, Inv;
    ghost var v, intl := vol.V(), vol.intl;
    file := null;
    WholeTree(v, F, intl, Ls, own);
    var rc, fhdr;
    rc, fhdr, F' := CreateFile(vol, curDirPtr, name, F);
    if rc != RcOk {
      return;
    }
    ghost var s := fhdr.headerKey;
    CreatedFile(v, F, intl, Ls, own, curDirPtr, s, name);
    NewHandleIsWhole(vol.V(), fhdr, s, modeRead, modeWrite);
    file := new AdfFile(vol, fhdr, modeRead, modeWrite, EmptyLayout(s));
    NoBytes(file.S(), s);
  }

  lemma NoBytes(s: FS, key: int)
    requires Inv(s, EmptyLayout(key))
    ensures Content(s, EmptyLayout(key)) == []
  {
  }

  lemma WholeTree(v: Vol, F: Forest, intl: bool, Ls: map<int, Layout>, own: set<int>)
    requires WholeOK(v, F, intl, Ls, own)
    ensures TreeOK(v, F, intl) && VolOK(v)
  {
    hide DirsOK, FilesOK, EachOwned;
  }

  /** A new file is on the disk. */
  lemma CreatedFile(v: Vol, F: Forest, intl: bool, Ls: map<int, Layout>, own: set<int>, d: int, s: int, name: seq<byte>)
    requires WholeOK(v, F, intl, Ls, own) && d in F.chains && VolOK(v) && !Refused(v, F, intl, d, name, -1) && s == FirstFree(v)
    ensures |F.chains[d]| == HT_SIZE && s != d && s in v.free
    ensures var n := NewEntryNode(s, d, name, ST_FILE);
            Stored(Created(Take(v, s), F, d, s, n, intl), n, EmptyLayout(s))
  {
    hide Linked, Hash, Upper, WholeOK, Listing, NewName, Stored, Created, FreeInOrder, SameFiles, Grew;
    CreateWhole(v, F, intl, Ls, own, d, s, name, false);
    var n := NewEntryNode(s, d, name, ST_FILE);
    var v', F' := Created(Take(v, s), F, d, s, n, intl), WithEntry(F, d, s, n, false, intl);
    FileStored(v', F', intl, WithFile(Ls, s, false), own, s);
    GrewNode(v, F, v', F', intl, d, n);
  }

  lemma GrewNode(v: Vol, F: Forest, v': Vol, F': Forest, intl: bool, d: int, n: Node)
    requires Grew(v, F, v', F', intl, d, n, false)
    ensures NodeAt(v', n.headerKey) == n
  {
    hide TreeOK, Listing;
  }
}
