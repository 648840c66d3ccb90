/**
  A mounted volume with any number of open files: what it is for it to be whole, how that
  rests on the invariants of the directories and of the files, and what of it a change to
  the directories leaves.
*/
module Mounted {
  import opened FileUtil
  import opened Blocks
  import opened Names
  import opened FileSpec
  import opened FileInv
  import opened FileBlocks
  import opened FileRuns
  import opened FileLinks
  import opened DirInv
  import opened DirLink
  import opened DirSpec
  import opened Dir
  import opened VolumeInv
  import opened VolumeOps
  import opened VolumeFrame

  /** A volume, the forest that lists its chains, and its files, each of them open at most once. */
  datatype Disk = Disk(v: Vol, F: Forest, files: map<int, File>)

  /**
    A file with the links the disk has for it. Only a handle for reading may be out of date
    about them.
  */
  function Current(v: Vol, f: File): File {
    match f
    case Closed(_) => f
    case Open(h) => if h.modeWrite then f else Open(Relabel(h, NodeAt(v, h.hdr.headerKey)))
  }

  function WorldOf(k: Disk): World {
    World(k.v, map s | s in k.files :: Current(k.v, k.files[s]))
  }

  predicate IsWriter(k: Disk, s: int) {
    s in k.files && k.files[s].Open? && k.files[s].h.modeWrite
  }

  /**
    The directories are whole, every entry that is not a directory is a file, and every file
    is whole, be it closed or open; every sector from 2 on has one owner: it is free, or one
    of the volume's own, or a directory, or plays one role in one file.
  */
  ghost predicate DiskOK(k: Disk, intl: bool, Ls: map<int, Layout>, own: set<int>) {
    && DirsOK(k.v, k.F, intl) && InUse(k.v, k.F) && own !! k.F.chains.Keys
    && (forall s :: s in k.files <==> s in k.F.place && s !in k.F.chains)
    && WorldOK(WorldOf(k), Ls, own + k.F.chains.Keys)
    && (forall s :: s in k.files ==> s in Ls && Ls[s].header == s)
  }

  lemma DiskParts(k: Disk, intl: bool, Ls: map<int, Layout>, own: set<int>)
    requires DiskOK(k, intl, Ls, own)
    ensures VolOK(k.v) && Linked(k.v, k.F, intl) && DirsOK(k.v, k.F, intl) && InUse(k.v, k.F) && ForestOK(k.F)
    ensures own !! k.F.chains.Keys && OneOwner(k.v, Ls, own + k.F.chains.Keys)
    ensures forall s :: s in k.files <==> s in k.F.place && s !in k.F.chains
    ensures forall s :: s in k.files <==> s in Ls
    ensures forall s :: s in k.files ==> Ls[s].header == s && FileOK(k.v, Current(k.v, k.files[s]), Ls[s])
  {
    hide Linked, OneOwner, FileOK, Current;
    LinkedParts(k.v, k.F, intl);
    assert forall s :: s in WorldOf(k).files <==> s in k.files;
    assert forall s :: s in Ls.Keys <==> s in Ls;
  }

  /* ---- files in their directories ---- */

  /** What the disk says about a file's place, whether the file is open or closed. */
  lemma PlaceOnDisk(v: Vol, f: File, L: Layout)
    requires FileOK(v, f, L)
    ensures SamePlace(v, NodeAt(v, L.header), L) && IsNode(v, L.header) && L.header in L.own.Keys
    ensures L.own.Keys !! v.free && 2 <= L.header <= v.last
    ensures match f
            case Open(h) => SamePlace(v, h.hdr, L) && h.hdr.headerKey == L.header
            case Closed(header) => header == L.header
  {
    match f
    case Open(h) => InvFree(FS(v, h), L);
    case Closed(header) => StoredFree(v, v.disk[header].node, L);
  }

  /** A handle for reading that is whole has the links the disk has. */
  lemma WholeIsCurrent(v: Vol, h: Handle, L: Layout)
    requires FileOK(v, Open(h), L) && !h.modeWrite
    ensures Relabel(h, NodeAt(v, L.header)) == h && NodeAt(v, L.header) == h.hdr && h.hdr.headerKey == L.header
  {
    assert AtRest(FS(v, h), L);
  }

  /** A file that is not open for writing is on the disk. */
  lemma RestsOnDisk(v: Vol, f: File, L: Layout)
    requires FileOK(v, f, L) && (f.Open? ==> !f.h.modeWrite)
    ensures Stored(v, NodeAt(v, L.header), L) && ViewOf(v, f, L).bytes == Bytes(v, L)
  {
    if f.Open? {
      WholeIsCurrent(v, f.h, L);
      CleanContent(FS(v, f.h), L);
      assert AtRest(FS(v, f.h), L);
    }
  }

  /* ---- the files on the disk, and the others ---- */

  ghost function RestLs(k: Disk, Ls: map<int, Layout>): map<int, Layout> {
    map s | s in Ls && !IsWriter(k, s) :: Ls[s]
  }

  /** The sectors of the files that are open for writing. */
  ghost function WriterSectors(k: Disk, Ls: map<int, Layout>): set<int> {
    set s, x | s in Ls && IsWriter(k, s) && x in Ls[s].own.Keys :: x
  }

  /** With the files that are open for writing set apart, the volume is whole. */
  lemma DiskIsWhole(k: Disk, intl: bool, Ls: map<int, Layout>, own: set<int>)
    requires DiskOK(k, intl, Ls, own)
    ensures WholeOK(k.v, k.F, intl, RestLs(k, Ls), own + WriterSectors(k, Ls))
  {
    hide Linked, Stored, ForestOK, DirsOK, InUse, OneOwner, FileOK, ViewOf, Bytes, DiskOK;
    DiskParts(k, intl, Ls, own);
    var R, W := RestLs(k, Ls), WriterSectors(k, Ls);
    forall s | s in Ls ensures Ls[s].header == s && s in Ls[s].own.Keys
      ensures s in R ==> Stored(k.v, NodeAt(k.v, s), Ls[s])
    {
      PlaceOnDisk(k.v, Current(k.v, k.files[s]), Ls[s]);
      if s in R {
        RestsOnDisk(k.v, Current(k.v, k.files[s]), Ls[s]);
      }
    }
    RestAndWriters(k, Ls, own, k.v.free);
    forall s ensures s in R <==> s in k.F.place && s !in k.F.chains && s !in own + W {
      if s in Ls && IsWriter(k, s) {
        assert s in W;
      }
    }
  }

  /** Setting the writers apart, the sectors still have one owner each. */
  lemma RestAndWriters(k: Disk, Ls: map<int, Layout>, own: set<int>, free: set<int>)
    requires OneOwner(k.v, Ls, own + k.F.chains.Keys) && own !! k.F.chains.Keys
    requires forall s :: s in Ls ==> s in Ls[s].own.Keys
    ensures EachOwned(k.v, k.F, RestLs(k, Ls), own + WriterSectors(k, Ls))
    ensures forall s :: s in RestLs(k, Ls) ==> s !in own + WriterSectors(k, Ls)
    ensures forall s :: s in Ls ==> s !in own
  {
    var R, W := RestLs(k, Ls), WriterSectors(k, Ls);
    forall s | s in R ensures Ls[s].own.Keys !! W {
      forall x | x in W ensures x !in Ls[s].own.Keys {
        var t :| t in Ls && IsWriter(k, t) && x in Ls[t].own.Keys;
      }
    }
    forall x | 2 <= x <= k.v.last
      ensures x in k.v.free || x in own + W || x in k.F.chains || exists s :: s in R && x in R[s].own.Keys
    {
      if x !in k.v.free && x !in own + k.F.chains.Keys {
        var s :| s in Ls && x in Ls[s].own.Keys;
        if IsWriter(k, s) {
          assert x in W;
        } else {
          assert s in R && x in R[s].own.Keys;
        }
      }
    }
    forall s | s in R ensures s !in own + W {
      assert s in Ls[s].own.Keys;
    }
  }

  /* ---- and back ---- */

  /** Nothing of file `s` was written but, when it is not open for writing, its header. */
  ghost predicate OnlyHeader(k: Disk, v': Vol, s: int, L: Layout) {
    forall x :: x in L.own.Keys && 0 <= x < |k.v.disk| && (x != s || IsWriter(k, s)) ==> x < |v'.disk| && v'.disk[x] == k.v.disk[x]
  }

  /** A handle for reading after the header of its file got other links on the disk. */
  lemma ReaderFrame(v: Vol, v': Vol, h: Handle, L: Layout)
    requires Inv(FS(v, h), L) && !h.modeWrite && |v'.disk| == |v.disk| && v'.last == v.last
    requires Stored(v', NodeAt(v', L.header), L) && SameFile(NodeAt(v', L.header), NodeAt(v, L.header))
    requires forall x :: x in L.own.Keys && 0 <= x < |v.disk| && x != L.header ==> v'.disk[x] == v.disk[x]
    ensures Inv(FS(v', Relabel(h, NodeAt(v', L.header))), L)
    ensures Content(FS(v', Relabel(h, NodeAt(v', L.header))), L) == Content(FS(v, h), L)
  {
    WholeIsCurrent(v, h, L);
    var h' := Relabel(h, NodeAt(v', L.header));
    assert h'.hdr == NodeAt(v', L.header);
    HeaderApartFrom(v, h, L);
    forall i | 0 <= i < |L.data| ensures v'.disk[L.data[i]] == v.disk[L.data[i]] {
      assert L.own[L.data[i]] == IsData(i);
    }
    assert AtRest(FS(v', h'), L);
    SameBlocksSameContent(FS(v, h), L, FS(v', h'), L);
  }

  lemma HeaderApartFrom(v: Vol, h: Handle, L: Layout)
    requires Inv(FS(v, h), L)
    ensures h.ext.Some? ==> h.ext.value.headerKey in L.own.Keys && h.ext.value.headerKey != L.header
    ensures |L.data| > 0 ==> h.curDataPtr in L.own.Keys && h.curDataPtr != L.header
  {
    assert L.own[L.header] == IsHeader;
    if |L.data| > 0 {
      assert L.own[L.data[h.nDataBlock - 1]] == IsData(h.nDataBlock - 1);
    }
  }

  /** What a change of the directories has to leave of a file. */
  ghost predicate FileKept(k: Disk, v': Vol, s: int, L: Layout) {
    && OnlyHeader(k, v', s, L)
    && L.own.Keys !! v'.free
    && (!IsWriter(k, s) ==>
          Stored(v', NodeAt(v', s), L) && Bytes(v', L) == Bytes(k.v, L) && SameFile(NodeAt(v', s), NodeAt(k.v, s)))
  }

  lemma KeptFile(k: Disk, v': Vol, s: int, L: Layout)
    requires s in k.files && FileOK(k.v, Current(k.v, k.files[s]), L) && L.header == s && VolOK(k.v)
    requires VolOK(v') && |v'.disk| == |k.v.disk| && v'.last == k.v.last && FileKept(k, v', s, L)
    ensures FileOK(v', Current(v', k.files[s]), L)
    ensures ViewOf(v', Current(v', k.files[s]), L) == ViewOf(k.v, Current(k.v, k.files[s]), L)
  {
    match k.files[s]
    case Closed(header) =>
      RestsOnDisk(k.v, Closed(header), L);
      assert OnDisk(v', s) && v'.disk[s].Meta?;
    case Open(h) =>
      if h.modeWrite {
        OpenFrame(k.v, v', h, L);
      } else {
        var g := Relabel(h, NodeAt(k.v, h.hdr.headerKey));
        WholeIsCurrent(k.v, g, L);
        ReaderFrame(k.v, v', g, L);
        assert Relabel(g, NodeAt(v', s)) == Relabel(h, NodeAt(v', s));
      }
  }

  /** The files after a change of the directories: those before, but for one that is gone or new. */
  ghost predicate FilesKept(k: Disk, k': Disk, Ls: map<int, Layout>, Ls': map<int, Layout>) {
    && (forall s :: s in k'.files <==> s in Ls')
    && forall s :: s in k'.files ==>
         if s in k.files then k'.files[s] == k.files[s] && s in Ls && Ls'[s] == Ls[s] && OnlyHeader(k, k'.v, s, Ls[s])
         else k'.files[s] == Closed(s)
  }

  /**
    A change of the directories that leaves what is on the disk whole, and the writers alone.
    Some sectors may be left without an owner: `own'` has those as well as the ones in `own`.
  */
  lemma WholeIsDisk(k: Disk, k': Disk, intl: bool, Ls: map<int, Layout>, Ls': map<int, Layout>, own: set<int>, own': set<int>)
    requires DiskOK(k, intl, Ls, own) && FilesKept(k, k', Ls, Ls')
    requires own <= own' && forall s :: s in Ls' ==> Ls'[s].own.Keys !! own' - own
    requires forall s :: IsWriter(k, s) ==> IsWriter(k', s)
    requires forall s :: s in k'.files <==> s in k'.F.place && s !in k'.F.chains
    requires |k'.v.disk| == |k.v.disk| && k'.v.last == k.v.last
    requires WholeOK(k'.v, k'.F, intl, RestLs(k', Ls'), own' + WriterSectors(k, Ls))
    requires forall s :: s in RestLs(k, Ls) && s in Ls' ==>
               Bytes(k'.v, Ls[s]) == Bytes(k.v, Ls[s]) && SameFile(NodeAt(k'.v, s), NodeAt(k.v, s))
    ensures DiskOK(k', intl, Ls', own')
    ensures forall s :: s in k'.files && s in k.files ==>
              s in Ls && s in Ls' && ViewOf(k'.v, Current(k'.v, k'.files[s]), Ls'[s]) == ViewOf(k.v, Current(k.v, k.files[s]), Ls[s])
    ensures forall s :: s in k'.files && s !in k.files ==>
              s in Ls' && ViewOf(k'.v, Current(k'.v, k'.files[s]), Ls'[s]) == View(Bytes(k'.v, Ls'[s]), 0, false, false, false)
  {
    hide Linked, Stored, ForestOK, OneOwner, FileOK, ViewOf, Bytes, DiskOK, EachOwned, FilesOK, AllStored, Current, SameFile,
         OnlyHeader;
    var W := own' + WriterSectors(k, Ls);
    DiskParts(k, intl, Ls, own);
    WholeParts(k'.v, k'.F, intl, RestLs(k', Ls'), W);
    SameWriters(k, k', Ls, Ls');
    BackOwned(k, k', Ls, Ls', own, own');
    forall s | s in k'.files
      ensures Ls'[s].header == s && FileOK(k'.v, Current(k'.v, k'.files[s]), Ls'[s])
      ensures s in k.files ==>
                ViewOf(k'.v, Current(k'.v, k'.files[s]), Ls'[s]) == ViewOf(k.v, Current(k.v, k.files[s]), Ls[s])
      ensures s !in k.files ==>
                ViewOf(k'.v, Current(k'.v, k'.files[s]), Ls'[s]) == View(Bytes(k'.v, Ls'[s]), 0, false, false, false)
    {
      BackFile(k, k', intl, Ls, Ls', own, own', s);
    }
    BackWorld(k', intl, Ls', own');
  }

  lemma BackWorld(k: Disk, intl: bool, Ls: map<int, Layout>, own: set<int>)
    requires DirsOK(k.v, k.F, intl) && InUse(k.v, k.F) && VolOK(k.v) && own !! k.F.chains.Keys
    requires OneOwner(k.v, Ls, own + k.F.chains.Keys)
    requires forall s :: s in k.files <==> s in k.F.place && s !in k.F.chains
    requires forall s :: s in k.files <==> s in Ls
    requires forall s :: s in k.files ==> Ls[s].header == s && FileOK(k.v, Current(k.v, k.files[s]), Ls[s])
    ensures DiskOK(k, intl, Ls, own)
  {
    hide Linked, OneOwner, FileOK, Current, InUse;
    assert Ls.Keys == WorldOf(k).files.Keys;
  }

  /** The writers after the change are those before it. */
  lemma SameWriters(k: Disk, k': Disk, Ls: map<int, Layout>, Ls': map<int, Layout>)
    requires FilesKept(k, k', Ls, Ls') && forall s :: IsWriter(k, s) ==> IsWriter(k', s)
    requires forall s :: s in k.files <==> s in Ls
    ensures forall s :: IsWriter(k', s) <==> IsWriter(k, s)
    ensures WriterSectors(k', Ls') == WriterSectors(k, Ls)
  {
    hide OnlyHeader;
  }

  lemma BackOwned(k: Disk, k': Disk, Ls: map<int, Layout>, Ls': map<int, Layout>, own: set<int>, own': set<int>)
    requires OneOwner(k.v, Ls, own + k.F.chains.Keys) && own !! k.F.chains.Keys
    requires own <= own' && forall s :: s in Ls' ==> Ls'[s].own.Keys !! own' - own
    requires FilesKept(k, k', Ls, Ls') && (forall s :: IsWriter(k', s) <==> IsWriter(k, s))
    requires forall s :: s in k.files <==> s in Ls
    requires EachOwned(k'.v, k'.F, RestLs(k', Ls'), own' + WriterSectors(k, Ls))
    ensures OneOwner(k'.v, Ls', own' + k'.F.chains.Keys) && own' !! k'.F.chains.Keys
  {
    hide OnlyHeader;
    var R', W := RestLs(k', Ls'), WriterSectors(k, Ls);
    forall s | s in Ls' && s !in R' ensures IsWriter(k, s) && s in Ls && Ls'[s] == Ls[s] && Ls[s].own.Keys <= W {
      forall x | x in Ls[s].own.Keys ensures x in W {
      }
    }
    forall s | s in Ls'
      ensures Ls'[s].own.Keys !! k'.v.free && Ls'[s].own.Keys !! own' + k'.F.chains.Keys
    {
      if s in R' {
        assert R'[s] == Ls'[s];
      }
    }
    forall i, j | i in Ls' && j in Ls' && i != j ensures Ls'[i].own.Keys !! Ls'[j].own.Keys {
      if i in R' && j in R' {
        assert R'[i] == Ls'[i] && R'[j] == Ls'[j];
      } else if i in R' {
        assert R'[i] == Ls'[i];
      } else if j in R' {
        assert R'[j] == Ls'[j];
      }
    }
    forall x | 2 <= x <= k'.v.last
      ensures x in k'.v.free || x in own' + k'.F.chains.Keys || exists s :: s in Ls' && x in Ls'[s].own.Keys
    {
      if x in W {
        var s :| s in Ls && IsWriter(k, s) && x in Ls[s].own.Keys;
        assert IsWriter(k', s) && s in Ls' && x in Ls'[s].own.Keys;
      } else if x !in k'.v.free && x !in own' && x !in k'.F.chains {
        var s :| s in R' && x in R'[s].own.Keys;
        assert s in Ls' && x in Ls'[s].own.Keys;
      }
    }
  }

  lemma BackFile(k: Disk, k': Disk, intl: bool, Ls: map<int, Layout>, Ls': map<int, Layout>, own: set<int>,
                 own': set<int>, s: int)
    requires DiskOK(k, intl, Ls, own) && FilesKept(k, k', Ls, Ls') && s in k'.files && s in Ls'
    requires VolOK(k'.v) && AllStored(k'.v, RestLs(k', Ls')) && |k'.v.disk| == |k.v.disk| && k'.v.last == k.v.last
    requires OneOwner(k'.v, Ls', own' + k'.F.chains.Keys)
    requires forall t :: IsWriter(k', t) <==> IsWriter(k, t)
    requires s in RestLs(k, Ls) ==> Bytes(k'.v, Ls[s]) == Bytes(k.v, Ls[s]) && SameFile(NodeAt(k'.v, s), NodeAt(k.v, s))
    ensures Ls'[s].header == s && FileOK(k'.v, Current(k'.v, k'.files[s]), Ls'[s])
    ensures s in k.files ==>
              s in Ls && ViewOf(k'.v, Current(k'.v, k'.files[s]), Ls'[s]) == ViewOf(k.v, Current(k.v, k.files[s]), Ls[s])
    ensures s !in k.files ==>
              ViewOf(k'.v, Current(k'.v, k'.files[s]), Ls'[s]) == View(Bytes(k'.v, Ls'[s]), 0, false, false, false)
  {
    hide Linked, Stored, ForestOK, FileOK, ViewOf, Bytes, DiskOK, SameFile;
    DiskParts(k, intl, Ls, own);
    if s in k.files {
      assert !IsWriter(k, s) ==> s in RestLs(k', Ls') && s in RestLs(k, Ls);
      KeptFile(k, k'.v, s, Ls[s]);
    } else {
      assert s in RestLs(k', Ls');
      NewIsClosed(k'.v, s, Ls'[s]);
    }
  }

  /** A whole volume with all its files on the disk, none of them open. */
  ghost function ClosedDisk(v: Vol, F: Forest, Ls: map<int, Layout>): Disk {
    Disk(v, F, map s | s in Ls :: Closed(s))
  }

  lemma WholeIsClosedDisk(v: Vol, F: Forest, intl: bool, Ls: map<int, Layout>, own: set<int>)
    requires WholeOK(v, F, intl, Ls, own) && AllOnDisk(F, own)
    ensures DiskOK(ClosedDisk(v, F, Ls), intl, Ls, own)
  {
    hide Linked, Stored, FileOK, EachOwned, InUse;
    WholeParts(v, F, intl, Ls, own);
    OwnedByOne(v, F, Ls, own);
    forall s | s in Ls ensures FileOK(v, Closed(s), Ls[s]) {
      NewIsClosed(v, s, Ls[s]);
    }
    BackWorld(ClosedDisk(v, F, Ls), intl, Ls, own);
  }

  /** With no file open, the volume is whole, and all files are on the disk. */
  lemma ClosedDiskIsWhole(k: Disk, intl: bool, Ls: map<int, Layout>, own: set<int>)
    requires DiskOK(k, intl, Ls, own) && forall s :: s in k.files ==> k.files[s].Closed?
    ensures WholeOK(k.v, k.F, intl, Ls, own)
    ensures forall s :: s in k.files ==>
              s in Ls && Bytes(k.v, Ls[s]) == ViewOf(k.v, k.files[s], Ls[s]).bytes && |Bytes(k.v, Ls[s])| == NodeAt(k.v, s).byteSize
  {
    hide DiskOK, WholeOK, Linked, FileOK, OneOwner, ViewOf, NodeAt;
    DiskIsWhole(k, intl, Ls, own);
    DiskParts(k, intl, Ls, own);
    assert RestLs(k, Ls) == Ls;
    assert own + WriterSectors(k, Ls) == own;
    forall s | s in k.files ensures Bytes(k.v, Ls[s]) == ViewOf(k.v, k.files[s], Ls[s]).bytes {
      RestsOnDisk(k.v, k.files[s], Ls[s]);
    }
  }

  lemma OwnedByOne(v: Vol, F: Forest, Ls: map<int, Layout>, own: set<int>)
    requires EachOwned(v, F, Ls, own)
    ensures OneOwner(v, Ls, own + F.chains.Keys) && own !! F.chains.Keys
  {
  }

  lemma NewIsClosed(v: Vol, s: int, L: Layout)
    requires Stored(v, NodeAt(v, s), L) && L.header == s
    ensures FileOK(v, Closed(s), L) && ViewOf(v, Closed(s), L) == View(Bytes(v, L), 0, false, false, false)
  {
    StoredFree(v, NodeAt(v, s), L);
  }
}
