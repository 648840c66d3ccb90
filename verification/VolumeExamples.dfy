/**
  Volumes on which the code falls short of what one would expect of it: a state for each of
  the failing sides of the exact conditions on directories, bitmap and root block.
*/
module VolumeExamples {
  import opened Blocks
  import opened Names
  import opened FileSpec
  import opened FileInv
  import FileRuns
  import FileSpace
  import FileUtil
  import FileWrite
  import opened DirInv
  import opened DirLink
  import opened DirSpec
  import opened Dir
  import opened DirLost
  import opened DirChange
  import opened DirTouch
  import opened DirTree
  import opened VolumeInv
  import opened VolumeOps
  import opened VolumeFrame
  import opened FileOpen
  import opened Mounted
  import opened VolumeRuns
  import opened Salvage
  import opened Undelete
  import opened Rebuild
  import opened BitmapPages
  import opened VolumeFormat
  import Raw

  const ROOT := 3
  const LAST := 20
  const NAME: seq<byte> := [65]

  /** Another name of the chain of `NAME`. */
  const SAME_CHAIN: seq<byte> := [137]

  const OTHER: seq<byte> := [66]

  /* ---- a root with two entries, on sectors 10 and 11 ---- */

  function V0(): Vol { BlankVol(ROOT, LAST, {}) }

  function F0(): Forest { EmptyForest(ROOT) }

  lemma NewVolume(intl: bool)
    ensures WholeOK(V0(), F0(), intl, map[], {})
    ensures 10 in V0().free && 11 in V0().free && V0().root == ROOT && V0().last == LAST
    ensures Listing(V0(), F0(), ROOT) == map[]
  {
    BlankIsFormatted(ROOT, LAST, {});
    FormattedWhole(V0(), intl, {});
    var k := Disk(V0(), F0(), map[]);
    DiskIsWhole(k, intl, map[], {});
    assert RestLs(k, map[]) == map[] && WriterSectors(k, map[]) == {};
    assert {} + WriterSectors(k, map[]) == {};
  }

  function Entry(s: int, d: int, name: seq<byte>, isDir: bool): Node {
    NewEntryNode(s, d, name, if isDir then ST_DIR else ST_FILE)
  }

  function V1(intl: bool, isDir: bool): Vol {
    Created(Take(V0(), 10), F0(), ROOT, 10, Entry(10, ROOT, NAME, isDir), intl)
  }

  function F1(intl: bool, isDir: bool): Forest {
    WithEntry(F0(), ROOT, 10, Entry(10, ROOT, NAME, isDir), isDir, intl)
  }

  /** The first entry. */
  lemma FirstEntry(intl: bool, isDir: bool)
    ensures var v, F, Ls := V1(intl, isDir), F1(intl, isDir), WithFile(map[], 10, isDir);
            && WholeOK(v, F, intl, Ls, {}) && v.root == ROOT && v.last == LAST && 11 in v.free
            && ROOT in F.chains && |F.chains[ROOT]| == HT_SIZE && (10 in F.chains <==> isDir)
            && 10 in F.place && F.place[10] == Place(ROOT, Hash(NAME, intl), 0)
            && F.chains[ROOT][Hash(NAME, intl)] == [10]
            && Listing(v, F, ROOT) == map[10 := NAME]
            && (isDir ==> Listing(v, F, 10) == map[])
            && NodeAt(v, 10) == Entry(10, ROOT, NAME, isDir)
  {
    hide WholeOK, Created, Hash, Upper, Listing, V0;
    NewVolume(intl);
    CreateWhole(V0(), F0(), intl, map[], {}, ROOT, 10, NAME, isDir);
    CreatedShape(Take(V0(), 10), F0(), ROOT, 10, Entry(10, ROOT, NAME, isDir), intl);
    GrewLists(V0(), F0(), V1(intl, isDir), F1(intl, isDir), intl, ROOT, Entry(10, ROOT, NAME, isDir), isDir);
    ForestFacts(V0(), F0(), intl, map[], {});
    NothingListed(V0(), F0(), 10);
  }

  lemma ForestFacts(v: Vol, F: Forest, intl: bool, Ls: map<int, Layout>, own: set<int>)
    requires WholeOK(v, F, intl, Ls, own)
    ensures ForestOK(F)
  {
    hide Linked;
    WholeParts(v, F, intl, Ls, own);
    LinkedParts(v, F, intl);
  }

  lemma GrewLists(v: Vol, F: Forest, v': Vol, F': Forest, intl: bool, d: int, n: Node, isDir: bool)
    requires Grew(v, F, v', F', intl, d, n, isDir)
    ensures Listing(v', F', d) == Listing(v, F, d)[n.headerKey := n.name]
    ensures forall e :: e != d ==> Listing(v', F', e) == Listing(v, F, e)
    ensures NodeAt(v', n.headerKey) == n && v'.free == v.free - {n.headerKey} && v'.last == v.last
  {
    hide TreeOK, Listing, Upper;
  }

  function V2(intl: bool, isDir: bool, d: int, name: seq<byte>): Vol
    requires d in F1(intl, isDir).chains && |F1(intl, isDir).chains[d]| == HT_SIZE
  {
    Created(Take(V1(intl, isDir), 11), F1(intl, isDir), d, 11, Entry(11, d, name, isDir), intl)
  }

  function F2(intl: bool, isDir: bool, d: int, name: seq<byte>): Forest
    requires d in F1(intl, isDir).chains && |F1(intl, isDir).chains[d]| == HT_SIZE && d != 11
  {
    WithEntry(F1(intl, isDir), d, 11, Entry(11, d, name, isDir), isDir, intl)
  }

  ghost function Files2(isDir: bool): map<int, Layout> {
    WithFile(WithFile(map[], 10, isDir), 11, isDir)
  }

  /** The second entry, in the root or, when both are directories, in the first one. */
  lemma SecondEntry(intl: bool, isDir: bool, d: int, name: seq<byte>)
    requires d == ROOT || (isDir && d == 10)
    requires |name| <= MAX_NAME_LEN && (d == ROOT ==> Upper(name, intl) != Upper(NAME, intl))
    ensures d in F1(intl, isDir).chains && |F1(intl, isDir).chains[d]| == HT_SIZE
    ensures var v, F := V2(intl, isDir, d, name), F2(intl, isDir, d, name);
            && WholeOK(v, F, intl, Files2(isDir), {}) && ForestOK(F) && v.last == LAST
            && (forall x :: x in F.place <==> x == 10 || x == 11)
            && (forall x :: x in F.chains <==> x == ROOT || (isDir && (x == 10 || x == 11)))
            && F.place[10] == Place(ROOT, Hash(NAME, intl), 0) && F.place[11].dir == d
            && Listing(v, F, d) == Listing(V1(intl, isDir), F1(intl, isDir), d)[11 := name]
            && SameFiles(V1(intl, isDir), v, WithFile(map[], 10, isDir)) && NodeAt(v, 11) == Entry(11, d, name, isDir)
            && (d == ROOT && Hash(name, intl) == Hash(NAME, intl) ==> F.chains[ROOT][Hash(NAME, intl)] == [10, 11])
  {
    hide WholeOK, Created, Hash, Upper, Listing, V0, V1, NodeAt, SameFiles;
    FirstEntry(intl, isDir);
    var v1, F1 := V1(intl, isDir), F1(intl, isDir);
    ForestFacts(v1, F1, intl, WithFile(map[], 10, isDir), {});
    var m := Listing(v1, F1, d);
    assert NewName(v1, F1, intl, d, name);
    CreateWhole(v1, F1, intl, WithFile(map[], 10, isDir), {}, d, 11, name, isDir);
    GrewLists(v1, F1, V2(intl, isDir, d, name), F2(intl, isDir, d, name), intl, d, Entry(11, d, name, isDir), isDir);
    ForestFacts(V2(intl, isDir, d, name), F2(intl, isDir, d, name), intl, Files2(isDir), {});
    SecondPlace(intl, isDir, d, name);
  }

  lemma SecondPlace(intl: bool, isDir: bool, d: int, name: seq<byte>)
    requires d in F1(intl, isDir).chains && |F1(intl, isDir).chains[d]| == HT_SIZE && (d == ROOT || d == 10)
    requires F1(intl, isDir).place[10] == Place(ROOT, Hash(NAME, intl), 0)
    requires ROOT in F1(intl, isDir).chains && |F1(intl, isDir).chains[ROOT]| == HT_SIZE
    requires F1(intl, isDir).chains[ROOT][Hash(NAME, intl)] == [10]
    ensures var F := F2(intl, isDir, d, name);
            && (forall x :: x in F.place <==> x == 10 || x == 11)
            && (forall x :: x in F.chains <==> x == ROOT || (isDir && (x == 10 || x == 11)))
            && F.place[10] == Place(ROOT, Hash(NAME, intl), 0) && F.place[11].dir == d
            && (d == ROOT && Hash(name, intl) == Hash(NAME, intl) ==> F.chains[ROOT][Hash(NAME, intl)] == [10, 11])
  {
    hide Hash;
    assert [10] + [11] == [10, 11];
  }

  lemma NamesDiffer(intl: bool)
    ensures Hash(SAME_CHAIN, intl) == Hash(NAME, intl)
    ensures Upper(SAME_CHAIN, intl) != Upper(NAME, intl) && Upper(OTHER, intl) != Upper(NAME, intl)
  {
    assert HashUpTo(NAME, intl, 1) == 78 && HashUpTo(SAME_CHAIN, intl, 1) == 150;
    assert Upper(SAME_CHAIN, intl)[0] == 137 && Upper(NAME, intl)[0] == 65 && Upper(OTHER, intl)[0] == 66;
  }

  /** The volume with the files `NAME` and `SAME_CHAIN` in one chain. */
  lemma TwoInChain(intl: bool)
    ensures ROOT in F1(intl, false).chains && |F1(intl, false).chains[ROOT]| == HT_SIZE
    ensures var v, F := V2(intl, false, ROOT, SAME_CHAIN), F2(intl, false, ROOT, SAME_CHAIN);
            && WholeOK(v, F, intl, Files2(false), {}) && Linked(v, F, intl) && v.last == LAST
            && (forall x :: x in F.place <==> x == 10 || x == 11) && (forall x :: x in F.chains <==> x == ROOT)
            && HasPlace(F, 10) && F.place[10].dir == ROOT
            && NodeAt(v, 10).nextSameHash == 11 && NodeAt(V1(intl, false), 10).nextSameHash == 0
            && SameFile(NodeAt(v, 10), NodeAt(V1(intl, false), 10))
  {
    hide WholeOK, Linked, Hash, Upper, Listing, V1, V2, F1, F2, Stored, Bytes, HashUpTo;
    NamesDiffer(intl);
    FirstEntry(intl, false);
    SecondEntry(intl, false, ROOT, SAME_CHAIN);
    var v, F := V2(intl, false, ROOT, SAME_CHAIN), F2(intl, false, ROOT, SAME_CHAIN);
    WholeLinked(v, F, intl, Files2(false), {});
    LinkedEntry(v, F, intl, 10);
    assert 10 in WithFile(map[], 10, false);
  }

  /* ---- each failing side ---- */

  /** Renaming the first file onto the name of the second one: it is in no directory any more. */
  lemma RenameLosesEntry(intl: bool)
    ensures ROOT in F1(intl, false).chains && |F1(intl, false).chains[ROOT]| == HT_SIZE
    ensures var v, F := V2(intl, false, ROOT, OTHER), F2(intl, false, ROOT, OTHER);
            && WholeOK(v, F, intl, Files2(false), {})
            && 10 in F.place && HasPlace(F, 10) && EntryNamed(v, F, intl, ROOT, NAME) == 10
            && Taken(v, F, intl, ROOT, OTHER, 10)
            && RenameResult(v, F, intl, Files2(false), {}, 10, ROOT, OTHER, TakenOut(v, F, 10, ROOT, OTHER), Unlink(F, 10))
            && 10 !in Unlink(F, 10).place
  {
    hide WholeOK, Linked, Hash, Upper, Listing, V1, V2, F1, F2, HashUpTo, RenameResult, TakenOut;
    NamesDiffer(intl);
    FirstEntry(intl, false);
    SecondEntry(intl, false, ROOT, OTHER);
    var v, F := V2(intl, false, ROOT, OTHER), F2(intl, false, ROOT, OTHER);
    WholeLinked(v, F, intl, Files2(false), {});
    LinkedEntry(v, F, intl, 10);
    var m := Listing(v, F, ROOT);
    assert 11 in m - {10} && (m - {10})[11] == OTHER;
    ListedName(v, F, ROOT, 10);
    EntryNamedIs(v, F, intl, ROOT, NAME);
    assert NamesEntry(v, F, intl, ROOT, NAME, 10);
    RenameResults(v, F, intl, Files2(false), {}, 10, ROOT, OTHER);
  }

  /** No entry was ever written to sector 15. */
  lemma NothingAt15(intl: bool)
    requires ROOT in F1(intl, false).chains && |F1(intl, false).chains[ROOT]| == HT_SIZE
    requires F1(intl, false).chains[ROOT][Hash(NAME, intl)] == [10] && ForestOK(F1(intl, false))
    requires forall x :: x in F1(intl, false).place ==> x == 10
    ensures ReadEntry(V2(intl, false, ROOT, OTHER), 15) == None
  {
    hide Created, Hash, F1, ForestOK, LinkPoint;
    CreatedTouches(V1(intl, false), F1(intl, false), ROOT, 11, Entry(11, ROOT, OTHER, false), intl);
    CreatedTouches(V0(), F0(), ROOT, 10, Entry(10, ROOT, NAME, false), intl);
    LinkPointKnown(F1(intl, false), ROOT, Hash(OTHER, intl));
    LinkPointKnown(F0(), ROOT, Hash(NAME, intl));
    assert V0().disk[15] == Data(ZeroBuf());
  }

  lemma OnlyTen(intl: bool)
    ensures forall x :: x in F1(intl, false).place ==> x == 10
  {
    hide Hash;
  }

  /** Renaming the first file into a sector that cannot be read: it is in no directory any more. */
  lemma RenameIntoNowhere(intl: bool)
    ensures ROOT in F1(intl, false).chains && |F1(intl, false).chains[ROOT]| == HT_SIZE
    ensures var v, F := V2(intl, false, ROOT, OTHER), F2(intl, false, ROOT, OTHER);
            && WholeOK(v, F, intl, Files2(false), {}) && 15 !in F.chains && Barren(v, 15)
            && 10 in F.place && HasPlace(F, 10)
            && RenameResult(v, F, intl, Files2(false), {}, 10, 15, OTHER, Misplaced(v, F, intl, 10, 15, OTHER), Unlink(F, 10))
            && NoEntryOf(Misplaced(v, F, intl, 10, 15, OTHER), intl, 10)
  {
    hide WholeOK, Linked, Hash, Upper, Listing, V1, V2, F1, F2, HashUpTo, RenameResult, Misplaced, NoEntryOf, ReadEntry, ForestOK;
    NamesDiffer(intl);
    FirstEntry(intl, false);
    ForestFacts(V1(intl, false), F1(intl, false), intl, WithFile(map[], 10, false), {});
    SecondEntry(intl, false, ROOT, OTHER);
    OnlyTen(intl);
    NothingAt15(intl);
    var v, F := V2(intl, false, ROOT, OTHER), F2(intl, false, ROOT, OTHER);
    WholeLinked(v, F, intl, Files2(false), {});
    RenameResults(v, F, intl, Files2(false), {}, 10, 15, OTHER);
    IntoNoDirectory(v, F, intl, 10, 15, OTHER);
  }

  /** Renaming the first file into the second one: the second one is a directory now. */
  lemma RenameTurnsFile(intl: bool)
    ensures ROOT in F1(intl, false).chains && |F1(intl, false).chains[ROOT]| == HT_SIZE
    ensures var v, F := V2(intl, false, ROOT, OTHER), F2(intl, false, ROOT, OTHER);
            && WholeOK(v, F, intl, Files2(false), {}) && 11 in Files2(false) && 11 !in F.chains && Barren(v, 11)
            && 10 in F.place && HasPlace(F, 10)
            && RenameResult(v, F, intl, Files2(false), {}, 10, 11, OTHER, Misplaced(v, F, intl, 10, 11, OTHER), Unlink(F, 10))
            && NodeAt(Misplaced(v, F, intl, 10, 11, OTHER), 11).secType == ST_DIR
  {
    hide WholeOK, Linked, Hash, Upper, Listing, V1, V2, F1, F2, HashUpTo, RenameResult, Misplaced, NoEntryOf, ForestOK, NodeAt, Barren;
    NamesDiffer(intl);
    FirstEntry(intl, false);
    SecondEntry(intl, false, ROOT, OTHER);
    var v, F := V2(intl, false, ROOT, OTHER), F2(intl, false, ROOT, OTHER);
    assert 11 in Files2(false);
    FileIsBarren(v, F, intl, Files2(false), {}, 11);
    WholeLinked(v, F, intl, Files2(false), {});
    RenameResults(v, F, intl, Files2(false), {}, 10, 11, OTHER);
    IntoNoDirectory(v, F, intl, 10, 11, OTHER);
  }

  /** Creating a file below a file: that one is a directory now. */
  lemma CreateTurnsFile(intl: bool)
    ensures var v, F := V1(intl, false), F1(intl, false);
            && WholeOK(v, F, intl, WithFile(map[], 10, false), {}) && VolOK(v) && TakesEntry(v, intl, 10, OTHER)
            && var n := NewEntryNode(FirstFree(v), 0, OTHER, ST_FILE);
               NodeAt(CreatedAt(v, intl, 10, NodeAt(v, 10), n), 10).secType == ST_DIR
  {
    hide WholeOK, Linked, Hash, Upper, Listing, V1, F1, HashUpTo, NodeAt, CreatedAt, FreeInOrder;
    FirstEntry(intl, false);
    var v, F, Ls := V1(intl, false), F1(intl, false), WithFile(map[], 10, false);
    assert 10 in Ls;
    FileIsBarren(v, F, intl, Ls, {}, 10);
    assert VolOK(v) by { WholeParts(v, F, intl, Ls, {}); }
    CreatedInFile(v, F, intl, Ls, {}, 10, OTHER, NewEntryNode(FirstFree(v), 0, OTHER, ST_FILE));
  }

  lemma ListedName(v: Vol, F: Forest, d: int, s: int)
    requires s in F.place && F.place[s].dir == d
    ensures s in Listing(v, F, d) && Listing(v, F, d)[s] == NameOf(v, s)
  {
  }

  /** A file is opened, another one is created behind it in its chain, and the first one is flushed. */
  lemma FlushBreaksChain(intl: bool)
    ensures ROOT in F1(intl, false).chains && |F1(intl, false).chains[ROOT]| == HT_SIZE
    ensures var v, F := V2(intl, false, ROOT, SAME_CHAIN), F2(intl, false, ROOT, SAME_CHAIN);
            var h := NewHandle(NodeAt(V1(intl, false), 10), true, true);
            Linked(v, F, intl) && !Linked(Flush(FS(v, h)).s.v, F, intl)
  {
    hide WholeOK, Linked, Hash, V1, V2, F1, F2, Flush, SetNode, NodeAt, SameFile;
    TwoInChain(intl);
    var v, F := V2(intl, false, ROOT, SAME_CHAIN), F2(intl, false, ROOT, SAME_CHAIN);
    var m := NodeAt(V1(intl, false), 10);
    FileStored(v, F, intl, Files2(false), {}, 10);
    SameFileBack(NodeAt(v, 10), m);
    HeaderChange(v, 10, m, EmptyLayout(10));
    NewHandleIsWhole(SetNode(v, 10, m), m, 10, true, true);
    FlushOfStaleHeader(v, NewHandle(m, true, true), F, intl, 10, m, EmptyLayout(10));
  }

  lemma SameFileBack(n: Node, m: Node)
    requires SameFile(n, m)
    ensures SameFile(m, n)
  {
  }

  /**
    A file is created and removed: its sector is not free, no directory lists it, and it
    cannot be undeleted. Only rebuilding the bitmap makes it free.
  */
  lemma RemoveLosesHeader(intl: bool)
    ensures var v, F, Ls := V1(intl, false), F1(intl, false), WithFile(map[], 10, false);
            && WholeOK(v, F, intl, Ls, {}) && EntryNamed(v, F, intl, ROOT, NAME) == 10
            && Removable(v, F, intl, ROOT, NAME) && IsEmptyFile(v, F, 10)
            && 10 in F.place && HasPlace(F, 10)
            && var v', F' := RemovedVol(v, F, Ls, 10), WithoutEntry(F, 10);
               && RemoveResult(v, F, intl, Ls, {}, 10, v', F', map[])
               && 10 !in v'.free && 10 !in F'.place
               && ROOT in F'.chains && |F'.chains[ROOT]| == HT_SIZE
               && UndelResult(v', F', intl, ROOT, 10, NodeAt(v', 10)) == v'
               && 10 in Rebuilt(v'.free, v', {10}, [], Unlisted(F', map[], ROOT))
  {
    hide WholeOK, Linked, Hash, Upper, Listing, V1, F1, HashUpTo, RemoveResult, RemovedVol, WithoutEntry, UndelResult;
    FirstEntry(intl, false);
    var v, F, Ls := V1(intl, false), F1(intl, false), WithFile(map[], 10, false);
    WholeLinked(v, F, intl, Ls, {});
    LinkedEntry(v, F, intl, 10);
    ListedName(v, F, ROOT, 10);
    EntryNamedIs(v, F, intl, ROOT, NAME);
    assert NamesEntry(v, F, intl, ROOT, NAME, 10);
    assert 10 in Ls && Ls - {10} == map[];
    RemoveResults(v, F, intl, Ls, {}, 10);
    EmptyStaysLost(v, F, intl, Ls, {}, 10);
    RemoveWhole(v, F, intl, Ls, {}, 10);
  }

  /* ---- a byte in the first of two files of one chain ---- */

  const OPEN := FileRuns.OpenFile(10, true, true)
  const WRITE := FileRuns.WriteFile(10, [7])
  const CLOSE := FileRuns.CloseFile(10)

  ghost function TwoFiles(intl: bool): Disk
    requires ROOT in F1(intl, false).chains && |F1(intl, false).chains[ROOT]| == HT_SIZE
  {
    ClosedDisk(V2(intl, false, ROOT, SAME_CHAIN), F2(intl, false, ROOT, SAME_CHAIN), Files2(false))
  }

  /** The first file is opened, a byte is written, and it is closed. */
  ghost function WithByte(intl: bool): Disk
    requires ROOT in F1(intl, false).chains && |F1(intl, false).chains[ROOT]| == HT_SIZE
  {
    UseFile(UseFile(UseFile(TwoFiles(intl), OPEN), WRITE), CLOSE)
  }

  lemma TwoFilesWhole(intl: bool)
    ensures ROOT in F1(intl, false).chains && |F1(intl, false).chains[ROOT]| == HT_SIZE
    ensures var k, Ls := TwoFiles(intl), Files2(false);
            && DiskOK(k, intl, Ls, {}) && k.v.free != {}
            && FileViews(k, Ls) == map[10 := FileRuns.View([], 0, false, false, false), 11 := FileRuns.View([], 0, false, false, false)]
            && (forall s :: s in k.files <==> s == 10 || s == 11) && (forall s :: s in k.files ==> k.files[s].Closed?)
  {
    hide WholeOK, Linked, Hash, V1, V2, F1, F2, DiskOK, FileRuns.ViewOf, SameFile, NodeAt, EmptyLayout, FileViews;
    TwoInChain(intl);
    var v, F, Ls, k := V2(intl, false, ROOT, SAME_CHAIN), F2(intl, false, ROOT, SAME_CHAIN), Files2(false), TwoFiles(intl);
    WholeIsClosedDisk(v, F, intl, Ls, {});
    Sector12Free(v, F, intl, Ls);
    forall s | s in k.files ensures FileRuns.ViewOf(v, k.files[s], Ls[s]) == FileRuns.View([], 0, false, false, false) {
      EmptyView(v, F, intl, Ls, s);
    }
    TwoViews(k, Ls);
  }

  /** A file without blocks is one without bytes. */
  lemma EmptyView(v: Vol, F: Forest, intl: bool, Ls: map<int, Layout>, s: int)
    requires WholeOK(v, F, intl, Ls, {}) && s in F.place && s in Ls && Ls[s] == EmptyLayout(s)
    ensures FileRuns.ViewOf(v, FileRuns.Closed(s), Ls[s]) == FileRuns.View([], 0, false, false, false)
  {
    hide WholeOK, Stored, FreedBy, LeftBy;
    FreedOrLeft(v, F, intl, Ls, {}, s);
  }

  lemma TwoViews(k: Disk, Ls: map<int, Layout>)
    requires forall s :: s in k.files <==> s == 10 || s == 11
    requires forall s :: s in k.files ==> s in Ls && k.files[s].Closed?
    requires forall s :: s in k.files ==> FileRuns.ViewOf(k.v, k.files[s], Ls[s]) == FileRuns.View([], 0, false, false, false)
    ensures FileViews(k, Ls) == map[10 := FileRuns.View([], 0, false, false, false), 11 := FileRuns.View([], 0, false, false, false)]
  {
    hide FileRuns.ViewOf;
    var none := FileRuns.View([], 0, false, false, false);
    forall s ensures (s in FileViews(k, Ls) <==> s == 10 || s == 11) && (s in k.files ==> FileViews(k, Ls)[s] == none) {
      assert s in k.files ==> Current(k.v, k.files[s]) == k.files[s];
    }
  }

  lemma Sector12Free(v: Vol, F: Forest, intl: bool, Ls: map<int, Layout>)
    requires WholeOK(v, F, intl, Ls, {}) && v.last == LAST && 12 !in F.chains
    requires forall s :: s in Ls ==> Ls[s] == EmptyLayout(s) && s != 12
    ensures 12 in v.free
  {
    hide TreeOK, FilesOK;
  }

  /** The handle of a file that is open for writing. */
  lemma WriterFacts(k: Disk, intl: bool, Ls: map<int, Layout>, own: set<int>, s: int)
    requires DiskOK(k, intl, Ls, own) && s in FileViews(k, Ls) && FileViews(k, Ls)[s].open && FileViews(k, Ls)[s].modeWrite
    ensures s in k.files && k.files[s].Open?
    ensures k.files[s].h.pos == FileViews(k, Ls)[s].pos && k.files[s].h.hdr.byteSize == |FileViews(k, Ls)[s].bytes|
  {
    hide DiskOK, Content;
    var f := Current(k.v, k.files[s]);
    if f.Open? {
      ContentLength(FS(k.v, f.h), Ls[s]);
    }
  }

  /** Opening a file takes no sector. */
  lemma OpenTakesNothing(k: Disk, k': Disk, intl: bool, Ls: map<int, Layout>, Ls': map<int, Layout>, own: set<int>, op: FileRuns.Op)
    requires DiskOK(k, intl, Ls, own) && DiskOK(k', intl, Ls', own) && k'.v.last == k.v.last && op.OpenFile?
    requires k'.F == k.F && FileViews(k', Ls') == FileRuns.ViewStep(FileViews(k, Ls), op)
    ensures |k'.v.free| == |k.v.free|
  {
    hide DiskOK, TreeOf;
    assert own + {} == own;
    CapacityKept(k, k', intl, Ls, Ls', own, {});
    TreeDirs(k, Ls);
    TreeDirs(k', Ls');
    assert FileSpace.SizesOf(FileViews(k', Ls')) == FileSpace.SizesOf(FileViews(k, Ls));
    assert |TreeOf(k, Ls).dirs| == |TreeOf(k, Ls).dirs.Keys|;
    assert |TreeOf(k', Ls').dirs| == |TreeOf(k', Ls').dirs.Keys|;
  }

  /** After that the volume is whole, both files are closed, and the first one has the byte. */
  lemma ByteWritten(intl: bool) returns (Ls: map<int, Layout>)
    ensures ROOT in F1(intl, false).chains && |F1(intl, false).chains[ROOT]| == HT_SIZE
    ensures var k := WithByte(intl);
            && DiskOK(k, intl, Ls, {}) && k.F == TwoFiles(intl).F
            && FileViews(k, Ls) == map[10 := FileRuns.View([7], 0, false, false, false), 11 := FileRuns.View([], 0, false, false, false)]
  {
    hide DiskOK, TreeOf, V1, V2, F1, F2, TwoFiles, UseFile, FileViews, Listing;
    TwoFilesWhole(intl);
    var k0, Ls0 := TwoFiles(intl), Files2(false);
    var k1 := UseFile(k0, OPEN);
    var Ls1 := FileStep(k0, intl, Ls0, {}, OPEN);
    WriterFacts(k1, intl, Ls1, {}, 10);
    OpenTakesNothing(k0, k1, intl, Ls0, Ls1, {}, OPEN);
    OneByteMore();
    var k2 := UseFile(k1, WRITE);
    var Ls2 := FileStep(k1, intl, Ls1, {}, WRITE);
    Ls := FileStep(k2, intl, Ls2, {}, CLOSE);
    assert FileWrite.Splice([], 0, [7]) == [7];
  }

  lemma OneByteMore()
    ensures FileUtil.Size2Blocks(1, FileUtil.FFS_BLOCK) == FileUtil.Size2Blocks(0, FileUtil.FFS_BLOCK) + 1
  {
  }

  /* ---- each failing side, continued ---- */

  lemma ByteOnDisk(k: Disk, intl: bool, Ls: map<int, Layout>)
    requires DiskOK(k, intl, Ls, {})
    requires FileViews(k, Ls) == map[10 := FileRuns.View([7], 0, false, false, false), 11 := FileRuns.View([], 0, false, false, false)]
    ensures WholeOK(k.v, k.F, intl, Ls, {}) && 10 in Ls && Bytes(k.v, Ls[10]) == [7] && NodeAt(k.v, 10).byteSize == 1
  {
    hide DiskOK, WholeOK, Bytes, NodeAt, Content;
    FileViewsKeys(k, intl, Ls, {});
    forall s | s in k.files ensures k.files[s].Closed? {
      assert s in FileViews(k, Ls) && !FileViews(k, Ls)[s].open;
    }
    ClosedDiskIsWhole(k, intl, Ls, {});
  }

  lemma NotLastInChain(intl: bool, k: Disk, Ls: map<int, Layout>)
    requires ROOT in F1(intl, false).chains && |F1(intl, false).chains[ROOT]| == HT_SIZE
    requires WholeOK(k.v, k.F, intl, Ls, {}) && k.F == F2(intl, false, ROOT, SAME_CHAIN)
    ensures 10 in k.F.place && HasPlace(k.F, 10) && k.F.place[10].dir == ROOT && NodeAt(k.v, 10).nextSameHash != 0
  {
    hide WholeOK, Linked, Hash, V1, V2, F1, F2, Upper, Listing, SameFiles, HashUpTo;
    NamesDiffer(intl);
    SecondEntry(intl, false, ROOT, SAME_CHAIN);
    WholeLinked(k.v, k.F, intl, Ls, {});
    LastHasNoNext(k.v, k.F, intl, 10);
  }

  /** The first of two files of one chain, which has a byte, is removed and undeleted: its chain cannot be walked any more. */
  lemma UndeleteMakesCycle(intl: bool) returns (Ls: map<int, Layout>)
    ensures ROOT in F1(intl, false).chains && |F1(intl, false).chains[ROOT]| == HT_SIZE
    ensures var k := WithByte(intl);
            && WholeOK(k.v, k.F, intl, Ls, {}) && 10 in k.F.place && HasPlace(k.F, 10) && 10 in Ls && Bytes(k.v, Ls[10]) == [7]
            && var v', F' := RemovedVol(k.v, k.F, Ls, 10), WithoutEntry(k.F, 10);
               && ROOT in F'.chains && |F'.chains[ROOT]| == HT_SIZE
               && !exists G: Forest :: ROOT in G.chains && Linked(UndelResult(v', F', intl, ROOT, 10, NodeAt(v', 10)), G, intl)
  {
    hide WholeOK, Linked, V1, V2, F1, UndelResult, RemovedVol, WithoutEntry, DiskOK, Bytes, Stored, Hash, NodeAt;
    Ls := ByteWritten(intl);
    var k := WithByte(intl);
    ByteOnDisk(k, intl, Ls);
    NotLastInChain(intl, k, Ls);
    UndeleteExact(k.v, k.F, intl, Ls, {}, 10);
  }

  /** The first of two empty directories of one chain is removed and undeleted: likewise. */
  lemma UndelDirMakesCycle(intl: bool)
    ensures ROOT in F1(intl, true).chains && |F1(intl, true).chains[ROOT]| == HT_SIZE
    ensures var v, F, Ls := V2(intl, true, ROOT, SAME_CHAIN), F2(intl, true, ROOT, SAME_CHAIN), Files2(true);
            && WholeOK(v, F, intl, Ls, {}) && 10 in F.place && HasPlace(F, 10) && 10 in F.chains && IsEmptyDir(F, 10)
            && var v', F' := RemovedVol(v, F, Ls, 10), WithoutEntry(F, 10);
               && ROOT in F'.chains && |F'.chains[ROOT]| == HT_SIZE
               && !exists G: Forest :: ROOT in G.chains && Linked(UndelDirResult(v', F', intl, ROOT, NodeAt(v', 10)), G, intl)
  {
    hide WholeOK, Linked, Hash, V1, V2, F1, F2, Upper, Listing, SameFiles, HashUpTo, UndelDirResult, RemovedVol, WithoutEntry, NodeAt,
         IsEmptyDir;
    NamesDiffer(intl);
    FirstEntry(intl, true);
    SecondEntry(intl, true, ROOT, SAME_CHAIN);
    var v, F, Ls := V2(intl, true, ROOT, SAME_CHAIN), F2(intl, true, ROOT, SAME_CHAIN), Files2(true);
    NothingInFirst(intl);
    WholeLinked(v, F, intl, Ls, {});
    LastHasNoNext(v, F, intl, 10);
    UndelDirExact(v, F, intl, Ls, {}, 10);
  }

  lemma NothingInFirst(intl: bool)
    requires ROOT in F1(intl, true).chains && |F1(intl, true).chains[ROOT]| == HT_SIZE
    requires 10 in F2(intl, true, ROOT, SAME_CHAIN).chains
    ensures IsEmptyDir(F2(intl, true, ROOT, SAME_CHAIN), 10)
  {
    hide Hash;
  }

  /** A directory is undeleted under a name that is taken: it is refused, and its sector is used from then on. */
  lemma UndelDirTakesSector(intl: bool)
    ensures var v, F, Ls, n := V1(intl, true), F1(intl, true), WithFile(map[], 10, true), Entry(11, ROOT, NAME, true);
            && WholeOK(v, F, intl, Ls, {}) && ROOT in F.chains && |F.chains[ROOT]| == HT_SIZE
            && 11 in v.free && DirMayReturn(v, ROOT, n)
            && 11 !in UndelDirResult(v, F, intl, ROOT, n).free && WholeOK(UndelDirResult(v, F, intl, ROOT, n), F, intl, Ls, {11})
  {
    hide WholeOK, Linked, Hash, V1, F1, Upper, Listing, HashUpTo, UndelDirResult, ParentOK;
    FirstEntry(intl, true);
    var v, F, Ls, n := V1(intl, true), F1(intl, true), WithFile(map[], 10, true), Entry(11, ROOT, NAME, true);
    WholeParts(v, F, intl, Ls, {});
    ParentIsOK(v, F, intl, ROOT);
    var m := Listing(v, F, ROOT);
    assert 10 in m && m[10] == NAME;
    UndelDirLosesSector(v, F, intl, Ls, {}, ROOT, n);
    assert {} + {11} == {11};
  }

  /** A directory moved into the one it holds: the directories are no tree any more. */
  lemma MoveDetachesDirectory(intl: bool)
    ensures 10 in F1(intl, true).chains && |F1(intl, true).chains[10]| == HT_SIZE
    ensures var v, F := V2(intl, true, 10, OTHER), F2(intl, true, 10, OTHER);
            && WholeOK(v, F, intl, Files2(true), {}) && IsTree(F) && 10 in F.place && HasPlace(F, 10)
            && 11 in Unlink(F, 10).chains && |Unlink(F, 10).chains[11]| == HT_SIZE
            && !IsTree(RenamedForest(F, 10, 11, NAME, intl))
  {
    hide WholeOK, Linked, Hash, Upper, Listing, V1, V2, F2, IsTree, Inside, Ranked, HashUpTo;
    FirstEntry(intl, true);
    SecondEntry(intl, true, 10, OTHER);
    var F := F2(intl, true, 10, OTHER);
    TreeOfTwo(intl);
    assert HasPlace(F, 10);
    UnlinkedTable(F, 10, 11);
    assert Path(F, [11, 10]);
    assert Inside(F, 11, 10) by { PathInside(F, [11, 10]); }
    RenamedIsMoved(F, 10, 11, NAME, intl);
    MoveKeepsTree(F, RenamedForest(F, 10, 11, NAME, intl), 10, 11);
  }

  lemma PathInside(F: Forest, path: seq<int>)
    requires Path(F, path)
    ensures Inside(F, path[0], path[|path| - 1])
  {
  }

  lemma TreeOfTwo(intl: bool)
    requires 10 in F1(intl, true).chains && |F1(intl, true).chains[10]| == HT_SIZE
    ensures IsTree(F2(intl, true, 10, OTHER))
  {
    hide Hash;
    var rank: map<int, nat> := map[ROOT := 0, 10 := 1, 11 := 2];
    assert Ranked(F2(intl, true, 10, OTHER), rank);
  }

  /** A block of the volume's own that is not in the list of pages: the rebuild calls it free. */
  lemma RebuildFreesOwnBlock(intl: bool)
    ensures var v := BlankVol(ROOT, LAST, {4});
            WholeOK(v, F0(), intl, map[], {4}) && 4 !in v.free && 4 in Rebuilt(v.free, v, {4}, [], Unlisted(F0(), map[], ROOT))
  {
    BlankIsFormatted(ROOT, LAST, {4});
    var v := BlankVol(ROOT, LAST, {4});
    FormattedWhole(v, intl, {4});
    var k := Disk(v, F0(), map[]);
    DiskIsWhole(k, intl, map[], {4});
    assert RestLs(k, map[]) == map[] && WriterSectors(k, map[]) == {};
    assert {4} + WriterSectors(k, map[]) == {4};
    assert v.last == LAST;
  }

  /** From a bitmap that calls everything used, the rebuild does not find that the last sector is free. */
  lemma RebuildMissesLast(intl: bool)
    ensures WholeOK(V0(), F0(), intl, map[], {}) && LAST in V0().free && LAST !in Rebuilt({}, V0(), {}, [], Unlisted(F0(), map[], ROOT))
  {
    NewVolume(intl);
  }

  /** After a directory is moved into the one it holds, the rebuild calls its sector free. */
  lemma RebuildFreesDetached(intl: bool)
    ensures 10 in F1(intl, true).chains && |F1(intl, true).chains[10]| == HT_SIZE
    ensures var v, F := V2(intl, true, 10, OTHER), F2(intl, true, 10, OTHER);
            && WholeOK(v, F, intl, Files2(true), {}) && 10 in F.place && HasPlace(F, 10)
            && 11 in Unlink(F, 10).chains && |Unlink(F, 10).chains[11]| == HT_SIZE
            && var v', F' := Renamed(v, F, 10, 11, NAME, intl), RenamedForest(F, 10, 11, NAME, intl);
               && WholeOK(v', F', intl, Files2(true), {})
               && 10 !in v'.free && 10 in Rebuilt(v'.free, v', {}, [], Unlisted(F', Files2(true), ROOT))
  {
    hide WholeOK, Linked, Hash, Upper, Listing, V1, V2, F2, IsTree, Inside, Ranked, HashUpTo, Taken, Renamed, Unlisted, DepthsOf,
         RenamedForest, Stored;
    FirstEntry(intl, true);
    SecondEntry(intl, true, 10, OTHER);
    MoveDetachesDirectory(intl);
    var v, F := V2(intl, true, 10, OTHER), F2(intl, true, 10, OTHER);
    var v', F' := Renamed(v, F, 10, 11, NAME, intl), RenamedForest(F, 10, 11, NAME, intl);
    NothingIn11(v, F, intl);
    RenameWhole(v, F, intl, Files2(true), {}, 10, 11, NAME);
    RenamedIsMoved(F, 10, 11, NAME, intl);
    RenamedShape(v, F, 10, 11, NAME, intl);
    RootOf(intl);
    RootHasDepths(v', F', intl, Files2(true), {});
    assert !Listed(F', DepthsOf(F', ROOT), 10);
    assert 10 in EntryBlocks(Files2(true), 10);
    UnlistedIs(F', Files2(true), ROOT, 10, 10);
    LostInUse(v', F', intl, Files2(true), {}, 10);
  }

  /** The second directory has no entries. */
  lemma NothingIn11(v: Vol, F: Forest, intl: bool)
    requires forall x :: x in F.place <==> x == 10 || x == 11
    requires F.place[10].dir == ROOT && F.place[11].dir == 10
    ensures !Taken(v, F, intl, 11, NAME, 10)
  {
  }

  lemma RootOf(intl: bool)
    requires 10 in F1(intl, true).chains && |F1(intl, true).chains[10]| == HT_SIZE
    ensures var v := V2(intl, true, 10, OTHER); v.root == ROOT && v.last == LAST
  {
    hide Created, Hash, F1;
    var v1 := Take(V1(intl, true), 11);
    CreatedShape(v1, F1(intl, true), 10, 11, Entry(11, 10, OTHER, true), intl);
    FirstEntry(intl, true);
    CreatedShape(Take(V0(), 10), F0(), ROOT, 10, Entry(10, ROOT, NAME, true), intl);
  }

  lemma UnlistedIs(F: Forest, Ls: map<int, Layout>, root: int, s: int, x: int)
    requires s in F.place && !Listed(F, DepthsOf(F, root), s) && x in EntryBlocks(Ls, s)
    ensures x in Unlisted(F, Ls, root)
  {
    hide DepthsOf, EntryBlocks, Listed;
  }

  /* ---- the bitmap of a new volume ---- */

  /** A bitmap of 26 pages: the first and the last page share a sector, and one sector is lost. */
  lemma PagesShareSector()
    ensures var sects := seq(26, i => 10 + i);
            && NoDuplicates(sects) && PageSectors(sects)[0] == PageSectors(sects)[25] == 10
            && 35 in sects && 35 !in PageSectors(sects)
  {
    var sects: seq<int> := seq(26, i => 10 + i);
    assert sects[25] == 35;
    assert forall b :: 0 <= b < 26 ==> PageSectors(sects)[b] == if b < 25 then 10 + b else 10;
  }

  /** On a volume that begins at block 4 of its device, sector 2 is not marked as free. */
  lemma SectorStaysUsed()
    ensures 2 !in CreatedFree(4, LAST) && 5 !in CreatedFree(4, LAST) && 6 in CreatedFree(4, LAST)
  {
  }

  /** A directory moved into itself: no directory invariant has it any more. */
  lemma MoveLosesDirectory(intl: bool)
    ensures 10 in F1(intl, true).place && HasPlace(F1(intl, true), 10)
    ensures 10 in Unlink(F1(intl, true), 10).chains && |Unlink(F1(intl, true), 10).chains[10]| == HT_SIZE
    ensures WholeOK(V1(intl, true), F1(intl, true), intl, WithFile(map[], 10, true), {})
    ensures Lost(Renamed(V1(intl, true), F1(intl, true), 10, 10, NAME, intl), intl, 10)
  {
    hide WholeOK, Linked, Hash, Upper, Listing, V1, F1, Lost, Renamed;
    FirstEntry(intl, true);
    WholeLinked(V1(intl, true), F1(intl, true), intl, WithFile(map[], 10, true), {});
    IntoItself(V1(intl, true), F1(intl, true), intl, 10, NAME);
  }

  /* ---- the root block ---- */

  /** A root block whose fourth pointer to a bitmap page is sector 1. */
  function RootBytes(): (s: seq<byte>)
    ensures |s| == 512
  {
    seq(512, i => if i == 331 then 1 else 0)
  }

  /** Read as an entry and written as a root block, it points at another sector. */
  lemma RootLosesPage()
    ensures Raw.LongAt(RootBytes(), 328) == 1 && Raw.LongAt(Raw.RootRewritten(RootBytes()), 328) == 0x0100_0000
  {
    hide Raw.LongAt, Raw.RootRewritten, RootBytes;
    RootByte();
    Raw.RootReadAsEntry(RootBytes());
    LongIs(RootBytes(), 328);
    LongIs(Raw.RootRewritten(RootBytes()), 328);
  }

  lemma RootByte()
    ensures |RootBytes()| == 512 && forall i :: 0 <= i < 512 ==> RootBytes()[i] == if i == 331 then 1 else 0
  {
  }

  lemma LongIs(s: seq<byte>, p: nat)
    requires p + 4 <= |s| && s[p + 1] == 0 && s[p + 2] == 0
    ensures Raw.LongAt(s, p) == s[p] as int * 0x0100_0000 + s[p + 3] as int
  {
  }
}
