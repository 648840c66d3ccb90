/** Creating, removing and renaming entries keep a whole volume whole. */
module VolumeOps {
  import opened FileUtil
  import opened Blocks
  import opened Names
  import opened FileSpec
  import opened FileInv
  import opened FileBlocks
  import opened FileRuns
  import opened DirInv
  import opened DirLink
  import opened DirSpec
  import opened Dir
  import opened VolumeInv

  /** What is known about the parts of a whole volume. */
  lemma WholeParts(v: Vol, F: Forest, intl: bool, Ls: map<int, Layout>, own: set<int>)
    requires WholeOK(v, F, intl, Ls, own)
    ensures VolOK(v) && DirsOK(v, F, intl) && Linked(v, F, intl) && InUse(v, F)
    ensures AllStored(v, Ls) && Disjoint(F, Ls) && EntriesFit(F, Ls)
    ensures forall s :: s in Ls <==> s in F.place && s !in F.chains && s !in own
  {
    hide Linked, Stored;
  }

  /** The files of a volume after more sectors became free or used. */
  lemma FreeKeepsFiles(v: Vol, Ls: map<int, Layout>, free: set<int>)
    requires VolOK(v) && AllStored(v, Ls) && VolOK(v.(free := free))
    requires forall s :: s in Ls ==> Ls[s].own.Keys !! free
    ensures SameFiles(v, v.(free := free), Ls) && AllStored(v.(free := free), Ls)
  {
    var v' := v.(free := free);
    forall s | s in Ls ensures Stored(v', NodeAt(v', s), Ls[s]) && Bytes(v', Ls[s]) == Bytes(v, Ls[s]) {
      StoredFrame(v, v', NodeAt(v, s), Ls[s]);
    }
    hide Stored, Bytes;
  }

  lemma FewerFiles(v: Vol, v': Vol, Ls: map<int, Layout>, s: int)
    requires SameFiles(v, v', Ls) && AllStored(v', Ls)
    ensures SameFiles(v, v', Ls - {s}) && AllStored(v', Ls - {s})
  {
    hide Stored, Bytes;
  }

  /* ---- removing ---- */

  /** The sectors that removing an entry makes free: none, if it is a file without blocks. */
  ghost function FreedBy(Ls: map<int, Layout>, s: int): set<int> {
    if s !in Ls then {s} else if Ls[s].data == [] then {} else Ls[s].own.Keys
  }

  /** The sector that removing an entry leaves without an owner: the header of a file without blocks. */
  ghost function LeftBy(Ls: map<int, Layout>, s: int): set<int> {
    if s in Ls && Ls[s].data == [] then {s} else {}
  }

  /** Together they are all sectors of the entry. */
  lemma FreedOrLeft(v: Vol, F: Forest, intl: bool, Ls: map<int, Layout>, own: set<int>, s: int)
    requires WholeOK(v, F, intl, Ls, own) && s in F.place
    ensures FreedBy(Ls, s) + LeftBy(Ls, s) == if s in Ls then Ls[s].own.Keys else {s}
    ensures s in Ls ==> Ls[s].header == s && s in Ls[s].own.Keys && (Ls[s].data == [] <==> NodeAt(v, s).byteSize == 0)
  {
    hide TreeOK, EachOwned, Base;
    if s in Ls {
      assert Stored(v, NodeAt(v, s), Ls[s]) && Ls[s].header == s;
      StoredChain(v, NodeAt(v, s), Ls[s]);
      hide FilesOK, Stored, NodeAt;
      EmptyIsHeader(v, NodeAt(v, s), Ls[s]);
      StoredOwn(v, NodeAt(v, s), Ls[s]);
      OwnIsElements(Ls[s]);
    }
  }

  /** The volume after an entry is removed. */
  ghost function RemovedVol(v: Vol, F: Forest, Ls: map<int, Layout>, s: int): Vol
    requires s in F.place && HasPlace(F, s)
  {
    var w := UnlinkIn(v, F, s);
    w.(free := w.free + FreedBy(Ls, s))
  }

  lemma FreedRange(v: Vol, F: Forest, intl: bool, Ls: map<int, Layout>, own: set<int>, s: int)
    requires WholeOK(v, F, intl, Ls, own) && s in F.place
    ensures forall x :: x in FreedBy(Ls, s) ==> 2 <= x <= v.last
    ensures s in FreedBy(Ls, s) || s in LeftBy(Ls, s)
  {
    if s in Ls {
      StoredInRange(v, NodeAt(v, s), Ls[s]);
      HeaderOwned(v, Ls[s]);
    } else {
      LinkedEntry(v, F, intl, s);
    }
    hide Linked, Stored;
  }

  lemma WithoutEntryKeys(F: Forest, s: int)
    requires s in F.place && HasPlace(F, s)
    ensures var F' := WithoutEntry(F, s);
            F'.place.Keys == F.place.Keys - {s} && F'.chains.Keys == F.chains.Keys - {s}
  {
    assert F.place[s].dir in F.chains;
  }

  /** The sectors an entry frees belong to no other entry. */
  lemma FreedApart(v: Vol, F: Forest, intl: bool, Ls: map<int, Layout>, own: set<int>, s: int)
    requires WholeOK(v, F, intl, Ls, own) && s in F.place && s !in own
    ensures forall t :: t in F.place && t != s ==> t !in FreedBy(Ls, s)
    ensures forall d :: d in F.chains && d != s ==> d !in FreedBy(Ls, s)
    ensures forall t :: t in Ls && t != s ==> Ls[t].own.Keys !! FreedBy(Ls, s)
  {
    hide TreeOK, Stored;
    forall t | t in F.place && t != s ensures t !in FreedBy(Ls, s) {
      if t in Ls {
        HeaderOwned(v, Ls[t]);
      }
    }
  }

  lemma OwnedAfterRemove(v: Vol, F: Forest, Ls: map<int, Layout>, own: set<int>, s: int, v': Vol, F': Forest)
    requires EachOwned(v, F, Ls, own) && (s in Ls <==> s !in F.chains)
    requires FreedBy(Ls, s) + LeftBy(Ls, s) == if s in Ls then Ls[s].own.Keys else {s}
    requires s in Ls ==> s in Ls[s].own.Keys
    requires forall d :: d in F.chains && d != s ==> d !in FreedBy(Ls, s)
    requires forall t :: t in Ls && t != s ==> Ls[t].own.Keys !! FreedBy(Ls, s)
    requires v'.last == v.last && v'.free == v.free + FreedBy(Ls, s)
    requires F'.chains.Keys == F.chains.Keys - {s}
    ensures EachOwned(v', F', Ls - {s}, own + LeftBy(Ls, s))
  {
    forall x | 2 <= x <= v'.last
      ensures x in v'.free || x in own + LeftBy(Ls, s) || x in F'.chains
              || exists t :: t in Ls - {s} && x in (Ls - {s})[t].own.Keys
    {
      if x !in v.free && x !in own && x !in F.chains {
        var t :| t in Ls && x in Ls[t].own.Keys;
        if t != s {
          assert t in Ls - {s};
        } else {
          assert x in FreedBy(Ls, s) + LeftBy(Ls, s);
        }
      }
    }
  }

  /**
    Removing a file, or a directory without entries, frees exactly its sectors, takes
    exactly one name out of one directory, and leaves all other files as they are. The
    header of a file without bytes is left in use, without an owner.
  */
  lemma RemoveWhole(v: Vol, F: Forest, intl: bool, Ls: map<int, Layout>, own: set<int>, s: int)
    requires WholeOK(v, F, intl, Ls, own) && s in F.place && s !in own && (s in F.chains ==> IsEmptyDir(F, s))
    ensures HasPlace(F, s)
    ensures var v', F', d := RemovedVol(v, F, Ls, s), WithoutEntry(F, s), F.place[s].dir;
            && WholeOK(v', F', intl, Ls - {s}, own + LeftBy(Ls, s))
            && SameFiles(v, v', Ls - {s})
            && Listing(v', F', d) == Listing(v, F, d) - {s}
            && (forall e :: e != d ==> Listing(v', F', e) == Listing(v, F, e))
            && v'.free == v.free + FreedBy(Ls, s) && v'.last == v.last
  {
    hide Linked, Stored, Listing, UnlinkIn, HasPlace, Unlink, WithoutEntry, FreedBy, SameFiles, AllStored, Disjoint, EachOwned, FilesOK,
         LeftBy;
    WholeParts(v, F, intl, Ls, own);
    LinkedEntry(v, F, intl, s);
    RemoveTakes(v, F, intl, s);
    UnlinkKeepsFiles(v, F, intl, Ls, s);
    UnlinkShape(v, F, intl, s);
    var w, F' := UnlinkIn(v, F, s), WithoutEntry(F, s);
    var v' := RemovedVol(v, F, Ls, s);
    FreeIsApart(w, F', intl, v'.free);
    WithoutEntryKeys(F, s);
    FreedRange(v, F, intl, Ls, own, s);
    FreedApart(v, F, intl, Ls, own, s);
    FreedOrLeft(v, F, intl, Ls, own, s);
    LeftIsEntry(Ls, s);
    OwnedAfterRemove(v, F, Ls, own, s, v', F');
    assert TreeOK(v', F', intl);
    FewerFiles(v, w, Ls, s);
    OwnedFiles(v', F', Ls - {s}, own + LeftBy(Ls, s));
    FreeKeepsFiles(w, Ls - {s}, v'.free);
    SameFilesTransitive(v, w, v', Ls - {s});
    StillFiles(v', F', Ls - {s}, own + LeftBy(Ls, s));
  }

  lemma LeftIsEntry(Ls: map<int, Layout>, s: int)
    ensures LeftBy(Ls, s) <= {s}
  {
  }

  lemma UnlinkShape(v: Vol, F: Forest, intl: bool, s: int)
    requires Linked(v, F, intl) && s in F.place
    ensures HasPlace(F, s)
    ensures var w := UnlinkIn(v, F, s);
            w.root == v.root && w.last == v.last && |w.disk| == |v.disk| && w.free == v.free
  {
    hide Linked;
    UnlinkWrites(v, F, intl, s);
  }

  lemma OwnedFiles(v: Vol, F: Forest, Ls: map<int, Layout>, own: set<int>)
    requires EachOwned(v, F, Ls, own)
    ensures forall s :: s in Ls ==> Ls[s].own.Keys !! v.free
  {
  }

  lemma StillFiles(v: Vol, F: Forest, Ls: map<int, Layout>, own: set<int>)
    requires AllStored(v, Ls)
    requires forall s :: s in Ls <==> s in F.place && s !in F.chains && s !in own
    ensures FilesOK(v, F, Ls, own)
  {
    hide Stored;
  }

  /* ---- creating ---- */

  /** The files after an entry was created. */
  function WithFile(Ls: map<int, Layout>, s: int, isDir: bool): map<int, Layout> {
    if isDir then Ls else Ls[s := EmptyLayout(s)]
  }

  lemma NewFileStored(v: Vol, s: int, n: Node)
    requires VolOK(v) && 2 <= s <= v.last && s !in v.free && NodeAt(v, s) == n && IsNode(v, s)
    requires n == NewEntryNode(s, n.parent, n.name, ST_FILE)
    ensures Stored(v, n, EmptyLayout(s)) && Bytes(v, EmptyLayout(s)) == []
  {
    assert forall k :: 0 <= k < 72 ==> Slot(n, k) == 0;
  }

  lemma OwnedAfterCreate(v: Vol, F: Forest, Ls: map<int, Layout>, own: set<int>, s: int, isDir: bool, v': Vol, F': Forest)
    requires EachOwned(v, F, Ls, own) && s in v.free && s !in Ls
    requires v'.last == v.last && v'.free == v.free - {s}
    requires F'.chains.Keys == F.chains.Keys + (if isDir then {s} else {})
    ensures EachOwned(v', F', WithFile(Ls, s, isDir), own)
  {
    var Ls' := WithFile(Ls, s, isDir);
    forall x | 2 <= x <= v'.last
      ensures x in v'.free || x in own || x in F'.chains || exists t :: t in Ls' && x in Ls'[t].own.Keys
    {
      if x == s {
        if !isDir {
          assert s in Ls' && x in Ls'[s].own.Keys;
        }
      } else if x !in v.free && x !in own && x !in F.chains {
        var t :| t in Ls && x in Ls[t].own.Keys;
        assert t in Ls' && x in Ls'[t].own.Keys;
      }
    }
  }

  lemma CreatedKeepsFiles(v: Vol, F: Forest, intl: bool, Ls: map<int, Layout>, own: set<int>, d: int, s: int, n: Node)
    requires WholeOK(v, F, intl, Ls, own) && d in F.chains && s in v.free
    ensures |F.chains[d]| == HT_SIZE
    ensures var v' := Created(Take(v, s), F, d, s, n, intl);
            SameFiles(v, v', Ls) && AllStored(v', Ls)
  {
    hide Linked, Stored, SameFiles, AllStored, Disjoint, AddEntry, SetNode, Hash, FilesOK, TreeOK, DirsOK, InUse;
    WholeParts(v, F, intl, Ls, own);
    LinkedDir(v, F, intl, d);
    var w, h := Take(v, s), Hash(n.name, intl);
    FreeIsApart(v, F, intl, w.free);
    FreeKeepsFiles(v, Ls, w.free);
    AddKeepsFiles(w, F, intl, Ls, d, h, s);
    var u := AddEntry(w, F, d, h, s);
    SameFilesTransitive(v, w, u, Ls);
    forall t | t in Ls ensures s != t && s !in Ls[t].own.Keys {
      StoredOwnHeader(v, Ls, t);
    }
    AddedShape(v, F, d, h, s);
    NewBlockKeepsFiles(u, v, Ls, F, s, n);
  }

  lemma StoredOwnHeader(v: Vol, Ls: map<int, Layout>, t: int)
    requires AllStored(v, Ls) && t in Ls
    ensures t in Ls[t].own.Keys
  {
    HeaderOwned(v, Ls[t]);
  }

  /** Creating a file or a directory takes one free sector and leaves all files as they are. */
  lemma CreateWhole(v: Vol, F: Forest, intl: bool, Ls: map<int, Layout>, own: set<int>, d: int, s: int, name: seq<byte>, isDir: bool)
    requires WholeOK(v, F, intl, Ls, own) && d in F.chains && s in v.free
    requires |name| <= MAX_NAME_LEN && NewName(v, F, intl, d, name)
    ensures |F.chains[d]| == HT_SIZE && s != d
    ensures var n := NewEntryNode(s, d, name, if isDir then ST_DIR else ST_FILE);
            var v', F', Ls' := Created(Take(v, s), F, d, s, n, intl), WithEntry(F, d, s, n, isDir, intl), WithFile(Ls, s, isDir);
            && Grew(v, F, v', F', intl, d, n, isDir)
            && WholeOK(v', F', intl, Ls', own)
            && SameFiles(v, v', Ls) && s !in Ls
            && (!isDir ==> Bytes(v', EmptyLayout(s)) == [])
  {
    hide Linked, Stored, SameFiles, AllStored, Disjoint, Created, Hash, Upper, Listing, NodeAt, NewName, IsNode,
         EmptyLayout, WithEntry, EachOwned, Bytes;
    WholeParts(v, F, intl, Ls, own);
    OwnedFiles(v, F, Ls, own);
    var n := NewEntryNode(s, d, name, if isDir then ST_DIR else ST_FILE);
    CreatedExactly(v, F, intl, d, s, name, isDir);
    CreatedKeepsFiles(v, F, intl, Ls, own, d, s, n);
    var v', F', Ls' := Created(Take(v, s), F, d, s, n, intl), WithEntry(F, d, s, n, isDir, intl), WithFile(Ls, s, isDir);
    OwnedAfterCreate(v, F, Ls, own, s, isDir, v', F');
    if !isDir {
      NewFileStored(v', s, n);
      EmptyHeader(s);
      OneMoreStored(v', Ls, s);
    }
    StillFiles(v', F', Ls', own);
  }

  lemma EmptyHeader(s: int)
    ensures EmptyLayout(s).header == s && EmptyLayout(s).data == [] && EmptyLayout(s).own.Keys == {s}
  {
  }

  lemma OneMoreStored(v: Vol, Ls: map<int, Layout>, s: int)
    requires AllStored(v, Ls) && Stored(v, NodeAt(v, s), EmptyLayout(s)) && s !in Ls
    requires forall t :: t in Ls ==> s !in Ls[t].own.Keys
    ensures AllStored(v, WithFile(Ls, s, false))
  {
    hide Stored;
  }

  lemma CreatedExactly(v: Vol, F: Forest, intl: bool, d: int, s: int, name: seq<byte>, isDir: bool)
    requires TreeOK(v, F, intl) && d in F.chains && s in v.free
    requires |name| <= MAX_NAME_LEN && NewName(v, F, intl, d, name)
    ensures |F.chains[d]| == HT_SIZE && s != d && s !in F.place && s !in F.chains
    ensures var n := NewEntryNode(s, d, name, if isDir then ST_DIR else ST_FILE);
            var v' := Created(Take(v, s), F, d, s, n, intl);
            && Grew(v, F, v', WithEntry(F, d, s, n, isDir, intl), intl, d, n, isDir)
            && IsNode(v', s)
  {
    hide Linked, Listing, Created, Upper, Hash, WithEntry, NewName;
    var F' := CreatedGrew(v, F, intl, d, s, name, isDir);
  }

  /* ---- renaming ---- */

  lemma ResealKeepsFiles(v: Vol, u: Vol, F: Forest, intl: bool, Ls: map<int, Layout>, x: int)
    requires Linked(v, F, intl) && x in F.chains
    requires SameFiles(u, v, Ls) && AllStored(v, Ls) && Disjoint(F, Ls)
    ensures SameFiles(u, Resealed(v, x), Ls) && AllStored(Resealed(v, x), Ls)
  {
    hide Linked, SameFiles, AllStored, Disjoint, SetNode, Seal, NodeAt, OnDisk;
    TreeBlock(v, F, intl, x);
    WriteKeepsFiles(v, u, F, Ls, x, Seal(NodeAt(v, x)));
  }

  lemma MovedIsSameFile(n: Node, d: int, name: seq<byte>)
    ensures SameFile(Moved(n, d, name), n)
  {
  }

  lemma UnlinkRest(F: Forest, Ls: map<int, Layout>, s: int)
    requires s in F.place && HasPlace(F, s) && Disjoint(F, Ls) && EntriesFit(F, Ls)
    ensures Disjoint(Unlink(F, s), Ls) && EntriesFit(Unlink(F, s), Ls)
    ensures Unlink(F, s).chains.Keys == F.chains.Keys
  {
    assert F.place[s].dir in F.chains;
  }

  lemma TakenOutKeepsFiles(v: Vol, F: Forest, intl: bool, Ls: map<int, Layout>, s: int, d: int, name: seq<byte>)
    requires Linked(v, F, intl) && s in F.place
    requires AllStored(v, Ls) && Disjoint(F, Ls) && EntriesFit(F, Ls)
    ensures HasPlace(F, s)
    ensures var w := TakenOut(v, F, s, d, name);
            SameFiles(v, w, Ls) && AllStored(w, Ls)
  {
    hide Linked, SameFiles, AllStored, Disjoint, SetNode, NodeAt, OnDisk, Resealed, UnlinkIn, UnlinkPoint, Unlink, Moved, SameFile,
         EntryNode, Listing;
    LinkedEntry(v, F, intl, s);
    UnlinkKeepsFiles(v, F, intl, Ls, s);
    UnlinkWrites(v, F, intl, s);
    UnlinkKeeps(v, F, intl, s);
    UnlinkRest(F, Ls, s);
    var u, G, p := UnlinkIn(v, F, s), Unlink(F, s), F.place[s].dir;
    var n := Moved(NodeAt(v, s), d, name);
    MovedIsSameFile(NodeAt(v, s), d, name);
    assert IsNode(u, s);
    RewriteKeeps(u, G, intl, s, d, name);
    WriteKeepsFiles(u, v, F, Ls, s, n);
    ResealKeepsFiles(SetNode(u, s, n), v, G, intl, Ls, p);
  }

  lemma RenamedKeepsFiles(v: Vol, F: Forest, intl: bool, Ls: map<int, Layout>, s: int, d: int, name: seq<byte>)
    requires Linked(v, F, intl) && s in F.place && d in F.chains && d != s && |name| <= MAX_NAME_LEN
    requires !Taken(v, F, intl, d, name, s)
    requires AllStored(v, Ls) && Disjoint(F, Ls) && EntriesFit(F, Ls)
    ensures HasPlace(F, s) && d in Unlink(F, s).chains && |Unlink(F, s).chains[d]| == HT_SIZE
    ensures var w := Renamed(v, F, s, d, name, intl);
            SameFiles(v, w, Ls) && AllStored(w, Ls)
  {
    hide Linked, SameFiles, AllStored, Disjoint, EntriesFit, SetNode, NodeAt, OnDisk, Resealed, TakenOut, AddEntry, Unlink, Hash,
         Listing, Ready, Taken;
    LinkedEntry(v, F, intl, s);
    TakenOutKeepsFiles(v, F, intl, Ls, s, d, name);
    TakenOutKeeps(v, F, intl, s, d, name);
    UnlinkRest(F, Ls, s);
    ReadyToMove(v, F, intl, s, d, name);
    var w, G, h := TakenOut(v, F, s, d, name), Unlink(F, s), Hash(name, intl);
    LinkedDir(w, G, intl, d);
    AddKeepsFiles(w, G, intl, Ls, d, h, s);
    AddKeeps(w, G, intl, d, h, s);
    var u := AddEntry(w, G, d, h, s);
    SameFilesTransitive(v, w, u, Ls);
    LinkRest(G, Ls, d, h, s);
    ResealKeepsFiles(u, v, Link(G, d, h, s), intl, Ls, d);
  }

  lemma LinkRest(F: Forest, Ls: map<int, Layout>, d: int, h: nat, s: int)
    requires d in F.chains && |F.chains[d]| == HT_SIZE && h < HT_SIZE && Disjoint(F, Ls)
    ensures Disjoint(Link(F, d, h, s), Ls) && d in Link(F, d, h, s).chains
  {
  }

  lemma OwnedSameKeys(v: Vol, v': Vol, F: Forest, F': Forest, Ls: map<int, Layout>, own: set<int>)
    requires EachOwned(v, F, Ls, own) && v'.free == v.free && v'.last == v.last && F'.chains.Keys == F.chains.Keys
    ensures EachOwned(v', F', Ls, own)
  {
    forall x | 2 <= x <= v'.last
      ensures x in v'.free || x in own || x in F'.chains || exists t :: t in Ls && x in Ls[t].own.Keys
    {
      assert x in F'.chains <==> x in F'.chains.Keys;
      assert x in F.chains <==> x in F.chains.Keys;
    }
  }

  lemma SameKeysInUse(v: Vol, v': Vol, F: Forest, F': Forest)
    requires InUse(v, F) && v'.free == v.free && F'.place.Keys == F.place.Keys && F'.chains.Keys == F.chains.Keys
    ensures InUse(v', F')
  {
    assert forall s :: s in F'.place <==> s in F'.place.Keys;
    assert forall s :: s in F'.chains <==> s in F'.chains.Keys;
  }

  /** Renaming or moving an entry keeps the volume whole, its free sectors and the bytes of all files. */
  lemma RenameWhole(v: Vol, F: Forest, intl: bool, Ls: map<int, Layout>, own: set<int>, s: int, d: int, name: seq<byte>)
    requires WholeOK(v, F, intl, Ls, own)
    requires s in F.place && d in F.chains && d != s && |name| <= MAX_NAME_LEN && !Taken(v, F, intl, d, name, s)
    ensures HasPlace(F, s) && d in Unlink(F, s).chains && |Unlink(F, s).chains[d]| == HT_SIZE
    ensures var v', F' := Renamed(v, F, s, d, name, intl), RenamedForest(F, s, d, name, intl);
            && WholeOK(v', F', intl, Ls, own)
            && SameFiles(v, v', Ls) && v'.free == v.free && v'.last == v.last
            && F'.chains.Keys == F.chains.Keys
            && (forall e :: Listing(v', F', e) == RenamedListing(v, F, s, d, name, e))
  {
    hide Linked, SameFiles, AllStored, Disjoint, EntriesFit, Renamed, RenamedForest, RenamedListing, Listing, Taken, Unlink,
         InUse, EachOwned, FilesOK;
    WholeParts(v, F, intl, Ls, own);
    RenameMoves(v, F, intl, s, d, name);
    RenameKeepsDirs(v, F, intl, s, d, name);
    RenamedKeepsFiles(v, F, intl, Ls, s, d, name);
    var v', F' := Renamed(v, F, s, d, name, intl), RenamedForest(F, s, d, name, intl);
    RenamedShape(v, F, s, d, name, intl);
    OwnedSameKeys(v, v', F, F', Ls, own);
    SameKeysInUse(v, v', F, F');
    FilesSameKeys(v', F, F', Ls, own);
  }

  lemma FilesSameKeys(v: Vol, F: Forest, F': Forest, Ls: map<int, Layout>, own: set<int>)
    requires AllStored(v, Ls) && (forall s :: s in Ls <==> s in F.place && s !in F.chains && s !in own)
    requires F'.place.Keys == F.place.Keys && F'.chains.Keys == F.chains.Keys
    ensures FilesOK(v, F', Ls, own)
  {
    hide Stored;
    assert forall s :: s in F'.place <==> s in F'.place.Keys;
    assert forall s :: s in F'.chains <==> s in F'.chains.Keys;
  }

  lemma SetNodeShape(v: Vol, x: int, n: Node)
    ensures var w := SetNode(v, x, n);
            w.root == v.root && w.last == v.last && |w.disk| == |v.disk| && w.free == v.free
  {
  }

  lemma RenamedShape(v: Vol, F: Forest, s: int, d: int, name: seq<byte>, intl: bool)
    requires s in F.place && HasPlace(F, s)
    requires d in Unlink(F, s).chains && |Unlink(F, s).chains[d]| == HT_SIZE
    ensures var w := Renamed(v, F, s, d, name, intl);
            w.root == v.root && w.last == v.last && |w.disk| == |v.disk| && w.free == v.free
  {
    hide SetNode, Hash, Unlink, Seal, NodeAt;
    var u := UnlinkIn(v, F, s);
    var u1 := SetNode(u, s, Moved(NodeAt(v, s), d, name));
    var w := TakenOut(v, F, s, d, name);
    var G, h := Unlink(F, s), Hash(name, intl);
    var x := LinkPoint(G, d, h);
    var l := LinkIn(w, G, d, h, s);
    var a := AddEntry(w, G, d, h, s);
    forall y, z, n ensures var t := SetNode(y, z, n);
                           t.root == y.root && t.last == y.last && |t.disk| == |y.disk| && t.free == y.free
    {
      SetNodeShape(y, z, n);
    }
  }
}
