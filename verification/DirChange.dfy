/**
  Removing and renaming entries of a whole volume, changed in place. Models
  adfRemoveEntry, adfIsDirEmpty and adfRenameEntry of adf_dir.c.
*/
module DirChange {
  import opened FileUtil
  import opened Blocks
  import opened Names
  import opened FileInv
  import opened FileSpec
  import FileBlocks
  import FileVectors
  import opened DirInv
  import opened DirLink
  import opened DirSpec
  import opened Dir
  import opened DirLost
  import opened VolumeInv
  import opened VolumeOps
  import opened Volume

  /** Does name `name` of directory `d` stand for entry `s`? */
  ghost predicate NamesEntry(v: Vol, F: Forest, intl: bool, d: int, name: seq<byte>, s: int) {
    && |name| <= MAX_NAME_LEN
    && s in F.place && F.place[s].dir == d && UpperName(v, s, intl) == Upper(name, intl)
  }

  /** The entry a name stands for, or -1. */
  ghost function EntryNamed(v: Vol, F: Forest, intl: bool, d: int, name: seq<byte>): int {
    if exists s :: NamesEntry(v, F, intl, d, name, s) then (var s :| NamesEntry(v, F, intl, d, name, s); s) else -1
  }

  lemma FindsNamed(v: Vol, F: Forest, intl: bool, d: int, name: seq<byte>, s: int, entry: Node, updSect: int)
    requires Linked(v, F, intl) && Finds(v, F, intl, d, name, s, entry, updSect)
    ensures s == EntryNamed(v, F, intl, d, name)
    ensures s != -1 <==> NamesEntry(v, F, intl, d, name, s)
  {
    var m := Listing(v, F, d);
    hide Linked, Upper, Hash, HasPlace;
    LinkedParts(v, F, intl);
    if s == -1 && -1 in F.place {
      LinkedEntry(v, F, intl, -1);
    }
    forall t | NamesEntry(v, F, intl, d, name, t) ensures s != -1 && t == s {
      assert t in m && Upper(m[t], intl) == Upper(name, intl);
    }
    if s != -1 {
      assert NamesEntry(v, F, intl, d, name, s);
    }
    var r := EntryNamed(v, F, intl, d, name);
    hide NamesEntry;
    if exists t :: NamesEntry(v, F, intl, d, name, t) {
      assert NamesEntry(v, F, intl, d, name, r);
    }
  }

  /** In a sector that is no directory no name stands for an entry. */
  lemma NoEntryThere(v: Vol, F: Forest, intl: bool, d: int, name: seq<byte>)
    requires Linked(v, F, intl)
    ensures d !in F.chains ==> EntryNamed(v, F, intl, d, name) == -1
  {
    hide Linked, Upper, UpperName;
    LinkedParts(v, F, intl);
    if d !in F.chains {
      forall s ensures !NamesEntry(v, F, intl, d, name, s) {
        if s in F.place {
          assert HasPlace(F, s);
        }
      }
    }
  }

  /** The header of a file is no directory: its table has the data blocks. */
  lemma FileIsBarren(v: Vol, F: Forest, intl: bool, Ls: map<int, Layout>, own: set<int>, s: int)
    requires WholeOK(v, F, intl, Ls, own) && s in Ls
    ensures s !in F.chains && Barren(v, s)
    ensures ReadEntry(v, s) == Some(NodeAt(v, s)) && NodeAt(v, s).secType == ST_FILE
  {
    hide Linked, EachOwned, InUse;
    WholeParts(v, F, intl, Ls, own);
    var n, L := NodeAt(v, s), Ls[s];
    assert Stored(v, n, L) && L.header == s;
    forall h | 0 <= h < HT_SIZE ensures n.slots[h] == 0 || ReadEntry(v, n.slots[h]) == None {
      assert Slot(n, 71 - h) == n.slots[h];
      if 71 - h < |L.data| {
        assert DataOnDisk(v, L, 71 - h);
      }
    }
  }

  /** adfIsDirEmpty */
  method IsDirEmpty(dir: Node) returns (empty: bool)
    ensures empty <==> forall h :: 0 <= h < HT_SIZE ==> dir.slots[h] == 0
  {
    var i := 0;
    while i < HT_SIZE
      invariant 0 <= i <= HT_SIZE
      invariant forall h :: 0 <= h < i ==> dir.slots[h] == 0
    {
      if dir.slots[i] != 0 {
        return false;
      }
      i := i + 1;
    }
    empty := true;
  }

  lemma UnlinkAtHead(v: Vol, F: Forest, s: int, p: Node, next: int)
    requires s in F.place && HasPlace(F, s) && Before(F, s) == 0 && F.place[s].idx == 0
    requires p == NodeAt(v, F.place[s].dir) && next == NodeAt(v, s).nextSameHash
    ensures UnlinkIn(v, F, s) == SetNode(v, F.place[s].dir, p.(slots := p.slots[F.place[s].bucket := next]))
  {
  }

  lemma UnlinkBehind(v: Vol, F: Forest, intl: bool, s: int)
    requires Linked(v, F, intl) && s in F.place
    ensures HasPlace(F, s)
    ensures Before(F, s) == 0 <==> F.place[s].idx == 0
    ensures var b, next := Before(F, s), NodeAt(v, s).nextSameHash;
            b != 0 ==>
              && ReadEntry(v, b) == Some(NodeAt(v, b)) && b != F.place[s].dir && b != s
              && UnlinkIn(v, F, s) == SetNode(v, b, NodeAt(v, b).(nextSameHash := next))
  {
    hide Linked, Hash, ForestOK;
    LinkedParts(v, F, intl);
    LinkedEntry(v, F, intl, s);
    var p := F.place[s];
    if p.idx != 0 {
      ChainEntry(v, F, intl, p.dir, p.bucket, p.idx - 1);
    }
  }

  /** The pointer to an entry is set to the entry behind it, in its directory or in the entry before it. */
  method UnlinkEntry(vol: AdfVolume, pSect: int, parent: Node, entry: Node, nSect: int, nSect2: int, name: seq<byte>,
                     ghost F: Forest)
    requires vol.Valid() && Linked(vol.V(), F, vol.intl)
    requires nSect in F.place && HasPlace(F, nSect) && F.place[nSect].dir == pSect && F.place[nSect].bucket == Hash(name, vol.intl)
    requires parent == NodeAt(vol.V(), pSect) && entry == NodeAt(vol.V(), nSect) && nSect2 == Before(F, nSect)
    modifies vol.disk
    ensures vol.Valid() && vol.V() == UnlinkIn(old(vol.V()), F, nSect)
  {
    hide Linked, Hash, NodeAt, SetNode, UnlinkIn, HasPlace, ReadEntry;
    ghost var v := vol.V();
    UnlinkBehind(v, F, vol.intl, nSect);
    if nSect2 == 0 {
      var hashVal := GetHashValue(name, vol.intl);
      UnlinkAtHead(v, F, nSect, parent, entry.nextSameHash);
      var p := parent.(slots := parent.slots[hashVal := entry.nextSameHash]);
      var rc := WriteEntryBlock(vol, pSect, p);
    } else {
      var previous := ReadEntryBlock(vol, nSect2);
      var rc := WriteEntryBlock(vol, nSect2, previous.value.(nextSameHash := entry.nextSameHash));
    }
  }

  /** Is the entry one that adfRemoveEntry removes? */
  ghost predicate Removable(v: Vol, F: Forest, intl: bool, d: int, name: seq<byte>) {
    var s := EntryNamed(v, F, intl, d, name);
    s != -1 && (s in F.chains ==> IsEmptyDir(F, s))
  }

  /** Is entry `s` a file without bytes? */
  ghost predicate IsEmptyFile(v: Vol, F: Forest, s: int) {
    s !in F.chains && NodeAt(v, s).byteSize == 0
  }

  /** The blocks of an entry that is no longer linked become free, unless it is a file without blocks. */
  method FreeEntry(vol: AdfVolume, nSect: int, entry: Node, ghost Ls: map<int, Layout>) returns (ok: bool)
    requires vol.Valid() && vol.HasBit(nSect) && entry.secType in {ST_DIR, ST_FILE}
    requires nSect in Ls <==> entry.secType == ST_FILE
    requires nSect in Ls ==> Stored(vol.V(), entry, Ls[nSect]) && Ls[nSect].header == nSect
    modifies vol.Bits()
    ensures vol.Valid()
    ensures ok <==> LeftBy(Ls, nSect) == {}
    ensures vol.V() == old(vol.V()).(free := old(vol.V()).free + FreedBy(Ls, nSect))
  {
    hide Stored, RealSize;
    ok := true;
    if entry.secType == ST_FILE {
      StoredOwnOK(vol.V(), entry, Ls[nSect]);
      StoredChain(vol.V(), entry, Ls[nSect]);
      FileBlocks.OwnIsElements(Ls[nSect]);
      EntryBlocksFound(vol.V(), entry, Ls[nSect]);
      ok := FileVectors.FreeFileBlocks(vol, entry);
      if ok {
        vol.SetBlockFree(nSect);
      }
    } else {
      vol.SetBlockFree(nSect);
    }
  }

  /** What is found by walking the blocks of a file. */
  lemma EntryBlocksFound(v: Vol, entry: Node, L: Layout)
    requires Stored(v, entry, L)
    ensures FileBlocks.BlocksFit(v, entry)
    ensures FileBlocks.GetFileBlocks(v, entry) == if L.data == [] then None else Some(FileBlocks.BlockList(L.data, L.exts))
    ensures FileVectors.OnVolume(L.data, v.last) && FileVectors.OnVolume(L.exts, v.last)
  {
    hide Stored, FileBlocks.GetFileBlocks, FileBlocks.BlocksFit;
    StoredChain(v, entry, L);
    FileBlocks.ChainFits(v, entry, L);
    FileBlocks.WalkYieldsLayout(v, entry, L);
    FileVectors.OwnOnVolume(v, entry, L);
  }

  lemma StoredOwnOK(v: Vol, hdr: Node, L: Layout)
    requires Stored(v, hdr, L)
    ensures OwnOK(L)
  {
  }

  /** What is known about the entry that is to be removed. */
  lemma EntryFacts(v: Vol, F: Forest, intl: bool, Ls: map<int, Layout>, own: set<int>, s: int)
    requires WholeOK(v, F, intl, Ls, own) && s in F.place && s !in own
    ensures HasPlace(F, s) && 2 <= s <= v.last
    ensures NodeAt(v, s).secType == (if s in F.chains then ST_DIR else ST_FILE)
    ensures s in Ls <==> s !in F.chains
    ensures NodeAt(UnlinkIn(v, F, s), s) == NodeAt(v, s)
    ensures s in Ls ==> Ls[s].header == s && Stored(UnlinkIn(v, F, s), NodeAt(v, s), Ls[s])
    ensures s in F.chains ==> (IsEmptyDir(F, s) <==> forall h :: 0 <= h < HT_SIZE ==> NodeAt(v, s).slots[h] == 0)
    ensures var w := UnlinkIn(v, F, s);
            w.root == v.root && w.last == v.last && |w.disk| == |v.disk| && w.free == v.free
  {
    hide Linked, Stored, UnlinkIn, UnlinkPoint, FilesOK, InUse, EachOwned, Hash;
    WholeParts(v, F, intl, Ls, own);
    LinkedEntry(v, F, intl, s);
    UnlinkKeepsFiles(v, F, intl, Ls, s);
    UnlinkWrites(v, F, intl, s);
    UnlinkShape(v, F, intl, s);
    if s in F.chains {
      EmptyTable(v, F, intl, s);
    }
  }

  /** What adfRemoveEntry leaves of a volume once it has found entry `s` to remove. */
  ghost predicate RemoveResult(v: Vol, F: Forest, intl: bool, Ls: map<int, Layout>, own: set<int>, s: int, v': Vol, F': Forest,
                               Ls': map<int, Layout>) {
    && s in F.place && HasPlace(F, s) && F' == WithoutEntry(F, s) && Ls' == Ls - {s}
    && v' == RemovedVol(v, F, Ls, s)
    && SameFiles(v, v', Ls')
    && if IsEmptyFile(v, F, s) then
         // The name is gone, but the sector of the header stays used, and nothing has it.
         v' == UnlinkIn(v, F, s) && s !in v'.free && WholeOK(v', F', intl, Ls', own + {s})
       else
         && v'.free == v.free + (if s in Ls then Ls[s].own.Keys else {s})
         && WholeOK(v', F', intl, Ls', own)
  }

  lemma RemoveResults(v: Vol, F: Forest, intl: bool, Ls: map<int, Layout>, own: set<int>, s: int)
    requires WholeOK(v, F, intl, Ls, own) && s in F.place && s !in own && (s in F.chains ==> IsEmptyDir(F, s))
    ensures HasPlace(F, s)
    ensures RemoveResult(v, F, intl, Ls, own, s, RemovedVol(v, F, Ls, s), WithoutEntry(F, s), Ls - {s})
    ensures LeftBy(Ls, s) == if IsEmptyFile(v, F, s) then {s} else {}
  {
    hide Linked, Stored, UnlinkIn, WithoutEntry, SameFiles, Base, IsEmptyDir, Listing;
    EntryFacts(v, F, intl, Ls, own, s);
    RemoveWhole(v, F, intl, Ls, own, s);
    FreedOrLeft(v, F, intl, Ls, own, s);
    EntryInUse(v, F, intl, Ls, own, s);
    hide WholeOK, NodeAt, HasPlace;
    var w := UnlinkIn(v, F, s);
    assert own + {} == own;
    if IsEmptyFile(v, F, s) {
      assert w.free + {} == w.free && w.(free := w.free) == w;
    }
  }

  lemma EntryInUse(v: Vol, F: Forest, intl: bool, Ls: map<int, Layout>, own: set<int>, s: int)
    requires WholeOK(v, F, intl, Ls, own) && s in F.place
    ensures s !in v.free
  {
    hide Linked, FilesOK, EachOwned;
  }

  /**
    adfRemoveEntry: a file with bytes, or a directory without entries, is removed and
    exactly its sectors become free. Of a file without bytes only the name is removed, and
    an error is returned. Otherwise nothing changes. A file that is open for writing must
    not be removed; others may be open.
  */
  method RemoveEntry(vol: AdfVolume, pSect: int, name: seq<byte>, ghost F: Forest, ghost Ls: map<int, Layout>, ghost own: set<int>)
    returns (rc: Rc, ghost F': Forest, ghost Ls': map<int, Layout>)
    requires vol.Valid() && WholeOK(vol.V(), F, vol.intl, Ls, own) && (pSect in F.chains || Barren(vol.V(), pSect))
    requires var s := EntryNamed(vol.V(), F, vol.intl, pSect, name); s == -1 || s !in own
    modifies vol, vol.disk, vol.Bits(), vol.pages
    ensures vol.Valid()
    ensures var v, s := old(vol.V()), EntryNamed(old(vol.V()), F, vol.intl, pSect, name);
            && (rc == RcOk <==> Removable(v, F, vol.intl, pSect, name) && !IsEmptyFile(v, F, s))
            && (if Removable(v, F, vol.intl, pSect, name) then RemoveResult(v, F, vol.intl, Ls, own, s, vol.V(), F', Ls')
                else vol.V() == v && F' == F && Ls' == Ls)
    ensures rc == RcOk ==> vol.FreeOf(vol.pages) == vol.Free()
  {
    hide Linked, Hash, Upper, NodeAt, WholeOK, UnlinkIn, HasPlace, FreedBy, LeftBy, Stored, IsEmptyDir, Listing, ReadEntry, SameFiles,
         EntryNamed, WithoutEntry, NewName, Before, FilesOK, InUse, EachOwned, UpperName, Barren, LeadsNowhere, RemoveResult;
    ghost var v, intl := vol.V(), vol.intl;
    F', Ls' := F, Ls;
    WholeLinked(v, F, intl, Ls, own);
    ParentReads(v, F, intl, pSect);
    NoEntryThere(v, F, intl, pSect, name);
    var parent := ReadEntryBlock(vol, pSect);
    if parent.None? {
      return RcError, F', Ls';
    }
    var nSect, entry, nSect2 := NameToEntryBlk(vol, parent.value.slots, name, F, pSect);
    if pSect in F.chains {
      FindsNamed(v, F, intl, pSect, name, nSect, entry, nSect2);
    }
    if nSect == -1 {
      return RcError, F', Ls';
    }
    EntryFacts(v, F, intl, Ls, own, nSect);
    if entry.secType == ST_DIR {
      var empty := IsDirEmpty(entry);
      if !empty {
        return RcError, F', Ls';
      }
    }
    RemoveResults(v, F, intl, Ls, own, nSect);
    UnlinkEntry(vol, pSect, parent.value, entry, nSect, nSect2, name, F);
    F', Ls' := WithoutEntry(F, nSect), Ls - {nSect};
    var ok := FreeEntry(vol, nSect, entry, Ls);
    if !ok {
      return RcError, F', Ls';
    }
    rc := RcOk;
    vol.UpdateBitmap();
  }

  lemma WholeLinked(v: Vol, F: Forest, intl: bool, Ls: map<int, Layout>, own: set<int>)
    requires WholeOK(v, F, intl, Ls, own)
    ensures Linked(v, F, intl)
  {
    hide Linked;
  }

  /* ---- renaming ---- */

  lemma SetTwice(v: Vol, x: int, m: Node, n: Node)
    ensures SetNode(SetNode(v, x, m), x, n) == SetNode(v, x, n)
  {
    if OnDisk(v, x) {
      assert v.disk[x := Meta(m)][x := Meta(n)] == v.disk[x := Meta(n)];
    }
  }

  lemma SealTwice(n: Node)
    ensures Seal(Seal(n)) == Seal(n)
  {
  }

  /** The entry leaves the head of its chain: its directory is written once. */
  lemma TakenOutAtHead(v: Vol, F: Forest, s: int, d: int, name: seq<byte>, p: Node)
    requires s in F.place && HasPlace(F, s) && F.place[s].idx == 0 && OnDisk(v, F.place[s].dir)
    requires p == NodeAt(v, F.place[s].dir).(slots := p.slots)
    requires p.slots == NodeAt(v, F.place[s].dir).slots[F.place[s].bucket := NodeAt(v, s).nextSameHash]
    ensures TakenOut(v, F, s, d, name) ==
            SetNode(SetNode(v, s, Moved(NodeAt(v, s), d, name)), F.place[s].dir, Seal(p))
  {
    hide Seal;
    var x, m := F.place[s].dir, Moved(NodeAt(v, s), d, name);
    assert UnlinkIn(v, F, s) == SetNode(v, x, p);
    SetNodesCommute(v, x, p, s, m);
    var w := SetNode(v, s, m);
    assert NodeAt(SetNode(w, x, p), x) == p;
    SetTwice(w, x, p, Seal(p));
  }

  /** The entry leaves its chain behind entry `b`. */
  lemma TakenOutBehind(v: Vol, F: Forest, s: int, d: int, name: seq<byte>, b: int, n: Node)
    requires s in F.place && HasPlace(F, s) && b != s && b != F.place[s].dir
    requires UnlinkIn(v, F, s) == SetNode(v, b, n)
    ensures TakenOut(v, F, s, d, name) ==
            SetNode(SetNode(SetNode(v, s, Moved(NodeAt(v, s), d, name)), b, n), F.place[s].dir, Seal(NodeAt(v, F.place[s].dir)))
    ensures NodeAt(SetNode(v, s, Moved(NodeAt(v, s), d, name)), b) == NodeAt(v, b)
  {
    hide Seal, UnlinkIn;
    var x, m := F.place[s].dir, Moved(NodeAt(v, s), d, name);
    SetNodesCommute(v, b, n, s, m);
    assert NodeAt(SetNode(SetNode(v, s, m), b, n), x) == NodeAt(v, x);
  }

  lemma ReadAfterMove(v: Vol, s: int, n: Node, b: int)
    requires b != s
    ensures ReadEntry(SetNode(v, s, n), b) == ReadEntry(v, b)
  {
  }

  lemma SecTypeOfDir(v: Vol, F: Forest, intl: bool, d: int)
    requires Linked(v, F, intl) && d in F.chains
    ensures OnDisk(v, d) && NodeAt(v, d).secType == (if d == v.root then ST_ROOT else ST_DIR)
  {
    LinkedDir(v, F, intl, d);
    hide Linked;
  }

  /** The first half of adfRenameEntry: the entry gets its new name and leaves its old chain. */
  method TakeOut(vol: AdfVolume, pSect: int, parent0: Node, entry: Node, nSect: int, prevSect: int,
                 oldName: seq<byte>, nPSect: int, newName: seq<byte>, ghost F: Forest)
    requires vol.Valid() && Linked(vol.V(), F, vol.intl) && pSect in F.chains
    requires nSect in F.place && HasPlace(F, nSect) && F.place[nSect].dir == pSect && F.place[nSect].bucket == Hash(oldName, vol.intl)
    requires parent0 == NodeAt(vol.V(), pSect) && entry == NodeAt(vol.V(), nSect) && prevSect == Before(F, nSect)
    modifies vol.disk
    ensures vol.Valid() && vol.V() == TakenOut(old(vol.V()), F, nSect, nPSect, newName)
  {
    hide Linked, Hash, NodeAt, SetNode, UnlinkIn, HasPlace, ReadEntry, TakenOut, Seal, Moved;
    ghost var v := vol.V();
    UnlinkBehind(v, F, vol.intl, nSect);
    SecTypeOfDir(v, F, vol.intl, pSect);
    var parent, tmpSect := parent0, entry.nextSameHash;
    var rc := WriteEntryBlock(vol, nSect, Moved(entry, nPSect, newName));
    if prevSect == 0 {
      var hashValueO := GetHashValue(oldName, vol.intl);
      parent := parent.(slots := parent.slots[hashValueO := tmpSect]);
      TakenOutAtHead(v, F, nSect, nPSect, newName, parent);
    } else {
      TakenOutBehind(v, F, nSect, nPSect, newName, prevSect, NodeAt(v, prevSect).(nextSameHash := tmpSect));
      ReadAfterMove(v, nSect, Moved(entry, nPSect, newName), prevSect);
      var previous := ReadEntryBlock(vol, prevSect);
      rc := WriteEntryBlock(vol, prevSect, previous.value.(nextSameHash := tmpSect));
    }
    rc := WriteByType(vol, pSect, parent);
  }

  lemma PutAtHead(w: Vol, G: Forest, d: int, h: nat, s: int, n: Node)
    requires d in G.chains && |G.chains[d]| == HT_SIZE && h < HT_SIZE && G.chains[d][h] == [] && OnDisk(w, d)
    requires n == NodeAt(w, d).(slots := NodeAt(w, d).slots[h := s])
    ensures Resealed(AddEntry(w, G, d, h, s), d) == SetNode(w, d, Seal(n))
  {
    hide Seal;
    AddEntryIs(w, G, d, h, s, n);
    assert NodeAt(SetNode(w, d, Seal(n)), d) == Seal(n);
    SealTwice(n);
    SetTwice(w, d, Seal(n), Seal(n));
  }

  lemma PutBehind(w: Vol, G: Forest, intl: bool, d: int, h: nat, s: int)
    requires Linked(w, G, intl) && d in G.chains && h < HT_SIZE && |G.chains[d]| == HT_SIZE && G.chains[d][h] != []
    ensures var x := LinkPoint(G, d, h);
            var n := NodeAt(w, x).(nextSameHash := s);
            && x != d && OnDisk(w, x) && NodeAt(w, x).headerKey == x
            && Resealed(AddEntry(w, G, d, h, s), d) == SetNode(SetNode(w, x, Seal(n)), d, Seal(NodeAt(w, d)))
  {
    hide Linked, Seal, Hash;
    TailFacts(w, G, intl, d, h);
    var x := LinkPoint(G, d, h);
    ChainEntry(w, G, intl, d, h, |G.chains[d][h]| - 1);
    var n := NodeAt(w, x).(nextSameHash := s);
    AddEntryIs(w, G, d, h, s, n);
    assert NodeAt(SetNode(w, x, Seal(n)), d) == NodeAt(w, d);
  }

  /**
    The second half of adfRenameEntry: the entry is added behind the last one of its new
    chain. In a block that is no directory it takes the place of an empty pointer.
  */
  method PutIn(vol: AdfVolume, nPSect: int, nSect: int, newName: seq<byte>, ghost G: Forest) returns (rc: Rc)
    requires vol.Valid() && Linked(vol.V(), G, vol.intl) && |newName| <= MAX_NAME_LEN
    requires nPSect in G.chains || Barren(vol.V(), nPSect)
    modifies vol.disk
    ensures vol.Valid() && (nPSect in G.chains ==> |G.chains[nPSect]| == HT_SIZE)
    ensures rc == RcOk <==> if nPSect in G.chains then NewName(old(vol.V()), G, vol.intl, nPSect, newName)
                            else TakesPointer(old(vol.V()), vol.intl, nPSect, newName)
    ensures vol.V() == if rc != RcOk then old(vol.V())
                       else if nPSect in G.chains then
                         Resealed(AddEntry(old(vol.V()), G, nPSect, Hash(newName, vol.intl), nSect), nPSect)
                       else PutAt(old(vol.V()), vol.intl, nPSect, newName, nSect)
  {
    hide Linked, Hash, NodeAt, SetNode, HasPlace, ReadEntry, Seal, Moved, NewName, Resealed, AddEntry, LinkPoint, Barren, SealParent;
    ghost var w := vol.V();
    rc := RcOk;
    ParentReads(w, G, vol.intl, nPSect);
    TableOf(w, G, vol.intl, nPSect);
    var r := ReadEntryBlock(vol, nPSect);
    if r.None? {
      return RcError;
    }
    var nParent := r.value;
    var hashValueN := GetHashValue(newName, vol.intl);
    if nPSect in G.chains {
      HeadOfChain(w, G, vol.intl, nPSect, hashValueN);
      EndOfChain(w, G, vol.intl, nPSect, hashValueN, 0);
      SealOfDir(nParent);
      SecTypeOfDir(w, G, vol.intl, nPSect);
    }
    var nSect2 := nParent.slots[hashValueN];
    if nSect2 == 0 {
      nParent := nParent.(slots := nParent.slots[hashValueN := nSect]);
      if nPSect in G.chains {
        EmptyChainIsNew(w, G, vol.intl, nPSect, newName);
        PutAtHead(w, G, nPSect, hashValueN, nSect, nParent);
        SealOfDir(nParent);
      } else {
        SealAsDir(nParent);
        ReadsOnDisk(w, nPSect);
      }
    } else {
      var refused, last, previous := LastOfChain(vol, nSect2, newName, G, nPSect);
      if refused {
        return RcError;
      }
      LinkPointIs(G, nPSect, hashValueN);
      PutBehind(w, G, vol.intl, nPSect, hashValueN, nSect);
      previous := previous.(nextSameHash := nSect);
      rc := WriteByType(vol, previous.headerKey, previous);
    }
    rc := WriteParent(vol, nPSect, nParent);
    if nPSect in G.chains {
      SetNodeOnDisk(w, LinkPoint(G, nPSect, hashValueN), nPSect);
    }
  }

  /** The block can be read, and its table has room for a pointer to an entry of the name. */
  ghost predicate TakesPointer(v: Vol, intl: bool, d: int, name: seq<byte>) {
    ReadEntry(v, d).Some? && ReadEntry(v, d).value.slots[Hash(name, intl)] == 0
  }

  /** The volume once block `d`, which is no directory, points at `s`. */
  function PutAt(v: Vol, intl: bool, d: int, name: seq<byte>, s: int): Vol {
    SetNode(v, d, AsDirectory(NodeAt(v, d), Hash(name, intl), s))
  }

  lemma SealAsDir(n: Node)
    requires n.secType != ST_ROOT
    ensures SealParent(n) == SealDir(n)
  {
  }

  lemma ReadsOnDisk(v: Vol, s: int)
    requires ReadEntry(v, s).Some?
    ensures OnDisk(v, s)
  {
  }

  lemma LinkPointIs(F: Forest, d: int, h: nat)
    requires h < HT_SIZE && d in F.chains && |F.chains[d]| == HT_SIZE && F.chains[d][h] != []
    ensures LinkPoint(F, d, h) == F.chains[d][h][|F.chains[d][h]| - 1]
  {
  }

  lemma SetNodeOnDisk(v: Vol, x: int, y: int)
    ensures forall n :: OnDisk(SetNode(v, x, n), y) <==> OnDisk(v, y)
  {
  }

  lemma TakenIsKnown(v: Vol, F: Forest, intl: bool, s: int, d: int, name: seq<byte>)
    requires Linked(v, F, intl) && s in F.place
    ensures HasPlace(F, s)
    ensures NewName(TakenOut(v, F, s, d, name), Unlink(F, s), intl, d, name) <==> !Taken(v, F, intl, d, name, s)
  {
    hide Linked, TakenOut, Unlink, Upper, Listing;
    LinkedEntry(v, F, intl, s);
    TakenOutKeeps(v, F, intl, s, d, name);
    if F.place[s].dir != d {
      WithoutForeign(v, F, intl, s, d);
    }
  }

  /** The volume after the entry at `s` was renamed into a block `d` that is no directory. */
  function Misplaced(v: Vol, F: Forest, intl: bool, s: int, d: int, name: seq<byte>): Vol
    requires s in F.place && HasPlace(F, s)
  {
    var w := TakenOut(v, F, s, d, name);
    if ReadEntry(v, d).Some? && NodeAt(v, d).slots[Hash(name, intl)] == 0 then PutAt(w, intl, d, name, s) else w
  }

  lemma MisplacedReads(v: Vol, F: Forest, intl: bool, s: int, d: int, name: seq<byte>)
    requires Linked(v, F, intl) && s in F.place && d !in F.chains && Barren(v, d)
    ensures HasPlace(F, s)
    ensures var w := TakenOut(v, F, s, d, name);
            && Barren(w, d) && (ReadEntry(w, d).Some? <==> ReadEntry(v, d).Some?)
            && (ReadEntry(v, d).Some? ==> NodeAt(w, d).slots == NodeAt(v, d).slots)
            && (TakesPointer(w, intl, d, name) <==> TakesPointer(v, intl, d, name))
            && Misplaced(v, F, intl, s, d, name) == if TakesPointer(v, intl, d, name) then PutAt(w, intl, d, name, s) else w
  {
    hide Linked, Hash, TakenOut, PutAt, IsNode, NodeAt;
    LinkedEntry(v, F, intl, s);
    var w := TakenOut(v, F, s, d, name);
    TakenOutReads(v, F, intl, s, d, name, d);
    ReadsNode(v, d);
    ReadsNode(w, d);
    if ReadEntry(v, d).Some? {
      var slots := NodeAt(v, d).slots;
      forall h | 0 <= h < HT_SIZE && slots[h] != 0 ensures ReadEntry(w, slots[h]) == None {
        TakenOutReads(v, F, intl, s, d, name, slots[h]);
        ReadsNode(v, slots[h]);
        ReadsNode(w, slots[h]);
      }
      hide ReadEntry, HasPlace;
    }
  }

  /** One of the pointers of the table leads to a block that is no entry. */
  lemma SomePointer(slots: Slots) returns (h: nat)
    requires slots != NoSlots()
    ensures h < HT_SIZE && slots[h] != 0
  {
    h :| h < HT_SIZE && slots[h] != 0;
  }

  /**
    An entry that is renamed into a sector that is no directory is in no directory any more;
    if the sector is the header of a file with data blocks, and takes the pointer, that file
    is in none either.
  */
  lemma IntoNoDirectory(v: Vol, F: Forest, intl: bool, s: int, d: int, name: seq<byte>)
    requires Linked(v, F, intl) && s in F.place && d !in F.chains && Barren(v, d)
    ensures HasPlace(F, s)
    ensures var v', takes := Misplaced(v, F, intl, s, d, name), TakesPointer(v, intl, d, name);
            && v'.free == v.free
            && (!takes || NodeAt(v, d).slots != NoSlots() ==> NoEntryOf(v', intl, s))
            && (takes && NodeAt(v, d).slots != NoSlots() ==> Lost(v', intl, d))
            && (takes ==> NodeAt(v', d).secType == ST_DIR && NodeAt(v', d).slots == NodeAt(v, d).slots[Hash(name, intl) := s])
  {
    hide Linked, Hash, TakenOut, NodeAt, Misplaced, IsNode, NoEntryOf, Lost, OnDisk, Barren;
    LinkedEntry(v, F, intl, s);
    TakenOutKeeps(v, F, intl, s, d, name);
    MisplacedReads(v, F, intl, s, d, name);
    var w, takes := TakenOut(v, F, s, d, name), TakesPointer(v, intl, d, name);
    ReadsNode(v, d);
    ReadsNode(w, d);
    if takes {
      PutAtFacts(w, intl, d, name, s);
      if NodeAt(v, d).slots != NoSlots() {
        var h := SomePointer(NodeAt(v, d).slots);
        BarrenPointer(w, d, h);
        FalsePointer(PutAt(w, intl, d, name, s), intl, d, h);
        FileNowDirectory(PutAt(w, intl, d, name, s), intl, d);
        Parentless(PutAt(w, intl, d, name, s), intl, s);
      }
    } else {
      if ReadEntry(w, d).Some? {
        BarrenPointer(w, d, Hash(name, intl));
        FalsePointer(w, intl, d, Hash(name, intl));
      } else {
        NoDirectory(w, intl, d);
      }
      Parentless(w, intl, s);
    }
  }

  lemma BarrenPointer(v: Vol, d: int, h: nat)
    requires Barren(v, d) && ReadEntry(v, d).Some? && h < HT_SIZE && NodeAt(v, d).slots[h] != 0
    ensures !IsNode(v, NodeAt(v, d).slots[h])
  {
    ReadsNode(v, d);
    ReadsNode(v, NodeAt(v, d).slots[h]);
  }

  lemma PutAtFacts(w: Vol, intl: bool, d: int, name: seq<byte>, s: int)
    requires IsNode(w, d)
    ensures var v', h := PutAt(w, intl, d, name, s), Hash(name, intl);
            && v'.free == w.free && v'.root == w.root
            && (forall x :: IsNode(v', x) <==> IsNode(w, x))
            && NodeAt(v', d).secType == ST_DIR && NodeAt(v', d).slots == NodeAt(w, d).slots[h := s]
            && NodeAt(v', d).parent == NodeAt(w, d).parent
            && (forall x :: x != d ==> NodeAt(v', x) == NodeAt(w, x))
  {
    hide Hash;
  }

  /** A block of a directory that no forest has as a directory, no forest has as an entry. */
  lemma FileNowDirectory(v: Vol, intl: bool, d: int)
    requires NodeAt(v, d).secType == ST_DIR && forall G: Forest :: Linked(v, G, intl) ==> d !in G.chains
    ensures Lost(v, intl, d)
  {
    forall G: Forest | Linked(v, G, intl) ensures d !in G.place && d !in G.chains {
      if d in G.place {
        LinkedEntry(v, G, intl, d);
      }
    }
  }

  /**
    An entry that is created in the header of a file with data blocks is in no directory,
    and the file is in none any more.
  */
  lemma CreatedInFile(v: Vol, F: Forest, intl: bool, Ls: map<int, Layout>, own: set<int>, d: int, name: seq<byte>, n: Node)
    requires WholeOK(v, F, intl, Ls, own) && d in Ls && TakesEntry(v, intl, d, name) && VolOK(v)
    requires n == NewEntryNode(FirstFree(v), n.parent, name, n.secType) && n.secType in {ST_FILE, ST_DIR} && n.parent in {0, d}
    ensures var v', s := CreatedAt(v, intl, d, NodeAt(v, d), n), n.headerKey;
            && NodeAt(v', d).secType == ST_DIR && NodeAt(v', d).slots == NodeAt(v, d).slots[Hash(name, intl) := s]
            && v'.free == v.free - {s}
            && (NodeAt(v, d).slots != NoSlots() ==> Lost(v', intl, d) && NoEntryOf(v', intl, s))
  {
    hide Linked, Hash, WholeOK, Stored, Lost, NoEntryOf, FreeInOrder, Barren;
    FileIsBarren(v, F, intl, Ls, own, d);
    ReadsNode(v, d);
    var s, m := n.headerKey, AsDirectory(NodeAt(v, d), Hash(name, intl), n.headerKey);
    FileApart(v, F, intl, Ls, own, d, s);
    var w := SetNode(Take(v, s), d, m);
    SetNodeOnly(Take(v, s), d, m);
    SetNodeOnly(w, s, Seal(n));
    var v' := CreatedAt(v, intl, d, NodeAt(v, d), n);
    assert v' == SetNode(w, s, Seal(n));
    if NodeAt(v, d).slots != NoSlots() {
      var h := SomePointer(NodeAt(v, d).slots);
      BarrenPointer(v, d, h);
      assert NodeAt(v', d).slots[h] == NodeAt(v, d).slots[h];
      FalsePointer(v', intl, d, h);
      FileNowDirectory(v', intl, d);
      NoRootAtZero(v', intl);
      Parentless(v', intl, s);
    }
  }

  /** Neither the header of a file nor what it points at is a free sector. */
  lemma FileApart(v: Vol, F: Forest, intl: bool, Ls: map<int, Layout>, own: set<int>, d: int, s: int)
    requires WholeOK(v, F, intl, Ls, own) && d in Ls && s in v.free
    ensures s != d && OnDisk(v, d) && OnDisk(v, s) && s != 0
    ensures forall h :: 0 <= h < HT_SIZE ==> NodeAt(v, d).slots[h] != s
  {
    hide Linked, EachOwned, InUse;
    WholeParts(v, F, intl, Ls, own);
    var n, L := NodeAt(v, d), Ls[d];
    assert Stored(v, n, L) && L.header == d;
    assert VolOK(v) && d in L.own;
    forall h | 0 <= h < HT_SIZE ensures n.slots[h] != s {
      assert Slot(n, 71 - h) == n.slots[h];
      if 71 - h < |L.data| {
        assert L.data[71 - h] in L.own;
      }
    }
  }

  lemma NoRootAtZero(v: Vol, intl: bool)
    ensures forall G: Forest :: Linked(v, G, intl) ==> 0 !in G.chains
  {
    forall G: Forest | Linked(v, G, intl) && 0 in G.chains ensures false {
      LinkedDir(v, G, intl, 0);
      hide Linked;
    }
  }

  /** What adfRenameEntry does to the entry at sector `s`. */
  ghost predicate RenameResult(v: Vol, F: Forest, intl: bool, Ls: map<int, Layout>, own: set<int>, s: int, d: int,
                               name: seq<byte>, v': Vol, F': Forest)
    requires s in F.place && HasPlace(F, s)
  {
    // Lost or not, the block has the name as it was given, and no other block another name.
    && OnlyRenamed(v, s, name, v') && NodeAt(v', s).parent == d &&
    if d !in F.chains then
      // The entry is lost; the block it was put into has become that of a directory.
      && v' == Misplaced(v, F, intl, s, d, name) && F' == Unlink(F, s) && v'.free == v.free
      && (!TakesPointer(v, intl, d, name) || NodeAt(v, d).slots != NoSlots() ==> NoEntryOf(v', intl, s))
      && (TakesPointer(v, intl, d, name) && NodeAt(v, d).slots != NoSlots() ==> Lost(v', intl, d))
    else if Taken(v, F, intl, d, name, s) then
      // The entry is lost: it is in no chain any more, and all other names are as before.
      && v' == TakenOut(v, F, s, d, name) && F' == Unlink(F, s)
      && Linked(v', F', intl) && s !in F'.place
      && Listing(v', F', F.place[s].dir) == Listing(v, F, F.place[s].dir) - {s}
      && (forall e :: e != F.place[s].dir ==> Listing(v', F', e) == Listing(v, F, e))
    else if d == s then
      // The directory is lost, with all below it: it is an entry of itself, and of no other one.
      && d in Unlink(F, s).chains && |Unlink(F, s).chains[d]| == HT_SIZE
      && v' == Renamed(v, F, s, d, name, intl) && F' == RenamedForest(F, s, d, name, intl)
      && Lost(v', intl, s) && v'.free == v.free && NodeAt(v', s).parent == s
    else
      && d in Unlink(F, s).chains && |Unlink(F, s).chains[d]| == HT_SIZE
      && v' == Renamed(v, F, s, d, name, intl) && F' == RenamedForest(F, s, d, name, intl)
      && WholeOK(v', F', intl, Ls, own)
      && SameFiles(v, v', Ls) && v'.free == v.free
      && (forall e :: Listing(v', F', e) == RenamedListing(v, F, s, d, name, e))
  }

  lemma RenamedInPlace(v: Vol, F: Forest, intl: bool, s: int, d: int, name: seq<byte>)
    requires Linked(v, F, intl) && s in F.place && (d in F.chains || Barren(v, d))
    ensures HasPlace(F, s)
    ensures d !in F.chains ==>
              var w := Misplaced(v, F, intl, s, d, name);
              OnlyRenamed(v, s, name, w) && NodeAt(w, s).parent == d
    ensures d in F.chains ==>
              && d in Unlink(F, s).chains && |Unlink(F, s).chains[d]| == HT_SIZE
              && OnlyRenamed(v, s, name, TakenOut(v, F, s, d, name)) && NodeAt(TakenOut(v, F, s, d, name), s).parent == d
              && OnlyRenamed(v, s, name, Renamed(v, F, s, d, name, intl)) && NodeAt(Renamed(v, F, s, d, name, intl), s).parent == d
  {
    hide Linked, TakenOut, Renamed, Barren, Hash, TakesPointer, NameOf, NodeAt, LeadsNowhere, Listing, ReadEntry;
    LinkedEntry(v, F, intl, s);
    TakenOutNames(v, F, intl, s, d, name);
    if d in F.chains {
      UnlinkedTable(F, s, d) by { LinkedParts(v, F, intl); }
      RenamedNames(v, F, intl, s, d, name);
    } else {
      MisplacedReads(v, F, intl, s, d, name);
      var w := TakenOut(v, F, s, d, name);
      PutKeepsNames(w, intl, d, name, s);
    }
  }

  lemma PutKeepsNames(w: Vol, intl: bool, d: int, name: seq<byte>, s: int)
    ensures SameNames(w, PutAt(w, intl, d, name, s))
  {
    hide Hash;
    WriteKeepsNames(w, d, AsDirectory(NodeAt(w, d), Hash(name, intl), s));
  }

  lemma RenameResults(v: Vol, F: Forest, intl: bool, Ls: map<int, Layout>, own: set<int>, s: int, d: int, name: seq<byte>)
    requires WholeOK(v, F, intl, Ls, own) && s in F.place && (d in F.chains || Barren(v, d)) && |name| <= MAX_NAME_LEN
    ensures HasPlace(F, s)
    ensures d !in F.chains ==>
              RenameResult(v, F, intl, Ls, own, s, d, name, Misplaced(v, F, intl, s, d, name), Unlink(F, s))
    ensures d in F.chains && Taken(v, F, intl, d, name, s) ==>
              RenameResult(v, F, intl, Ls, own, s, d, name, TakenOut(v, F, s, d, name), Unlink(F, s))
    ensures d in F.chains && !Taken(v, F, intl, d, name, s) ==>
              && d in Unlink(F, s).chains && |Unlink(F, s).chains[d]| == HT_SIZE
              && RenameResult(v, F, intl, Ls, own, s, d, name, Renamed(v, F, s, d, name, intl), RenamedForest(F, s, d, name, intl))
  {
    hide Linked, TakenOut, Unlink, Taken, Renamed, RenamedForest, Listing, RenamedListing, FilesOK, EachOwned, InUse, SameFiles,
         Misplaced, TakesPointer, NoEntryOf, Lost, Barren, NodeAt, OnlyRenamed;
    WholeParts(v, F, intl, Ls, own);
    LinkedEntry(v, F, intl, s);
    RenamedInPlace(v, F, intl, s, d, name);
    if d !in F.chains {
      IntoNoDirectory(v, F, intl, s, d, name);
    } else if Taken(v, F, intl, d, name, s) {
      TakenOutKeeps(v, F, intl, s, d, name);
    } else if d == s {
      IntoItself(v, F, intl, s, name);
    } else {
      RenameWhole(v, F, intl, Ls, own, s, d, name);
    }
  }

  /**
    adfRenameEntry: the entry moves to its new name and directory exactly if that is a
    directory, and no other entry there has the name; otherwise it is lost. So is a
    directory that is moved into itself.
  */
  method RenameEntry(vol: AdfVolume, pSect: int, oldName: seq<byte>, nPSect: int, newName: seq<byte>,
                     ghost F: Forest, ghost Ls: map<int, Layout>, ghost own: set<int>)
    returns (rc: Rc, ghost F': Forest)
    requires vol.Valid() && WholeOK(vol.V(), F, vol.intl, Ls, own)
    requires (pSect in F.chains || Barren(vol.V(), pSect)) && (nPSect in F.chains || Barren(vol.V(), nPSect))
    modifies vol.disk
    ensures vol.Valid()
    ensures var v := old(vol.V());
            var s := EntryNamed(v, F, vol.intl, pSect, oldName);
            if |newName| > MAX_NAME_LEN then rc != RcOk && vol.V() == v && F' == F
            else if pSect == nPSect && oldName == newName then rc == RcOk && vol.V() == v && F' == F
            else if s == -1 then rc != RcOk && vol.V() == v && F' == F
            else
              && s in F.place && HasPlace(F, s)
              && (rc == RcOk <==> if nPSect in F.chains then !Taken(v, F, vol.intl, nPSect, newName, s)
                                  else TakesPointer(v, vol.intl, nPSect, newName))
              && RenameResult(v, F, vol.intl, Ls, own, s, nPSect, newName, vol.V(), F')
  {
    hide Linked, Hash, Upper, NodeAt, WholeOK, UnlinkIn, HasPlace, Listing, ReadEntry, EntryNamed, NewName, Before, UpperName,
         TakenOut, Unlink, Renamed, RenamedForest, RenameResult, Taken, Lost, Misplaced, TakesPointer, Barren, LeadsNowhere;
    ghost var v, intl := vol.V(), vol.intl;
    F' := F;
    if |newName| > MAX_NAME_LEN {
      return RcError, F';
    }
    if pSect == nPSect && oldName == newName {
      return RcOk, F';
    }
    WholeLinked(v, F, intl, Ls, own);
    ParentReads(v, F, intl, pSect);
    NoEntryThere(v, F, intl, pSect, oldName);
    var parent := ReadEntryBlock(vol, pSect);
    if parent.None? {
      return RcError, F';
    }
    var nSect, entry, prevSect := NameToEntryBlk(vol, parent.value.slots, oldName, F, pSect);
    if pSect in F.chains {
      FindsNamed(v, F, intl, pSect, oldName, nSect, entry, prevSect);
    }
    if nSect == -1 {
      return RcError, F';
    }
    RenameResults(v, F, intl, Ls, own, nSect, nPSect, newName);
    TakenOutKeeps(v, F, intl, nSect, nPSect, newName);
    if nPSect in F.chains {
      TakenIsKnown(v, F, intl, nSect, nPSect, newName);
    } else {
      MisplacedReads(v, F, intl, nSect, nPSect, newName);
    }
    TakeOut(vol, pSect, parent.value, entry, nSect, prevSect, oldName, nPSect, newName, F);
    ghost var G := Unlink(F, nSect);
    SameDirs(F, G, nPSect);
    rc := PutIn(vol, nPSect, nSect, newName, G);
    F' := if nPSect in F.chains && rc == RcOk then RenamedForest(F, nSect, nPSect, newName, intl) else G;
    if nPSect in F.chains {
      RenamedIs(v, F, nSect, nPSect, newName, intl);
    }
  }

  lemma SameDirs(F: Forest, G: Forest, d: int)
    requires G.chains.Keys == F.chains.Keys
    ensures d in G.chains <==> d in F.chains
  {
    assert d in G.chains.Keys <==> d in G.chains;
  }

  lemma RenamedIs(v: Vol, F: Forest, s: int, d: int, name: seq<byte>, intl: bool)
    requires s in F.place && HasPlace(F, s)
    requires d in Unlink(F, s).chains && |Unlink(F, s).chains[d]| == HT_SIZE
    ensures Renamed(v, F, s, d, name, intl) ==
            Resealed(AddEntry(TakenOut(v, F, s, d, name), Unlink(F, s), d, Hash(name, intl), s), d)
  {
  }
}
