/**
  When undeleting brings a file back: always, if it was the last entry of its chain; never,
  if another entry came after it, because the link to that entry is not cleared.
*/
module Undelete {
  import opened FileUtil
  import opened Blocks
  import FileBlocks
  import opened Names
  import opened FileInv
  import opened FileSpec
  import opened DirInv
  import opened DirLink
  import opened DirSpec
  import opened Dir
  import opened DirLost
  import opened DirChange
  import opened VolumeInv
  import opened VolumeOps
  import opened Salvage

  /* ---- an undeleted file ---- */

  lemma DeletedReady(v: Vol, F: Forest, intl: bool, Ls: map<int, Layout>, own: set<int>, d: int, s: int, L: Layout)
    requires WholeOK(v, F, intl, Ls, own) && d in F.chains
    requires Intact(v, NodeAt(v, s), L) && Undeletable(v, F, intl, d, s, NodeAt(v, s), L.own.Keys)
    requires NodeAt(v, s).nextSameHash == 0
    ensures var w := WithoutFree(v, L.own.Keys);
            && Linked(w, F, intl) && Ready(w, F, intl, d, Hash(NodeAt(v, s).name, intl), s)
            && s !in Ls && s in L.own.Keys && L.header == s
            && Stored(w, NodeAt(w, s), L)
  {
    hide Linked, Listing, NewName, Hash, Upper, FilesOK, EachOwned;
    WholeParts(v, F, intl, Ls, own);
    var w, n := WithoutFree(v, L.own.Keys), NodeAt(v, s);
    FreeIsApart(v, F, intl, w.free);
    IntactHeader(v, n, L);
    assert s in v.free;
    FreeIsUnused(v, F, intl, s);
    forall t | t in F.place && F.place[t].dir == d ensures UpperName(w, t, intl) != UpperName(w, s, intl) {
      NewNameDiffers(v, F, intl, d, n.name, t);
    }
  }

  lemma IntactHeader(v: Vol, n: Node, L: Layout)
    requires Intact(v, n, L)
    ensures L.header in L.own.Keys && 2 <= L.header <= v.last
    ensures n.typ == T_HEADER && n.secType == ST_FILE && n.headerKey == L.header
    ensures OnDisk(v, L.header) && v.disk[L.header] == Meta(n)
    ensures forall x :: x in L.own.Keys ==> 2 <= x <= v.last
  {
  }

  lemma OwnedAfterUndelete(v: Vol, F: Forest, Ls: map<int, Layout>, own: set<int>, s: int, L: Layout, v': Vol, F': Forest)
    requires EachOwned(v, F, Ls, own) && L.own.Keys <= v.free && s !in Ls
    requires v'.last == v.last && v'.free == v.free - L.own.Keys && F'.chains.Keys == F.chains.Keys
    ensures EachOwned(v', F', Ls[s := L], own)
  {
    var Ls' := Ls[s := L];
    assert forall d :: d in F'.chains <==> d in F'.chains.Keys;
    assert forall d :: d in F.chains <==> d in F.chains.Keys;
    forall x | 2 <= x <= v'.last
      ensures x in v'.free || x in own || x in F'.chains || exists t :: t in Ls' && x in Ls'[t].own.Keys
    {
      if x in L.own.Keys {
        assert s in Ls' && x in Ls'[s].own.Keys;
      } else if x !in v.free && x !in own && x !in F.chains {
        var t :| t in Ls && x in Ls[t].own.Keys;
        assert t in Ls' && x in Ls'[t].own.Keys;
      }
    }
  }

  lemma PlacesUsed(v: Vol, F: Forest, L: Layout)
    requires InUse(v, F) && L.own.Keys <= v.free
    ensures forall x :: x in F.place ==> x !in L.own.Keys
  {
  }

  lemma FreeUnowned(v: Vol, F: Forest, Ls: map<int, Layout>, own: set<int>, L: Layout)
    requires EachOwned(v, F, Ls, own) && L.own.Keys <= v.free
    ensures own !! L.own.Keys
  {
  }

  lemma FilesWithDeleted(w: Vol, F: Forest, Ls: map<int, Layout>, s: int, L: Layout)
    requires AllStored(w, Ls) && Disjoint(F, Ls) && EntriesFit(F, Ls)
    requires Stored(w, NodeAt(w, s), L) && L.header == s && s !in Ls
    requires forall t :: t in Ls ==> Ls[t].own.Keys !! L.own.Keys
    requires s !in F.chains && L.own.Keys !! F.chains.Keys
    requires forall x :: x in F.place ==> x !in L.own.Keys
    ensures AllStored(w, Ls[s := L]) && Disjoint(F, Ls[s := L]) && EntriesFit(F, Ls[s := L])
  {
    hide Stored;
    assert forall d :: d in F.chains <==> d in F.chains.Keys;
  }

  lemma LinkedInUse(v: Vol, F: Forest, v': Vol, d: int, h: nat, s: int, own: set<int>)
    requires InUse(v, F) && v'.free == v.free - own && s in own
    requires d in F.chains && |F.chains[d]| == HT_SIZE && h < HT_SIZE
    ensures InUse(v', Link(F, d, h, s))
  {
  }

  lemma LinkKeys(F: Forest, d: int, h: nat, s: int)
    requires d in F.chains && |F.chains[d]| == HT_SIZE && h < HT_SIZE
    ensures Link(F, d, h, s).chains.Keys == F.chains.Keys && Link(F, d, h, s).place.Keys == F.place.Keys + {s}
  {
  }

  /**
    Undeleting a file with bytes that has no link to another entry brings it back: the volume
    is whole, the file has its old bytes, its sectors are used again and its name is listed.
  */
  lemma UndeleteWhole(v: Vol, F: Forest, intl: bool, Ls: map<int, Layout>, own: set<int>, d: int, s: int, L: Layout)
    requires WholeOK(v, F, intl, Ls, own) && d in F.chains
    requires Intact(v, NodeAt(v, s), L) && Undeletable(v, F, intl, d, s, NodeAt(v, s), L.own.Keys)
    requires NodeAt(v, s).nextSameHash == 0 && NodeAt(v, s).byteSize > 0
    ensures |F.chains[d]| == HT_SIZE && SectorsOf(v, NodeAt(v, s)) == Some(L.own.Keys)
    ensures var n := NodeAt(v, s);
            var v', F' := Undeleted(v, F, d, n, L.own.Keys, intl), Link(F, d, Hash(n.name, intl), s);
            && WholeOK(v', F', intl, Ls[s := L], own)
            && SameFiles(v, v', Ls) && Bytes(v', L) == Bytes(v, L)
            && Listing(v', F', d) == Listing(v, F, d)[s := n.name]
            && (forall e :: e != d ==> Listing(v', F', e) == Listing(v, F, e))
            && v'.free == v.free - L.own.Keys
  {
    hide Linked, Listing, Stored, AddEntry, Link, Hash, Upper, AllStored, SameFiles, Disjoint, EachOwned, FilesOK, InUse,
         EntriesFit, Bytes, Ready, NodeAt, LinkPoint, Intact, NewName, ParentOK, SectorsOf;
    IntactSectors(v, NodeAt(v, s), L);
    WholeParts(v, F, intl, Ls, own);
    LinkedDir(v, F, intl, d);
    DeletedReady(v, F, intl, Ls, own, d, s, L);
    var n, w := NodeAt(v, s), WithoutFree(v, L.own.Keys);
    var h, Ls' := Hash(n.name, intl), Ls[s := L];
    var v', F' := AddEntry(w, F, d, h, s), Link(F, d, h, s);
    FreeIsApart(v, F, intl, w.free);
    AddKeeps(w, F, intl, d, h, s);
    NameOfEntry(w, s, intl);
    StillOwned(v, F, Ls, own, L);
    FreeKeepsFiles(v, Ls, w.free);
    PlacesUsed(v, F, L);
    FilesWithDeleted(w, F, Ls, s, L);
    AddKeepsFiles(w, F, intl, Ls', d, h, s);
    WithMore(v, w, v', Ls, s, L);
    LinkKeys(F, d, h, s);
    LinkedInUse(v, F, v', d, h, s, L.own.Keys);
    FreeUnowned(v, F, Ls, own, L);
    OwnedAfterUndelete(v, F, Ls, own, s, L, v', F');
    NotADir(v, F, s, L);
    StillFiles(v', F', Ls', own);
  }

  lemma NotADir(v: Vol, F: Forest, s: int, L: Layout)
    requires InUse(v, F) && s in L.own.Keys && L.own.Keys <= v.free
    ensures s !in F.chains
  {
  }

  lemma StillOwned(v: Vol, F: Forest, Ls: map<int, Layout>, own: set<int>, L: Layout)
    requires EachOwned(v, F, Ls, own) && L.own.Keys <= v.free
    ensures forall t :: t in Ls ==> Ls[t].own.Keys !! L.own.Keys && Ls[t].own.Keys !! v.free - L.own.Keys
    ensures L.own.Keys !! F.chains.Keys
  {
  }

  /** The other files are as before, and so are the bytes of the one that is back. */
  lemma WithMore(v: Vol, w: Vol, v': Vol, Ls: map<int, Layout>, s: int, L: Layout)
    requires SameFiles(v, w, Ls) && SameFiles(w, v', Ls[s := L]) && s !in Ls && L.header == s
    requires w == WithoutFree(v, L.own.Keys)
    ensures SameFiles(v, v', Ls) && Bytes(v', L) == Bytes(v, L)
  {
    hide Stored;
    var Ls' := Ls[s := L];
    assert Ls'[s] == L && s in Ls';
    SameBytesWhenFree(v, L);
    forall t | t in Ls ensures Stored(v', NodeAt(v', t), Ls[t]) && Bytes(v', Ls[t]) == Bytes(v, Ls[t]) {
      assert t in Ls' && Ls'[t] == Ls[t];
    }
  }

  lemma SameBytesWhenFree(v: Vol, L: Layout)
    ensures Bytes(WithoutFree(v, L.own.Keys), L) == Bytes(v, L)
  {
    var w := WithoutFree(v, L.own.Keys);
    var c, c' := Bytes(v, L), Bytes(w, L);
    forall p | 0 <= p < |c| ensures c'[p] == c[p] {
      assert DiskBlock(w, L, p / FFS_BLOCK) == DiskBlock(v, L, p / FFS_BLOCK);
    }
  }

  /* ---- removing and undeleting ---- */

  /** What is left of a removed file with bytes. */
  lemma RemovedIsIntact(v: Vol, F: Forest, intl: bool, Ls: map<int, Layout>, own: set<int>, s: int)
    requires WholeOK(v, F, intl, Ls, own) && s in Ls && NodeAt(v, s).byteSize > 0
    ensures s in F.place && HasPlace(F, s) && s !in F.chains
    ensures var v1, F1, d := RemovedVol(v, F, Ls, s), WithoutEntry(F, s), F.place[s].dir;
            && WholeOK(v1, F1, intl, Ls - {s}, own) && d in F1.chains && |F1.chains[d]| == HT_SIZE
            && NodeAt(v1, s) == NodeAt(v, s)
            && NodeAt(v, s).parent == d && Hash(NodeAt(v, s).name, intl) == F.place[s].bucket
            && Intact(v1, NodeAt(v, s), Ls[s])
            && Undeletable(v1, F1, intl, d, s, NodeAt(v, s), Ls[s].own.Keys)
            && WithoutFree(v1, Ls[s].own.Keys) == UnlinkIn(v, F, s)
            && Listing(v1, F1, d) == Listing(v, F, d) - {s}
            && (forall e :: e != d ==> Listing(v1, F1, e) == Listing(v, F, e))
  {
    hide Linked, Listing, Stored, UnlinkIn, WholeOK, Hash, Upper, HasPlace, Unlink, FilesOK, EachOwned;
    WholeParts(v, F, intl, Ls, own);
    EntryFacts(v, F, intl, Ls, own, s);
    LinkedEntry(v, F, intl, s);
    RemoveWhole(v, F, intl, Ls, own, s);
    FreedOrLeft(v, F, intl, Ls, own, s);
    assert own + {} == own;
    FileIsUsed(v, F, intl, Ls, own, s);
    var v1, F1, d, n := RemovedVol(v, F, Ls, s), WithoutEntry(F, s), F.place[s].dir, NodeAt(v, s);
    WithoutEntryKeys(F, s);
    assert d in F1.chains by { PlaceFacts(F, s); }
    WholeParts(v1, F1, intl, Ls - {s}, own);
    LinkedDir(v1, F1, intl, d);
    ParentIsOK(v1, F1, intl, d);
    assert WithoutFree(v1, Ls[s].own.Keys) == UnlinkIn(v, F, s);
    OldNameIsNew(v, F, intl, d, s, v1, F1);
    EntryName(v, F, intl, s);
    SameNodeAt(UnlinkIn(v, F, s), v1, s);
  }

  lemma SameNodeAt(v: Vol, w: Vol, s: int)
    requires w == v.(free := w.free)
    ensures NodeAt(w, s) == NodeAt(v, s)
  {
  }

  lemma EntryName(v: Vol, F: Forest, intl: bool, s: int)
    requires s in F.place && HasPlace(F, s) && EntryOK(v, F, intl, s)
    ensures |NodeAt(v, s).name| <= MAX_NAME_LEN && NodeAt(v, s).headerKey == s && NodeAt(v, s).parent == F.place[s].dir
    ensures Hash(NodeAt(v, s).name, intl) == F.place[s].bucket
  {
    hide Hash;
  }

  lemma PlaceFacts(F: Forest, s: int)
    requires s in F.place && HasPlace(F, s)
    ensures F.place[s].dir in F.chains && F.place[s].dir != s
  {
  }

  lemma FileIsUsed(v: Vol, F: Forest, intl: bool, Ls: map<int, Layout>, own: set<int>, s: int)
    requires WholeOK(v, F, intl, Ls, own) && s in Ls
    ensures Ls[s].own.Keys !! v.free
  {
    hide TreeOK, FilesOK;
  }

  lemma ParentIsOK(v: Vol, F: Forest, intl: bool, d: int)
    requires Linked(v, F, intl) && InUse(v, F) && d in F.chains
    ensures ParentOK(v, d)
  {
    LinkedDir(v, F, intl, d);
    hide Linked;
  }

  lemma OldNameIsNew(v: Vol, F: Forest, intl: bool, d: int, s: int, v1: Vol, F1: Forest)
    requires Linked(v, F, intl) && s in F.place && F.place[s].dir == d
    requires Listing(v1, F1, d) == Listing(v, F, d) - {s}
    ensures NewName(v1, F1, intl, d, NodeAt(v, s).name)
  {
    hide Linked, Upper;
    var m, m1 := Listing(v, F, d), Listing(v1, F1, d);
    forall t | t in m1 ensures Upper(m1[t], intl) != Upper(NodeAt(v, s).name, intl) {
      assert t in m && s in m && t != s;
      if Upper(m[t], intl) == Upper(m[s], intl) {
        ListingInjective(v, F, intl, d, s, t);
      }
    }
  }

  /** Taking the last entry out of its chain and adding it again gives back the forest. */
  lemma SameForest(F: Forest, s: int)
    requires ForestOK(F) && s in F.place && HasPlace(F, s)
    requires F.place[s].idx + 1 == |F.chains[F.place[s].dir][F.place[s].bucket]|
    ensures var p, F1 := F.place[s], Unlink(F, s);
            p.dir in F1.chains && |F1.chains[p.dir]| == HT_SIZE && Link(F1, p.dir, p.bucket, s) == F
    ensures s !in F.chains ==> WithoutEntry(F, s) == Unlink(F, s)
  {
    var p, F1 := F.place[s], Unlink(F, s);
    assert s !in F.chains ==> F1.chains - {s} == F1.chains;
    var chain := F.chains[p.dir][p.bucket];
    assert chain[..p.idx] + chain[p.idx + 1..] + [s] == chain;
    var F2 := Link(F1, p.dir, p.bucket, s);
    assert F2.chains[p.dir] == F.chains[p.dir];
    assert F2.chains == F.chains;
    forall t | t in F.place && t != s ensures F2.place[t] == F.place[t] {
      assert HasPlace(F, t);
    }
    assert F2.place == F.place;
  }

  lemma LastHasNoNext(v: Vol, F: Forest, intl: bool, s: int)
    requires Linked(v, F, intl) && s in F.place
    ensures HasPlace(F, s)
    ensures NodeAt(v, s).nextSameHash == 0 <==> F.place[s].idx + 1 == |F.chains[F.place[s].dir][F.place[s].bucket]|
  {
    hide Linked, Hash;
    LinkedEntry(v, F, intl, s);
    var p := F.place[s];
    LinkedDir(v, F, intl, p.dir);
    ChainEntry(v, F, intl, p.dir, p.bucket, p.idx + 1);
  }

  /**
    Removing a file with bytes and undeleting it, when it was the last entry of its chain,
    restores the free sectors, the chains and listings of all directories, and the bytes of
    all files.
  */
  lemma RemoveThenUndelete(v: Vol, F: Forest, intl: bool, Ls: map<int, Layout>, own: set<int>, s: int)
    requires WholeOK(v, F, intl, Ls, own) && s in Ls && NodeAt(v, s).nextSameHash == 0 && NodeAt(v, s).byteSize > 0
    ensures s in F.place && HasPlace(F, s)
    ensures var v1, F1, d, n, L := RemovedVol(v, F, Ls, s), WithoutEntry(F, s), F.place[s].dir, NodeAt(v, s), Ls[s];
            && d in F1.chains && |F1.chains[d]| == HT_SIZE
            && FileBlocks.BlocksFit(v1, NodeAt(v1, s)) && ListedOnVolume(v1, NodeAt(v1, s))
            && SectorsOf(v1, NodeAt(v1, s)) == Some(L.own.Keys)
            && Undeletable(v1, F1, intl, d, s, NodeAt(v1, s), L.own.Keys)
            && var v2 := Undeleted(v1, F1, d, n, L.own.Keys, intl);
               && WholeOK(v2, F, intl, Ls, own)
               && v2.free == v.free
               && (forall e :: Listing(v2, F, e) == Listing(v, F, e))
               && (forall t :: t in Ls ==> Bytes(v2, Ls[t]) == Bytes(v, Ls[t]))
  {
    hide Linked, Listing, Stored, UnlinkIn, WholeOK, Hash, Upper, RemovedVol, WithoutEntry, Link, Undeleted, Undeletable, Intact,
         Bytes, SameFiles, ForestOK, FreedBy, SectorsOf, FileBlocks.BlocksFit, ListedOnVolume;
    WholeParts(v, F, intl, Ls, own);
    LinkedParts(v, F, intl);
    RemovedIsIntact(v, F, intl, Ls, own, s);
    IntactSectors(RemovedVol(v, F, Ls, s), NodeAt(v, s), Ls[s]);
    LastHasNoNext(v, F, intl, s);
    SameForest(F, s);
    var v1, F1, d, n, L := RemovedVol(v, F, Ls, s), WithoutEntry(F, s), F.place[s].dir, NodeAt(v, s), Ls[s];
    UndeleteWhole(v1, F1, intl, Ls - {s}, own, d, s, L);
    assert (Ls - {s})[s := L] == Ls;
    RemoveWhole(v, F, intl, Ls, own, s);
    BackAgain(v, F, intl, Ls, own, s, v1, Undeleted(v1, F1, d, n, L.own.Keys, intl));
    OwnListing(v, F, d, s);
    FreeBack(v, F, intl, Ls, own, s);
  }

  lemma FilePlace(v: Vol, F: Forest, intl: bool, Ls: map<int, Layout>, own: set<int>, s: int)
    requires WholeOK(v, F, intl, Ls, own) && s in Ls
    ensures s in F.place && s !in F.chains && s !in own
  {
    hide TreeOK, EachOwned, Stored;
  }

  lemma FreeBack(v: Vol, F: Forest, intl: bool, Ls: map<int, Layout>, own: set<int>, s: int)
    requires WholeOK(v, F, intl, Ls, own) && s in Ls && NodeAt(v, s).byteSize > 0
    ensures v.free + FreedBy(Ls, s) - Ls[s].own.Keys == v.free
  {
    FileIsUsed(v, F, intl, Ls, own, s);
    FilePlace(v, F, intl, Ls, own, s);
    FreedOrLeft(v, F, intl, Ls, own, s);
    hide WholeOK;
  }

  lemma OwnListing(v: Vol, F: Forest, d: int, s: int)
    requires s in F.place && F.place[s].dir == d
    ensures (Listing(v, F, d) - {s})[s := NodeAt(v, s).name] == Listing(v, F, d)
  {
    hide Upper;
    var m := Listing(v, F, d);
    assert s in m && m[s] == NameOf(v, s);
  }

  lemma BackAgain(v: Vol, F: Forest, intl: bool, Ls: map<int, Layout>, own: set<int>, s: int, v1: Vol, v2: Vol)
    requires WholeOK(v, F, intl, Ls, own) && s in Ls && s in F.place && HasPlace(F, s)
    requires v1 == RemovedVol(v, F, Ls, s) && SameFiles(v, v1, Ls - {s}) && SameFiles(v1, v2, Ls - {s})
    requires Bytes(v2, Ls[s]) == Bytes(v1, Ls[s])
    ensures forall t :: t in Ls ==> Bytes(v2, Ls[t]) == Bytes(v, Ls[t])
  {
    hide Linked, Stored, UnlinkIn, Bytes, FilesOK, EachOwned, RemovedVol, InUse;
    WholeParts(v, F, intl, Ls, own);
    UnlinkKeepsFiles(v, F, intl, Ls, s);
    BytesIgnoreFree(UnlinkIn(v, F, s), v1, Ls[s]) by {
      RemovedIs(v, F, Ls, s);
    }
    forall t | t in Ls ensures Bytes(v2, Ls[t]) == Bytes(v, Ls[t]) {
      if t != s {
        assert t in Ls - {s} && (Ls - {s})[t] == Ls[t];
      }
    }
  }

  lemma RemovedIs(v: Vol, F: Forest, Ls: map<int, Layout>, s: int)
    requires s in F.place && HasPlace(F, s)
    ensures RemovedVol(v, F, Ls, s) == UnlinkIn(v, F, s).(free := RemovedVol(v, F, Ls, s).free)
  {
  }

  lemma BytesIgnoreFree(v: Vol, w: Vol, L: Layout)
    requires w == v.(free := w.free)
    ensures Bytes(w, L) == Bytes(v, L)
  {
    var c, c' := Bytes(v, L), Bytes(w, L);
    forall p | 0 <= p < |c| ensures c'[p] == c[p] {
      assert DiskBlock(w, L, p / FFS_BLOCK) == DiskBlock(v, L, p / FFS_BLOCK);
    }
  }

  /* ---- a link that is not cleared ---- */

  /** No forest fits a disk on which a chain comes back to an entry it has passed. */
  lemma NoCycles(v: Vol, F: Forest, intl: bool, d: int, h: nat, walk: seq<int>, i: nat, j: nat)
    requires d in F.chains && h < HT_SIZE && Runs(v, d, h, walk) && i < j < |walk| && walk[i] == walk[j]
    ensures !Linked(v, F, intl)
  {
    hide Linked, ForestOK;
    if Linked(v, F, intl) {
      WalkIsChain(v, F, intl, d, h, walk, i);
      WalkIsChain(v, F, intl, d, h, walk, j);
      ChainEntry(v, F, intl, d, h, i);
      ChainEntry(v, F, intl, d, h, j);
    }
  }

  /** An entry is added behind a chain while it still points at an entry of it. */
  lemma StaleRuns(w: Vol, F: Forest, intl: bool, d: int, h: nat, s: int)
    requires Linked(w, F, intl) && d in F.chains && h < HT_SIZE && |F.chains[d]| == HT_SIZE && F.chains[d][h] != []
    requires s !in F.place && s != d && 2 <= s
    requires NodeAt(w, s).nextSameHash in F.chains[d][h]
    ensures Runs(AddEntry(w, F, d, h, s), d, h, F.chains[d][h] + [s] + [NodeAt(w, s).nextSameHash])
  {
    hide Linked, AddEntry, Hash, ForestOK, Seal;
    var chain, x := F.chains[d][h], LinkPoint(F, d, h);
    var n := NodeAt(w, x).(nextSameHash := s);
    TailFacts(w, F, intl, d, h);
    AddEntryIs(w, F, d, h, s, n);
    SealKeepsNext(n);
    SetNodeOnly(w, x, Seal(n));
    HeadOfChain(w, F, intl, d, h);
    var v, walk := AddEntry(w, F, d, h, s), chain + [s] + [NodeAt(w, s).nextSameHash];
    ChainEntry(w, F, intl, d, h, |chain| - 1);
    forall i | 0 <= i < |walk|
      ensures walk[i] != 0 && (i < |walk| - 1 ==> NodeAt(v, walk[i]).nextSameHash == walk[i + 1])
    {
      if i < |chain| {
        ChainEntry(w, F, intl, d, h, i);
      } else if i == |chain| + 1 {
        var k :| 0 <= k < |chain| && chain[k] == walk[i];
        ChainEntry(w, F, intl, d, h, k);
      }
    }
  }

  lemma NextIsLeft(F: Forest, s: int, next: int)
    requires s in F.place && HasPlace(F, s)
    requires next == PtrOrZero(F.chains[F.place[s].dir][F.place[s].bucket], F.place[s].idx + 1) && next != 0
    ensures var p := F.place[s];
            p.dir != s && next in Unlink(F, s).chains[p.dir][p.bucket]
  {
    var p := F.place[s];
    var chain := F.chains[p.dir][p.bucket];
    assert (chain[..p.idx] + chain[p.idx + 1..])[p.idx] == next;
  }

  /** An entry that is taken out of its chain, and added again with its link to the one behind it, closes a cycle. */
  lemma AddedCycle(v: Vol, F: Forest, intl: bool, s: int, w: Vol, G: Forest, F': Forest)
    requires Linked(v, F, intl) && s in F.place && HasPlace(F, s) && NodeAt(v, s).nextSameHash != 0
    requires Linked(w, G, intl) && s !in G.place && NodeAt(w, s) == NodeAt(v, s)
    requires F.place[s].dir in G.chains && G.chains[F.place[s].dir] == Unlink(F, s).chains[F.place[s].dir]
    ensures var p := F.place[s];
            && |G.chains[p.dir]| == HT_SIZE
            && (p.dir in F'.chains ==> !Linked(AddEntry(w, G, p.dir, p.bucket, s), F', intl))
  {
    hide Linked, ForestOK, Unlink, Runs, AddEntry, NodeAt;
    var p, next := F.place[s], NodeAt(v, s).nextSameHash;
    LinkedDir(w, G, intl, p.dir);
    NextOf(v, F, intl, s);
    NextIsLeft(F, s, next);
    var chain := G.chains[p.dir][p.bucket];
    StaleRuns(w, G, intl, p.dir, p.bucket, s);
    var i :| 0 <= i < |chain| && chain[i] == next;
    if p.dir in F'.chains {
      NoCycles(AddEntry(w, G, p.dir, p.bucket, s), F', intl, p.dir, p.bucket, chain + [s] + [next], i, |chain| + 1);
    }
  }

  lemma StaleCycle(v: Vol, F: Forest, intl: bool, Ls: map<int, Layout>, own: set<int>, s: int, F': Forest)
    requires WholeOK(v, F, intl, Ls, own) && s in Ls && NodeAt(v, s).nextSameHash != 0 && NodeAt(v, s).byteSize > 0
    ensures s in F.place && HasPlace(F, s)
    ensures var v1, F1, d := RemovedVol(v, F, Ls, s), WithoutEntry(F, s), F.place[s].dir;
            && d in F1.chains && |F1.chains[d]| == HT_SIZE
            && (d in F'.chains ==> !Linked(Undeleted(v1, F1, d, NodeAt(v, s), Ls[s].own.Keys, intl), F', intl))
  {
    hide Linked, Listing, Stored, UnlinkIn, WholeOK, Hash, Upper, RemovedVol, Undeletable, Intact, ForestOK, AddEntry, HasPlace, Unlink;
    WholeParts(v, F, intl, Ls, own);
    RemovedIsIntact(v, F, intl, Ls, own, s);
    LinkedEntry(v, F, intl, s);
    var v1, F1, n := RemovedVol(v, F, Ls, s), WithoutEntry(F, s), NodeAt(v, s);
    var w := WithoutFree(v1, Ls[s].own.Keys);
    WholeParts(v1, F1, intl, Ls - {s}, own);
    FreeIsApart(v1, F1, intl, w.free);
    WithoutEntryKeys(F, s);
    AddedCycle(v, F, intl, s, w, F1, F');
    EntryName(v, F, intl, s);
  }

  lemma NextOf(v: Vol, F: Forest, intl: bool, s: int)
    requires Linked(v, F, intl) && s in F.place
    ensures HasPlace(F, s)
    ensures NodeAt(v, s).nextSameHash == PtrOrZero(F.chains[F.place[s].dir][F.place[s].bucket], F.place[s].idx + 1)
    ensures 2 <= s
  {
    hide Linked, Hash;
    LinkedEntry(v, F, intl, s);
  }

  /** What adfUndelFile leaves of a volume, whether it succeeds or not. */
  ghost function UndelResult(v: Vol, F: Forest, intl: bool, pSect: int, nSect: int, entry: Node): Vol
    requires pSect in F.chains && |F.chains[pSect]| == HT_SIZE
  {
    var sectors := SectorsOf(v, entry);
    if sectors.Some? && Undeletable(v, F, intl, pSect, nSect, entry, sectors.value)
    then Undeleted(v, F, pSect, entry, sectors.value, intl)
    else v
  }

  /**
    A file without bytes does not come back: once it is removed, its header is neither free
    nor in any directory, and undeleting it is refused.
  */
  lemma EmptyStaysLost(v: Vol, F: Forest, intl: bool, Ls: map<int, Layout>, own: set<int>, s: int)
    requires WholeOK(v, F, intl, Ls, own) && s in Ls && NodeAt(v, s).byteSize == 0
    ensures s in F.place && HasPlace(F, s) && F.place[s].dir in F.chains
    ensures var v1, F1, d := RemovedVol(v, F, Ls, s), WithoutEntry(F, s), F.place[s].dir;
            && WholeOK(v1, F1, intl, Ls - {s}, own + {s})
            && s !in F1.place && s !in v1.free && NodeAt(v1, s) == NodeAt(v, s)
            && d in F1.chains && |F1.chains[d]| == HT_SIZE
            && SectorsOf(v1, NodeAt(v1, s)) == None
            && UndelResult(v1, F1, intl, d, s, NodeAt(v1, s)) == v1
  {
    hide Linked, Stored, UnlinkIn, WholeOK, HasPlace, RemovedVol, WithoutEntry, NodeAt, Undeleted, SectorsOf, Undeletable, SameFiles;
    FilePlace(v, F, intl, Ls, own, s);
    EntryFacts(v, F, intl, Ls, own, s);
    RemoveResults(v, F, intl, Ls, own, s);
    WithoutEntryKeys(F, s);
    PlaceFacts(F, s);
    var v1, F1 := RemovedVol(v, F, Ls, s), WithoutEntry(F, s);
    WholeParts(v1, F1, intl, Ls - {s}, own + {s});
    LinkedDir(v1, F1, intl, F.place[s].dir);
    NoSectors(v1, NodeAt(v1, s));
  }

  lemma NoSectors(v: Vol, entry: Node)
    requires entry.byteSize == 0
    ensures SectorsOf(v, entry) == None
  {
  }

  /**
    After a file is removed and undeleted, the chains of its directory can be walked exactly
    if it was the last entry of its chain, or has no bytes, so that it is not undeleted.
    Otherwise its chain becomes a cycle.
  */
  lemma UndeleteExact(v: Vol, F: Forest, intl: bool, Ls: map<int, Layout>, own: set<int>, s: int)
    requires WholeOK(v, F, intl, Ls, own) && s in Ls
    ensures s in F.place && HasPlace(F, s)
    ensures var v1, F1, d := RemovedVol(v, F, Ls, s), WithoutEntry(F, s), F.place[s].dir;
            && d in F1.chains && |F1.chains[d]| == HT_SIZE
            && ((exists F': Forest :: d in F'.chains && Linked(UndelResult(v1, F1, intl, d, s, NodeAt(v1, s)), F', intl)) <==>
                NodeAt(v, s).nextSameHash == 0 || NodeAt(v, s).byteSize == 0)
  {
    hide Linked, UndelResult, RemovedVol, WithoutEntry, WholeOK, HasPlace, NodeAt;
    if NodeAt(v, s).byteSize == 0 {
      EmptyStaysLost(v, F, intl, Ls, own, s);
      WholeLinked(RemovedVol(v, F, Ls, s), WithoutEntry(F, s), intl, Ls - {s}, own + {s});
    } else {
      RemovedUndeleted(v, F, intl, Ls, own, s);
      if NodeAt(v, s).nextSameHash == 0 {
        RemoveThenUndelete(v, F, intl, Ls, own, s);
        WholeLinked(UndelResult(RemovedVol(v, F, Ls, s), WithoutEntry(F, s), intl, F.place[s].dir, s, NodeAt(v, s)), F, intl, Ls, own);
        DirOfEntry(F, s);
      } else {
        StaleCycle(v, F, intl, Ls, own, s, F);
        forall F': Forest | F.place[s].dir in F'.chains
          ensures !Linked(UndelResult(RemovedVol(v, F, Ls, s), WithoutEntry(F, s), intl, F.place[s].dir, s, NodeAt(v, s)), F', intl)
        {
          StaleCycle(v, F, intl, Ls, own, s, F');
        }
      }
    }
  }

  /** A removed file with bytes is undeleted with the sectors it had. */
  lemma RemovedUndeleted(v: Vol, F: Forest, intl: bool, Ls: map<int, Layout>, own: set<int>, s: int)
    requires WholeOK(v, F, intl, Ls, own) && s in Ls && NodeAt(v, s).byteSize > 0
    ensures s in F.place && HasPlace(F, s)
    ensures var v1, F1, d := RemovedVol(v, F, Ls, s), WithoutEntry(F, s), F.place[s].dir;
            && d in F1.chains && |F1.chains[d]| == HT_SIZE && NodeAt(v1, s) == NodeAt(v, s)
            && UndelResult(v1, F1, intl, d, s, NodeAt(v1, s)) == Undeleted(v1, F1, d, NodeAt(v, s), Ls[s].own.Keys, intl)
  {
    hide Linked, Listing, Intact, Undeleted, RemovedVol, WithoutEntry, WholeOK, HasPlace, NodeAt, SectorsOf, Undeletable, UnlinkIn, Hash;
    RemovedIsIntact(v, F, intl, Ls, own, s);
    IntactSectors(RemovedVol(v, F, Ls, s), NodeAt(v, s), Ls[s]);
  }

  lemma DirOfEntry(F: Forest, s: int)
    requires s in F.place && HasPlace(F, s)
    ensures F.place[s].dir in F.chains
  {
  }

  /* ---- directories ---- */

  /** Adding to a chain looks at no other chain. */
  lemma SameAddEntry(v: Vol, F: Forest, G: Forest, d: int, h: nat, s: int)
    requires d in F.chains && d in G.chains && F.chains[d] == G.chains[d] && |F.chains[d]| == HT_SIZE && h < HT_SIZE
    ensures AddEntry(v, F, d, h, s) == AddEntry(v, G, d, h, s)
  {
  }

  /** An entry that was the last of its chain is ready to be added again. */
  lemma ReadyAgain(v: Vol, F: Forest, intl: bool, s: int)
    requires Linked(v, F, intl) && s in F.place && NodeAt(v, s).nextSameHash == 0
    ensures HasPlace(F, s)
    ensures var w, G, p := UnlinkIn(v, F, s), Unlink(F, s), F.place[s];
            && Linked(w, G, intl) && Ready(w, G, intl, p.dir, p.bucket, s) && NameOf(w, s) == NameOf(v, s)
            && Listing(w, G, p.dir) == Listing(v, F, p.dir) - {s}
            && (forall e :: e != p.dir ==> Listing(w, G, e) == Listing(v, F, e))
  {
    hide Linked, Listing, UnlinkIn, Hash, Upper, ForestOK;
    LinkedEntry(v, F, intl, s);
    UnlinkWrites(v, F, intl, s);
    UnlinkKeeps(v, F, intl, s);
    var w, G, p := UnlinkIn(v, F, s), Unlink(F, s), F.place[s];
    assert NodeAt(w, s) == NodeAt(v, s);
    forall t | t in G.place && G.place[t].dir == p.dir ensures UpperName(w, t, intl) != UpperName(w, s, intl) {
      assert t in F.place && F.place[t].dir == p.dir && t != s;
      StillListed(v, F, w, G, intl, s, t);
    }
  }

  lemma StillListed(v: Vol, F: Forest, w: Vol, G: Forest, intl: bool, s: int, t: int)
    requires Linked(v, F, intl) && s in F.place && t in F.place && F.place[t].dir == F.place[s].dir && t != s
    requires t in G.place && G.place[t].dir == F.place[s].dir
    requires Listing(w, G, F.place[s].dir) == Listing(v, F, F.place[s].dir) - {s}
    ensures UpperName(w, t, intl) != UpperName(v, s, intl)
  {
    hide Linked, NameOf, Upper;
    var m := Listing(w, G, F.place[s].dir);
    assert t in m && m[t] == NameOf(w, t);
    assert m[t] == Listing(v, F, F.place[s].dir)[t] == NameOf(v, t);
    DistinctNames(v, F, intl, s, t);
  }

  lemma DistinctNames(v: Vol, F: Forest, intl: bool, s: int, t: int)
    requires Linked(v, F, intl) && s in F.place && t in F.place && F.place[t].dir == F.place[s].dir && t != s
    ensures UpperName(v, s, intl) != UpperName(v, t, intl)
  {
    hide ForestOK, DirOK, EntryOK, UpperName;
  }

  /** An entry that was the last of its chain and is taken out and added again is where it was. */
  lemma AddedAgain(v: Vol, F: Forest, intl: bool, s: int)
    requires Linked(v, F, intl) && s in F.place && NodeAt(v, s).nextSameHash == 0
    ensures HasPlace(F, s)
    ensures var p, G := F.place[s], Unlink(F, s);
            && p.dir in G.chains && |G.chains[p.dir]| == HT_SIZE
            && var v2 := AddEntry(UnlinkIn(v, F, s), G, p.dir, p.bucket, s);
               && v2.root == v.root && v2.last == v.last && |v2.disk| == |v.disk|
               && Linked(v2, F, intl) && v2.free == v.free && forall e :: Listing(v2, F, e) == Listing(v, F, e)
  {
    hide Linked, Listing, UnlinkIn, Hash, Upper, ForestOK, AddEntry, Unlink, UpperName, Ready, LinkPoint;
    LinkedParts(v, F, intl);
    ReadyAgain(v, F, intl, s);
    LastHasNoNext(v, F, intl, s);
    SameForest(F, s);
    UnlinkWrites(v, F, intl, s);
    var w, G, p := UnlinkIn(v, F, s), Unlink(F, s), F.place[s];
    AddKeeps(w, G, intl, p.dir, p.bucket, s);
    OwnListing(v, F, p.dir, s);
    NameOfEntry(v, s, intl);
  }

  /** What is left of a removed directory. */
  lemma RemovedDirIs(v: Vol, F: Forest, intl: bool, Ls: map<int, Layout>, own: set<int>, s: int)
    requires WholeOK(v, F, intl, Ls, own) && s in F.place && s in F.chains && IsEmptyDir(F, s)
    ensures HasPlace(F, s)
    ensures var v1, F1, p, n := RemovedVol(v, F, Ls, s), WithoutEntry(F, s), F.place[s], NodeAt(v, s);
            && WholeOK(v1, F1, intl, Ls, own)
            && p.dir in F1.chains && |F1.chains[p.dir]| == HT_SIZE && F1.chains[p.dir] == Unlink(F, s).chains[p.dir]
            && NodeAt(v1, s) == n && n.headerKey == s && |n.name| <= MAX_NAME_LEN && Hash(n.name, intl) == p.bucket
            && DirMayReturn(v1, p.dir, n) && NewName(v1, F1, intl, p.dir, n.name)
            && Take(v1, s) == UnlinkIn(v, F, s) && SameFiles(v, v1, Ls)
            && s !in F1.place
  {
    hide Linked, Listing, Stored, UnlinkIn, WholeOK, Hash, Upper, FilesOK, EachOwned, Unlink, NewName, NodeAt, ParentOK, SameFiles;
    WholeParts(v, F, intl, Ls, own);
    DirNotOwned(v, F, intl, Ls, own, s);
    EntryFacts(v, F, intl, Ls, own, s);
    LinkedEntry(v, F, intl, s);
    RemoveWhole(v, F, intl, Ls, own, s);
    EntryInUse(v, F, intl, Ls, own, s);
    assert Ls - {s} == Ls && own + {} == own;
    var v1, F1, d := RemovedVol(v, F, Ls, s), WithoutEntry(F, s), F.place[s].dir;
    WithoutEntryKeys(F, s);
    PlaceFacts(F, s);
    WholeParts(v1, F1, intl, Ls, own);
    LinkedDir(v1, F1, intl, d);
    ParentIsOK(v1, F1, intl, d);
    OldNameIsNew(v, F, intl, d, s, v1, F1);
    EntryName(v, F, intl, s);
    SameNodeAt(UnlinkIn(v, F, s), v1, s);
    assert Take(v1, s) == UnlinkIn(v, F, s);
  }

  /** Nothing is undeleted into a directory that was removed, though its block is as it was, until that is undeleted. */
  lemma RemovedDirRefuses(v: Vol, F: Forest, intl: bool, Ls: map<int, Layout>, own: set<int>, s: int, nSect: int, entry: Node)
    requires WholeOK(v, F, intl, Ls, own) && s in F.place && s in F.chains && IsEmptyDir(F, s)
    ensures HasPlace(F, s)
    ensures var v1, F1 := RemovedVol(v, F, Ls, s), WithoutEntry(F, s);
            && NodeAt(v1, s) == NodeAt(v, s)
            && (forall sectors :: !Undeletable(v1, F1, intl, s, nSect, entry, sectors))
            && !DirMayReturn(v1, s, entry)
  {
    hide Linked, WholeOK, UnlinkIn, NewName, NodeAt, IsEmptyDir, HasPlace, SameFiles, Unlink, RemovedVol, Hash;
    RemovedDirIs(v, F, intl, Ls, own, s);
  }

  lemma DirNotOwned(v: Vol, F: Forest, intl: bool, Ls: map<int, Layout>, own: set<int>, s: int)
    requires WholeOK(v, F, intl, Ls, own) && s in F.chains
    ensures s !in own && s !in Ls
  {
    hide Stored, TreeOK;
  }

  /**
    Removing an empty directory and undeleting it, when it was the last entry of its chain,
    restores the free sectors, the chains and listings of all directories, and leaves the
    bytes of all files.
  */
  lemma RemoveThenUndelDir(v: Vol, F: Forest, intl: bool, Ls: map<int, Layout>, own: set<int>, s: int)
    requires WholeOK(v, F, intl, Ls, own) && s in F.place && s in F.chains && IsEmptyDir(F, s)
    requires NodeAt(v, s).nextSameHash == 0
    ensures HasPlace(F, s)
    ensures var v1, F1, d := RemovedVol(v, F, Ls, s), WithoutEntry(F, s), F.place[s].dir;
            && d in F1.chains && |F1.chains[d]| == HT_SIZE && s in v1.free
            && var v2 := UndelDirResult(v1, F1, intl, d, NodeAt(v1, s));
               && WholeOK(v2, F, intl, Ls, own)
               && v2.free == v.free
               && (forall e :: Listing(v2, F, e) == Listing(v, F, e))
               && SameFiles(v, v2, Ls)
  {
    hide Linked, Listing, Stored, UnlinkIn, WholeOK, Hash, Upper, RemovedVol, WithoutEntry, AddEntry, Unlink, NewName, NodeAt, ParentOK,
         SameFiles, AllStored, Disjoint, EntriesFit, FilesOK, EachOwned, HasPlace, IsEmptyDir, InUse;
    WholeParts(v, F, intl, Ls, own);
    RemovedDirIs(v, F, intl, Ls, own, s);
    AddedAgain(v, F, intl, s);
    UnlinkKeeps(v, F, intl, s);
    UnlinkKeepsFiles(v, F, intl, Ls, s);
    UnlinkRest(F, Ls, s);
    var v1, F1, p := RemovedVol(v, F, Ls, s), WithoutEntry(F, s), F.place[s];
    var w, G := UnlinkIn(v, F, s), Unlink(F, s);
    SameAddEntry(w, F1, G, p.dir, p.bucket, s);
    AddKeepsFiles(w, G, intl, Ls, p.dir, p.bucket, s);
    var v2 := AddEntry(w, G, p.dir, p.bucket, s);
    SameFilesTransitive(v, w, v2, Ls);
    WholeAgain(v, F, intl, Ls, own, v2);
  }

  /** A volume is whole if its directories, its files and its free sectors are those of a whole volume. */
  lemma WholeAgain(v: Vol, F: Forest, intl: bool, Ls: map<int, Layout>, own: set<int>, v': Vol)
    requires WholeOK(v, F, intl, Ls, own) && Linked(v', F, intl) && AllStored(v', Ls) && v'.free == v.free
    requires v'.last == v.last && v'.root == v.root && |v'.disk| == |v.disk|
    ensures WholeOK(v', F, intl, Ls, own)
  {
    hide Linked, Stored;
  }

  /**
    After an empty directory is removed and undeleted, the chains of the directory it is in
    can be walked exactly if it was the last entry of its chain.
  */
  lemma UndelDirExact(v: Vol, F: Forest, intl: bool, Ls: map<int, Layout>, own: set<int>, s: int)
    requires WholeOK(v, F, intl, Ls, own) && s in F.place && s in F.chains && IsEmptyDir(F, s)
    ensures HasPlace(F, s)
    ensures var v1, F1, d := RemovedVol(v, F, Ls, s), WithoutEntry(F, s), F.place[s].dir;
            && d in F1.chains && |F1.chains[d]| == HT_SIZE
            && ((exists F': Forest :: d in F'.chains && Linked(UndelDirResult(v1, F1, intl, d, NodeAt(v1, s)), F', intl)) <==>
                NodeAt(v, s).nextSameHash == 0)
  {
    hide Linked, Listing, UnlinkIn, WholeOK, Hash, Upper, RemovedVol, WithoutEntry, AddEntry, Unlink, NewName, NodeAt, ParentOK,
         HasPlace, IsEmptyDir, SameFiles;
    RemovedDirIs(v, F, intl, Ls, own, s);
    var v1, F1, p := RemovedVol(v, F, Ls, s), WithoutEntry(F, s), F.place[s];
    if NodeAt(v, s).nextSameHash == 0 {
      RemoveThenUndelDir(v, F, intl, Ls, own, s);
      WholeLinked(UndelDirResult(v1, F1, intl, p.dir, NodeAt(v, s)), F, intl, Ls, own);
      DirOfEntry(F, s);
    } else {
      WholeLinked(v, F, intl, Ls, own);
      WholeLinked(v1, F1, intl, Ls, own);
      var w := Take(v1, s);
      FreeIsApart(v1, F1, intl, w.free);
      forall F': Forest | p.dir in F'.chains
        ensures !Linked(UndelDirResult(v1, F1, intl, p.dir, NodeAt(v, s)), F', intl)
      {
        AddedCycle(v, F, intl, s, w, F1, F');
      }
    }
  }

  /**
    When a directory is refused because of its name, its sector is lost: it is neither free
    nor has it an owner.
  */
  lemma UndelDirLosesSector(v: Vol, F: Forest, intl: bool, Ls: map<int, Layout>, own: set<int>, pSect: int, entry: Node)
    requires WholeOK(v, F, intl, Ls, own) && pSect in F.chains && DirMayReturn(v, pSect, entry)
    requires |entry.name| > MAX_NAME_LEN || !NewName(v, F, intl, pSect, entry.name)
    ensures |F.chains[pSect]| == HT_SIZE
    ensures var s, v' := entry.headerKey, UndelDirResult(v, F, intl, pSect, entry);
            && s in v.free && s !in v'.free && WholeOK(v', F, intl, Ls, own + {s})
            && (forall e :: Listing(v', F, e) == Listing(v, F, e))
            && SameFiles(v, v', Ls)
  {
    hide Linked, Listing, Stored, WholeOK, NewName, NodeAt, ParentOK, SameFiles, FilesOK, EachOwned, InUse, AllStored;
    WholeParts(v, F, intl, Ls, own);
    LinkedDir(v, F, intl, pSect);
    var s, v' := entry.headerKey, Take(v, entry.headerKey);
    FreeIsApart(v, F, intl, v'.free);
    FreeUnused(v, F, intl, Ls, own, s);
    FreeKeepsFiles(v, Ls, v'.free);
    TakenWhole(v, F, intl, Ls, own, s);
  }

  lemma FreeUnused(v: Vol, F: Forest, intl: bool, Ls: map<int, Layout>, own: set<int>, s: int)
    requires WholeOK(v, F, intl, Ls, own) && s in v.free
    ensures s !in F.place && s !in F.chains && (forall t :: t in Ls ==> Ls[t].own.Keys !! v.free)
  {
    hide Linked, Stored;
  }

  /** A free sector that is taken and given to nothing. */
  lemma TakenWhole(v: Vol, F: Forest, intl: bool, Ls: map<int, Layout>, own: set<int>, s: int)
    requires WholeOK(v, F, intl, Ls, own) && s in v.free
    requires Linked(Take(v, s), F, intl) && AllStored(Take(v, s), Ls)
    ensures WholeOK(Take(v, s), F, intl, Ls, own + {s})
  {
    hide Linked, Stored;
    forall x | 2 <= x <= v.last
      ensures x in Take(v, s).free || x in own + {s} || x in F.chains || exists t :: t in Ls && x in Ls[t].own.Keys
    {
    }
  }
}
