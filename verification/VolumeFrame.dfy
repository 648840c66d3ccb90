/**
  What leaves the directories of a volume as they are, and what flushing a file does to
  them whose header on the disk has changed since it was opened.
*/
module VolumeFrame {
  import opened Blocks
  import opened Names
  import opened FileSpec
  import opened FileInv
  import opened FileSteps
  import opened DirInv
  import opened DirLink
  import opened Dir

  lemma StoredFree(v: Vol, hdr: Node, L: Layout)
    requires Stored(v, hdr, L)
    ensures v.free !! L.own.Keys && L.header in L.own.Keys
    ensures forall x :: x in L.own.Keys ==> 2 <= x <= v.last
    ensures hdr.typ == T_HEADER && hdr.secType == ST_FILE && hdr.headerKey == L.header
  {
    assert forall s :: s in L.own.Keys ==> s !in v.free;
  }

  /** The block at `x` serves the directories as before. */
  ghost predicate SameTreeBlock(v: Vol, v': Vol, F: Forest, x: int) {
    var n, m := NodeAt(v', x), NodeAt(v, x);
    && IsNode(v', x)
    && (x in F.place ==>
          && n.headerKey == m.headerKey && n.parent == m.parent && n.nextSameHash == m.nextSameHash
          && n.name == m.name && n.secType == m.secType)
    && (x in F.chains ==> n == m)
  }

  /** The directories do not change when their blocks, and the links in their entries, do not. */
  lemma TreeFrame(v: Vol, v': Vol, F: Forest, intl: bool)
    requires Linked(v, F, intl) && v'.root == v.root && v'.last == v.last && |v'.disk| == |v.disk|
    requires forall x :: x in F.place || x in F.chains ==> SameTreeBlock(v, v', F, x)
    ensures Linked(v', F, intl)
    ensures forall e :: Listing(v', F, e) == Listing(v, F, e)
  {
    hide Linked, ForestOK, Distinct, DirOK, EntryOK, HasPlace, UpperName, SameTreeBlock, Listing;
    LinkedParts(v, F, intl);
    forall d | d in F.chains ensures |F.chains[d]| == HT_SIZE && DirOK(v', F, d) {
      LinkedDir(v, F, intl, d);
      DirFrame(v, v', F, d);
    }
    forall t | t in F.place
      ensures HasPlace(F, t) && EntryOK(v', F, intl, t) && NameOf(v', t) == NameOf(v, t)
    {
      LinkedEntry(v, F, intl, t);
      EntryFrame(v, v', F, intl, t);
    }
    StillDistinct(v, v', F, F, intl);
    Assembled(v', F, intl);
    forall e ensures Listing(v', F, e) == Listing(v, F, e) {
      SameListing(v, v', F, e);
    }
  }

  lemma DirFrame(v: Vol, v': Vol, F: Forest, d: int)
    requires d in F.chains && |F.chains[d]| == HT_SIZE && DirOK(v, F, d)
    requires SameTreeBlock(v, v', F, d) && v'.root == v.root
    ensures DirOK(v', F, d)
  {
  }

  lemma EntryFrame(v: Vol, v': Vol, F: Forest, intl: bool, t: int)
    requires t in F.place && HasPlace(F, t) && EntryOK(v, F, intl, t)
    requires SameTreeBlock(v, v', F, t) && v'.root == v.root
    ensures EntryOK(v', F, intl, t) && NameOf(v', t) == NameOf(v, t)
  {
    hide Hash, NodeAt;
  }

  lemma TreeBlockOnVolume(v: Vol, F: Forest, intl: bool, x: int)
    requires Linked(v, F, intl) && (x in F.chains || x in F.place)
    ensures OnDisk(v, x) && IsNode(v, x) && 2 <= x <= v.last
  {
    if x in F.chains {
      LinkedDir(v, F, intl, x);
    } else {
      LinkedEntry(v, F, intl, x);
    }
    hide Linked, Hash;
  }

  /* ---- a header that is out of date ---- */

  /** A flush writes the header of the handle, whatever header the disk has by then. */
  lemma FlushedHeader(v: Vol, h: Handle, s: int, m: Node, L: Layout)
    requires Inv(FS(SetNode(v, s, m), h), L) && L.header == s && h.modeWrite && OnDisk(v, s)
    ensures var w := Flush(FS(v, h)).s.v;
            && w.root == v.root && w.last == v.last && |w.disk| == |v.disk|
            && NodeAt(w, s) == h.hdr && IsNode(w, s)
            && h.hdr.headerKey == s && h.hdr.secType == ST_FILE
            && (forall x :: x !in L.own.Keys ==> NodeAt(w, x) == NodeAt(v, x) && (IsNode(w, x) <==> IsNode(v, x)))
  {
    var u := SetNode(v, s, m);
    FlushStep(FS(u, h), L);
    SameFlush(v, h, s, m, L);
    hide Flush;
  }

  lemma SameFlush(v: Vol, h: Handle, s: int, m: Node, L: Layout)
    requires Inv(FS(SetNode(v, s, m), h), L) && L.header == s && h.modeWrite && OnDisk(v, s)
    ensures Flush(FS(v, h)).s.v == Flush(FS(SetNode(v, s, m), h)).s.v
  {
    CachedApart(FS(SetNode(v, s, m), h), L);
    FlushOver(v, h, s, m);
  }

  /** No block that a flush writes before the header is the header. */
  lemma CachedApart(s: FS, L: Layout)
    requires Inv(s, L)
    ensures s.h.hdr.headerKey == L.header
    ensures s.h.ext.Some? ==> s.h.ext.value.headerKey != L.header && OnDisk(s.v, s.h.ext.value.headerKey)
    ensures s.h.curDataPtr != 0 ==> 1 <= s.h.curDataPtr != L.header && OnDisk(s.v, s.h.curDataPtr)
  {
    assert L.own[L.header] == IsHeader;
    if |L.data| > 0 {
      assert L.own[L.data[s.h.nDataBlock - 1]] == IsData(s.h.nDataBlock - 1);
    }
  }

  lemma FlushOver(v: Vol, h: Handle, s: int, m: Node)
    requires h.modeWrite && OnDisk(v, s) && h.hdr.headerKey == s
    requires h.ext.Some? ==> h.ext.value.headerKey != s && OnDisk(SetNode(v, s, m), h.ext.value.headerKey)
    requires h.curDataPtr != 0 ==> 1 <= h.curDataPtr != s && OnDisk(SetNode(v, s, m), h.curDataPtr)
    ensures Flush(FS(v, h)).s.v == Flush(FS(SetNode(v, s, m), h)).s.v
  {
    var u := SetNode(v, s, m);
    var a, b := StoreExt(FS(v, h)).s, StoreExt(FS(u, h)).s;
    assert b.v.disk == a.v.disk[s := Meta(m)];
    var c, d := StoreCurrentData(a).s, StoreCurrentData(b).s;
    assert d.v.disk == c.v.disk[s := Meta(m)];
    assert StoreHdr(c).s.v.disk == StoreHdr(d).s.v.disk;
  }

  /** The header of a handle fits the place its file has in the directory on the disk. */
  ghost predicate FitsPlace(v: Vol, F: Forest, intl: bool, s: int, hdr: Node)
    requires s in F.place && HasPlace(F, s)
  {
    var p := F.place[s];
    && hdr.nextSameHash == NodeAt(v, s).nextSameHash
    && hdr.parent == p.dir
    && |hdr.name| <= MAX_NAME_LEN && Hash(hdr.name, intl) == p.bucket
    && forall t :: t in F.place && t != s && F.place[t].dir == p.dir ==> UpperName(v, t, intl) != Upper(hdr.name, intl)
  }

  /**
    A file is open for writing, and the directory has since written another header for it:
    an entry was added or removed behind it in its chain, or it was renamed or moved. Its
    next flush writes the header it was opened with. The directory is whole after that
    exactly if that header still fits the place of the file.
  */
  lemma FlushOfStaleHeader(v: Vol, h: Handle, F: Forest, intl: bool, s: int, m: Node, L: Layout)
    requires Linked(v, F, intl) && s in F.place && s !in F.chains
    requires Inv(FS(SetNode(v, s, m), h), L) && h.modeWrite && L.header == s
    requires forall x :: (x in F.place || x in F.chains) && x != s ==> x !in L.own.Keys
    ensures HasPlace(F, s)
    ensures Linked(Flush(FS(v, h)).s.v, F, intl) <==> FitsPlace(v, F, intl, s, h.hdr)
  {
    hide Linked, Inv, Flush, Hash, Upper, SetNode, ForestOK;
    LinkedEntry(v, F, intl, s);
    TreeBlockOnVolume(v, F, intl, s);
    FlushedHeader(v, h, s, m, L);
    var w := Flush(FS(v, h)).s.v;
    if Linked(w, F, intl) {
      StaleFits(v, w, F, intl, s);
    } else if FitsPlace(v, F, intl, s, h.hdr) {
      forall x | (x in F.place || x in F.chains) && x != s ensures NodeAt(w, x) == NodeAt(v, x) && IsNode(w, x) {
        TreeBlockOnVolume(v, F, intl, x);
      }
      FitsLinked(v, w, F, intl, s);
      assert false;
    }
  }

  lemma StaleFits(v: Vol, w: Vol, F: Forest, intl: bool, s: int)
    requires Linked(v, F, intl) && Linked(w, F, intl) && s in F.place
    requires forall x :: (x in F.place || x in F.chains) && x != s ==> NodeAt(w, x) == NodeAt(v, x)
    ensures HasPlace(F, s) && FitsPlace(v, F, intl, s, NodeAt(w, s))
  {
    hide Linked, Hash, Upper, ForestOK;
    LinkedEntry(v, F, intl, s);
    LinkedEntry(w, F, intl, s);
    LinkedParts(w, F, intl);
  }

  lemma FitsLinked(v: Vol, w: Vol, F: Forest, intl: bool, s: int)
    requires Linked(v, F, intl) && s in F.place && s !in F.chains && HasPlace(F, s)
    requires w.root == v.root && w.last == v.last && |w.disk| == |v.disk|
    requires IsNode(w, s) && NodeAt(w, s).headerKey == s && NodeAt(w, s).secType == ST_FILE
    requires FitsPlace(v, F, intl, s, NodeAt(w, s))
    requires forall x :: (x in F.place || x in F.chains) && x != s ==> NodeAt(w, x) == NodeAt(v, x) && IsNode(w, x)
    ensures Linked(w, F, intl)
  {
    hide Linked, Hash, Upper, ForestOK, DirOK, EntryOK, HasPlace, Distinct, IsNode, NodeAt;
    LinkedParts(v, F, intl);
    forall d | d in F.chains ensures |F.chains[d]| == HT_SIZE && DirOK(w, F, d) {
      LinkedDir(v, F, intl, d);
      SameIsSameTree(v, w, F, d);
      DirFrame(v, w, F, d);
    }
    forall t | t in F.place ensures HasPlace(F, t) && EntryOK(w, F, intl, t) {
      LinkedEntry(v, F, intl, t);
      if t == s {
        FitsEntry(v, w, F, intl, s);
      } else {
        SameIsSameTree(v, w, F, t);
        EntryFrame(v, w, F, intl, t);
      }
    }
    FitsDistinct(v, w, F, intl, s);
    Assembled(w, F, intl);
  }

  lemma SameIsSameTree(v: Vol, w: Vol, F: Forest, x: int)
    requires NodeAt(w, x) == NodeAt(v, x) && IsNode(w, x)
    ensures SameTreeBlock(v, w, F, x)
  {
  }

  lemma FitsEntry(v: Vol, w: Vol, F: Forest, intl: bool, s: int)
    requires s in F.place && s !in F.chains && HasPlace(F, s) && EntryOK(v, F, intl, s) && w.root == v.root
    requires IsNode(w, s) && NodeAt(w, s).headerKey == s && NodeAt(w, s).secType == ST_FILE
    requires FitsPlace(v, F, intl, s, NodeAt(w, s))
    ensures EntryOK(w, F, intl, s)
  {
    hide Hash, Upper, NodeAt;
  }

  lemma FitsDistinct(v: Vol, w: Vol, F: Forest, intl: bool, s: int)
    requires Distinct(v, F, intl) && s in F.place && HasPlace(F, s) && FitsPlace(v, F, intl, s, NodeAt(w, s))
    requires forall x :: x in F.place && x != s ==> NodeAt(w, x) == NodeAt(v, x)
    ensures Distinct(w, F, intl)
  {
    hide Hash, Upper, NodeAt, HasPlace;
  }
}
