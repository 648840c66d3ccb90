/**
  A whole volume: its directory tree, the files that are on the disk, and one owner for
  every sector.
*/
module VolumeInv {
  import opened FileUtil
  import opened Blocks
  import opened Names
  import opened FileSpec
  import opened FileInv
  import opened FileBlocks
  import opened FileRuns
  import opened DirInv
  import opened DirLink
  import opened DirSpec
  import opened Dir

  /** The entries that are files on the disk, and where the blocks of each are. */
  ghost predicate FilesOK(v: Vol, F: Forest, Ls: map<int, Layout>, own: set<int>) {
    && (forall s :: s in Ls <==> s in F.place && s !in F.chains && s !in own)
    && (forall s :: s in Ls ==> Ls[s].header == s && Stored(v, NodeAt(v, s), Ls[s]))
  }

  /**
    Every sector from 2 on has one owner: it is free, or in `own`, or a directory, or plays
    one role in one file. What is in `own` is one of the volume's own blocks, or belongs to
    a file that is open for writing, so that its blocks on the disk may be out of date.
  */
  ghost predicate EachOwned(v: Vol, F: Forest, Ls: map<int, Layout>, own: set<int>) {
    && v.free !! own && v.free !! F.chains.Keys && own !! F.chains.Keys
    && (forall s :: s in Ls ==> Ls[s].own.Keys !! v.free && Ls[s].own.Keys !! own && Ls[s].own.Keys !! F.chains.Keys)
    && (forall s, t :: s in Ls && t in Ls && s != t ==> Ls[s].own.Keys !! Ls[t].own.Keys)
    && (forall x :: 2 <= x <= v.last ==>
          x in v.free || x in own || x in F.chains || exists s :: s in Ls && x in Ls[s].own.Keys)
  }

  ghost predicate WholeOK(v: Vol, F: Forest, intl: bool, Ls: map<int, Layout>, own: set<int>) {
    TreeOK(v, F, intl) && FilesOK(v, F, Ls, own) && EachOwned(v, F, Ls, own)
  }

  /** No file is open for writing. */
  ghost predicate AllOnDisk(F: Forest, own: set<int>) {
    forall s :: s in F.place ==> s !in own
  }

  /** The layout of a file without bytes. */
  function EmptyLayout(s: int): Layout {
    Layout(s, [], [], map[s := IsHeader])
  }

  /** The bytes of a file that is closed. */
  ghost function Bytes(v: Vol, L: Layout): seq<byte> {
    DiskContent(v, L, NodeAt(v, L.header).byteSize)
  }

  /** The two headers describe the same file contents. */
  ghost predicate SameFile(n: Node, m: Node) {
    && n.typ == m.typ && n.secType == m.secType && n.headerKey == m.headerKey && n.highSeq == m.highSeq
    && n.firstData == m.firstData && n.slots == m.slots && n.byteSize == m.byteSize && n.extension == m.extension
  }

  /** Writing the header of a file with other links or another name leaves its content. */
  lemma HeaderChange(v: Vol, s: int, n: Node, L: Layout)
    requires L.header == s && Stored(v, NodeAt(v, s), L) && SameFile(n, NodeAt(v, s))
    ensures var v' := SetNode(v, s, n);
            Stored(v', n, L) && NodeAt(v', s) == n && Bytes(v', L) == Bytes(v, L)
  {
    var v', m := SetNode(v, s, n), NodeAt(v, s);
    assert s in L.own;
    assert HdrOK(n, L) by {
      assert forall k :: 0 <= k < 72 ==> Slot(n, k) == Slot(m, k);
    }
    forall j | 0 <= j < |L.exts| ensures ExtOnDisk(v', L, j) {
      assert ExtOnDisk(v, L, j) && L.own[L.exts[j]] == IsExt(j);
    }
    forall i | 0 <= i < |L.data| ensures DataOnDisk(v', L, i) && DiskBlock(v', L, i) == DiskBlock(v, L, i) {
      assert DataOnDisk(v, L, i) && L.own[L.data[i]] == IsData(i);
    }
    SameBytes(v, v', L, n.byteSize);
  }

  lemma SameBytes(v: Vol, v': Vol, L: Layout, size: nat)
    requires SizeOK(size, |L.data|)
    requires forall i :: 0 <= i < |L.data| ==> DiskBlock(v', L, i) == DiskBlock(v, L, i)
    ensures DiskContent(v', L, size) == DiskContent(v, L, size)
  {
    var c, c' := DiskContent(v, L, size), DiskContent(v', L, size);
    forall p | 0 <= p < size ensures c'[p] == c[p] {
      assert 0 <= p / FFS_BLOCK < |L.data|;
    }
  }

  /** A block written outside a file leaves it alone. */
  lemma ElsewhereChange(v: Vol, x: int, n: Node, L: Layout)
    requires Stored(v, NodeAt(v, L.header), L) && OnDisk(v, x) && x !in L.own.Keys
    ensures var v' := SetNode(v, x, n);
            && NodeAt(v', L.header) == NodeAt(v, L.header)
            && Stored(v', NodeAt(v', L.header), L) && Bytes(v', L) == Bytes(v, L)
  {
    var v', hdr := SetNode(v, x, n), NodeAt(v, L.header);
    assert L.header in L.own.Keys;
    assert L.own.Keys !! v'.free by {
      StoredOwn(v, hdr, L);
    }
    StoredFrame(v, v', hdr, L);
  }

  /** Does block `n` serve the file at `x`, if there is one? */
  ghost predicate FitsFiles(v: Vol, F: Forest, Ls: map<int, Layout>, x: int, n: Node) {
    && OnDisk(v, x)
    && (x in Ls ==> SameFile(n, NodeAt(v, x)))
    && (x !in Ls ==> forall s :: s in Ls ==> x !in Ls[s].own.Keys)
  }

  /** All files are as before, but for their links and names. */
  ghost predicate SameFiles(v: Vol, v': Vol, Ls: map<int, Layout>) {
    forall s :: s in Ls ==>
      && Stored(v', NodeAt(v', s), Ls[s]) && Bytes(v', Ls[s]) == Bytes(v, Ls[s])
      && SameFile(NodeAt(v', s), NodeAt(v, s))
  }

  ghost predicate AllStored(v: Vol, Ls: map<int, Layout>) {
    && (forall s :: s in Ls ==> Ls[s].header == s && Stored(v, NodeAt(v, s), Ls[s]))
    && (forall s, t :: s in Ls && t in Ls && s != t ==> Ls[s].own.Keys !! Ls[t].own.Keys)
  }

  lemma SetNodeKeepsFiles(v: Vol, F: Forest, Ls: map<int, Layout>, x: int, n: Node)
    requires AllStored(v, Ls) && FitsFiles(v, F, Ls, x, n)
    ensures SameFiles(v, SetNode(v, x, n), Ls) && AllStored(SetNode(v, x, n), Ls)
  {
    hide Stored, Bytes, SetNode, SameFile, OnDisk;
    var v' := SetNode(v, x, n);
    forall s | s in Ls
      ensures Stored(v', NodeAt(v', s), Ls[s]) && Bytes(v', Ls[s]) == Bytes(v, Ls[s]) && SameFile(NodeAt(v', s), NodeAt(v, s))
    {
      SameFileAtOnce(NodeAt(v, s));
      if s == x {
        HeaderChange(v, s, n, Ls[s]);
      } else {
        if x in Ls {
          HeaderOwned(v, Ls[x]);
        }
        ElsewhereChange(v, x, n, Ls[s]);
      }
    }
  }

  lemma SameFileAtOnce(n: Node)
    ensures SameFile(n, n)
  {
  }

  lemma HeaderOwned(v: Vol, L: Layout)
    requires Stored(v, NodeAt(v, L.header), L)
    ensures L.header in L.own.Keys
  {
  }

  lemma SameFilesTransitive(v: Vol, w: Vol, u: Vol, Ls: map<int, Layout>)
    requires SameFiles(v, w, Ls) && SameFiles(w, u, Ls)
    ensures SameFiles(v, u, Ls)
  {
    hide Stored, Bytes;
  }

  /* ---- what the directory operations write ---- */

  /** Directories and files share no block. */
  ghost predicate Disjoint(F: Forest, Ls: map<int, Layout>) {
    forall s, d :: s in Ls && d in F.chains ==> d !in Ls && d !in Ls[s].own.Keys
  }

  /** One more block of a directory, or a header with other links or another name, is written. */
  lemma WriteKeepsFiles(v: Vol, u: Vol, F: Forest, Ls: map<int, Layout>, x: int, n: Node)
    requires SameFiles(u, v, Ls) && AllStored(v, Ls) && Disjoint(F, Ls) && OnDisk(v, x)
    requires x in F.chains
             || if x in Ls then SameFile(n, NodeAt(v, x)) else forall t :: t in Ls ==> x !in Ls[t].own.Keys
    ensures SameFiles(u, SetNode(v, x, n), Ls) && AllStored(SetNode(v, x, n), Ls)
  {
    hide Stored, SetNode, SameFile, OnDisk, AllStored, SameFiles;
    SetNodeKeepsFiles(v, F, Ls, x, n);
    SameFilesTransitive(u, v, SetNode(v, x, n), Ls);
  }

  lemma SameFilesAtOnce(v: Vol, Ls: map<int, Layout>)
    requires AllStored(v, Ls)
    ensures SameFiles(v, v, Ls)
  {
    hide Stored, Bytes;
  }

  lemma SealIsSameFile(n: Node)
    requires n.typ == T_HEADER && n.secType == ST_FILE
    ensures SameFile(Seal(n), n)
  {
  }

  /** What is known about a sector of the directory tree. */
  lemma TreeBlock(v: Vol, F: Forest, intl: bool, x: int)
    requires Linked(v, F, intl) && (x in F.chains || x in F.place)
    ensures OnDisk(v, x) && NodeAt(v, x).typ == T_HEADER
    ensures x !in F.chains ==> NodeAt(v, x).secType == ST_FILE
  {
    if x in F.chains {
      LinkedDir(v, F, intl, x);
    } else {
      LinkedEntry(v, F, intl, x);
    }
    hide Linked, Hash;
  }

  /** An entry that is neither a directory nor a file of the list has no block of such a file. */
  ghost predicate EntriesFit(F: Forest, Ls: map<int, Layout>) {
    forall x :: x in F.place ==> x in F.chains || x in Ls || forall t :: t in Ls ==> x !in Ls[t].own.Keys
  }

  lemma AddKeepsFiles(v: Vol, F: Forest, intl: bool, Ls: map<int, Layout>, d: int, h: nat, s: int)
    requires Linked(v, F, intl) && d in F.chains && h < HT_SIZE
    requires AllStored(v, Ls) && Disjoint(F, Ls) && EntriesFit(F, Ls)
    ensures |F.chains[d]| == HT_SIZE
    ensures var v' := AddEntry(v, F, d, h, s);
            SameFiles(v, v', Ls) && AllStored(v', Ls)
  {
    hide Linked, ForestOK, Stored, SetNode, NodeAt, OnDisk, AllStored, SameFiles, Disjoint, Seal, LinkPoint, LinkIn;
    LinkedParts(v, F, intl);
    LinkedDir(v, F, intl, d);
    LinkWrites(v, F, intl, d, h, s);
    LinkPointKnown(F, d, h);
    var x, w := LinkPoint(F, d, h), LinkIn(v, F, d, h, s);
    TreeBlock(v, F, intl, x);
    LinkIsSetNode(v, F, d, h, s);
    SameFilesAtOnce(v, Ls);
    OnlyAtOnDisk(v, w, x);
    WriteKeepsFiles(v, v, F, Ls, x, NodeAt(w, x));
    if x !in F.chains {
      SealIsSameFile(NodeAt(w, x));
    }
    WriteKeepsFiles(w, v, F, Ls, x, Seal(NodeAt(w, x)));
  }

  lemma OnlyAtOnDisk(v: Vol, w: Vol, x: int)
    requires OnlyAt(v, w, x)
    ensures OnDisk(w, x)
  {
  }

  lemma LinkIsSetNode(v: Vol, F: Forest, d: int, h: nat, s: int)
    requires d in F.chains && |F.chains[d]| == HT_SIZE && h < HT_SIZE && OnDisk(v, LinkPoint(F, d, h))
    ensures var x, w := LinkPoint(F, d, h), LinkIn(v, F, d, h, s);
            w == SetNode(v, x, NodeAt(w, x))
  {
  }

  lemma UnlinkIsSetNode(v: Vol, F: Forest, s: int)
    requires s in F.place && HasPlace(F, s) && OnDisk(v, UnlinkPoint(F, s))
    ensures var x, w := UnlinkPoint(F, s), UnlinkIn(v, F, s);
            w == SetNode(v, x, NodeAt(w, x))
  {
  }

  lemma UnlinkKeepsFiles(v: Vol, F: Forest, intl: bool, Ls: map<int, Layout>, s: int)
    requires Linked(v, F, intl) && s in F.place
    requires AllStored(v, Ls) && Disjoint(F, Ls) && EntriesFit(F, Ls)
    ensures HasPlace(F, s)
    ensures var v' := UnlinkIn(v, F, s);
            SameFiles(v, v', Ls) && AllStored(v', Ls)
  {
    hide Linked, Stored, SetNode, NodeAt, OnDisk, AllStored, SameFiles, Disjoint, UnlinkPoint, UnlinkIn;
    UnlinkWrites(v, F, intl, s);
    var x, w := UnlinkPoint(F, s), UnlinkIn(v, F, s);
    TreeBlock(v, F, intl, x);
    UnlinkIsSetNode(v, F, s);
    SameFilesAtOnce(v, Ls);
    WriteKeepsFiles(v, v, F, Ls, x, NodeAt(w, x));
  }

  /** A new block on a free sector. */
  lemma NewBlockKeepsFiles(v: Vol, u: Vol, Ls: map<int, Layout>, F: Forest, x: int, n: Node)
    requires SameFiles(u, v, Ls) && AllStored(v, Ls) && OnDisk(v, x)
    requires forall s :: s in Ls ==> x != s && x !in Ls[s].own.Keys
    ensures SameFiles(u, SetNode(v, x, n), Ls) && AllStored(SetNode(v, x, n), Ls)
  {
    hide Stored, SetNode, SameFile, OnDisk, AllStored, SameFiles;
    SetNodeKeepsFiles(v, F, Ls, x, n);
    SameFilesTransitive(u, v, SetNode(v, x, n), Ls);
  }
}
