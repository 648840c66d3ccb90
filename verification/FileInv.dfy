/**
  The invariant of an open file and the bytes it stands for.

  A layout lists the sectors of a file in file order and gives each of them its
  role. Every sector has one role, so the sectors are distinct. The invariant
  ties the header, the extension chain, the cached blocks and the position to the
  layout, and the content of the file is read through the cached data block.
*/
module FileInv {
  import opened FileUtil
  import opened Blocks
  import opened FileSpec

  datatype Role = IsHeader | IsData(i: nat) | IsExt(j: nat)

  datatype Layout = Layout(header: int, data: seq<int>, exts: seq<int>, own: map<int, Role>)

  /** Each sector of the layout has exactly one role. */
  ghost predicate OwnOK(L: Layout) {
    && L.header in L.own && L.own[L.header] == IsHeader
    && (forall i :: 0 <= i < |L.data| ==> L.data[i] in L.own && L.own[L.data[i]] == IsData(i))
    && (forall j :: 0 <= j < |L.exts| ==> L.exts[j] in L.own && L.own[L.exts[j]] == IsExt(j))
    && (forall s :: s in L.own ==>
          match L.own[s]
          case IsHeader => s == L.header
          case IsData(i) => i < |L.data| && L.data[i] == s
          case IsExt(j) => j < |L.exts| && L.exts[j] == s)
  }

  /** The sectors of the layout are in use and on the volume. */
  ghost predicate Placed(v: Vol, L: Layout) {
    forall s :: s in L.own ==> 2 <= s <= v.last && s !in v.free
  }

  function PtrOrZero(s: seq<int>, k: int): int {
    if 0 <= k < |s| then s[k] else 0
  }

  /** The header lists the first 72 data blocks and the first extension block. */
  ghost predicate HdrOK(hdr: Node, L: Layout) {
    && hdr.typ == T_HEADER && hdr.secType == ST_FILE
    && hdr.headerKey == L.header
    && hdr.highSeq == Min(|L.data|, MAX_DATABLK)
    && hdr.firstData == PtrOrZero(L.data, 0)
    && hdr.extension == PtrOrZero(L.exts, 0)
    && forall k {:trigger Slot(hdr, k)} :: 0 <= k < 72 ==> Slot(hdr, k) == PtrOrZero(L.data, k)
  }

  /** Extension block `j` lists data blocks 72 * (j + 1) on, and links to the next one. */
  ghost predicate ExtOK(x: Node, L: Layout, j: int) {
    && x.headerKey == PtrOrZero(L.exts, j)
    && x.parent == L.header
    && x.highSeq == Min(|L.data| - MAX_DATABLK * (j + 1), MAX_DATABLK)
    && x.extension == PtrOrZero(L.exts, j + 1)
    && forall k {:trigger Slot(x, k)} :: 0 <= k < 72 ==> Slot(x, k) == PtrOrZero(L.data, MAX_DATABLK * (j + 1) + k)
  }

  /** The last data block is needed: it holds at least one byte. */
  ghost predicate SizeOK(size: nat, n: nat) {
    if n == 0 then size == 0 else FFS_BLOCK * (n - 1) < size <= FFS_BLOCK * n
  }

  ghost predicate Base(v: Vol, hdr: Node, L: Layout) {
    && VolOK(v) && OwnOK(L) && Placed(v, L)
    && |L.exts| == Datablocks2Extblocks(|L.data|)
    && HdrOK(hdr, L)
    && SizeOK(hdr.byteSize, |L.data|)
  }

  /** On the disk an extension block says what it is. */
  ghost predicate ExtOnDisk(v: Vol, L: Layout, j: int) {
    && 0 <= j < |L.exts| && OnDisk(v, L.exts[j])
    && v.disk[L.exts[j]].Meta? && ExtOK(v.disk[L.exts[j]].node, L, j)
    && v.disk[L.exts[j]].node.typ == T_LIST && v.disk[L.exts[j]].node.secType == ST_FILE
    && v.disk[L.exts[j]].node.firstData == 0
  }

  ghost predicate DataOnDisk(v: Vol, L: Layout, i: int) {
    0 <= i < |L.data| && OnDisk(v, L.data[i]) && v.disk[L.data[i]].Data?
  }

  /** The header and the extension blocks on the disk list the blocks of the file. */
  ghost predicate ChainOnDisk(v: Vol, hdr: Node, L: Layout) {
    && Base(v, hdr, L)
    && forall j :: 0 <= j < |L.exts| ==> ExtOnDisk(v, L, j)
  }

  /** The whole file is on the disk: what a closed file looks like. */
  ghost predicate Stored(v: Vol, hdr: Node, L: Layout) {
    && ChainOnDisk(v, hdr, L)
    && v.disk[L.header] == Meta(hdr)
    && (forall i :: 0 <= i < |L.data| ==> DataOnDisk(v, L, i))
  }

  lemma StoredChain(v: Vol, hdr: Node, L: Layout)
    requires Stored(v, hdr, L)
    ensures ChainOnDisk(v, hdr, L)
  {
  }

  /** The cached extension block, if any, is one of the file's. */
  ghost predicate CachedExtOK(h: Handle, L: Layout) {
    h.ext.Some? ==>
      && h.ext.value.headerKey in L.own
      && L.own[h.ext.value.headerKey].IsExt?
      && ExtOK(h.ext.value, L, L.own[h.ext.value.headerKey].j)
  }

  /** Everything but the cached data block is on the disk. */
  ghost predicate AtRest(s: FS, L: Layout) {
    && Stored(s.v, s.h.hdr, L)
    && CachedExtOK(s.h, L)
    && (s.h.ext.Some? ==> s.v.disk[s.h.ext.value.headerKey] == Meta(s.h.ext.value))
  }

  ghost predicate IsCachedExt(h: Handle, L: Layout, j: int)
    requires 0 <= j < |L.exts|
  {
    h.ext.Some? && h.ext.value.headerKey == L.exts[j]
  }

  /** The header on the disk, though it may be older, says the same about the file's place in its directory. */
  ghost predicate SamePlace(v: Vol, hdr: Node, L: Layout) {
    && OnDisk(v, L.header) && v.disk[L.header].Meta?
    && var m := v.disk[L.header].node;
       && m.typ == T_HEADER && m.secType == ST_FILE && m.headerKey == L.header
       && m.name == hdr.name && m.parent == hdr.parent && m.nextSameHash == hdr.nextSameHash
  }

  /**
    The last data block is cached and changed. Header, cached extension block and
    last data block may be newer in memory than on the disk.
  */
  ghost predicate Ahead(s: FS, L: Layout) {
    && Base(s.v, s.h.hdr, L)
    && SamePlace(s.v, s.h.hdr, L)
    && CachedExtOK(s.h, L)
    && (forall j :: 0 <= j < |L.exts| ==> IsCachedExt(s.h, L, j) || ExtOnDisk(s.v, L, j))
    && (forall i :: 0 <= i < |L.data| - 1 ==> DataOnDisk(s.v, L, i))
  }

  ghost predicate Fresh(h: Handle, L: Layout) {
    h.changed && h.nDataBlock == |L.data|
  }

  /** Beyond block 72 the cached extension block is the one that lists the cached data block. */
  ghost predicate ExtCursorOK(h: Handle, L: Layout) {
    h.nDataBlock > MAX_DATABLK ==>
      && h.ext.Some?
      && h.ext.value.headerKey == PtrOrZero(L.exts, (h.nDataBlock - 1) / MAX_DATABLK - 1)
      && h.posInExtBlk == (h.nDataBlock - 1) % MAX_DATABLK + 1
  }

  /** The position lies in the cached data block, or at its right end. */
  ghost predicate CursorOK(h: Handle, L: Layout) {
    && (h.changed ==> h.modeWrite)
    && (if |L.data| == 0 then
          h.nDataBlock == 0 && h.curDataPtr == 0 && h.pos == 0 && h.posInDataBlk == 0 && !h.changed && h.ext.None?
        else
          && 1 <= h.nDataBlock <= |L.data|
          && h.curDataPtr == L.data[h.nDataBlock - 1]
          && h.pos == FFS_BLOCK * (h.nDataBlock - 1) + h.posInDataBlk
          && h.posInDataBlk <= FFS_BLOCK
          && h.pos <= h.hdr.byteSize
          && ExtCursorOK(h, L))
  }

  /** The invariant of an open file. */
  ghost predicate Inv(s: FS, L: Layout) {
    && CursorOK(s.h, L)
    && (if Fresh(s.h, L) then Ahead(s, L) else AtRest(s, L))
    && (!s.h.changed && |L.data| > 0 ==> s.v.disk[s.h.curDataPtr] == Data(s.h.data))
  }

  /* ---- the bytes of a file ---- */

  ghost function DiskBlock(v: Vol, L: Layout, i: int): Buf {
    if DataOnDisk(v, L, i) then v.disk[L.data[i]].bytes else ZeroBuf()
  }

  ghost function BlockBytes(s: FS, L: Layout, i: int): Buf {
    if i == s.h.nDataBlock - 1 then s.h.data else DiskBlock(s.v, L, i)
  }

  /** What a file holds, seen through its handle. */
  ghost function Content(s: FS, L: Layout): seq<byte> {
    seq(s.h.hdr.byteSize, p requires 0 <= p => BlockBytes(s, L, p / FFS_BLOCK)[p % FFS_BLOCK])
  }

  /** What a file holds, seen on the disk alone. */
  ghost function DiskContent(v: Vol, L: Layout, size: nat): seq<byte> {
    seq(size, p requires 0 <= p => DiskBlock(v, L, p / FFS_BLOCK)[p % FFS_BLOCK])
  }

  /** Nothing outside `keys` changed on the disk. */
  ghost predicate SameOutside(v: Vol, v': Vol, keys: set<int>) {
    && |v'.disk| == |v.disk| && v'.root == v.root && v'.last == v.last
    && forall s :: 0 <= s < |v.disk| && s !in keys ==> v'.disk[s] == v.disk[s]
  }

  /* ---- first facts ---- */

  lemma ContentLength(s: FS, L: Layout)
    ensures |Content(s, L)| == s.h.hdr.byteSize
    ensures |DiskContent(s.v, L, s.h.hdr.byteSize)| == s.h.hdr.byteSize
  {
  }

  lemma SameBlocksSameContent(s: FS, L: Layout, s': FS, L': Layout)
    requires s'.h.hdr.byteSize == s.h.hdr.byteSize
    requires forall i :: 0 <= FFS_BLOCK * i < s.h.hdr.byteSize ==> BlockBytes(s', L', i) == BlockBytes(s, L, i)
    ensures Content(s', L') == Content(s, L)
  {
    forall p | 0 <= p < s.h.hdr.byteSize ensures Content(s', L')[p] == Content(s, L)[p] {
      assert 0 <= FFS_BLOCK * (p / FFS_BLOCK) < s.h.hdr.byteSize;
    }
  }

  /** With a clean cached block the disk holds all there is. */
  lemma CleanContent(s: FS, L: Layout)
    requires Inv(s, L) && !s.h.changed
    ensures AtRest(s, L)
    ensures Content(s, L) == DiskContent(s.v, L, s.h.hdr.byteSize)
  {
    var c, d := Content(s, L), DiskContent(s.v, L, s.h.hdr.byteSize);
    forall p | 0 <= p < s.h.hdr.byteSize ensures c[p] == d[p] {
      var i := p / FFS_BLOCK;
      assert DataOnDisk(s.v, L, i);
    }
  }

  /** A file that is at rest and whose handle has a block of it loaded is open. */
  lemma Arrive(s: FS, L: Layout)
    requires AtRest(s, L) && CursorOK(s.h, L) && !s.h.changed
    requires |L.data| > 0 ==> s.v.disk[s.h.curDataPtr] == Data(s.h.data)
    ensures Inv(s, L)
    ensures Content(s, L) == DiskContent(s.v, L, s.h.hdr.byteSize)
  {
    CleanContent(s, L);
  }
}
