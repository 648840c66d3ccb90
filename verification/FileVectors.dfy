/**
  Filling the two vectors of a file's sectors by walking its header and extension
  chain, and freeing them. Models adf_file_block.c.
*/
module FileVectors {
  import opened FileUtil
  import opened Blocks
  import opened FileSpec
  import opened FileInv
  import opened FileBlocks
  import opened Volume

  /**
    adfVectorSectorsCreate: a vector that is none of the objects `apart`. One of no items has
    no memory, so that its list of sectors is null.
  */
  method CreateVector(ghost apart: set<object>, n: nat) returns (v: array<int>, isNull: bool)
    ensures fresh(v) && v.Length == n && v !in apart
    ensures isNull <==> n == 0
  {
    v := new int[n];
    isNull := n == 0;
  }

  /** Add one sector to a vector that holds `count` of them. */
  method AddSector(ghost vol: AdfVolume, nSect: int, v: array<int>, count: nat) returns (c: nat)
    requires vol.Valid()
    requires count < v.Length
    modifies v
    ensures vol.Valid() && vol.V() == old(vol.V())
    ensures c == count + 1
    ensures v[..c] == old(v[..count]) + [nSect]
  {
    v[count] := nSect;
    c := count + 1;
  }

  /** Add the first `n` pointers of a node to a vector that holds `count` sectors. */
  method AddSlots(ghost vol: AdfVolume, x: Node, n: nat, v: array<int>, count: nat) returns (c: nat)
    requires vol.Valid()
    requires n <= 72 && count + n <= v.Length
    modifies v
    ensures vol.Valid() && vol.V() == old(vol.V())
    ensures c == count + n
    ensures v[..c] == old(v[..count]) + FirstSlots(x, n)
  {
    c := count;
    var i := 0;
    while i < n
      invariant vol.Valid() && vol.V() == old(vol.V())
      invariant 0 <= i <= n && c == count + i
      invariant v[..c] == old(v[..count]) + FirstSlots(x, i)
    {
      v[c] := Slot(x, i);
      c := c + 1;
      i := i + 1;
    }
  }

  /** How many data blocks come before those of extension block `j`. */
  function ListedBefore(L: Layout, j: nat): nat {
    Min(|L.data|, MAX_DATABLK * (j + 1))
  }

  lemma AfterLast(v: Vol, hdr: Node, L: Layout, j: nat)
    requires ChainOnDisk(v, hdr, L) && j <= |L.exts| && PtrOrZero(L.exts, j) == 0
    ensures j == |L.exts|
  {
    hide ChainOnDisk;
    if j < |L.exts| {
      StoredExt(v, hdr, L, j);
    }
  }

  /** The two volumes differ at most in which sectors are free. */
  ghost predicate SameBlocks(v: Vol, w: Vol) {
    w == v.(free := w.free)
  }

  /** What the walk finds from `start` on, when it has found some blocks and goes on at `key`. */
  lemma WalkGoesOn(v: Vol, start: int, room: nat, found: BlockList, key: int, left: nat, x: Node)
    requires key != 0 && left > 0 && ReadNode(v, key) == Some(x) && x.highSeq <= 72
    requires Continues(v, start, room, found, key, left)
    ensures Continues(v, start, room,
                      BlockList(found.data + FirstSlots(x, Max(x.highSeq, 0)), found.exts + [key]), x.extension, left - 1)
  {
    match WalkExts(v, x.extension, left - 1)
    case None =>
    case Some(rest) =>
      var s := FirstSlots(x, Max(x.highSeq, 0));
      assert found.data + (s + rest.data) == (found.data + s) + rest.data;
      assert found.exts + ([key] + rest.exts) == (found.exts + [key]) + rest.exts;
  }

  ghost predicate Continues(v: Vol, start: int, room: nat, found: BlockList, key: int, left: nat) {
    WalkExts(v, start, room) ==
    match WalkExts(v, key, left)
    case None => None
    case Some(rest) => Some(BlockList(found.data + rest.data, found.exts + rest.exts))
  }

  lemma ContinuesAtOnce(v: Vol, start: int, room: nat)
    ensures Continues(v, start, room, BlockList([], []), start, room)
  {
    match WalkExts(v, start, room)
    case None =>
    case Some(rest) => assert [] + rest.data == rest.data && [] + rest.exts == rest.exts;
  }

  lemma ContinuesToEnd(v: Vol, start: int, room: nat, found: BlockList, left: nat)
    requires Continues(v, start, room, found, 0, left)
    ensures WalkExts(v, start, room) == Some(found)
  {
    assert found.data + [] == found.data && found.exts + [] == found.exts;
  }

  lemma WalkStops(v: Vol, start: int, room: nat, found: BlockList, key: int, left: nat)
    requires Continues(v, start, room, found, key, left) && key != 0 && ReadNode(v, key).None?
    ensures WalkExts(v, start, room) == None
  {
  }

  lemma FitsHere(v: Vol, key: int, dataRoom: nat, extRoom: nat)
    requires WalkFits(v, key, dataRoom, extRoom) && key != 0
    ensures extRoom > 0
    ensures ReadNode(v, key).Some? ==>
              var x := ReadNode(v, key).value;
              && x.highSeq <= 72 && Max(x.highSeq, 0) <= dataRoom
              && WalkFits(v, x.extension, dataRoom - Max(x.highSeq, 0), extRoom - 1)
  {
  }

  lemma SlicesJoin(a: seq<int>, b: seq<int>, from: nat, m: nat, s: seq<int>)
    requires from <= m <= |a| <= |b| && m + |s| <= |b| && b[..m + |s|] == a[..m] + s
    ensures b[from..m + |s|] == a[from..m] + s && b[..from] == a[..from]
  {
    assert b[from..m + |s|] == b[..m + |s|][from..];
    assert b[..from] == b[..m + |s|][..from];
  }

  /** The extension blocks from `start` on, and the data blocks listed in them behind the first `from`. */
  method AddExts(vol: AdfVolume, start: int, data: array<int>, exts: array<int>, from: nat)
    returns (ok: bool, nDataBlocks: nat, nExtBlocks: nat)
    requires vol.Valid() && from <= data.Length && data != exts
    requires WalkFits(vol.V(), start, data.Length - from, exts.Length)
    modifies data, exts
    ensures vol.Valid() && vol.V() == old(vol.V())
    ensures match WalkExts(vol.V(), start, exts.Length)
            case None => !ok
            case Some(b) =>
              && ok && nDataBlocks == from + |b.data| <= data.Length && nExtBlocks == |b.exts| <= exts.Length
              && data[..nDataBlocks] == old(data[..from]) + b.data && exts[..nExtBlocks] == b.exts
  {
    hide ReadNode, FirstSlots, WalkExts, WalkFits, Continues;
    ghost var v, room, first := vol.V(), exts.Length, data[..from];
    var nSect := start;
    ok, nDataBlocks, nExtBlocks := true, from, 0;
    ContinuesAtOnce(v, start, room);
    assert data[from..from] == [] && exts[..0] == [];
    while nSect != 0
      invariant vol.Valid() && vol.V() == v
      invariant from <= nDataBlocks <= data.Length && 0 <= nExtBlocks <= exts.Length && ok
      invariant data[..from] == first
      invariant WalkFits(v, nSect, data.Length - nDataBlocks, exts.Length - nExtBlocks)
      invariant Continues(v, start, room, BlockList(data[from..nDataBlocks], exts[..nExtBlocks]), nSect, exts.Length - nExtBlocks)
      decreases exts.Length - nExtBlocks
    {
      ghost var found, left := BlockList(data[from..nDataBlocks], exts[..nExtBlocks]), exts.Length - nExtBlocks;
      FitsHere(v, nSect, data.Length - nDataBlocks, left);
      nExtBlocks := AddSector(vol, nSect, exts, nExtBlocks);
      var extBlock := vol.ReadNodeBlock(nSect);
      if extBlock.None? {
        WalkStops(v, start, room, found, nSect, left);
        ok := false;
        return;
      }
      var x := extBlock.value;
      WalkGoesOn(v, start, room, found, nSect, left, x);
      ghost var d0, n0 := data[..], nDataBlocks;
      nDataBlocks := AddSlots(vol, x, Max(x.highSeq, 0), data, nDataBlocks);
      SlicesJoin(d0, data[..], from, n0, FirstSlots(x, Max(x.highSeq, 0)));
      nSect := x.extension;
    }
    ContinuesToEnd(v, start, room, BlockList(data[from..nDataBlocks], exts[..nExtBlocks]), exts.Length - nExtBlocks);
    assert data[..nDataBlocks] == data[..from] + data[from..nDataBlocks];
  }

  lemma SameRead(v: Vol, w: Vol, s: int)
    requires SameBlocks(v, w)
    ensures ReadNode(v, s) == ReadNode(w, s)
  {
  }

  /**
    adfGetFileBlocks: the two vectors are filled with the data and extension sectors that the
    header and the extension chain list; it fails when an extension block cannot be read, the
    numbers do not agree with the size, or the size is 0.
  */
  method GetFileBlocks(vol: AdfVolume, entry: Node) returns (ok: bool, data: array<int>, exts: array<int>)
    requires vol.Valid() && BlocksFit(vol.V(), entry)
    ensures vol.Valid() && vol.V() == old(vol.V())
    ensures match FileBlocks.GetFileBlocks(vol.V(), entry)
            case None => !ok
            case Some(b) => ok && data[..] == b.data && exts[..] == b.exts
    ensures fresh(data) && fresh(exts) && data !in vol.Bits() && exts !in vol.Bits()
  {
    hide RealSize, FirstSlots, WalkExts, WalkFits;
    ghost var v := vol.V();
    var size := RealSize(entry.byteSize, FFS_BLOCK);
    var isNull;
    data, isNull := CreateVector(vol.Bits(), 0);
    exts, isNull := CreateVector(vol.Bits(), 0);
    if Min(size.data, MAX_DATABLK) != entry.highSeq {
      return false, data, exts;
    }
    data, isNull := CreateVector(vol.Bits(), size.data);
    if isNull {
      return false, data, exts;
    }
    ok := true;
    var nDataBlocks := AddSlots(vol, entry, entry.highSeq, data, 0);
    var nExtBlocks := 0;
    if size.ext > 0 {
      exts, isNull := CreateVector(vol.Bits(), size.ext);
      if isNull {
        return false, data, exts;
      }
      ok, nDataBlocks, nExtBlocks := AddExts(vol, entry.extension, data, exts, nDataBlocks);
      if !ok {
        return;
      }
    }
    ok := nDataBlocks == size.data && nExtBlocks == size.ext;
    if ok {
      assert data[..] == data[..nDataBlocks] && exts[..] == exts[..nExtBlocks];
    }
  }

  /**
    adfFreeFileBlocks: exactly the data and extension blocks found become free; if the walk
    fails, none does.
  */
  method FreeFileBlocks(vol: AdfVolume, entry: Node) returns (ok: bool)
    requires vol.Valid() && BlocksFit(vol.V(), entry)
    requires match FileBlocks.GetFileBlocks(vol.V(), entry)
             case None => true
             case Some(b) => OnVolume(b.data, vol.Last()) && OnVolume(b.exts, vol.Last())
    modifies vol.Bits()
    ensures vol.Valid()
    ensures match FileBlocks.FreeFileBlocks(old(vol.V()), entry)
            case None => !ok && vol.V() == old(vol.V())
            case Some(w) => ok && vol.V() == w
  {
    hide FileBlocks.GetFileBlocks, OnVolume, Elements;
    var data, exts;
    ok, data, exts := GetFileBlocks(vol, entry);
    if !ok {
      return;
    }
    SetFree(vol, data);
    SetFree(vol, exts);
  }

  ghost predicate OnVolume(list: seq<int>, last: int) {
    forall k :: 0 <= k < |list| ==> 2 <= list[k] <= last
  }

  lemma OwnOnVolume(v: Vol, hdr: Node, L: Layout)
    requires ChainOnDisk(v, hdr, L)
    ensures OnVolume(L.data, v.last) && OnVolume(L.exts, v.last)
  {
    assert forall k :: 0 <= k < |L.data| ==> L.data[k] in L.own;
    assert forall k :: 0 <= k < |L.exts| ==> L.exts[k] in L.own;
  }

  /** The sectors of a vector become free. */
  method SetFree(vol: AdfVolume, list: array<int>)
    requires vol.Valid() && OnVolume(list[..], vol.Last())
    modifies vol.Bits()
    ensures vol.Valid()
    ensures vol.disk[..] == old(vol.disk[..])
    ensures vol.Free() == old(vol.Free()) + Elements(list[..])
  {
    var i := 0;
    while i < list.Length
      invariant 0 <= i <= list.Length
      invariant vol.Valid() && vol.disk[..] == old(vol.disk[..])
      invariant vol.Free() == old(vol.Free()) + Elements(list[..i])
    {
      vol.SetBlockFree(list[i]);
      assert list[..i + 1] == list[..i] + [list[i]];
      i := i + 1;
    }
    assert list[..list.Length] == list[..];
  }
}
