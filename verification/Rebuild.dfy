/**
  Rebuilding the bitmap from the directory tree: every sector is marked free, then all
  that the tree reaches is marked used. Models adfReconstructBitmap and its helpers of
  adf_bitm.c, and adfGetRDirEnt of adf_dir.c.
*/
module Rebuild {
  import opened FileUtil
  import opened Blocks
  import opened Names
  import opened FileInv
  import opened FileSpec
  import FileBlocks
  import FileVectors
  import opened DirInv
  import opened DirLink
  import opened DirSpec
  import opened Dir
  import opened DirChange
  import opened VolumeInv
  import opened VolumeOps
  import VolumeFrame
  import opened DirTree
  import opened Volume
  import opened BitmapPages

  const MAX_LEVELS := 512

  /** An entry of a directory listing; a directory comes with the listing of its own entries. */
  datatype Cell = Cell(sector: int, secType: int, subdir: seq<Cell>)

  /* ---- the depth of the tree ---- */

  /** How deep each directory is that the root leads to. */
  ghost predicate Depths(F: Forest, root: int, depth: map<int, nat>) {
    && root in depth && depth[root] == 0 && root !in F.place
    && (forall d :: d in depth ==> d in F.chains)
    && (forall d :: d in F.chains && d in F.place ==>
          && (d in depth <==> F.place[d].dir in depth)
          && (d in depth ==> depth[d] == depth[F.place[d].dir] + 1))
  }

  /** The depth of a directory is the length of its path to the root. */
  ghost function DepthsOf(F: Forest, root: int): map<int, nat> {
    map d | d in F.chains && Inside(F, d, root) ::
      (var path :| Path(F, path) && path[0] == d && path[|path| - 1] == root; |path| - 1)
  }

  /** There is only one path up to the root. */
  lemma {:induction false} OnePath(F: Forest, root: int, p: seq<int>, q: seq<int>)
    requires root !in F.place && Path(F, p) && Path(F, q) && p[0] == q[0]
    requires p[|p| - 1] == root && q[|q| - 1] == root
    ensures p == q
  {
    if |p| > 1 && |q| > 1 {
      assert p[1..][0] == F.place[p[0]].dir == q[1..][0];
      OnePath(F, root, p[1..], q[1..]);
      assert p == [p[0]] + p[1..] && q == [q[0]] + q[1..];
    }
  }

  lemma DepthIs(F: Forest, root: int, path: seq<int>)
    requires root !in F.place && Path(F, path) && path[|path| - 1] == root && path[0] in F.chains
    ensures path[0] in DepthsOf(F, root) && DepthsOf(F, root)[path[0]] == |path| - 1
  {
    var d := path[0];
    assert Inside(F, d, root);
    var other :| Path(F, other) && other[0] == d && other[|other| - 1] == root && DepthsOf(F, root)[d] == |other| - 1;
    OnePath(F, root, path, other);
  }

  /** Every forest has these depths. */
  lemma DepthsOfAre(F: Forest, root: int)
    requires ForestOK(F) && root in F.chains && root !in F.place
    ensures Depths(F, root, DepthsOf(F, root))
  {
    var depth := DepthsOf(F, root);
    assert Path(F, [root]);
    DepthIs(F, root, [root]);
    forall d | d in F.chains && d in F.place
      ensures d in depth <==> F.place[d].dir in depth
      ensures d in depth ==> depth[d] == depth[F.place[d].dir] + 1
    {
      assert HasPlace(F, d);
      InsideParent(F, d, root);
      if d in depth {
        var path :| Path(F, path) && path[0] == d && path[|path| - 1] == root;
        assert Path(F, path[1..]);
        DepthIs(F, root, path);
        DepthIs(F, root, path[1..]);
      }
    }
  }

  /** In a tree the root leads to every directory. */
  lemma {:induction false} TreeHasDepth(F: Forest, root: int, depth: map<int, nat>, rank: map<int, nat>, d: int)
    requires ForestOK(F) && Depths(F, root, depth) && Ranked(F, rank) && d in F.chains
    requires forall x :: x in F.chains ==> x == root || x in F.place
    ensures d in depth
    decreases if d in rank then rank[d] else 0
  {
    if d != root {
      assert HasPlace(F, d);
      TreeHasDepth(F, root, depth, rank, F.place[d].dir);
    }
  }

  /** The entry is in a directory that the root leads to, and not too deep to be listed. */
  ghost predicate Listed(F: Forest, depth: map<int, nat>, s: int) {
    s in F.place && F.place[s].dir in depth && depth[F.place[s].dir] <= MAX_LEVELS
  }

  /** Entry `s` is in directory `d` or in one below it, and not too deep to be listed. */
  ghost predicate Below(F: Forest, depth: map<int, nat>, s: int, d: int)
    decreases if Listed(F, depth, s) then depth[F.place[s].dir] + 1 else 0
  {
    && Listed(F, depth, s)
    && (F.place[s].dir == d
        || (F.place[s].dir in F.place && F.place[F.place[s].dir].dir in depth
            && depth[F.place[F.place[s].dir].dir] < depth[F.place[s].dir]
            && Below(F, depth, F.place[s].dir, d)))
  }

  /** Below the root are all entries that are listed. */
  lemma {:induction false} AllBelowRoot(F: Forest, root: int, depth: map<int, nat>, s: int)
    requires ForestOK(F) && Depths(F, root, depth) && Listed(F, depth, s)
    requires forall d :: d in F.chains ==> d == root || d in F.place
    ensures Below(F, depth, s, root)
    decreases if F.place[s].dir in depth then depth[F.place[s].dir] else 0
  {
    assert HasPlace(F, s);
    var d := F.place[s].dir;
    if d != root {
      AllBelowRoot(F, root, depth, d);
    }
  }

  /** Nothing is listed in a directory that is too deep. */
  lemma {:induction false} BelowInLimit(F: Forest, depth: map<int, nat>, s: int, d: int)
    requires Below(F, depth, s, d)
    ensures d in depth && depth[d] <= MAX_LEVELS
    decreases if Listed(F, depth, s) then depth[F.place[s].dir] else 0
  {
    if F.place[s].dir != d {
      BelowInLimit(F, depth, F.place[s].dir, d);
    }
  }

  /* ---- listings ---- */

  /** The sectors of a listing and of the listings in it. */
  ghost function Sectors(list: seq<Cell>): set<int>
    decreases list
  {
    if list == [] then {}
    else
      var c := list[|list| - 1];
      Sectors(list[..|list| - 1]) + {c.sector} + Sectors(c.subdir)
  }

  /** Every cell is an entry with its type, and only directories have listings. */
  ghost predicate Faithful(v: Vol, F: Forest, list: seq<Cell>)
    decreases list
  {
    forall i :: 0 <= i < |list| ==>
      && list[i].sector in F.place
      && list[i].secType == NodeAt(v, list[i].sector).secType
      && Faithful(v, F, list[i].subdir)
  }

  lemma SectorsAppend(list: seq<Cell>, c: Cell)
    ensures Sectors(list + [c]) == Sectors(list) + {c.sector} + Sectors(c.subdir)
  {
    assert (list + [c])[..|list|] == list;
  }

  /** The entries in the first `h` chains of `d` and the first `k` of the next, and all below them. */
  ghost predicate Covers(F: Forest, depth: map<int, nat>, d: int, list: seq<Cell>, h: nat, k: nat)
    requires d in F.chains && |F.chains[d]| == HT_SIZE && h <= HT_SIZE && (h < HT_SIZE ==> k <= |F.chains[d][h]|)
  {
    forall s :: s in Sectors(list) <==>
      exists e :: e in F.place && F.place[e].dir == d && Before(F.place[e], h, k) && (s == e || Below(F, depth, s, e))
  }

  predicate Before(p: Place, h: nat, k: nat) {
    p.bucket < h || (p.bucket == h && p.idx < k)
  }

  lemma CoversNothing(F: Forest, depth: map<int, nat>, d: int)
    requires d in F.chains && |F.chains[d]| == HT_SIZE
    ensures Covers(F, depth, d, [], 0, 0)
  {
  }

  /** The entry behind the first `k` of chain `h` is the only one that is met next. */
  lemma BeforeOneMore(F: Forest, d: int, h: nat, k: nat, e: int)
    requires ForestOK(F) && d in F.chains && |F.chains[d]| == HT_SIZE && h < HT_SIZE && k < |F.chains[d][h]|
    requires e in F.place && F.place[e].dir == d
    ensures Before(F.place[e], h, k + 1) <==> Before(F.place[e], h, k) || e == F.chains[d][h][k]
  {
    ChainPlaces(F, d, h, k);
    assert HasPlace(F, e);
  }

  lemma CoversOneMore(F: Forest, depth: map<int, nat>, d: int, list: seq<Cell>, h: nat, k: nat, c: Cell)
    requires ForestOK(F) && d in F.chains && |F.chains[d]| == HT_SIZE && h < HT_SIZE && k < |F.chains[d][h]|
    requires Covers(F, depth, d, list, h, k) && c.sector == F.chains[d][h][k]
    requires forall s :: s in Sectors(c.subdir) <==> Below(F, depth, s, c.sector)
    ensures Covers(F, depth, d, list + [c], h, k + 1)
  {
    hide Below, Sectors, ForestOK, Before;
    SectorsAppend(list, c);
    ChainPlaces(F, d, h, k);
    var e0 := c.sector;
    forall e | e in F.place && F.place[e].dir == d
      ensures Before(F.place[e], h, k + 1) <==> Before(F.place[e], h, k) || e == e0
    {
      BeforeOneMore(F, d, h, k, e);
    }
    forall s ensures s in Sectors(list + [c]) <==>
      exists e :: e in F.place && F.place[e].dir == d && Before(F.place[e], h, k + 1) && (s == e || Below(F, depth, s, e))
    {
      if s == e0 || s in Sectors(c.subdir) {
        assert e0 in F.place && F.place[e0].dir == d && Before(F.place[e0], h, k + 1) && (s == e0 || Below(F, depth, s, e0));
      }
      if s in Sectors(list) {
        var e :| e in F.place && F.place[e].dir == d && Before(F.place[e], h, k) && (s == e || Below(F, depth, s, e));
        assert Before(F.place[e], h, k + 1);
      }
    }
  }

  lemma CoversNextChain(F: Forest, depth: map<int, nat>, d: int, list: seq<Cell>, h: nat)
    requires ForestOK(F) && d in F.chains && |F.chains[d]| == HT_SIZE && h < HT_SIZE
    requires Covers(F, depth, d, list, h, |F.chains[d][h]|)
    ensures Covers(F, depth, d, list, h + 1, 0)
  {
    forall e | e in F.place && F.place[e].dir == d
      ensures Before(F.place[e], h, |F.chains[d][h]|) <==> Before(F.place[e], h + 1, 0)
    {
      assert HasPlace(F, e);
    }
  }

  lemma {:induction false} BelowVia(F: Forest, depth: map<int, nat>, s: int, d: int)
    requires ForestOK(F) && Below(F, depth, s, d)
    ensures exists e :: e in F.place && F.place[e].dir == d && (s == e || Below(F, depth, s, e))
    decreases if s in F.place && F.place[s].dir in depth then depth[F.place[s].dir] else 0
  {
    if F.place[s].dir == d {
    } else {
      var t := F.place[s].dir;
      BelowVia(F, depth, t, d);
      var e :| e in F.place && F.place[e].dir == d && (t == e || Below(F, depth, t, e));
      assert Below(F, depth, s, e);
    }
  }

  lemma {:induction false} BelowThrough(F: Forest, root: int, depth: map<int, nat>, s: int, e: int, d: int)
    requires ForestOK(F) && Depths(F, root, depth) && e in F.place && F.place[e].dir == d && (s == e || Below(F, depth, s, e))
    requires d in depth && depth[d] <= MAX_LEVELS
    requires forall x :: x in F.chains ==> x == root || x in F.place
    ensures Below(F, depth, s, d)
    decreases if s in F.place && F.place[s].dir in depth then depth[F.place[s].dir] else 0
  {
    if s != e {
      var t := F.place[s].dir;
      assert HasPlace(F, s);
      if t == e {
        assert HasPlace(F, e);
        assert Below(F, depth, e, d);
      } else {
        BelowThrough(F, root, depth, t, e, d);
        assert HasPlace(F, t);
      }
    }
  }

  /** A listing that covers all chains of a directory covers all that is below it. */
  lemma CoversAll(F: Forest, root: int, depth: map<int, nat>, d: int, list: seq<Cell>)
    requires ForestOK(F) && Depths(F, root, depth) && d in F.chains && |F.chains[d]| == HT_SIZE
    requires d in depth && depth[d] <= MAX_LEVELS
    requires forall x :: x in F.chains ==> x == root || x in F.place
    requires Covers(F, depth, d, list, HT_SIZE, 0)
    ensures forall s :: s in Sectors(list) <==> Below(F, depth, s, d)
  {
    hide Below, Sectors, HasPlace;
    forall s ensures s in Sectors(list) <==> Below(F, depth, s, d) {
      if Below(F, depth, s, d) {
        BelowVia(F, depth, s, d);
        var e :| e in F.place && F.place[e].dir == d && (s == e || Below(F, depth, s, e));
        BucketInRange(F, e);
      }
      if s in Sectors(list) {
        var e :| e in F.place && F.place[e].dir == d && Before(F.place[e], HT_SIZE, 0) && (s == e || Below(F, depth, s, e));
        BelowThrough(F, root, depth, s, e, d);
      }
    }
  }

  lemma BucketInRange(F: Forest, e: int)
    requires ForestOK(F) && e in F.place
    ensures F.place[e].bucket < HT_SIZE && Before(F.place[e], HT_SIZE, 0) && F.place[e].dir in F.chains
  {
    assert HasPlace(F, e);
  }

  /** Does the hash table have pointer `x`? */
  method TableHas(n: Node, x: int) returns (found: bool)
    ensures found <==> exists j :: 0 <= j < HT_SIZE && n.slots[j] == x
  {
    var j := 0;
    while j < HT_SIZE
      invariant 0 <= j <= HT_SIZE
      invariant forall i :: 0 <= i < j ==> n.slots[i] != x
    {
      if n.slots[j] == x {
        return true;
      }
      j := j + 1;
    }
    found := false;
  }

  /** The entry behind another one is neither that entry nor the first of a chain. */
  lemma NextIsOther(v: Vol, F: Forest, intl: bool, d: int, h: nat, k: nat)
    requires Linked(v, F, intl) && d in F.chains && h < HT_SIZE
    ensures |F.chains[d]| == HT_SIZE
    ensures k + 1 < |F.chains[d][h]| ==>
              var s, next := F.chains[d][h][k], F.chains[d][h][k + 1];
              s != next && forall j :: 0 <= j < HT_SIZE ==> NodeAt(v, d).slots[j] != next
  {
    hide Linked, ForestOK, Hash;
    ChainEntry(v, F, intl, d, h, k);
    ChainEntry(v, F, intl, d, h, k + 1);
    forall j | 0 <= j < HT_SIZE && k + 1 < |F.chains[d][h]| ensures NodeAt(v, d).slots[j] != F.chains[d][h][k + 1] {
      HeadOfChain(v, F, intl, d, j);
      ChainEntry(v, F, intl, d, j, 0);
    }
  }

  lemma DeeperByOne(F: Forest, root: int, depth: map<int, nat>, d: int, h: nat, k: nat)
    requires ForestOK(F) && Depths(F, root, depth) && d in F.chains && h < HT_SIZE && |F.chains[d]| == HT_SIZE && k < |F.chains[d][h]|
    requires F.chains[d][h][k] in F.chains && d in depth
    ensures F.chains[d][h][k] in depth && depth[F.chains[d][h][k]] == depth[d] + 1
  {
    ChainPlaces(F, d, h, k);
    var e := F.chains[d][h][k];
    assert e in F.place && e in F.chains;
  }

  /** A file has no entries below it. */
  lemma NothingBelowFile(F: Forest, depth: map<int, nat>, e: int)
    requires ForestOK(F) && e !in F.chains
    ensures forall s :: !Below(F, depth, s, e)
  {
    forall s ensures !Below(F, depth, s, e) {
      if Below(F, depth, s, e) {
        BelowVia(F, depth, s, e);
        var t :| t in F.place && F.place[t].dir == e && (s == t || Below(F, depth, s, t));
        BucketInRange(F, t);
      }
    }
  }

  lemma FaithfulAppend(v: Vol, F: Forest, list: seq<Cell>, c: Cell)
    requires Faithful(v, F, list) && c.sector in F.place && c.secType == NodeAt(v, c.sector).secType && Faithful(v, F, c.subdir)
    ensures Faithful(v, F, list + [c])
  {
    hide NodeAt;
  }

  /** What is known of an entry that is read for a listing. */
  lemma ListedEntry(v: Vol, F: Forest, intl: bool, root: int, depth: map<int, nat>, d: int, h: nat, k: nat)
    requires Linked(v, F, intl) && Depths(F, root, depth) && d in F.chains && h < HT_SIZE && d in depth
    ensures |F.chains[d]| == HT_SIZE
    ensures k < |F.chains[d][h]| ==>
              var e := F.chains[d][h][k];
              && ReadEntry(v, e) == Some(NodeAt(v, e)) && e in F.place
              && NodeAt(v, e).nextSameHash == PtrOrZero(F.chains[d][h], k + 1)
              && (NodeAt(v, e).secType == ST_DIR ==> e in F.chains && e in depth && depth[e] == depth[d] + 1)
              && (NodeAt(v, e).secType != ST_DIR ==> forall s :: !Below(F, depth, s, e))
  {
    hide Linked, ForestOK, Hash, Below, Depths;
    LinkedParts(v, F, intl);
    ChainEntry(v, F, intl, d, h, k);
    if k < |F.chains[d][h]| {
      var e := F.chains[d][h][k];
      LinkedEntry(v, F, intl, e);
      if e in F.chains {
        DeeperByOne(F, root, depth, d, h, k);
      } else {
        NothingBelowFile(F, depth, e);
      }
    }
  }

  lemma EmptySectors()
    ensures Sectors([]) == {}
  {
  }

  /**
    adfGetRDirEnt: the listing of a directory, and in it those of its subdirectories, has
    exactly the entries below the directory, down to the limit.
  */
  method GetRDirEnt(vol: AdfVolume, nSect: int, level: nat, ghost F: Forest, ghost depth: map<int, nat>)
    returns (list: seq<Cell>)
    requires vol.Valid() && DirsOK(vol.V(), F, vol.intl) && Depths(F, vol.rootBlock, depth)
    requires nSect in F.chains && nSect in depth && level == depth[nSect] <= MAX_LEVELS + 1
    ensures forall s :: s in Sectors(list) <==> Below(F, depth, s, nSect)
    ensures Faithful(vol.V(), F, list)
    decreases MAX_LEVELS + 1 - level
  {
    hide Linked, ForestOK, Hash, Below, Sectors, NodeAt, ReadEntry, Covers, Depths, Faithful;
    ghost var v, root := vol.V(), vol.rootBlock;
    if level > MAX_LEVELS {
      TooDeep(v, F, depth, nSect);
      return [];
    }
    LinkedParts(v, F, vol.intl);
    LinkedDir(v, F, vol.intl, nSect);
    DirEntryReads(v, F, vol.intl, nSect);
    var parent := ReadEntryBlock(vol, nSect);
    list := [];
    CoversNothing(F, depth, nSect);
    FaithfulEmpty(v, F);
    var i := 0;
    while i < HT_SIZE
      invariant 0 <= i <= HT_SIZE
      invariant Covers(F, depth, nSect, list, i, 0) && Faithful(v, F, list)
    {
      HeadOfChain(v, F, vol.intl, nSect, i);
      list := ListChain(vol, nSect, parent.value, level, i, list, F, depth);
      CoversNextChain(F, depth, nSect, list, i);
      i := i + 1;
    }
    CoversAll(F, root, depth, nSect, list);
  }

  lemma TooDeep(v: Vol, F: Forest, depth: map<int, nat>, d: int)
    requires d in depth && depth[d] > MAX_LEVELS
    ensures forall s :: s in Sectors([]) <==> Below(F, depth, s, d)
    ensures Faithful(v, F, [])
  {
    hide Below;
    forall s ensures !Below(F, depth, s, d) {
      if Below(F, depth, s, d) {
        BelowInLimit(F, depth, s, d);
      }
    }
  }

  lemma FaithfulEmpty(v: Vol, F: Forest)
    ensures Faithful(v, F, [])
  {
  }

  /** The entries of one chain are added to the listing. */
  method ListChain(vol: AdfVolume, nSect: int, parent: Node, level: nat, i: nat, list0: seq<Cell>, ghost F: Forest,
                   ghost depth: map<int, nat>)
    returns (list: seq<Cell>)
    requires vol.Valid() && DirsOK(vol.V(), F, vol.intl) && Depths(F, vol.rootBlock, depth)
    requires nSect in F.chains && nSect in depth && level == depth[nSect] <= MAX_LEVELS
    requires |F.chains[nSect]| == HT_SIZE && i < HT_SIZE && parent == NodeAt(vol.V(), nSect)
    requires Covers(F, depth, nSect, list0, i, 0) && Faithful(vol.V(), F, list0)
    ensures Covers(F, depth, nSect, list, i, |F.chains[nSect][i]|) && Faithful(vol.V(), F, list)
    decreases MAX_LEVELS + 1 - level, 0
  {
    hide Linked, ForestOK, Hash, Below, Sectors, NodeAt, ReadEntry, Covers, Depths, Faithful;
    ghost var v, root := vol.V(), vol.rootBlock;
    LinkedParts(v, F, vol.intl);
    HeadOfChain(v, F, vol.intl, nSect, i);
    EndOfChain(v, F, vol.intl, nSect, i, 0);
    EmptySectors();
    FaithfulEmpty(v, F);
    list := list0;
    var sector := parent.slots[i];
    ghost var k := 0;
    while sector != 0
      invariant 0 <= k <= |F.chains[nSect][i]|
      invariant sector == PtrOrZero(F.chains[nSect][i], k)
      invariant Covers(F, depth, nSect, list, i, k) && Faithful(v, F, list)
      decreases |F.chains[nSect][i]| - k
    {
      ListedEntry(v, F, vol.intl, root, depth, nSect, i, k);
      NextIsOther(v, F, vol.intl, nSect, i, k);
      var entryBlk := ReadEntryBlock(vol, sector);
      var subdir := [];
      if entryBlk.value.secType == ST_DIR {
        subdir := GetRDirEnt(vol, sector, level + 1, F, depth);
      }
      var cell := Cell(sector, entryBlk.value.secType, subdir);
      CoversOneMore(F, depth, nSect, list, i, k, cell);
      FaithfulAppend(v, F, list, cell);
      list := list + [cell];
      k := k + 1;
      var next := entryBlk.value.nextSameHash;
      if next == 0 {
        sector := 0;
      } else {
        var invalid := TableHas(parent, next);
        if next == sector || invalid {
          break;
        }
        sector := next;
      }
    }
    EndOfChain(v, F, vol.intl, nSect, i, k);
  }

  /* ---- marking ---- */

  /** The sectors a table of pointers names. */
  ghost function PointedAt(n: Node): set<int> {
    set k | 0 <= k < 72 && n.slots[k] > 1 :: n.slots[k]
  }

  /** Every pointer of the table that is not 0 or 1 is used. */
  method MarkPointers(vol: AdfVolume, n: Node)
    requires vol.Valid() && forall k :: 0 <= k < 72 ==> n.slots[k] <= vol.Last()
    modifies vol.Bits()
    ensures vol.Valid() && vol.V() == old(vol.V()).(free := old(vol.V()).free - PointedAt(n))
  {
    ghost var marked: set<int> := {};
    var block := 0;
    while block < 72
      invariant 0 <= block <= 72 && vol.Valid() && vol.disk[..] == old(vol.disk[..])
      invariant vol.Free() == old(vol.Free()) - marked
      invariant forall x :: x in marked <==> exists k :: 0 <= k < block && n.slots[k] > 1 && n.slots[k] == x
    {
      if n.slots[block] > 1 {
        vol.SetBlockUsed(n.slots[block]);
        marked := marked + {n.slots[block]};
      }
      block := block + 1;
    }
    assert marked == PointedAt(n);
  }

  /** The pointers of a table that lists data blocks `from` to `end` - 1. */
  lemma PointersAre(n: Node, L: Layout, from: nat)
    requires from <= |L.data| && forall k :: 0 <= k < 72 ==> Slot(n, k) == PtrOrZero(L.data, from + k)
    requires forall i :: 0 <= i < |L.data| ==> L.data[i] > 1
    ensures PointedAt(n) == Elements(L.data[from..Min(|L.data|, from + 72)])
  {
    var list := L.data[from..Min(|L.data|, from + 72)];
    forall x ensures x in PointedAt(n) <==> x in list {
      if x in list {
        var i :| 0 <= i < |list| && list[i] == x;
        assert Slot(n, i) == x;
        assert n.slots[71 - i] == x;
      }
      if x in PointedAt(n) {
        var k :| 0 <= k < 72 && n.slots[k] > 1 && n.slots[k] == x;
        assert Slot(n, 71 - k) == x;
        assert list[71 - k] == x;
      }
    }
  }

  lemma DataInRange(v: Vol, hdr: Node, L: Layout)
    requires Stored(v, hdr, L)
    ensures forall i :: 0 <= i < |L.data| ==> 1 < L.data[i] <= v.last
    ensures forall j :: 0 <= j < |L.exts| ==> 1 < L.exts[j] <= v.last
    ensures 1 < L.header <= v.last && VolOK(v)
  {
    assert forall i :: 0 <= i < |L.data| ==> L.data[i] in L.own;
    assert forall j :: 0 <= j < |L.exts| ==> L.exts[j] in L.own;
  }

  /** What the header of a file points at. */
  lemma HeaderPointers(v: Vol, hdr: Node, L: Layout)
    requires Stored(v, hdr, L)
    ensures PointedAt(hdr) == Elements(L.data[..FileVectors.ListedBefore(L, 0)])
    ensures forall k :: 0 <= k < 72 ==> hdr.slots[k] <= v.last
    ensures hdr.extension == PtrOrZero(L.exts, 0)
    ensures FileVectors.ListedBefore(L, 0) <= |L.data|
    ensures |L.exts| == 0 ==> FileVectors.ListedBefore(L, 0) == |L.data|
  {
    DataInRange(v, hdr, L);
    assert HdrOK(hdr, L) && |L.exts| == Datablocks2Extblocks(|L.data|);
    hide Stored;
    PointersAre(hdr, L, 0);
    SlotsInRange(hdr, v.last);
  }

  lemma SlotsInRange(n: Node, last: int)
    requires forall k :: 0 <= k < 72 ==> Slot(n, k) <= last
    ensures forall k :: 0 <= k < 72 ==> n.slots[k] <= last
  {
    forall k | 0 <= k < 72 ensures n.slots[k] <= last {
      assert n.slots[k] == Slot(n, 71 - k);
    }
  }

  /** What extension block `j` of a file points at. */
  lemma ExtPointers(v: Vol, hdr: Node, L: Layout, j: nat)
    requires Stored(v, hdr, L) && j < |L.exts|
    ensures ReadNode(v, L.exts[j]).Some? && L.exts[j] != 0 && 2 <= L.exts[j] <= v.last
    ensures var n := ReadNode(v, L.exts[j]).value;
            && n.extension == PtrOrZero(L.exts, j + 1)
            && FileVectors.ListedBefore(L, j) <= FileVectors.ListedBefore(L, j + 1) <= |L.data|
            && PointedAt(n) == Elements(L.data[FileVectors.ListedBefore(L, j)..FileVectors.ListedBefore(L, j + 1)])
            && forall k :: 0 <= k < 72 ==> n.slots[k] <= v.last
    ensures j + 1 == |L.exts| ==> FileVectors.ListedBefore(L, j + 1) == |L.data|
  {
    FileBlocks.StoredExt(v, hdr, L, j);
    DataInRange(v, hdr, L);
    var n := ReadNode(v, L.exts[j]).value;
    hide Stored, ReadNode;
    assert MAX_DATABLK * (j + 1) <= |L.data|;
    PointersAre(n, L, MAX_DATABLK * (j + 1));
    SlotsInRange(n, v.last);
  }

  lemma MoreElements(s: seq<int>, a: nat, b: nat)
    requires a <= b <= |s|
    ensures Elements(s[..a]) + Elements(s[a..b]) == Elements(s[..b])
  {
    assert s[..b] == s[..a] + s[a..b];
  }

  /** Extension block `j` of a file and the data blocks it lists are used. */
  method MarkExt(vol: AdfVolume, extBlockPtr: int, ghost hdr: Node, ghost v0: Vol, ghost L: Layout, ghost j: nat)
    returns (next: int)
    requires vol.Valid() && FileVectors.SameBlocks(vol.V(), v0) && Stored(v0, hdr, L)
    requires j < |L.exts| && extBlockPtr == L.exts[j]
    modifies vol.Bits()
    ensures vol.Valid() && next == PtrOrZero(L.exts, j + 1)
    ensures FileVectors.ListedBefore(L, j) <= FileVectors.ListedBefore(L, j + 1) <= |L.data|
    ensures var more := Elements(L.data[FileVectors.ListedBefore(L, j)..FileVectors.ListedBefore(L, j + 1)]);
            vol.V() == old(vol.V()).(free := old(vol.V()).free - {extBlockPtr} - more)
  {
    hide Stored, PointedAt, Elements, ReadNode, FileVectors.ListedBefore;
    ExtPointers(v0, hdr, L, j);
    vol.SetBlockUsed(extBlockPtr);
    var fext := vol.ReadNodeBlock(extBlockPtr);
    FileVectors.SameRead(vol.V(), v0, extBlockPtr);
    MarkPointers(vol, fext.value);
    next := fext.value.extension;
  }

  /** adfBitmapFileBlocksSetUsed: all data and extension blocks of the file are used. */
  method FileBlocksSetUsed(vol: AdfVolume, fhBlock: Node, ghost v0: Vol, ghost L: Layout)
    requires vol.Valid() && FileVectors.SameBlocks(vol.V(), v0) && Stored(v0, fhBlock, L)
    modifies vol.Bits()
    ensures vol.Valid()
    ensures vol.V() == old(vol.V()).(free := old(vol.V()).free - (Elements(L.data) + Elements(L.exts)))
  {
    hide Stored, PointedAt, Elements, ReadNode, FileVectors.ListedBefore;
    ghost var v := vol.V();
    HeaderPointers(v0, fhBlock, L);
    MarkPointers(vol, fhBlock);
    var extBlockPtr := fhBlock.extension;
    ghost var j := 0;
    NoElements(L.exts);
    while extBlockPtr != 0
      invariant 0 <= j <= |L.exts| && extBlockPtr == PtrOrZero(L.exts, j)
      invariant FileVectors.ListedBefore(L, j) <= |L.data|
      invariant j == |L.exts| ==> FileVectors.ListedBefore(L, j) == |L.data|
      invariant vol.Valid()
      invariant vol.V() == v.(free := v.free - (Elements(L.data[..FileVectors.ListedBefore(L, j)]) + Elements(L.exts[..j])))
      decreases |L.exts| - j
    {
      ExtPointers(v0, fhBlock, L, j);
      extBlockPtr := MarkExt(vol, extBlockPtr, fhBlock, v0, L, j);
      MoreElements(L.data, FileVectors.ListedBefore(L, j), FileVectors.ListedBefore(L, j + 1));
      OneMoreElement(L.exts, j);
      j := j + 1;
    }
    StoredChain(v0, fhBlock, L);
    FileVectors.AfterLast(v0, fhBlock, L, j);
    assert L.data[..|L.data|] == L.data && L.exts[..|L.exts|] == L.exts;
  }

  lemma NoElements(s: seq<int>)
    ensures Elements(s[..0]) == {}
  {
  }

  lemma OneMoreElement(s: seq<int>, j: nat)
    requires j < |s|
    ensures Elements(s[..j + 1]) == Elements(s[..j]) + {s[j]}
  {
    assert s[..j + 1] == s[..j] + [s[j]];
  }

  /** All sectors of an entry. */
  ghost function EntryBlocks(Ls: map<int, Layout>, s: int): set<int> {
    {s} + (if s in Ls then Ls[s].own.Keys else {})
  }

  /** All sectors of the entries of a listing, and of the listings in it. */
  ghost function ListBlocks(list: seq<Cell>, Ls: map<int, Layout>): set<int> {
    set s, x | s in Sectors(list) && x in EntryBlocks(Ls, s) :: x
  }

  lemma ListBlocksAppend(list: seq<Cell>, c: Cell, Ls: map<int, Layout>)
    ensures ListBlocks(list + [c], Ls) == ListBlocks(list, Ls) + EntryBlocks(Ls, c.sector) + ListBlocks(c.subdir, Ls)
  {
    hide Sectors, EntryBlocks;
    SectorsAppend(list, c);
    var all := ListBlocks(list + [c], Ls);
    var parts := ListBlocks(list, Ls) + EntryBlocks(Ls, c.sector) + ListBlocks(c.subdir, Ls);
    forall x ensures x in all <==> x in parts {
      if x in all {
        var s :| s in Sectors(list + [c]) && x in EntryBlocks(Ls, s);
        assert s in Sectors(list) || s == c.sector || s in Sectors(c.subdir);
      }
      if x in EntryBlocks(Ls, c.sector) {
        assert c.sector in Sectors(list + [c]);
      }
    }
  }

  lemma NoListBlocks(Ls: map<int, Layout>)
    ensures ListBlocks([], Ls) == {}
  {
  }

  /** What is known of a cell whose sectors are marked. */
  lemma CellFacts(v: Vol, F: Forest, intl: bool, Ls: map<int, Layout>, own: set<int>, list: seq<Cell>, i: nat)
    requires WholeOK(v, F, intl, Ls, own) && AllOnDisk(F, own) && Faithful(v, F, list) && i < |list|
    ensures var s := list[i].sector;
            && 2 <= s <= v.last && ReadEntry(v, s) == Some(NodeAt(v, s))
            && (list[i].secType == ST_FILE <==> s in Ls) && (s !in Ls ==> NodeAt(v, s).extension == 0)
            && (s in Ls ==> Stored(v, NodeAt(v, s), Ls[s]) && Ls[s].own.Keys == Elements(Ls[s].data) + Elements(Ls[s].exts) + {s})
            && Faithful(v, F, list[i].subdir)
  {
    hide Linked, Stored, EachOwned, InUse, UnlinkIn, Hash;
    var s := list[i].sector;
    WholeParts(v, F, intl, Ls, own);
    EntryFacts(v, F, intl, Ls, own, s);
    VolumeFrame.TreeBlockOnVolume(v, F, intl, s);
    TreeBlock(v, F, intl, s);
    if s in Ls {
      StoredOwnOK(v, NodeAt(v, s), Ls[s]);
      FileBlocks.OwnIsElements(Ls[s]);
    } else {
      LinkedDir(v, F, intl, s);
    }
  }

  lemma SameReadEntry(v: Vol, w: Vol, s: int)
    requires FileVectors.SameBlocks(v, w)
    ensures ReadEntry(v, s) == ReadEntry(w, s) && v.last == w.last
  {
  }

  /** One cell of a listing, without the listing in it. */
  method CellSetUsed(vol: AdfVolume, cell: Cell, ghost v0: Vol, ghost F: Forest, ghost Ls: map<int, Layout>, ghost own: set<int>,
                     ghost list: seq<Cell>, ghost i: nat)
    requires vol.Valid() && FileVectors.SameBlocks(vol.V(), v0) && WholeOK(v0, F, vol.intl, Ls, own) && AllOnDisk(F, own)
    requires Faithful(v0, F, list) && i < |list| && cell == list[i]
    modifies vol.Bits()
    ensures vol.Valid()
    ensures vol.V() == old(vol.V()).(free := old(vol.V()).free - EntryBlocks(Ls, cell.sector))
  {
    hide WholeOK, Stored, NodeAt, ReadEntry, Elements, Faithful;
    CellFacts(v0, F, vol.intl, Ls, own, list, i);
    vol.SetBlockUsed(cell.sector);
    SameReadEntry(vol.V(), v0, cell.sector);
    if cell.secType == ST_FILE {
      var fhBlock := ReadEntryBlock(vol, cell.sector);
      FileBlocksSetUsed(vol, fhBlock.value, v0, Ls[cell.sector]);
    } else {
      var dirBlock := ReadEntryBlock(vol, cell.sector);
      // The chain of cache blocks starts here, and it is empty.
      assert dirBlock.value.extension == 0;
    }
  }

  lemma SubdirFaithful(v: Vol, F: Forest, list: seq<Cell>, i: nat)
    requires Faithful(v, F, list) && i < |list|
    ensures Faithful(v, F, list[i].subdir)
  {
  }

  /** adfBitmapListSetUsed: all sectors of the entries of a listing are used. */
  method ListSetUsed(vol: AdfVolume, list: seq<Cell>, ghost v0: Vol, ghost F: Forest, ghost Ls: map<int, Layout>,
                     ghost own: set<int>)
    requires vol.Valid() && FileVectors.SameBlocks(vol.V(), v0) && WholeOK(v0, F, vol.intl, Ls, own) && AllOnDisk(F, own)
    requires Faithful(v0, F, list)
    modifies vol.Bits()
    ensures vol.Valid()
    ensures vol.V() == old(vol.V()).(free := old(vol.V()).free - ListBlocks(list, Ls))
    decreases list
  {
    hide WholeOK, Faithful, ListBlocks, EntryBlocks;
    ghost var v := vol.V();
    NoListBlocks(Ls);
    var i := 0;
    while i < |list|
      invariant 0 <= i <= |list| && vol.Valid()
      invariant vol.V() == v.(free := v.free - ListBlocks(list[..i], Ls))
    {
      SubdirFaithful(v0, F, list, i);
      CellSetUsed(vol, list[i], v0, F, Ls, own, list, i);
      if list[i].subdir != [] {
        ListSetUsed(vol, list[i].subdir, v0, F, Ls, own);
      } else {
        assert ListBlocks(list[i].subdir, Ls) == {};
      }
      ListBlocksAppend(list[..i], list[i], Ls);
      assert list[..i + 1] == list[..i] + [list[i]];
      i := i + 1;
    }
    assert list[..|list|] == list;
  }

  /* ---- the whole bitmap ---- */

  /** The sectors of the entries that the listing from the root does not come to. */
  ghost function LostBlocks(F: Forest, Ls: map<int, Layout>, depth: map<int, nat>): set<int> {
    set s, x | s in F.place && !Listed(F, depth, s) && x in EntryBlocks(Ls, s) :: x
  }

  /**
    What the rebuild calls free: every sector that no listed entry has and no bitmap page,
    except that the last one is not marked free where it was not.
  */
  ghost function Rebuilt(free: set<int>, v0: Vol, own: set<int>, pages: seq<int>, lost: set<int>): set<int> {
    set x | 2 <= x <= v0.last && (x < v0.last || x in free) && (x in v0.free || (x in own + lost && x !in pages))
  }

  /** The sectors of the listed entries are those of the other directories and of the files, but for the lost ones. */
  lemma AllEntryBlocks(v: Vol, F: Forest, intl: bool, Ls: map<int, Layout>, own: set<int>, depth: map<int, nat>, list: seq<Cell>)
    requires WholeOK(v, F, intl, Ls, own) && AllOnDisk(F, own) && Depths(F, v.root, depth)
    requires forall s :: s in Sectors(list) <==> Below(F, depth, s, v.root)
    ensures forall x :: x in ListBlocks(list, Ls) || x == v.root <==>
                        (x in F.chains || exists s :: s in Ls && x in Ls[s].own.Keys) && x !in LostBlocks(F, Ls, depth)
  {
    hide Linked, Stored, EachOwned, InUse, Below, ForestOK, Depths, EntryBlocks, Listed;
    WholeParts(v, F, intl, Ls, own);
    LinkedParts(v, F, intl);
    forall s ensures s in Sectors(list) <==> Listed(F, depth, s) {
      if Listed(F, depth, s) {
        AllBelowRoot(F, v.root, depth, s);
      } else {
        BelowIsListed(F, depth, s, v.root);
      }
    }
    hide Sectors;
    forall x ensures x in ListBlocks(list, Ls) || x == v.root <==>
                     (x in F.chains || exists s :: s in Ls && x in Ls[s].own.Keys) && x !in LostBlocks(F, Ls, depth)
    {
      BlockOfEntry(v, F, intl, Ls, own, x);
      if s :| s in F.place && x in EntryBlocks(Ls, s) {
        forall t | t in F.place && x in EntryBlocks(Ls, t) ensures t == s {
          OneEntry(v, F, intl, Ls, own, s, t, x);
        }
        ListedIsEntry(F, depth);
      } else {
        ListedIsEntry(F, depth);
      }
    }
  }

  lemma ListedIsEntry(F: Forest, depth: map<int, nat>)
    ensures forall s :: Listed(F, depth, s) ==> s in F.place
  {
  }

  lemma BelowIsListed(F: Forest, depth: map<int, nat>, s: int, d: int)
    requires !Listed(F, depth, s)
    ensures !Below(F, depth, s, d)
  {
  }

  /** A sector belongs to the tree exactly if it is the root or one of an entry. */
  lemma BlockOfEntry(v: Vol, F: Forest, intl: bool, Ls: map<int, Layout>, own: set<int>, x: int)
    requires WholeOK(v, F, intl, Ls, own) && AllOnDisk(F, own)
    ensures x in F.chains || (exists s :: s in Ls && x in Ls[s].own.Keys) <==>
            x == v.root || exists s :: s in F.place && x in EntryBlocks(Ls, s)
    ensures forall s :: s in F.place ==> v.root !in EntryBlocks(Ls, s)
  {
    hide Linked, Stored, EachOwned, InUse, ForestOK;
    WholeParts(v, F, intl, Ls, own);
    LinkedParts(v, F, intl);
    forall s | s in Ls ensures s in Ls[s].own.Keys && s in F.place {
      HeaderOwned(v, Ls[s]);
    }
    forall s | s in F.place ensures s != v.root {
      LinkedEntry(v, F, intl, s);
    }
    if x in F.chains && x != v.root {
      assert x in F.place && x in EntryBlocks(Ls, x);
    }
    if s :| s in Ls && x in Ls[s].own.Keys {
      assert s in F.place && x in EntryBlocks(Ls, s);
    }
  }

  /** No sector belongs to two entries. */
  lemma OneEntry(v: Vol, F: Forest, intl: bool, Ls: map<int, Layout>, own: set<int>, s: int, t: int, x: int)
    requires WholeOK(v, F, intl, Ls, own) && AllOnDisk(F, own) && s in F.place && t in F.place
    requires x in EntryBlocks(Ls, s) && x in EntryBlocks(Ls, t)
    ensures s == t
  {
    hide Linked, Stored, InUse;
    WholeParts(v, F, intl, Ls, own);
    forall u | u in Ls ensures u in Ls[u].own.Keys {
      HeaderOwned(v, Ls[u]);
    }
  }

  lemma RebuiltIs(v0: Vol, F: Forest, intl: bool, Ls: map<int, Layout>, own: set<int>, pages: seq<int>, lost: set<int>, free: set<int>,
                  marked: set<int>, w: Vol)
    requires WholeOK(v0, F, intl, Ls, own) && (forall p :: p in pages ==> p in own)
    requires forall x :: x in free ==> 2 <= x <= v0.last
    requires forall x :: x in marked || x == v0.root <==>
                         (x in F.chains || exists s :: s in Ls && x in Ls[s].own.Keys) && x !in lost
    requires forall x :: x in w.free <==>
               (2 <= x < v0.last || x in free) && x != v0.root && x !in pages && x !in marked
    requires forall x :: x in lost ==> x in F.chains || exists s :: s in Ls && x in Ls[s].own.Keys
    ensures w.free == Rebuilt(free, v0, own, pages, lost)
  {
    hide WholeOK, EntryBlocks;
    WholeParts(v0, F, intl, Ls, own);
    hide Linked, DirsOK, AllStored, Disjoint, EntriesFit, InUse;
    forall x ensures x in w.free <==> x in Rebuilt(free, v0, own, pages, lost) {
      OwnerOf(v0, F, intl, Ls, own, x);
    }
  }

  /** A sector is free, or one of the volume's own, exactly if the tree does not have it. */
  lemma OwnerOf(v: Vol, F: Forest, intl: bool, Ls: map<int, Layout>, own: set<int>, x: int)
    requires WholeOK(v, F, intl, Ls, own)
    ensures 2 <= x <= v.last ==>
              (x in v.free || x in own <==> !(x in F.chains || exists s :: s in Ls && x in Ls[s].own.Keys))
    ensures x in v.free ==> x !in own
  {
    hide TreeOK, FilesOK;
    assert forall d :: d in F.chains <==> d in F.chains.Keys;
  }

  /** All sectors but the last one are marked free. */
  method SetAllFree(vol: AdfVolume)
    requires vol.Valid()
    modifies vol.Bits()
    ensures vol.Valid() && vol.disk[..] == old(vol.disk[..])
    ensures forall x :: x in vol.Free() <==> 2 <= x < vol.Last() || x in old(vol.Free())
  {
    var i := 2;
    while i < vol.Last()
      invariant 2 <= i <= vol.Last() && vol.Valid() && vol.disk[..] == old(vol.disk[..])
      invariant forall x :: x in vol.Free() <==> 2 <= x < i || x in old(vol.Free())
    {
      vol.SetBlockFree(i);
      i := i + 1;
    }
  }

  /** The root block and the bitmap pages are used. */
  method MarkOwn(vol: AdfVolume, pages: seq<int>)
    requires vol.Valid() && forall p :: p in pages ==> vol.HasBit(p)
    modifies vol.Bits()
    ensures vol.Valid() && vol.disk[..] == old(vol.disk[..])
    ensures forall x :: x in vol.Free() <==> x in old(vol.Free()) && x != vol.rootBlock && x !in pages
  {
    vol.SetBlockUsed(vol.rootBlock);
    var i := 0;
    while i < |pages|
      invariant 0 <= i <= |pages| && vol.Valid() && vol.disk[..] == old(vol.disk[..])
      invariant forall x :: x in vol.Free() <==> x in old(vol.Free()) && x != vol.rootBlock && x !in pages[..i]
    {
      vol.SetBlockUsed(pages[i]);
      assert pages[..i + 1] == pages[..i] + [pages[i]];
      i := i + 1;
    }
    assert pages[..|pages|] == pages;
  }

  lemma SameBlocksWhole(v0: Vol, w: Vol, F: Forest, intl: bool, Ls: map<int, Layout>, own: set<int>)
    requires WholeOK(v0, F, intl, Ls, own) && FileVectors.SameBlocks(w, v0)
    ensures DirsOK(w, F, intl)
    ensures w.root == v0.root && w.last == v0.last
    ensures forall list :: Faithful(w, F, list) ==> Faithful(v0, F, list)
  {
    hide Linked, FilesOK, EachOwned, InUse;
    WholeParts(v0, F, intl, Ls, own);
    FreeIsApart(v0, F, intl, w.free);
    assert w == v0.(free := w.free);
    forall list | Faithful(w, F, list) ensures Faithful(v0, F, list) {
      SameFaithful(w, v0, F, list);
    }
  }

  lemma {:induction false} SameFaithful(v: Vol, w: Vol, F: Forest, list: seq<Cell>)
    requires Faithful(v, F, list) && (forall x :: NodeAt(w, x) == NodeAt(v, x))
    ensures Faithful(w, F, list)
    decreases list
  {
    hide NodeAt;
    forall i | 0 <= i < |list| ensures Faithful(w, F, list[i].subdir) {
      SameFaithful(v, w, F, list[i].subdir);
    }
  }

  /** A root directory without entries reaches nothing. */
  lemma EmptyRoot(v: Vol, F: Forest, intl: bool, depth: map<int, nat>)
    requires DirsOK(v, F, intl) && Depths(F, v.root, depth)
    requires forall h :: 0 <= h < HT_SIZE ==> NodeAt(v, v.root).slots[h] == 0
    ensures forall s :: s in Sectors([]) <==> Below(F, depth, s, v.root)
  {
    hide Linked, ForestOK, Below, Sectors;
    LinkedParts(v, F, intl);
    LinkedDir(v, F, intl, v.root);
    EmptyTable(v, F, intl, v.root);
    EmptySectors();
    EmptyHasNone(F, v.root);
    forall s ensures !Below(F, depth, s, v.root) {
      if Below(F, depth, s, v.root) {
        BelowVia(F, depth, s, v.root);
      }
    }
  }

  lemma EmptyHasNone(F: Forest, d: int)
    requires ForestOK(F) && d in F.chains && IsEmptyDir(F, d)
    ensures forall e :: e in F.place ==> F.place[e].dir != d
  {
    forall e | e in F.place ensures F.place[e].dir != d {
      assert HasPlace(F, e);
    }
  }

  /** The sectors that the tree has, but the listing from the root does not come to. */
  ghost function Unlisted(F: Forest, Ls: map<int, Layout>, root: int): set<int> {
    LostBlocks(F, Ls, DepthsOf(F, root))
  }

  lemma RootHasDepths(v: Vol, F: Forest, intl: bool, Ls: map<int, Layout>, own: set<int>)
    requires WholeOK(v, F, intl, Ls, own)
    ensures Depths(F, v.root, DepthsOf(F, v.root))
  {
    hide Linked, Depths, DepthsOf, ForestOK;
    WholeParts(v, F, intl, Ls, own);
    LinkedParts(v, F, intl);
    if v.root in F.place {
      LinkedEntry(v, F, intl, v.root);
    }
    DepthsOfAre(F, v.root);
  }

  /** In a tree that is not deeper than the limit everything is listed. */
  lemma ShallowTreeListed(v: Vol, F: Forest, intl: bool, Ls: map<int, Layout>, own: set<int>)
    requires WholeOK(v, F, intl, Ls, own) && IsTree(F)
    requires forall d :: d in DepthsOf(F, v.root) ==> DepthsOf(F, v.root)[d] <= 512
    ensures Unlisted(F, Ls, v.root) == {}
  {
    hide Linked, DepthsOf, ForestOK, Ranked, EntryBlocks, Depths;
    WholeParts(v, F, intl, Ls, own);
    LinkedParts(v, F, intl);
    RootHasDepths(v, F, intl, Ls, own);
    var rank :| Ranked(F, rank);
    forall s | s in F.place ensures Listed(F, DepthsOf(F, v.root), s) {
      LinkedEntry(v, F, intl, s);
      TreeHasDepth(F, v.root, DepthsOf(F, v.root), rank, F.place[s].dir);
    }
  }

  /** What the walk along the pointers leaves in the list of pages are blocks of the volume's own. */
  ghost predicate ListsOwn(pages: Option<seq<int>>, blocks: seq<int>, last: int, own: set<int>) {
    pages.Some? ==>
      && (forall x :: x in pages.value ==> x in own && 2 <= x <= last)
      && forall k :: |pages.value| <= k < |blocks| ==> blocks[k] in own && 2 <= blocks[k] <= last
  }

  /**
    adfReconstructBitmap: when the pages of the bitmap are found, then whatever the bitmap
    says, in the end exactly what neither the tree nor the list of pages reaches is free.
  */
  method ReconstructBitmap(vol: AdfVolume, root: Pointers, exts: map<int, Pointers>, blocks: array<int>, ghost n: nat, ghost v0: Vol,
                           ghost F: Forest, ghost Ls: map<int, Layout>, ghost own: set<int>)
    returns (rc: Rc)
    requires vol.Valid() && FileVectors.SameBlocks(vol.V(), v0)
    requires PointersOK(root, exts) && Ends(exts, root.next, n)
    requires ListsOwn(Found(root, exts, blocks.Length, vol.Last(), n), blocks[..], vol.Last(), own)
    requires WholeOK(v0, F, vol.intl, Ls, own) && AllOnDisk(F, own)
    modifies vol.Bits(), blocks
    ensures vol.Valid()
    ensures match Found(root, exts, blocks.Length, vol.Last(), n)
            case None => rc != RcOk && vol.V() == old(vol.V())
            case Some(p) =>
              && rc == RcOk && ListFilled(blocks, 0, p)
              && vol.V() == old(vol.V()).(free := Rebuilt(old(vol.Free()), v0, own, blocks[..], Unlisted(F, Ls, vol.rootBlock)))
  {
    hide Found, ListsOwn, WholeOK, AllOnDisk, Depths, FileVectors.SameBlocks, Rebuilt, AdfVolume.V;
    ghost var pages, was := Found(root, exts, blocks.Length, vol.Last(), n), blocks[..];
    forall i | 0 <= i < vol.blocksChg.Length {
      vol.blocksChg[i] := true;
    }
    rc := FindPages(root, exts, blocks, vol.Last(), n);
    if rc != RcOk {
      return;
    }
    OwnIsListed(pages, was, blocks[..], vol.Last(), own);
    SameRoot(vol, v0);
    RootHasDepths(v0, F, vol.intl, Ls, own);
    MarkAll(vol, blocks[..], v0, F, Ls, own, DepthsOf(F, vol.rootBlock));
  }

  lemma SameRoot(vol: AdfVolume, v0: Vol)
    requires vol.Valid() && FileVectors.SameBlocks(vol.V(), v0)
    ensures vol.rootBlock == v0.root
  {
  }

  lemma OwnIsListed(pages: Option<seq<int>>, was: seq<int>, blocks: seq<int>, last: int, own: set<int>)
    requires ListsOwn(pages, was, last, own) && pages.Some? && |pages.value| <= |blocks| == |was|
    requires forall i :: 0 <= i < |blocks| ==> blocks[i] == if i < |pages.value| then pages.value[i] else was[i]
    ensures forall x :: x in blocks ==> x in own && 2 <= x <= last
  {
    forall i | 0 <= i < |blocks| ensures blocks[i] in own && 2 <= blocks[i] <= last {
      if i < |pages.value| {
        assert pages.value[i] in pages.value;
      }
    }
  }

  /** A second rebuild walks along the same pointers, and changes nothing. */
  method ReconstructTwice(vol: AdfVolume, root: Pointers, exts: map<int, Pointers>, blocks: array<int>, ghost n: nat, ghost v0: Vol,
                          ghost F: Forest, ghost Ls: map<int, Layout>, ghost own: set<int>)
    returns (rc1: Rc, rc2: Rc, ghost first: Vol)
    requires vol.Valid() && FileVectors.SameBlocks(vol.V(), v0)
    requires PointersOK(root, exts) && Ends(exts, root.next, n)
    requires ListsOwn(Found(root, exts, blocks.Length, vol.Last(), n), blocks[..], vol.Last(), own)
    requires WholeOK(v0, F, vol.intl, Ls, own) && AllOnDisk(F, own)
    modifies vol.Bits(), blocks
    ensures vol.Valid() && rc2 == rc1 && vol.V() == first
    ensures rc1 == RcOk <==> Found(root, exts, blocks.Length, vol.Last(), n).Some?
    ensures rc1 == RcOk ==>
              first == old(vol.V()).(free := Rebuilt(old(vol.Free()), v0, own, blocks[..], Unlisted(F, Ls, vol.rootBlock)))
  {
    hide Found, WholeOK, AllOnDisk, FileVectors.SameBlocks, Rebuilt, Unlisted, ListsOwn;
    ghost var was, free, pages := blocks[..], vol.Free(), Found(root, exts, blocks.Length, vol.Last(), n);
    rc1 := ReconstructBitmap(vol, root, exts, blocks, n, v0, F, Ls, own);
    first := vol.V();
    rc2 := rc1;
    if rc1 == RcOk {
      ghost var listed := blocks[..];
      assert first.free == vol.Free();
      StillSameBlocks(old(vol.V()), first, v0);
      StillOwn(pages, was, listed, vol.Last(), own);
      rc2 := ReconstructBitmap(vol, root, exts, blocks, n, v0, F, Ls, own);
      assert blocks[..] == listed;
      RebuildIdempotent(free, v0, own, listed, Unlisted(F, Ls, vol.rootBlock));
    }
  }

  lemma StillSameBlocks(v: Vol, w: Vol, v0: Vol)
    requires FileVectors.SameBlocks(v, v0) && w == v.(free := w.free)
    ensures FileVectors.SameBlocks(w, v0)
  {
  }

  lemma StillOwn(pages: Option<seq<int>>, was: seq<int>, blocks: seq<int>, last: int, own: set<int>)
    requires ListsOwn(pages, was, last, own) && pages.Some? && |pages.value| <= |blocks| == |was|
    requires forall i :: 0 <= i < |blocks| ==> blocks[i] == if i < |pages.value| then pages.value[i] else was[i]
    ensures ListsOwn(pages, blocks, last, own)
  {
  }

  lemma LostInTree(v: Vol, F: Forest, intl: bool, Ls: map<int, Layout>, own: set<int>, depth: map<int, nat>)
    requires WholeOK(v, F, intl, Ls, own) && AllOnDisk(F, own)
    ensures forall x :: x in LostBlocks(F, Ls, depth) ==> x in F.chains || exists s :: s in Ls && x in Ls[s].own.Keys
  {
    hide WholeOK, Listed, EntryBlocks;
    forall x | x in LostBlocks(F, Ls, depth) ensures x in F.chains || exists s :: s in Ls && x in Ls[s].own.Keys {
      BlockOfEntry(v, F, intl, Ls, own, x);
    }
  }

  /** The second part of adfReconstructBitmap: everything but the last sector is free, then what is reached is not. */
  method MarkAll(vol: AdfVolume, pages: seq<int>, ghost v0: Vol, ghost F: Forest, ghost Ls: map<int, Layout>,
                 ghost own: set<int>, ghost depth: map<int, nat>)
    requires vol.Valid() && FileVectors.SameBlocks(vol.V(), v0)
    requires WholeOK(v0, F, vol.intl, Ls, own) && AllOnDisk(F, own) && Depths(F, vol.rootBlock, depth)
    requires forall p :: p in pages ==> p in own && vol.HasBit(p)
    modifies vol.Bits()
    ensures vol.Valid()
    ensures vol.V() == old(vol.V()).(free := Rebuilt(old(vol.Free()), v0, own, pages, LostBlocks(F, Ls, depth)))
  {
    hide WholeOK, DirsOK, Faithful, Sectors, Below, Depths, ListBlocks, Rebuilt, NodeAt, ReadEntry;
    ghost var v := vol.V();
    SetAllFree(vol);
    MarkOwn(vol, pages);
    ghost var u := vol.V();
    SameBlocksWhole(v0, u, F, vol.intl, Ls, own);
    RootKnown(u, F, vol.intl, depth);
    var rootDirBlock := ReadEntryBlock(vol, vol.rootBlock);
    var empty := IsDirEmpty(rootDirBlock.value);
    var entries := [];
    if empty {
      EmptyRoot(u, F, vol.intl, depth);
      NoListBlocks(Ls);
    } else {
      entries := GetRDirEnt(vol, vol.rootBlock, 0, F, depth);
      ListSetUsed(vol, entries, v0, F, Ls, own);
    }
    AllEntryBlocks(v0, F, vol.intl, Ls, own, depth, entries);
    LostInTree(v0, F, vol.intl, Ls, own, depth);
    RebuiltIs(v0, F, vol.intl, Ls, own, pages, LostBlocks(F, Ls, depth), v.free, ListBlocks(entries, Ls), vol.V());
  }

  lemma RootKnown(v: Vol, F: Forest, intl: bool, depth: map<int, nat>)
    requires DirsOK(v, F, intl) && Depths(F, v.root, depth)
    ensures ReadEntry(v, v.root) == Some(NodeAt(v, v.root))
    ensures v.root in F.chains && v.root in depth && depth[v.root] == 0
  {
    hide Linked;
    LinkedParts(v, F, intl);
    DirEntryReads(v, F, intl, v.root);
  }

  /* ---- what the rebuild is for ---- */

  /**
    On a bitmap that is right the rebuild changes nothing, if every block of the volume's
    own is a bitmap page, and everything is listed.
  */
  lemma RebuildKeepsConsistent(v: Vol, F: Forest, intl: bool, Ls: map<int, Layout>, own: set<int>, pages: seq<int>)
    requires WholeOK(v, F, intl, Ls, own) && (forall x :: x in own ==> x in pages) && Unlisted(F, Ls, v.root) == {}
    ensures Rebuilt(v.free, v, own, pages, Unlisted(F, Ls, v.root)) == v.free
  {
    hide Linked, FilesOK, EachOwned, Unlisted;
  }

  /** Rebuilding twice is rebuilding once. */
  lemma RebuildIdempotent(free: set<int>, v0: Vol, own: set<int>, pages: seq<int>, lost: set<int>)
    ensures Rebuilt(Rebuilt(free, v0, own, pages, lost), v0, own, pages, lost) == Rebuilt(free, v0, own, pages, lost)
  {
  }

  /**
    Exactly when the rebuild finds the free sectors of a volume, whatever the bitmap said
    before: the last sector must not be wrongly marked as used; and no block of the
    volume's own, such as a bitmap extension block, may be missing in the list of pages,
    and no entry may be too deep or out of reach to be listed, unless the sector is the
    last one and marked as used.
  */
  lemma RebuildExact(free: set<int>, v0: Vol, F: Forest, intl: bool, Ls: map<int, Layout>, own: set<int>, pages: seq<int>)
    requires WholeOK(v0, F, intl, Ls, own) && AllOnDisk(F, own) && forall x :: x in pages ==> x in own
    ensures Rebuilt(free, v0, own, pages, Unlisted(F, Ls, v0.root)) == v0.free <==>
            && (v0.last in v0.free ==> v0.last in free)
            && (forall x :: x in own && 2 <= x <= v0.last ==> x in pages || (x == v0.last && x !in free))
            && (forall x :: x in Unlisted(F, Ls, v0.root) ==> x == v0.last && x !in free)
  {
    hide Linked, FilesOK, Unlisted, EachOwned;
    var lost := Unlisted(F, Ls, v0.root);
    WholeParts(v0, F, intl, Ls, own);
    forall x | x in v0.free ensures x !in own {
      OwnerOf(v0, F, intl, Ls, own, x);
    }
    forall x | x in lost ensures 2 <= x <= v0.last && x !in v0.free && x !in own {
      LostInUse(v0, F, intl, Ls, own, x);
    }
    var r := Rebuilt(free, v0, own, pages, lost);
    forall x ensures x in r <==>
                     2 <= x <= v0.last && (x < v0.last || x in free) && (x in v0.free || (x in own + lost && x !in pages))
    {
    }
    if r == v0.free {
      assert v0.last in v0.free <==> v0.last in r;
      forall x | (x in own || x in lost) && 2 <= x <= v0.last ensures x in pages || (x == v0.last && x !in free) {
        assert x in r <==> x in v0.free;
      }
    }
  }

  /** A sector that the listing does not come to is in use, and not one of the volume's own. */
  lemma LostInUse(v: Vol, F: Forest, intl: bool, Ls: map<int, Layout>, own: set<int>, x: int)
    requires WholeOK(v, F, intl, Ls, own) && AllOnDisk(F, own) && x in Unlisted(F, Ls, v.root)
    ensures 2 <= x <= v.last && x !in v.free && x !in own
  {
    hide WholeOK, DepthsOf;
    LostInTree(v, F, intl, Ls, own, DepthsOf(F, v.root));
    OwnerOf(v, F, intl, Ls, own, x);
    InTreeOnVolume(v, F, intl, Ls, own, x);
  }

  lemma InTreeOnVolume(v: Vol, F: Forest, intl: bool, Ls: map<int, Layout>, own: set<int>, x: int)
    requires WholeOK(v, F, intl, Ls, own) && (x in F.chains || exists s :: s in Ls && x in Ls[s].own.Keys)
    ensures 2 <= x <= v.last
  {
    hide Linked, EachOwned, InUse;
    WholeParts(v, F, intl, Ls, own);
    if x in F.chains {
      VolumeFrame.TreeBlockOnVolume(v, F, intl, x);
    } else {
      var s :| s in Ls && x in Ls[s].own.Keys;
      assert Stored(v, NodeAt(v, s), Ls[s]);
    }
  }
}
