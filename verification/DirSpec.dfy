/**
  What creating, removing and renaming entries writes to the disk, as functions on
  values, and that the directories then list exactly what they should.
*/
module DirSpec {
  import opened Blocks
  import opened Names
  import opened FileInv
  import opened FileSpec
  import opened DirInv
  import opened DirLink

  /** A header, directory or root block; None if it cannot be read or is of another type. */
  function ReadEntry(v: Vol, s: int): Option<Node> {
    match ReadNode(v, s)
    case None => None
    case Some(n) => if n.typ == T_HEADER then Some(n) else None
  }

  /** adfWriteDirBlock and adfWriteRootBlock set these fields first. */
  function SealDir(n: Node): Node {
    n.(typ := T_HEADER, highSeq := 0, secType := ST_DIR)
  }

  function SealRoot(n: Node): Node {
    n.(typ := T_HEADER, headerKey := 0, highSeq := 0, firstData := 0, nextSameHash := 0, parent := 0, secType := ST_ROOT)
  }

  /** A block as it is written by the function for its type. */
  function Seal(n: Node): Node {
    if n.secType == ST_ROOT then SealRoot(n)
    else if n.secType == ST_DIR then SealDir(n)
    else SealHdr(n)
  }

  lemma SealSameLinks(v: Vol, F: Forest, intl: bool, x: int)
    requires Linked(v, F, intl) && (x in F.place || x in F.chains)
    ensures SameLinks(v, F, x, Seal(NodeAt(v, x)))
  {
    if x in F.place {
      LinkedEntry(v, F, intl, x);
    }
    if x in F.chains {
      LinkedDir(v, F, intl, x);
    }
    hide Linked;
  }

  /* ---- creating ---- */

  /** The writes of adfCreateEntry for an entry at sector `s`. */
  function AddEntry(v: Vol, F: Forest, d: int, h: nat, s: int): Vol
    requires h < HT_SIZE && d in F.chains && |F.chains[d]| == HT_SIZE
  {
    var w, x := LinkIn(v, F, d, h, s), LinkPoint(F, d, h);
    SetNode(w, x, Seal(NodeAt(w, x)))
  }

  lemma LinkPointKnown(F: Forest, d: int, h: nat)
    requires ForestOK(F) && d in F.chains && h < HT_SIZE
    ensures LinkPoint(F, d, h) == d || LinkPoint(F, d, h) in F.place
  {
    if F.chains[d][h] != [] {
      ChainPlaces(F, d, h, |F.chains[d][h]| - 1);
    }
  }

  /** Adding an entry whose block is on the disk. */
  lemma AddKeeps(v: Vol, F: Forest, intl: bool, d: int, h: nat, s: int)
    requires Linked(v, F, intl) && Ready(v, F, intl, d, h, s)
    ensures |F.chains[d]| == HT_SIZE
    ensures var v', F' := AddEntry(v, F, d, h, s), Link(F, d, h, s);
            && Linked(v', F', intl)
            && Listing(v', F', d) == Listing(v, F, d)[s := NameOf(v, s)]
            && (forall e :: e != d ==> Listing(v', F', e) == Listing(v, F, e))
            && OnlyAt(v, v', LinkPoint(F, d, h)) && v'.free == v.free
  {
    hide Linked, ForestOK, Listing, LinkIn, LinkPoint, UpperName, Seal, SameLinks;
    LinkedParts(v, F, intl);
    LinkedDir(v, F, intl, d);
    LinkKeeps(v, F, intl, d, h, s);
    LinkWrites(v, F, intl, d, h, s);
    LinkPointKnown(F, d, h);
    var w, F', x := LinkIn(v, F, d, h, s), Link(F, d, h, s), LinkPoint(F, d, h);
    SealSameLinks(w, F', intl, x);
    StoreKeeps(w, F', intl, x, Seal(NodeAt(w, x)));
  }

  /** Chains of a directory that has no entries. */
  function NoChains(): seq<seq<int>> {
    seq(HT_SIZE, _ => [])
  }

  /** The forest once sector `s` holds the block of a new entry. */
  function WithBlock(F: Forest, s: int, isDir: bool): Forest {
    if isDir then F.(chains := F.chains[s := NoChains()]) else F
  }

  /** The block of a new entry of directory `d`. */
  ghost predicate NewNode(n: Node, s: int, d: int, h: nat, isDir: bool, intl: bool) {
    && n.typ == T_HEADER && EntryNode(n, s, d, h, 0, isDir, intl)
    && (isDir ==> n.slots == NoSlots() && n.extension == 0 && n.highSeq == 0)
  }

  /** A sector that the directories do not use. */
  ghost predicate Unused(v: Vol, F: Forest, s: int) {
    s !in F.place && s !in F.chains && s != v.root && 2 <= s && OnDisk(v, s)
  }

  lemma NewForestOK(F: Forest, s: int)
    requires ForestOK(F) && s !in F.chains
    ensures ForestOK(WithBlock(F, s, true))
  {
    var F' := WithBlock(F, s, true);
    forall t | t in F'.place ensures HasPlace(F', t) {
      assert HasPlace(F, t);
    }
    forall d, h, i | d in F'.chains && 0 <= h < HT_SIZE && 0 <= i < |F'.chains[d][h]|
      ensures F'.chains[d][h][i] in F'.place && F'.place[F'.chains[d][h][i]] == Place(d, h, i)
    {
      ChainPlaces(F, d, h, i);
    }
  }

  /** A block written to an unused sector disturbs no directory. */
  lemma NewBlock(v: Vol, F: Forest, intl: bool, s: int, n: Node, isDir: bool)
    requires Linked(v, F, intl) && Unused(v, F, s) && n.typ == T_HEADER
    requires isDir ==> n.headerKey == s && n.secType == ST_DIR && n.slots == NoSlots() && n.extension == 0 && n.highSeq == 0
    ensures var v', F' := SetNode(v, s, n), WithBlock(F, s, isDir);
            && Linked(v', F', intl)
            && (forall e :: Listing(v', F', e) == Listing(v, F, e))
            && OnlyAt(v, v', s) && NodeAt(v', s) == n
  {
    StoreKeeps(v, F, intl, s, n);
    if isDir {
      var v', F' := SetNode(v, s, n), WithBlock(F, s, true);
      hide Linked, ForestOK, Distinct, DirOK, EntryOK, HasPlace, NameOf, SetNode;
      LinkedParts(v', F, intl);
      NewForestOK(F, s);
      StillDistinct(v', v', F, F', intl);
      forall d | d in F'.chains ensures |F'.chains[d]| == HT_SIZE && DirOK(v', F', d) {
        if d != s {
          LinkedDir(v', F, intl, d);
          SameDirOK(v', F, F', d);
        } else {
          EmptyDirOK(v', F', s, n);
        }
      }
      forall t | t in F'.place ensures HasPlace(F', t) && EntryOK(v', F', intl, t) {
        LinkedEntry(v', F, intl, t);
        SameEntryOK(v', F, intl, s, t);
      }
      Assembled(v', F', intl);
      forall e ensures Listing(v', F', e) == Listing(v', F, e) {
      }
    }
  }

  lemma SameDirOK(v: Vol, F: Forest, F': Forest, d: int)
    requires d in F.chains && |F.chains[d]| == HT_SIZE && DirOK(v, F, d)
    requires d in F'.chains && F'.chains[d] == F.chains[d]
    ensures DirOK(v, F', d)
  {
  }

  lemma EmptyDirOK(v: Vol, F: Forest, s: int, n: Node)
    requires s in F.chains && F.chains[s] == NoChains() && 2 <= s && IsNode(v, s) && NodeAt(v, s) == n && s != v.root
    requires n.headerKey == s && n.secType == ST_DIR && n.slots == NoSlots() && n.extension == 0 && n.highSeq == 0
    ensures DirOK(v, F, s)
  {
  }

  lemma SameEntryOK(v: Vol, F: Forest, intl: bool, s: int, t: int)
    requires s !in F.chains && s !in F.place && t in F.place && HasPlace(F, t) && EntryOK(v, F, intl, t)
    ensures var F' := WithBlock(F, s, true);
            HasPlace(F', t) && EntryOK(v, F', intl, t)
  {
    hide Hash, NodeAt;
  }

  /** Is the name new in the directory? */
  ghost predicate NewName(v: Vol, F: Forest, intl: bool, d: int, name: seq<byte>) {
    !HasName(Listing(v, F, d), intl, name)
  }

  lemma NewNameDiffers(v: Vol, F: Forest, intl: bool, d: int, name: seq<byte>, t: int)
    requires NewName(v, F, intl, d, name) && t in F.place && F.place[t].dir == d
    ensures UpperName(v, t, intl) != Upper(name, intl)
  {
    var m := Listing(v, F, d);
    assert t in m && m[t] == NameOf(v, t);
  }

  /** The volume once a new entry has been added and its block written. */
  function Created(v: Vol, F: Forest, d: int, s: int, n: Node, intl: bool): Vol
    requires d in F.chains && |F.chains[d]| == HT_SIZE
  {
    SetNode(AddEntry(v, F, d, Hash(n.name, intl), s), s, n)
  }

  /** The forest with a new entry. */
  function WithEntry(F: Forest, d: int, s: int, n: Node, isDir: bool, intl: bool): Forest
    requires d in F.chains && |F.chains[d]| == HT_SIZE && s != d
  {
    Link(WithBlock(F, s, isDir), d, Hash(n.name, intl), s)
  }

  lemma SetNodesCommute(v: Vol, x: int, m: Node, y: int, n: Node)
    requires x != y
    ensures SetNode(SetNode(v, x, m), y, n) == SetNode(SetNode(v, y, n), x, m)
    ensures NodeAt(SetNode(v, y, n), x) == NodeAt(v, x)
  {
    if OnDisk(v, x) && OnDisk(v, y) {
      assert v.disk[x := Meta(m)][y := Meta(n)] == v.disk[y := Meta(n)][x := Meta(m)];
    }
  }

  /** The block of the new entry may be written before or after the entry is linked. */
  lemma BlockFirst(v: Vol, F: Forest, d: int, h: nat, s: int, n: Node, isDir: bool)
    requires h < HT_SIZE && d in F.chains && |F.chains[d]| == HT_SIZE && s != d && s != LinkPoint(F, d, h)
    ensures SetNode(AddEntry(v, F, d, h, s), s, n) == AddEntry(SetNode(v, s, n), WithBlock(F, s, isDir), d, h, s)
  {
    var x := LinkPoint(F, d, h);
    var m := NodeAt(v, x);
    var m' := if F.chains[d][h] == [] then m.(slots := m.slots[h := s]) else m.(nextSameHash := s);
    var w := SetNode(v, x, m');
    assert LinkIn(v, F, d, h, s) == w;
    SetNodesCommute(v, x, m', s, n);
    assert LinkIn(SetNode(v, s, n), WithBlock(F, s, isDir), d, h, s) == SetNode(w, s, n);
    SetNodesCommute(w, x, Seal(NodeAt(w, x)), s, n);
  }

  /**
    Creating an entry with a new name keeps all chains and adds exactly one name to
    exactly one directory.
  */
  lemma CreateAdds(v: Vol, F: Forest, intl: bool, d: int, s: int, n: Node, isDir: bool)
    requires Linked(v, F, intl) && d in F.chains && Unused(v, F, s)
    requires NewNode(n, s, d, Hash(n.name, intl), isDir, intl) && NewName(v, F, intl, d, n.name)
    ensures |F.chains[d]| == HT_SIZE
    ensures var v', F' := Created(v, F, d, s, n, intl), WithEntry(F, d, s, n, isDir, intl);
            && Linked(v', F', intl)
            && Listing(v', F', d) == Listing(v, F, d)[s := n.name]
            && (forall e :: e != d ==> Listing(v', F', e) == Listing(v, F, e))
            && NodeAt(v', s) == n && v'.free == v.free
  {
    hide Linked, ForestOK, Listing, LinkIn, LinkPoint, AddEntry, SetNode, Hash, Upper, Link;
    LinkedParts(v, F, intl);
    LinkedDir(v, F, intl, d);
    NewBlock(v, F, intl, s, n, isDir);
    var h := Hash(n.name, intl);
    var v1, F1 := SetNode(v, s, n), WithBlock(F, s, isDir);
    forall t | t in F1.place && F1.place[t].dir == d ensures UpperName(v1, t, intl) != UpperName(v1, s, intl) {
      NewNameDiffers(v, F, intl, d, n.name, t);
    }
    AddKeeps(v1, F1, intl, d, h, s);
    LinkPointKnown(F, d, h);
    BlockFirst(v, F, d, h, s, n, isDir);
    AddedNode(v1, F1, intl, d, h, s);
    SetNodeFree(v, s, n);
  }

  lemma SetNodeFree(v: Vol, s: int, n: Node)
    ensures SetNode(v, s, n).free == v.free
  {
  }

  lemma AddedNode(v: Vol, F: Forest, intl: bool, d: int, h: nat, s: int)
    requires Linked(v, F, intl) && Ready(v, F, intl, d, h, s)
    ensures |F.chains[d]| == HT_SIZE
    ensures NodeAt(AddEntry(v, F, d, h, s), s) == NodeAt(v, s)
  {
    hide Linked, ForestOK;
    LinkedParts(v, F, intl);
    AddKeeps(v, F, intl, d, h, s);
    LinkPointKnown(F, d, h);
    hide AddEntry, LinkPoint, Link, Listing, Ready;
    assert s != d && s !in F.place by {
      ReadyFacts(v, F, intl, d, h, s);
    }
  }

  lemma ReadyFacts(v: Vol, F: Forest, intl: bool, d: int, h: nat, s: int)
    requires DirLink.Ready(v, F, intl, d, h, s)
    ensures s != d && s !in F.place
  {
  }

  /* ---- removing ---- */

  ghost predicate IsEmptyDir(F: Forest, s: int)
    requires s in F.chains
  {
    forall h :: 0 <= h < |F.chains[s]| ==> F.chains[s][h] == []
  }

  /** A hash table without pointers is that of a directory without entries. */
  lemma EmptyTable(v: Vol, F: Forest, intl: bool, s: int)
    requires Linked(v, F, intl) && s in F.chains
    ensures IsEmptyDir(F, s) <==> forall h :: 0 <= h < HT_SIZE ==> NodeAt(v, s).slots[h] == 0
  {
    hide Linked, ForestOK;
    LinkedParts(v, F, intl);
    LinkedDir(v, F, intl, s);
    forall h | 0 <= h < HT_SIZE && F.chains[s][h] != [] ensures NodeAt(v, s).slots[h] != 0 {
      ChainPlaces(F, s, h, 0);
      LinkedEntry(v, F, intl, F.chains[s][h][0]);
    }
  }

  /** The forest once entry `s` is gone. */
  function WithoutEntry(F: Forest, s: int): Forest
    requires s in F.place && HasPlace(F, s)
  {
    var G := Unlink(F, s);
    G.(chains := G.chains - {s})
  }

  lemma DropForest(F: Forest, s: int)
    requires ForestOK(F) && s !in F.place && (s in F.chains ==> IsEmptyDir(F, s))
    ensures ForestOK(F.(chains := F.chains - {s}))
  {
    var F' := F.(chains := F.chains - {s});
    forall t | t in F'.place ensures HasPlace(F', t) {
      assert HasPlace(F, t);
    }
    forall d, h, i | d in F'.chains && 0 <= h < HT_SIZE && 0 <= i < |F'.chains[d][h]|
      ensures F'.chains[d][h][i] in F'.place && F'.place[F'.chains[d][h][i]] == Place(d, h, i)
    {
      ChainPlaces(F, d, h, i);
    }
  }

  lemma DropDir(v: Vol, F: Forest, intl: bool, s: int)
    requires Linked(v, F, intl) && s !in F.place && s != v.root && (s in F.chains ==> IsEmptyDir(F, s))
    ensures var F' := F.(chains := F.chains - {s});
            Linked(v, F', intl) && forall e :: Listing(v, F', e) == Listing(v, F, e)
  {
    var F' := F.(chains := F.chains - {s});
    hide Linked, ForestOK, Distinct, DirOK, EntryOK, HasPlace, NameOf;
    LinkedParts(v, F, intl);
    DropForest(F, s);
    StillDistinct(v, v, F, F', intl);
    forall d | d in F'.chains ensures |F'.chains[d]| == HT_SIZE && DirOK(v, F', d) {
      LinkedDir(v, F, intl, d);
      SameDirOK(v, F, F', d);
    }
    forall t | t in F'.place ensures HasPlace(F', t) && EntryOK(v, F', intl, t) {
      LinkedEntry(v, F, intl, t);
      DroppedEntryOK(v, F, intl, s, t);
    }
    Assembled(v, F', intl);
    forall e ensures Listing(v, F', e) == Listing(v, F, e) {
    }
  }

  lemma DroppedEntryOK(v: Vol, F: Forest, intl: bool, s: int, t: int)
    requires t in F.place && HasPlace(F, t) && EntryOK(v, F, intl, t) && s != t
    requires s in F.chains && |F.chains[s]| == HT_SIZE ==> IsEmptyDir(F, s)
    ensures var F' := F.(chains := F.chains - {s});
            HasPlace(F', t) && EntryOK(v, F', intl, t)
  {
    hide Hash, NodeAt;
  }

  /** Removing an entry keeps all chains and takes exactly one name out of exactly one directory. */
  lemma RemoveTakes(v: Vol, F: Forest, intl: bool, s: int)
    requires Linked(v, F, intl) && s in F.place && (s in F.chains ==> IsEmptyDir(F, s))
    ensures HasPlace(F, s)
    ensures var v', F', d := UnlinkIn(v, F, s), WithoutEntry(F, s), F.place[s].dir;
            && Linked(v', F', intl) && s !in F'.place && s !in F'.chains
            && Listing(v', F', d) == Listing(v, F, d) - {s}
            && (forall e :: e != d ==> Listing(v', F', e) == Listing(v, F, e))
            && NodeAt(v', s) == NodeAt(v, s) && v'.free == v.free
  {
    hide Linked, Listing, UnlinkIn, UnlinkPoint;
    LinkedEntry(v, F, intl, s);
    UnlinkKeeps(v, F, intl, s);
    UnlinkWrites(v, F, intl, s);
    DropDir(UnlinkIn(v, F, s), Unlink(F, s), intl, s);
  }

  /* ---- renaming ---- */

  function Resealed(v: Vol, x: int): Vol {
    SetNode(v, x, Seal(NodeAt(v, x)))
  }

  lemma ResealKeeps(v: Vol, F: Forest, intl: bool, x: int)
    requires Linked(v, F, intl) && x in F.chains
    ensures var v' := Resealed(v, x);
            && Linked(v', F, intl) && (forall e :: Listing(v', F, e) == Listing(v, F, e))
            && OnlyAt(v, v', x) && v'.free == v.free
  {
    SealSameLinks(v, F, intl, x);
    StoreKeeps(v, F, intl, x, Seal(NodeAt(v, x)));
  }

  /** The block of an entry that moves to directory `d` under another name. */
  function Moved(n: Node, d: int, name: seq<byte>): Node {
    n.(name := name, parent := d, nextSameHash := 0)
  }

  /** The volume after the first half of adfRenameEntry: the entry is renamed, and out of its old chain. */
  function TakenOut(v: Vol, F: Forest, s: int, d: int, name: seq<byte>): Vol
    requires s in F.place && HasPlace(F, s)
  {
    Resealed(SetNode(UnlinkIn(v, F, s), s, Moved(NodeAt(v, s), d, name)), F.place[s].dir)
  }

  /** The volume after adfRenameEntry. */
  function Renamed(v: Vol, F: Forest, s: int, d: int, name: seq<byte>, intl: bool): Vol
    requires s in F.place && HasPlace(F, s)
    requires d in Unlink(F, s).chains && |Unlink(F, s).chains[d]| == HT_SIZE
  {
    Resealed(AddEntry(TakenOut(v, F, s, d, name), Unlink(F, s), d, Hash(name, intl), s), d)
  }

  function RenamedForest(F: Forest, s: int, d: int, name: seq<byte>, intl: bool): Forest
    requires s in F.place && HasPlace(F, s)
    requires d in Unlink(F, s).chains && |Unlink(F, s).chains[d]| == HT_SIZE
  {
    Link(Unlink(F, s), d, Hash(name, intl), s)
  }

  /** An entry that is in no chain may get another name and parent. */
  lemma RewriteKeeps(v: Vol, F: Forest, intl: bool, s: int, d: int, name: seq<byte>)
    requires Linked(v, F, intl) && s !in F.place && s != v.root && IsNode(v, s)
    ensures var n := Moved(NodeAt(v, s), d, name);
            var v' := SetNode(v, s, n);
            && Linked(v', F, intl) && (forall e :: Listing(v', F, e) == Listing(v, F, e))
            && OnlyAt(v, v', s) && NodeAt(v', s) == n && IsNode(v', s) && v'.free == v.free
  {
    StoreKeeps(v, F, intl, s, Moved(NodeAt(v, s), d, name));
  }

  lemma TakenOutKeeps(v: Vol, F: Forest, intl: bool, s: int, d: int, name: seq<byte>)
    requires Linked(v, F, intl) && s in F.place
    ensures HasPlace(F, s)
    ensures var v', G, p := TakenOut(v, F, s, d, name), Unlink(F, s), F.place[s];
            && Linked(v', G, intl) && s !in G.place && G.chains.Keys == F.chains.Keys
            && Listing(v', G, p.dir) == Listing(v, F, p.dir) - {s}
            && (forall e :: e != p.dir ==> Listing(v', G, e) == Listing(v, F, e))
            && NodeAt(v', s) == Moved(NodeAt(v, s), d, name) && IsNode(v', s)
            && v'.root == v.root && v'.free == v.free
  {
    hide Linked, Listing, UnlinkIn, UnlinkPoint, SetNode, Moved, Resealed, EntryNode;
    LinkedEntry(v, F, intl, s);
    UnlinkKeeps(v, F, intl, s);
    UnlinkWrites(v, F, intl, s);
    var u, G := UnlinkIn(v, F, s), Unlink(F, s);
    RewriteKeeps(u, G, intl, s, d, name);
    ResealKeeps(SetNode(u, s, Moved(NodeAt(v, s), d, name)), G, intl, F.place[s].dir);
  }

  /* ---- names, to the byte ---- */

  /** Block `s` has exactly the name; every other block has the one it had. */
  ghost predicate OnlyRenamed(v: Vol, s: int, name: seq<byte>, v': Vol) {
    NameOf(v', s) == name && forall x :: x != s ==> NameOf(v', x) == NameOf(v, x)
  }

  /** Every block has the name it had and, but for the root, the parent. */
  ghost predicate SameNames(v: Vol, v': Vol) {
    forall x :: NameOf(v', x) == NameOf(v, x) && SameParent(NodeAt(v, x), NodeAt(v', x))
  }

  predicate SameParent(n: Node, m: Node) {
    n.secType != ST_ROOT ==> m.secType != ST_ROOT && m.parent == n.parent
  }

  lemma WriteKeepsNames(v: Vol, x: int, n: Node)
    requires n.name == NameOf(v, x) && SameParent(NodeAt(v, x), n)
    ensures SameNames(v, SetNode(v, x, n))
  {
  }

  lemma ResealKeepsNames(v: Vol, x: int)
    ensures SameNames(v, Resealed(v, x))
  {
    WriteKeepsNames(v, x, Seal(NodeAt(v, x)));
    hide SetNode, NodeAt;
  }

  lemma AddKeepsNames(v: Vol, F: Forest, d: int, h: nat, s: int)
    requires h < HT_SIZE && d in F.chains && |F.chains[d]| == HT_SIZE
    ensures SameNames(v, AddEntry(v, F, d, h, s))
  {
    hide SetNode, Seal;
    var w, x := LinkIn(v, F, d, h, s), LinkPoint(F, d, h);
    if F.chains[d][h] == [] {
      WriteKeepsNames(v, d, NodeAt(v, d).(slots := NodeAt(v, d).slots[h := s]));
    } else {
      WriteKeepsNames(v, x, NodeAt(v, x).(nextSameHash := s));
    }
    ResealKeepsNames(w, x);
  }

  lemma UnlinkKeepsNames(v: Vol, F: Forest, s: int)
    requires s in F.place && HasPlace(F, s)
    ensures SameNames(v, UnlinkIn(v, F, s))
  {
    hide SetNode;
    var p, next := F.place[s], NodeAt(v, s).nextSameHash;
    if p.idx == 0 {
      WriteKeepsNames(v, p.dir, NodeAt(v, p.dir).(slots := NodeAt(v, p.dir).slots[p.bucket := next]));
    } else {
      var b := F.chains[p.dir][p.bucket][p.idx - 1];
      WriteKeepsNames(v, b, NodeAt(v, b).(nextSameHash := next));
    }
  }

  lemma TakenOutNames(v: Vol, F: Forest, intl: bool, s: int, d: int, name: seq<byte>)
    requires Linked(v, F, intl) && s in F.place
    ensures HasPlace(F, s)
    ensures var n := NodeAt(TakenOut(v, F, s, d, name), s);
            OnlyRenamed(v, s, name, TakenOut(v, F, s, d, name)) && n.parent == d && n.secType != ST_ROOT
  {
    hide Linked, UnlinkIn, Resealed, Listing, UnlinkPoint;
    LinkedEntry(v, F, intl, s);
    UnlinkWrites(v, F, intl, s);
    UnlinkKeepsNames(v, F, s);
    TakenOutKeeps(v, F, intl, s, d, name);
    var u := UnlinkIn(v, F, s);
    SetNodeOnly(u, s, Moved(NodeAt(v, s), d, name));
    ResealKeepsNames(SetNode(u, s, Moved(NodeAt(v, s), d, name)), F.place[s].dir);
    hide SetNode, NodeAt;
  }

  lemma UnlinkedTable(F: Forest, s: int, d: int)
    requires ForestOK(F) && s in F.place && HasPlace(F, s) && d in F.chains
    ensures d in Unlink(F, s).chains && |Unlink(F, s).chains[d]| == HT_SIZE
  {
  }

  lemma RenamedNames(v: Vol, F: Forest, intl: bool, s: int, d: int, name: seq<byte>)
    requires Linked(v, F, intl) && s in F.place && d in Unlink(F, s).chains && |Unlink(F, s).chains[d]| == HT_SIZE
    ensures HasPlace(F, s)
    ensures OnlyRenamed(v, s, name, Renamed(v, F, s, d, name, intl)) && NodeAt(Renamed(v, F, s, d, name, intl), s).parent == d
  {
    hide Linked, TakenOut, AddEntry, Resealed, Hash, Unlink, NameOf, NodeAt;
    LinkedEntry(v, F, intl, s);
    TakenOutNames(v, F, intl, s, d, name);
    var w, h := TakenOut(v, F, s, d, name), Hash(name, intl);
    AddKeepsNames(w, Unlink(F, s), d, h, s);
    ResealKeepsNames(AddEntry(w, Unlink(F, s), d, h, s), d);
  }

  /** Does another entry of the directory have the new name? */
  ghost predicate Taken(v: Vol, F: Forest, intl: bool, d: int, name: seq<byte>, s: int) {
    HasName(Listing(v, F, d) - {s}, intl, name)
  }

  /** What a directory lists after a rename. */
  ghost function RenamedListing(v: Vol, F: Forest, s: int, d: int, name: seq<byte>, e: int): map<int, seq<byte>>
    requires s in F.place
  {
    var m := if e == F.place[s].dir then Listing(v, F, e) - {s} else Listing(v, F, e);
    if e == d then m[s := name] else m
  }

  lemma WithoutForeign(v: Vol, F: Forest, intl: bool, s: int, d: int)
    requires s in F.place && F.place[s].dir != d
    ensures Listing(v, F, d) - {s} == Listing(v, F, d)
  {
  }

  /** The entry that was taken out is ready for the directory it moves to. */
  lemma ReadyToMove(v: Vol, F: Forest, intl: bool, s: int, d: int, name: seq<byte>)
    requires Linked(v, F, intl) && s in F.place && d in F.chains && d != s && |name| <= MAX_NAME_LEN
    requires !Taken(v, F, intl, d, name, s)
    ensures HasPlace(F, s)
    ensures Ready(TakenOut(v, F, s, d, name), Unlink(F, s), intl, d, Hash(name, intl), s)
    ensures NameOf(TakenOut(v, F, s, d, name), s) == name
  {
    hide Linked, Listing, TakenOut, Upper, Hash, IsNode;
    LinkedEntry(v, F, intl, s);
    TakenOutKeeps(v, F, intl, s, d, name);
    if F.place[s].dir != d {
      WithoutForeign(v, F, intl, s, d);
    }
    var w, G := TakenOut(v, F, s, d, name), Unlink(F, s);
    forall t | t in G.place && G.place[t].dir == d ensures UpperName(w, t, intl) != UpperName(w, s, intl) {
      NewNameDiffers(w, G, intl, d, name, t);
    }
  }

  /**
    Renaming or moving an entry, when no other entry of the target has the new name, keeps
    all chains, takes exactly the old name out of the old directory and adds exactly the
    new one, to the byte, to the target, for the same sector.
  */
  lemma RenameMoves(v: Vol, F: Forest, intl: bool, s: int, d: int, name: seq<byte>)
    requires Linked(v, F, intl) && s in F.place && d in F.chains && d != s && |name| <= MAX_NAME_LEN
    requires !Taken(v, F, intl, d, name, s)
    ensures HasPlace(F, s) && d in Unlink(F, s).chains && |Unlink(F, s).chains[d]| == HT_SIZE
    ensures var v', F' := Renamed(v, F, s, d, name, intl), RenamedForest(F, s, d, name, intl);
            && Linked(v', F', intl)
            && F'.place.Keys == F.place.Keys && F'.chains.Keys == F.chains.Keys
            && (forall e :: Listing(v', F', e) == RenamedListing(v, F, s, d, name, e))
            && OnlyRenamed(v, s, name, v')
            && v'.free == v.free && v'.root == v.root
  {
    hide Linked, Listing, TakenOut, Upper, Hash, AddEntry, Resealed, Ready, IsNode, OnlyRenamed;
    LinkedEntry(v, F, intl, s);
    TakenOutKeeps(v, F, intl, s, d, name);
    ReadyToMove(v, F, intl, s, d, name);
    var w, G, h := TakenOut(v, F, s, d, name), Unlink(F, s), Hash(name, intl);
    LinkedDir(w, G, intl, d);
    AddKeeps(w, G, intl, d, h, s);
    RenamedNames(v, F, intl, s, d, name);
    var F' := Link(G, d, h, s);
    ResealKeeps(AddEntry(w, G, d, h, s), F', intl, d);
    assert F'.place.Keys == F.place.Keys;
  }

  /** Every directory is still an entry, or the root. */
  lemma RenameKeepsDirs(v: Vol, F: Forest, intl: bool, s: int, d: int, name: seq<byte>)
    requires DirsOK(v, F, intl) && s in F.place && d in F.chains && d != s && |name| <= MAX_NAME_LEN
    requires !Taken(v, F, intl, d, name, s)
    ensures HasPlace(F, s) && d in Unlink(F, s).chains && |Unlink(F, s).chains[d]| == HT_SIZE
    ensures DirsOK(Renamed(v, F, s, d, name, intl), RenamedForest(F, s, d, name, intl), intl)
  {
    hide Linked, Renamed, RenamedForest;
    RenameMoves(v, F, intl, s, d, name);
  }
}
