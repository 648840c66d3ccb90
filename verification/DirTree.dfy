/**
  When the directories of a volume are one tree. The invariant of the directories alone
  allows a directory to be, through others, in itself; moving a directory is what can
  make it so, and exactly then if the target is below it.
*/
module DirTree {
  import opened Blocks
  import opened Names
  import opened FileInv
  import opened FileSpec
  import opened FileBlocks
  import FileRuns
  import opened DirInv
  import opened DirLink
  import opened DirSpec
  import opened Dir
  import opened DirLost
  import opened DirChange
  import opened VolumeInv
  import opened VolumeOps
  import opened VolumeFrame
  import opened Mounted
  import opened VolumeRuns

  /** Every directory that is an entry has a higher rank than the directory it is in. */
  ghost predicate Ranked(F: Forest, rank: map<int, nat>) {
    && (forall d :: d in F.chains ==> d in rank)
    && forall d :: d in F.chains && d in F.place ==> F.place[d].dir in rank && rank[F.place[d].dir] < rank[d]
  }

  /** No directory is, directly or through others, in itself. */
  ghost predicate IsTree(F: Forest) {
    exists rank :: Ranked(F, rank)
  }

  /** Each sector of the path is an entry of the next one. */
  ghost predicate Path(F: Forest, path: seq<int>) {
    path != [] && forall i :: 0 <= i < |path| - 1 ==> path[i] in F.place && F.place[path[i]].dir == path[i + 1]
  }

  /** `d` is `s`, or in `s` directly or through other directories. */
  ghost predicate Inside(F: Forest, d: int, s: int) {
    exists path :: Path(F, path) && path[0] == d && path[|path| - 1] == s
  }

  lemma InsideParent(F: Forest, d: int, s: int)
    requires d in F.place && d != s
    ensures Inside(F, d, s) <==> Inside(F, F.place[d].dir, s)
  {
    var p := F.place[d].dir;
    if Inside(F, d, s) {
      var path :| Path(F, path) && path[0] == d && path[|path| - 1] == s;
      assert Path(F, path[1..]) && path[1..][0] == p;
    }
    if Inside(F, p, s) {
      var path :| Path(F, path) && path[0] == p && path[|path| - 1] == s;
      var longer := [d] + path;
      forall i | 0 <= i < |longer| - 1 ensures longer[i] in F.place && F.place[longer[i]].dir == longer[i + 1] {
        if i > 0 {
          assert longer[i] == path[i - 1];
        }
      }
      assert Path(F, longer) && longer[0] == d && longer[|longer| - 1] == s;
    }
  }

  lemma InsideItself(F: Forest, s: int)
    ensures Inside(F, s, s)
  {
    assert Path(F, [s]) && [s][0] == s;
  }

  /* ---- moving ---- */

  /** `F'` has the directories of `F`, each where it is, but entry `s` in directory `d`. */
  ghost predicate MovedTo(F: Forest, F': Forest, s: int, d: int) {
    && F'.chains.Keys == F.chains.Keys && F'.place.Keys == F.place.Keys
    && s in F.place && F'.place[s].dir == d
    && forall x :: x in F.place && x != s ==> F'.place[x].dir == F.place[x].dir
  }

  lemma RenamedIsMoved(F: Forest, s: int, d: int, name: seq<byte>, intl: bool)
    requires s in F.place && HasPlace(F, s)
    requires d in Unlink(F, s).chains && |Unlink(F, s).chains[d]| == HT_SIZE
    ensures MovedTo(F, RenamedForest(F, s, d, name, intl), s, d)
  {
    hide Hash;
  }

  /** The rank of the moved directory, and of all below it, is raised above that of the target. */
  ghost function Raised(F: Forest, rank: map<int, nat>, s: int, d: int): map<int, nat>
    requires d in rank
  {
    map x | x in rank :: if Inside(F, x, s) then rank[x] + rank[d] + 1 else rank[x]
  }

  lemma RaisedIsRank(F: Forest, F': Forest, rank: map<int, nat>, s: int, d: int)
    requires Ranked(F, rank) && MovedTo(F, F', s, d) && d in F.chains && !Inside(F, d, s)
    ensures Ranked(F', Raised(F, rank, s, d))
  {
    hide Inside;
    InsideItself(F, s);
    forall x | x in F'.chains && x in F'.place
      ensures F'.place[x].dir in rank
      ensures Raised(F, rank, s, d)[F'.place[x].dir] < Raised(F, rank, s, d)[x]
    {
      if x != s {
        InsideParent(F, x, s);
      }
    }
  }

  /** Along a path that ends at `s`, and that the move leaves alone, no rank is lower than that of `s`. */
  lemma {:induction false} RankOfPath(F: Forest, F': Forest, rank: map<int, nat>, s: int, d: int, path: seq<int>)
    requires ForestOK(F) && MovedTo(F, F', s, d) && Ranked(F', rank)
    requires Path(F, path) && path[|path| - 1] == s && path[0] in F.chains
    ensures s in F.chains && path[0] in rank && s in rank && rank[path[0]] >= rank[s]
    decreases |path|
  {
    if path[0] != s {
      assert HasPlace(F, path[0]) && path[0] in F.place;
      assert path[1..][0] == F.place[path[0]].dir;
      RankOfPath(F, F', rank, s, d, path[1..]);
    }
  }

  /** Moving an entry leaves a tree exactly if the target is not the entry or below it. */
  lemma MoveKeepsTree(F: Forest, F': Forest, s: int, d: int)
    requires ForestOK(F) && IsTree(F) && MovedTo(F, F', s, d) && d in F.chains
    ensures IsTree(F') <==> !Inside(F, d, s)
  {
    hide Ranked, Inside;
    if !Inside(F, d, s) {
      var rank :| Ranked(F, rank);
      assert d in rank by { RankedHas(F, rank, d); }
      RaisedIsRank(F, F', rank, s, d);
    } else if IsTree(F') {
      var rank :| Ranked(F', rank);
      NoRank(F, F', rank, s, d);
    }
  }

  lemma RankedHas(F: Forest, rank: map<int, nat>, d: int)
    requires Ranked(F, rank) && d in F.chains
    ensures d in rank
  {
  }

  lemma NoRank(F: Forest, F': Forest, rank: map<int, nat>, s: int, d: int)
    requires ForestOK(F) && MovedTo(F, F', s, d) && d in F.chains && Inside(F, d, s)
    ensures !Ranked(F', rank)
  {
    if Ranked(F', rank) {
      var path :| Path(F, path) && path[0] == d && path[|path| - 1] == s;
      RankOfPath(F, F', rank, s, d, path);
      assert false;
    }
  }

  /* ---- into itself ---- */

  /** The directories and entries that are not directory `s` and not in it, directly or through others. */
  ghost function Outside(F: Forest, s: int): Forest {
    Forest(map d | d in F.chains && !Inside(F, d, s) :: F.chains[d],
           map x | x in F.place && !Inside(F, x, s) :: F.place[x])
  }

  /** An entry is outside of `s` exactly if its directory is, when `s` is no entry itself. */
  lemma OutsideWithDir(F: Forest, s: int, x: int)
    requires ForestOK(F) && s !in F.place && x in F.place
    ensures HasPlace(F, x) && (x in Outside(F, s).place <==> F.place[x].dir in Outside(F, s).chains)
  {
    InsideParent(F, x, s);
    hide Inside;
  }

  /** All that is outside of `s` can be walked without coming to `s`. */
  lemma OutsideLinked(v: Vol, F: Forest, intl: bool, s: int)
    requires Linked(v, F, intl) && s !in F.place && s != v.root
    ensures Linked(v, Outside(F, s), intl)
    ensures forall d :: d in Outside(F, s).chains ==> Listing(v, Outside(F, s), d) == Listing(v, F, d)
  {
    hide Linked, ForestOK, Distinct, DirOK, EntryOK, HasPlace, Inside, UpperName, Outside;
    var G := Outside(F, s);
    LinkedParts(v, F, intl);
    OutsideForest(F, s);
    RootOutside(v, F, intl, s);
    forall d | d in G.chains ensures |G.chains[d]| == HT_SIZE && DirOK(v, G, d) {
      OutsideIs(F, s, d);
      LinkedDir(v, F, intl, d);
      SameDirOK(v, F, G, d);
    }
    forall x | x in G.place ensures x in F.place && G.place[x] == F.place[x] && HasPlace(G, x) && EntryOK(v, G, intl, x) {
      OutsideIs(F, s, x);
      LinkedEntry(v, F, intl, x);
      OutsideEntry(v, F, intl, s, x);
    }
    StillDistinct(v, v, F, G, intl);
    Assembled(v, G, intl);
    forall d | d in G.chains ensures Listing(v, G, d) == Listing(v, F, d) {
      OutsideListing(v, F, s, d);
    }
  }

  lemma OutsideIs(F: Forest, s: int, x: int)
    ensures var G := Outside(F, s);
            && (x in G.chains <==> x in F.chains && !Inside(F, x, s)) && (x in G.chains ==> G.chains[x] == F.chains[x])
            && (x in G.place <==> x in F.place && !Inside(F, x, s)) && (x in G.place ==> G.place[x] == F.place[x])
  {
    hide Inside;
  }

  lemma OutsideForest(F: Forest, s: int)
    requires ForestOK(F) && s !in F.place
    ensures ForestOK(Outside(F, s))
    ensures forall x :: x in Outside(F, s).place ==> HasPlace(Outside(F, s), x)
  {
    hide Outside, Inside;
    var G := Outside(F, s);
    forall d | d in G.chains ensures |G.chains[d]| == HT_SIZE {
      OutsideIs(F, s, d);
    }
    forall d, h, i | d in G.chains && 0 <= h < HT_SIZE && 0 <= i < |G.chains[d][h]|
      ensures G.chains[d][h][i] in G.place && G.place[G.chains[d][h][i]] == Place(d, h, i)
    {
      OutsideIs(F, s, d);
      ChainPlaces(F, d, h, i);
      OutsideWithDir(F, s, G.chains[d][h][i]);
      OutsideIs(F, s, G.chains[d][h][i]);
    }
    forall x | x in G.place ensures HasPlace(G, x) {
      OutsideIs(F, s, x);
      OutsideWithDir(F, s, x);
      OutsideIs(F, s, F.place[x].dir);
    }
  }

  lemma RootOutside(v: Vol, F: Forest, intl: bool, s: int)
    requires Linked(v, F, intl) && s != v.root
    ensures v.root in Outside(F, s).chains
  {
    assert v.root !in F.place by {
      if v.root in F.place {
        LinkedEntry(v, F, intl, v.root);
      }
    }
    forall path: seq<int> ensures !(Path(F, path) && path[0] == v.root && path[|path| - 1] == s) {
    }
    hide Linked;
  }

  lemma OutsideEntry(v: Vol, F: Forest, intl: bool, s: int, x: int)
    requires ForestOK(F) && x in F.place && HasPlace(F, x) && EntryOK(v, F, intl, x) && s !in F.place
    requires x in Outside(F, s).place && HasPlace(Outside(F, s), x)
    ensures EntryOK(v, Outside(F, s), intl, x)
  {
    hide Outside, Inside, ForestOK, Hash;
    OutsideIs(F, s, x);
    OutsideWithDir(F, s, x);
    OutsideIs(F, s, F.place[x].dir);
  }

  lemma OutsideListing(v: Vol, F: Forest, s: int, d: int)
    requires ForestOK(F) && s !in F.place && d in Outside(F, s).chains
    ensures Listing(v, Outside(F, s), d) == Listing(v, F, d)
  {
    hide Outside, Inside, UpperName;
    forall x ensures x in Outside(F, s).place && Outside(F, s).place[x].dir == d <==> x in F.place && F.place[x].dir == d {
      OutsideIs(F, s, x);
      if x in F.place {
        OutsideWithDir(F, s, x);
      }
    }
    forall x | x in Listing(v, F, d) ensures Listing(v, Outside(F, s), d)[x] == Listing(v, F, d)[x] {
    }
  }

  /** Rewriting a block that no directory has changes no chain. */
  lemma StoreOutside(v: Vol, F: Forest, intl: bool, x: int, n: Node)
    requires Linked(v, F, intl) && x !in F.place && x !in F.chains && OnDisk(v, x)
    ensures var v' := SetNode(v, x, Seal(n));
            Linked(v', F, intl) && forall e :: Listing(v', F, e) == Listing(v, F, e)
  {
    hide Linked;
    StoreKeeps(v, F, intl, x, Seal(n));
  }

  /**
    A directory that is moved into itself is lost with all that is in it; the rest can still
    be walked, and its directories list what they did, but for the one that was moved.
  */
  lemma MoveIntoItself(v: Vol, F: Forest, intl: bool, s: int, name: seq<byte>)
    requires Linked(v, F, intl) && s in F.place && s in F.chains
    ensures HasPlace(F, s) && s in Unlink(F, s).chains && |Unlink(F, s).chains[s]| == HT_SIZE
    ensures var v', rest := Renamed(v, F, s, s, name, intl), Outside(Unlink(F, s), s);
            && Lost(v', intl, s)
            && Linked(v', rest, intl) && v.root in rest.chains
            && (forall d :: d in rest.chains ==>
                  Listing(v', rest, d) == if d == F.place[s].dir then Listing(v, F, d) - {s} else Listing(v, F, d))
  {
    hide Linked, TakenOut, Unlink, Hash, AddEntry, Resealed, Lost, Inside, Listing, LinkPoint, Outside, Moved;
    LinkedEntry(v, F, intl, s);
    IntoItself(v, F, intl, s, name);
    TakenOutKeeps(v, F, intl, s, s, name);
    var w, G, h := TakenOut(v, F, s, s, name), Unlink(F, s), Hash(name, intl);
    var rest := Outside(G, s);
    LinkedParts(w, G, intl);
    OutsideLinked(w, G, intl, s);
    RootOutside(w, G, intl, s);
    InsideItself(G, s);
    TailFacts(w, G, intl, s, h);
    var x := LinkPoint(G, s, h);
    var n := if G.chains[s][h] == [] then NodeAt(w, x).(slots := NodeAt(w, x).slots[h := s]) else NodeAt(w, x).(nextSameHash := s);
    AddEntryIs(w, G, s, h, s, n);
    LinkPointInside(G, s, h);
    OutsideIs(G, s, x);
    OutsideIs(G, s, s);
    StoreOutside(w, rest, intl, x, n);
    var u := AddEntry(w, G, s, h, s);
    StoreOutside(u, rest, intl, s, NodeAt(u, s));
    ResealedIs(u, s);
  }

  lemma ResealedIs(v: Vol, x: int)
    ensures Resealed(v, x) == SetNode(v, x, Seal(NodeAt(v, x)))
  {
  }

  lemma LinkPointInside(F: Forest, s: int, h: nat)
    requires ForestOK(F) && s in F.chains && h < HT_SIZE
    ensures Inside(F, LinkPoint(F, s, h), s)
  {
    InsideItself(F, s);
    if F.chains[s][h] != [] {
      var x := LinkPoint(F, s, h);
      ChainPlaces(F, s, h, |F.chains[s][h]| - 1);
      if x != s {
        InsideParent(F, x, s);
      }
    }
    hide Inside;
  }

  /* ---- the other operations ---- */

  lemma CreateKeepsTree(F: Forest, d: int, s: int, n: Node, isDir: bool, intl: bool)
    requires ForestOK(F) && IsTree(F) && d in F.chains && |F.chains[d]| == HT_SIZE && s != d && s !in F.chains && s !in F.place
    ensures IsTree(WithEntry(F, d, s, n, isDir, intl))
  {
    hide Hash;
    var rank :| Ranked(F, rank);
    var F' := WithEntry(F, d, s, n, isDir, intl);
    forall x | x in F.place ensures F.place[x].dir != s {
      assert HasPlace(F, x);
    }
    assert forall x :: x in F.place ==> F'.place[x].dir == F.place[x].dir;
    assert Ranked(F', rank[s := rank[d] + 1]);
  }

  lemma RemoveKeepsTree(F: Forest, s: int)
    requires IsTree(F) && s in F.place && HasPlace(F, s)
    ensures IsTree(WithoutEntry(F, s))
  {
    var rank :| Ranked(F, rank);
    assert Ranked(WithoutEntry(F, s), rank);
  }

  /* ---- runs ---- */

  /** The operation does not move a directory below itself. */
  ghost predicate Upright(k: Disk, intl: bool, op: VolumeOp) {
    match op
    case Rename(d, name, newDir, newName) =>
      var s := EntryNamed(k.v, k.F, intl, d, name);
      s in k.F.place && newDir in k.F.chains && |newName| <= MAX_NAME_LEN && !(d == newDir && name == newName) ==>
        !Inside(k.F, newDir, s)
    case _ => true
  }

  lemma RenameStepTree(k: Disk, intl: bool, Ls: map<int, Layout>, own: set<int>, op: VolumeOp)
    requires DiskOK(k, intl, Ls, own) && IsTree(k.F) && op.Rename?
    ensures IsTree(Step(k, intl, op).F) <==> Upright(k, intl, op)
  {
    hide DiskOK, Linked, HasPlace, EntryNamed, Renamed, RenamedForest, Step, ForestOK, Unlink, IsTree, Inside, FileRuns.OneOwner,
         FileRuns.FileOK, Current, InUse;
    NameMeans(k, intl, Ls, own, op.d, op.name);
    RenameApplies(k, intl, op.d, op.name, op.newDir, op.newName);
    DiskParts(k, intl, Ls, own);
    var s := EntryNamed(k.v, k.F, intl, op.d, op.name);
    if s in k.F.place {
      UnlinkDirs(k.F, s);
      if op.newDir in k.F.chains && |op.newName| <= MAX_NAME_LEN && !(op.d == op.newDir && op.name == op.newName) {
        UnlinkedTable(k.F, s, op.newDir);
        RenamedIsMoved(k.F, s, op.newDir, op.newName, intl);
        MoveKeepsTree(k.F, RenamedForest(k.F, s, op.newDir, op.newName, intl), s, op.newDir);
      }
    }
  }

  lemma MakeStepTree(k: Disk, intl: bool, Ls: map<int, Layout>, own: set<int>, d: int, name: seq<byte>, isDir: bool)
    requires DiskOK(k, intl, Ls, own) && IsTree(k.F)
    ensures IsTree(Make(k, intl, d, name, isDir).F)
  {
    hide DiskOK, Linked, IsTree, Created, NewName, FreeInOrder, Hash, CanMake, WithEntry, FileRuns.OneOwner, FileRuns.FileOK, Current;
    if CanMake(k, intl, d, name) {
      CanMakeFacts(k, intl, d, name);
      var s := FirstFree(k.v);
      DiskParts(k, intl, Ls, own);
      FreeIsNoFile(k, intl, Ls, own, s);
      if s != d {
        CreateKeepsTree(k.F, d, s, NewEntryNode(s, d, name, if isDir then ST_DIR else ST_FILE), isDir, intl);
      }
    }
  }

  /** An operation on directories leaves a tree exactly if it does not move a directory below itself. */
  lemma StepKeepsTree(k: Disk, intl: bool, Ls: map<int, Layout>, own: set<int>, op: VolumeOp)
    requires DiskOK(k, intl, Ls, own) && IsTree(k.F) && NamesDirs(k, intl, op)
    ensures IsTree(Step(k, intl, op).F) <==> Upright(k, intl, op)
  {
    hide DiskOK, IsTree, Make, EntryNamed, Removable, RenamedForest, FileRuns.Step, FreeBlocksOf, UnlinkIn, HasPlace, WithoutEntry,
         Inside, Renamed, Unlink, CanMake, NamesDirs, FreeInOrder;
    match op
    case MakeFile(d, name) => MakeStepTree(k, intl, Ls, own, d, name, false);
    case MakeDir(d, name) => MakeStepTree(k, intl, Ls, own, d, name, true);
    case Remove(d, name) =>
      RemoveApplies(k, intl, d, name);
      var s := EntryNamed(k.v, k.F, intl, d, name);
      if s in k.F.place && HasPlace(k.F, s) {
        RemoveKeepsTree(k.F, s);
      }
    case Rename(d, name, newDir, newName) => RenameStepTree(k, intl, Ls, own, op);
    case OpenNamed(d, name, r, w) =>
      OpenApplies(k, intl, d, name, r, w);
      MakeStepTree(k, intl, Ls, own, d, name, false);
    case Use(op) =>
  }

  ghost predicate AllUpright(k: Disk, intl: bool, ops: seq<VolumeOp>)
    decreases |ops|
  {
    ops == [] || (Upright(k, intl, ops[0]) && AllUpright(Step(k, intl, ops[0]), intl, ops[1..]))
  }

  /** Over every run in which no directory is moved below itself, the directories stay one tree. */
  lemma {:induction false} RunKeepsTree(k: Disk, intl: bool, Ls: map<int, Layout>, own: set<int>, ops: seq<VolumeOp>)
    requires DiskOK(k, intl, Ls, own) && AllAllowed(k, intl, ops) && IsTree(k.F) && AllUpright(k, intl, ops)
    ensures IsTree(Run(k, intl, ops).F)
    decreases |ops|
  {
    if ops != [] {
      hide DiskOK, IsTree, Step, Allowed, Upright, TreeOf, TreeStep, Output, Dropped;
      var Ls1 := StepRefines(k, intl, Ls, own, ops[0]);
      StepKeepsTree(k, intl, Ls, own, ops[0]);
      RunKeepsTree(Step(k, intl, ops[0]), intl, Ls1, own + Dropped(k, intl, ops[0]), ops[1..]);
    }
  }

  /** On every volume reached from a newly formatted one without such a move, the directories are one tree. */
  lemma ReachableIsTree(v: Vol, intl: bool, own: set<int>, ops: seq<VolumeOp>)
    requires var k := Disk(v, EmptyForest(v.root), map[]);
             Formatted(v, own) && AllAllowed(k, intl, ops) && AllUpright(k, intl, ops)
    ensures IsTree(Run(Disk(v, EmptyForest(v.root), map[]), intl, ops).F)
  {
    FormattedWhole(v, intl, own);
    assert Ranked(EmptyForest(v.root), map[v.root := 0]);
    hide DiskOK, IsTree, Run, AllAllowed, AllUpright, Formatted;
    RunKeepsTree(Disk(v, EmptyForest(v.root), map[]), intl, map[], own, ops);
  }
}
