/**
  What the pointers of a disk say about every forest that fits it: where a chain runs, and
  that a directory that is moved into itself is in none.
*/
module DirLost {
  import opened Blocks
  import opened Names
  import opened FileInv
  import opened FileSpec
  import opened DirInv
  import opened DirLink
  import opened DirSpec
  import opened Dir

  /** On this disk the chain of directory `d` that starts in bucket `h` runs along `walk`. */
  ghost predicate Runs(v: Vol, d: int, h: nat, walk: seq<int>)
    requires h < HT_SIZE
  {
    && walk != [] && NodeAt(v, d).slots[h] == walk[0]
    && (forall i :: 0 <= i < |walk| - 1 ==> NodeAt(v, walk[i]).nextSameHash == walk[i + 1])
    && (forall i :: 0 <= i < |walk| ==> walk[i] != 0)
  }

  /** Where a chain runs, any forest that fits the disk has it run. */
  lemma {:induction false} WalkIsChain(v: Vol, F: Forest, intl: bool, d: int, h: nat, walk: seq<int>, k: nat)
    requires Linked(v, F, intl) && d in F.chains && h < HT_SIZE && Runs(v, d, h, walk) && k < |walk|
    ensures |F.chains[d]| == HT_SIZE
    ensures k < |F.chains[d][h]| && F.chains[d][h][k] == walk[k]
  {
    hide Linked, Hash;
    if k == 0 {
      HeadOfChain(v, F, intl, d, h);
    } else {
      WalkIsChain(v, F, intl, d, h, walk, k - 1);
      ChainEntry(v, F, intl, d, h, k - 1);
      var i := k - 1;
      assert NodeAt(v, walk[i]).nextSameHash == walk[i + 1];
    }
  }

  lemma SealKeepsNext(n: Node)
    requires n.secType != ST_ROOT
    ensures Seal(n).nextSameHash == n.nextSameHash && Seal(n).slots == n.slots && Seal(n).parent == n.parent
  {
  }

  /** No forest that fits the disk has block `s`, be it as an entry or as a directory. */
  ghost predicate Lost(v: Vol, intl: bool, s: int) {
    forall G: Forest :: Linked(v, G, intl) ==> s !in G.place && s !in G.chains
  }

  /** Added to its own table, a directory is in one of its own chains. */
  lemma AddedToItself(w: Vol, G: Forest, intl: bool, h: nat, s: int)
    requires Linked(w, G, intl) && s in G.chains && h < HT_SIZE && s !in G.place && s != w.root
    ensures |G.chains[s]| == HT_SIZE
    ensures var v := Resealed(AddEntry(w, G, s, h, s), s);
            && Runs(v, s, h, G.chains[s][h] + [s]) && NodeAt(v, s).parent == NodeAt(w, s).parent
            && v.free == w.free
  {
    hide Linked, Hash, ForestOK, Seal, AddEntry, LinkPoint;
    LinkedDir(w, G, intl, s);
    TailFacts(w, G, intl, s, h);
    HeadOfChain(w, G, intl, s, h);
    var chain, x := G.chains[s][h], LinkPoint(G, s, h);
    var m := NodeAt(w, x);
    var n := if chain == [] then m.(slots := m.slots[h := s]) else m.(nextSameHash := s);
    AddEntryIs(w, G, s, h, s, n);
    SealKeepsNext(n);
    SetNodeOnly(w, x, Seal(n));
    var u := AddEntry(w, G, s, h, s);
    assert NodeAt(u, s).secType == ST_DIR by {
      hide Runs;
      SealKeepsType(n);
      if chain != [] {
        ChainEntry(w, G, intl, s, h, |chain| - 1);
      }
    }
    SealKeepsNext(NodeAt(u, s));
    SetNodeOnly(u, s, Seal(NodeAt(u, s)));
    var v, walk := Resealed(u, s), chain + [s];
    forall i | 0 <= i < |walk|
      ensures walk[i] != 0 && (i < |walk| - 1 ==> NodeAt(v, walk[i]).nextSameHash == walk[i + 1])
    {
      if i < |chain| {
        ChainEntry(w, G, intl, s, h, i);
        if i < |chain| - 1 {
          ChainEntry(w, G, intl, s, h, |chain| - 1);
        }
      }
    }
  }

  lemma SealKeepsType(n: Node)
    requires n.secType in {ST_ROOT, ST_DIR, ST_FILE}
    ensures Seal(n).secType == n.secType
  {
  }

  /** A directory whose chain comes to the directory itself is lost. */
  lemma InItselfIsLost(v: Vol, intl: bool, s: int, h: nat, walk: seq<int>)
    requires h < HT_SIZE && Runs(v, s, h, walk) && walk[|walk| - 1] == s && NodeAt(v, s).parent == s
    ensures Lost(v, intl, s)
  {
    forall G: Forest | Linked(v, G, intl) ensures s !in G.place && s !in G.chains {
      if s in G.place {
        LinkedEntry(v, G, intl, s);
      }
      hide Linked;
      if s in G.chains {
        WalkIsChain(v, G, intl, s, h, walk, |walk| - 1);
        ChainEntry(v, G, intl, s, h, |walk| - 1);
      }
    }
  }

  /** A directory that is moved into itself is in no directory any more, and no directory itself. */
  lemma IntoItself(v: Vol, F: Forest, intl: bool, s: int, name: seq<byte>)
    requires Linked(v, F, intl) && s in F.place && s in F.chains
    ensures HasPlace(F, s) && s in Unlink(F, s).chains && |Unlink(F, s).chains[s]| == HT_SIZE
    ensures var v' := Renamed(v, F, s, s, name, intl);
            Lost(v', intl, s) && v'.free == v.free && NodeAt(v', s).parent == s
  {
    hide Linked, TakenOut, Unlink, Hash, AddEntry, Resealed, Runs, Lost;
    LinkedEntry(v, F, intl, s);
    TakenOutKeeps(v, F, intl, s, s, name);
    var w, G, h := TakenOut(v, F, s, s, name), Unlink(F, s), Hash(name, intl);
    assert s in G.chains.Keys;
    AddedToItself(w, G, intl, h, s);
    InItselfIsLost(Renamed(v, F, s, s, name, intl), intl, s, h, G.chains[s][h] + [s]);
  }

  /* ---- a block that is no directory ---- */

  lemma ReadsNode(v: Vol, x: int)
    ensures ReadEntry(v, x).Some? <==> IsNode(v, x)
    ensures ReadEntry(v, x).Some? ==> ReadEntry(v, x).value == NodeAt(v, x)
  {
  }

  /** What taking an entry out of its chain leaves of any block. */
  lemma TakenOutReads(v: Vol, F: Forest, intl: bool, s: int, d: int, name: seq<byte>, x: int)
    requires Linked(v, F, intl) && s in F.place
    ensures HasPlace(F, s)
    ensures var w := TakenOut(v, F, s, d, name);
            && (IsNode(w, x) <==> IsNode(v, x))
            && (x !in F.chains ==>
                  var n, m := NodeAt(w, x), NodeAt(v, x);
                  n.slots == m.slots && n.headerKey == m.headerKey && n.secType == m.secType)
  {
    hide Linked, Listing, UnlinkIn, SetNode, Seal, UnlinkPoint;
    LinkedEntry(v, F, intl, s);
    UnlinkKeeps(v, F, intl, s);
    UnlinkWrites(v, F, intl, s);
    var u, G, p := UnlinkIn(v, F, s), Unlink(F, s), F.place[s].dir;
    var m := Moved(NodeAt(v, s), d, name);
    RewriteKeeps(u, G, intl, s, d, name);
    var u1 := SetNode(u, s, m);
    ResealKeeps(u1, G, intl, p);
    DirsAreNodes(v, F, intl, p);
    DirsAreNodes(Resealed(u1, p), G, intl, p);
    var point := UnlinkPoint(F, s);
    if point in F.place {
      LinkedEntry(v, F, intl, point);
    }
    hide OnDisk, Unlink, IsNode, NodeAt, HasPlace;
  }

  lemma DirsAreNodes(v: Vol, F: Forest, intl: bool, d: int)
    requires Linked(v, F, intl) && d in F.chains
    ensures IsNode(v, d)
  {
    LinkedDir(v, F, intl, d);
    hide Linked;
  }

  /** No forest that fits the disk has `s` as an entry. */
  ghost predicate NoEntryOf(v: Vol, intl: bool, s: int) {
    forall G: Forest :: Linked(v, G, intl) ==> s !in G.place
  }

  /** A directory block with a pointer to a block that is none of the directories is in no forest. */
  lemma FalsePointer(v: Vol, intl: bool, d: int, h: nat)
    requires h < HT_SIZE && NodeAt(v, d).slots[h] != 0 && !IsNode(v, NodeAt(v, d).slots[h])
    ensures forall G: Forest :: Linked(v, G, intl) ==> d !in G.chains
  {
    forall G: Forest | Linked(v, G, intl) && d in G.chains ensures false {
      hide Linked;
      HeadOfChain(v, G, intl, d, h);
      ChainEntry(v, G, intl, d, h, 0);
      ReadsNode(v, G.chains[d][h][0]);
    }
  }

  /** An entry whose parent is no directory of any forest is an entry of none. */
  lemma Parentless(v: Vol, intl: bool, s: int)
    requires forall G: Forest :: Linked(v, G, intl) ==> NodeAt(v, s).parent !in G.chains
    ensures NoEntryOf(v, intl, s)
  {
    forall G: Forest | Linked(v, G, intl) ensures s !in G.place {
      if s in G.place {
        LinkedEntry(v, G, intl, s);
      }
    }
  }

  /** A block that is not that of a directory is a directory of no forest. */
  lemma NoDirectory(v: Vol, intl: bool, d: int)
    requires !IsNode(v, d) || NodeAt(v, d).secType == ST_FILE
    ensures forall G: Forest :: Linked(v, G, intl) ==> d !in G.chains
  {
    forall G: Forest | Linked(v, G, intl) && d in G.chains ensures false {
      LinkedDir(v, G, intl, d);
      hide Linked;
    }
  }
}
