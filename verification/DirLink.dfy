/** Adding an entry at the end of its chain, and taking one out of its chain. */
module DirLink {
  import opened Blocks
  import opened Names
  import opened FileInv
  import opened FileSpec
  import opened DirInv

  /* ---- on the disk ---- */

  function SetNode(v: Vol, s: int, n: Node): Vol {
    Store(v, s, Meta(n))
  }

  /** The first entry of chain `h` of directory `d` becomes `x`. */
  function SetHead(v: Vol, d: int, h: nat, x: int): Vol
    requires h < HT_SIZE
  {
    SetNode(v, d, NodeAt(v, d).(slots := NodeAt(v, d).slots[h := x]))
  }

  /** The entry after `t` in its chain becomes `x`. */
  function SetNext(v: Vol, t: int, x: int): Vol {
    SetNode(v, t, NodeAt(v, t).(nextSameHash := x))
  }

  /** Entry `s` is written behind the last one of chain `h` of directory `d`. */
  function LinkIn(v: Vol, F: Forest, d: int, h: nat, s: int): Vol
    requires h < HT_SIZE && d in F.chains && |F.chains[d]| == HT_SIZE
  {
    var chain := F.chains[d][h];
    if chain == [] then SetHead(v, d, h, s) else SetNext(v, chain[|chain| - 1], s)
  }

  /** The pointer to entry `s` is set to the entry behind it. */
  function UnlinkIn(v: Vol, F: Forest, s: int): Vol
    requires s in F.place && HasPlace(F, s)
  {
    var p, next := F.place[s], NodeAt(v, s).nextSameHash;
    if p.idx == 0 then SetHead(v, p.dir, p.bucket, next)
    else SetNext(v, F.chains[p.dir][p.bucket][p.idx - 1], next)
  }

  /* ---- in the forest ---- */

  function Link(F: Forest, d: int, h: nat, s: int): Forest
    requires h < HT_SIZE && d in F.chains && |F.chains[d]| == HT_SIZE
  {
    var chain := F.chains[d][h];
    Forest(F.chains[d := F.chains[d][h := chain + [s]]], F.place[s := Place(d, h, |chain|)])
  }

  /** The place of an entry after the one at `p` is gone. */
  function Shift(q: Place, p: Place): Place {
    if q.dir == p.dir && q.bucket == p.bucket && q.idx > p.idx then q.(idx := q.idx - 1) else q
  }

  function Unlink(F: Forest, s: int): Forest
    requires s in F.place && HasPlace(F, s)
  {
    var p := F.place[s];
    var chain := F.chains[p.dir][p.bucket];
    Forest(F.chains[p.dir := F.chains[p.dir][p.bucket := chain[..p.idx] + chain[p.idx + 1..]]],
           map t | t in F.place && t != s :: Shift(F.place[t], p))
  }

  lemma LinkForest(F: Forest, d: int, h: nat, s: int)
    requires ForestOK(F) && d in F.chains && h < HT_SIZE && s !in F.place && s != d
    ensures ForestOK(Link(F, d, h, s))
  {
    var F' := Link(F, d, h, s);
    forall t | t in F'.place ensures HasPlace(F', t) {
      if t != s {
        assert HasPlace(F, t);
      }
    }
    forall e, g, i | e in F'.chains && 0 <= g < HT_SIZE && 0 <= i < |F'.chains[e][g]|
      ensures F'.chains[e][g][i] in F'.place && F'.place[F'.chains[e][g][i]] == Place(e, g, i)
    {
      if !(e == d && g == h && i == |F.chains[d][h]|) {
        ChainPlaces(F, e, g, i);
        assert F'.chains[e][g][i] == F.chains[e][g][i];
      }
    }
  }

  lemma UnlinkForest(F: Forest, s: int)
    requires ForestOK(F) && s in F.place
    ensures HasPlace(F, s) && ForestOK(Unlink(F, s))
  {
    var F', p := Unlink(F, s), F.place[s];
    forall t | t in F'.place ensures HasPlace(F', t) {
      assert HasPlace(F, t);
      assert F.place[t] != p;
    }
    forall e, g, i | e in F'.chains && 0 <= g < HT_SIZE && 0 <= i < |F'.chains[e][g]|
      ensures F'.chains[e][g][i] in F'.place && F'.place[F'.chains[e][g][i]] == Place(e, g, i)
    {
      var k := if e == p.dir && g == p.bucket && i >= p.idx then i + 1 else i;
      assert F'.chains[e][g][i] == F.chains[e][g][k];
      ChainPlaces(F, e, g, k);
    }
  }

  /* ---- adding an entry ---- */

  /** Entry `s` is ready to be added: it names its directory, is the last of its chain, and its name is new there. */
  ghost predicate Ready(v: Vol, F: Forest, intl: bool, d: int, h: nat, s: int) {
    && d in F.chains && h < HT_SIZE
    && s !in F.place && s != d && s != v.root && 2 <= s
    && IsNode(v, s) && EntryNode(NodeAt(v, s), s, d, h, 0, s in F.chains, intl)
    && forall t :: t in F.place && F.place[t].dir == d ==> UpperName(v, t, intl) != UpperName(v, s, intl)
  }

  /** What changed at sector `x` from `v` to `v'`; everything else is as before. */
  ghost predicate OnlyAt(v: Vol, v': Vol, x: int) {
    && v'.root == v.root && v'.last == v.last && |v'.disk| == |v.disk|
    && OnDisk(v, x) && v'.disk[x].Meta?
    && forall s :: s != x ==> NodeAt(v', s) == NodeAt(v, s) && (IsNode(v', s) <==> IsNode(v, s))
  }

  lemma SetNodeOnly(v: Vol, x: int, n: Node)
    requires OnDisk(v, x)
    ensures OnlyAt(v, SetNode(v, x, n), x) && NodeAt(SetNode(v, x, n), x) == n
  {
  }

  /** The sector that is written when entry `s` is added to its chain. */
  function LinkPoint(F: Forest, d: int, h: nat): int
    requires h < HT_SIZE && d in F.chains && |F.chains[d]| == HT_SIZE
  {
    var chain := F.chains[d][h];
    if chain == [] then d else chain[|chain| - 1]
  }

  /** Where and how adding an entry writes to the disk. */
  lemma LinkWrites(v: Vol, F: Forest, intl: bool, d: int, h: nat, s: int)
    requires Linked(v, F, intl) && d in F.chains && h < HT_SIZE
    ensures |F.chains[d]| == HT_SIZE
    ensures var x, v', chain := LinkPoint(F, d, h), LinkIn(v, F, d, h, s), F.chains[d][h];
            && OnlyAt(v, v', x) && v'.free == v.free && IsNode(v', x)
            && (if chain == [] then x == d && NodeAt(v', x) == NodeAt(v, x).(slots := NodeAt(v, x).slots[h := s])
                else
                  && x in F.place && F.place[x] == Place(d, h, |chain| - 1)
                  && NodeAt(v', x) == NodeAt(v, x).(nextSameHash := s))
  {
    hide Distinct;
    var x := LinkPoint(F, d, h);
    assert DirOK(v, F, d);
    if F.chains[d][h] != [] {
      ChainPlaces(F, d, h, |F.chains[d][h]| - 1);
      assert EntryOK(v, F, intl, x);
    }
    SetNodeOnly(v, x, NodeAt(LinkIn(v, F, d, h, s), x));
  }

  lemma LinkedDir(v: Vol, F: Forest, intl: bool, d: int)
    requires Linked(v, F, intl) && d in F.chains
    ensures |F.chains[d]| == HT_SIZE && DirOK(v, F, d)
  {
  }

  lemma LinkedEntry(v: Vol, F: Forest, intl: bool, s: int)
    requires Linked(v, F, intl) && s in F.place
    ensures HasPlace(F, s) && EntryOK(v, F, intl, s)
  {
  }

  lemma RootIsNoEntry(v: Vol, F: Forest, intl: bool)
    requires Linked(v, F, intl)
    ensures v.root !in F.place
  {
    hide Linked;
    if v.root in F.place {
      LinkedEntry(v, F, intl, v.root);
    }
  }

  lemma LinkKeepsDir(v: Vol, F: Forest, intl: bool, d: int, h: nat, s: int, e: int)
    requires Linked(v, F, intl) && Ready(v, F, intl, d, h, s) && e in F.chains
    ensures |F.chains[d]| == HT_SIZE
    ensures var v', F' := LinkIn(v, F, d, h, s), Link(F, d, h, s);
            e in F'.chains && |F'.chains[e]| == HT_SIZE && DirOK(v', F', e)
  {
    hide Linked;
    LinkedDir(v, F, intl, d);
    LinkedDir(v, F, intl, e);
    RootIsNoEntry(v, F, intl);
    LinkWrites(v, F, intl, d, h, s);
    hide LinkIn, LinkPoint, OnDisk, NodeAt;
    var v', F' := LinkIn(v, F, d, h, s), Link(F, d, h, s);
    forall g | 0 <= g < HT_SIZE ensures NodeAt(v', e).slots[g] == PtrOrZero(F'.chains[e][g], 0) {
      assert NodeAt(v, e).slots[g] == PtrOrZero(F.chains[e][g], 0);
    }
  }

  lemma LinkKeepsEntry(v: Vol, F: Forest, intl: bool, d: int, h: nat, s: int, t: int)
    requires Linked(v, F, intl) && Ready(v, F, intl, d, h, s) && (t in F.place || t == s)
    ensures |F.chains[d]| == HT_SIZE
    ensures var v', F' := LinkIn(v, F, d, h, s), Link(F, d, h, s);
            t in F'.place && HasPlace(F', t) && EntryOK(v', F', intl, t) && NameOf(v', t) == NameOf(v, t)
  {
    hide Linked;
    LinkedDir(v, F, intl, d);
    LinkWrites(v, F, intl, d, h, s);
    hide LinkIn, LinkPoint, OnDisk, NodeAt, DirOK, Hash, Upper;
    var v', F' := LinkIn(v, F, d, h, s), Link(F, d, h, s);
    if t != s {
      LinkedEntry(v, F, intl, t);
      var p := F.place[t];
      var c, c' := F.chains[p.dir][p.bucket], F'.chains[p.dir][p.bucket];
      if p.dir == d && p.bucket == h {
        assert c' == c + [s];
      } else {
        assert c' == c;
      }
    }
  }

  /** The parts of the invariant put together. */
  lemma Assembled(v: Vol, F: Forest, intl: bool)
    requires 2 < v.root <= v.last && |v.disk| == v.last + 1 && v.root in F.chains
    requires ForestOK(F) && Distinct(v, F, intl)
    requires forall d :: d in F.chains ==> |F.chains[d]| == HT_SIZE && DirOK(v, F, d)
    requires forall s :: s in F.place ==> HasPlace(F, s) && EntryOK(v, F, intl, s)
    ensures Linked(v, F, intl)
  {
    hide ForestOK, Distinct, DirOK, EntryOK, HasPlace;
  }

  lemma LinkedParts(v: Vol, F: Forest, intl: bool)
    requires Linked(v, F, intl)
    ensures 2 < v.root <= v.last && |v.disk| == v.last + 1 && v.root in F.chains
    ensures ForestOK(F) && Distinct(v, F, intl)
  {
    hide ForestOK, Distinct, DirOK, EntryOK, HasPlace;
  }

  /** Entries that keep their directories and names keep distinct names. */
  lemma StillDistinct(v: Vol, v': Vol, F: Forest, F': Forest, intl: bool)
    requires Distinct(v, F, intl)
    requires forall t :: t in F'.place ==>
               t in F.place && F'.place[t].dir == F.place[t].dir && NameOf(v', t) == NameOf(v, t)
    ensures Distinct(v', F', intl)
  {
    hide NameOf, Upper;
  }

  lemma LinkDistinct(v: Vol, v': Vol, F: Forest, intl: bool, d: int, h: nat, s: int)
    requires Distinct(v, F, intl) && Ready(v, F, intl, d, h, s) && |F.chains[d]| == HT_SIZE
    requires forall t :: t in Link(F, d, h, s).place ==> NameOf(v', t) == NameOf(v, t)
    ensures Distinct(v', Link(F, d, h, s), intl)
  {
    hide NameOf, Upper, IsNode, EntryNode;
  }

  /** All chains are kept when an entry is added. */
  lemma LinkKeepsLinked(v: Vol, F: Forest, intl: bool, d: int, h: nat, s: int)
    requires Linked(v, F, intl) && Ready(v, F, intl, d, h, s)
    ensures |F.chains[d]| == HT_SIZE
    ensures var v', F' := LinkIn(v, F, d, h, s), Link(F, d, h, s);
            && Linked(v', F', intl)
            && (forall t :: t in F'.place ==> NameOf(v', t) == NameOf(v, t))
  {
    hide Linked, ForestOK, Distinct, DirOK, EntryOK, HasPlace, NameOf, LinkIn, LinkPoint, IsNode, EntryNode;
    LinkedParts(v, F, intl);
    LinkedDir(v, F, intl, d);
    LinkWrites(v, F, intl, d, h, s);
    LinkForest(F, d, h, s);
    var v', F' := LinkIn(v, F, d, h, s), Link(F, d, h, s);
    forall e | e in F'.chains ensures |F'.chains[e]| == HT_SIZE && DirOK(v', F', e) {
      LinkKeepsDir(v, F, intl, d, h, s, e);
    }
    forall t | t in F'.place
      ensures HasPlace(F', t) && EntryOK(v', F', intl, t) && NameOf(v', t) == NameOf(v, t)
    {
      LinkKeepsEntry(v, F, intl, d, h, s, t);
    }
    LinkDistinct(v, v', F, intl, d, h, s);
    Assembled(v', F', intl);
  }

  /** Adding an entry keeps all chains, and adds exactly its name to the directory. */
  lemma LinkKeeps(v: Vol, F: Forest, intl: bool, d: int, h: nat, s: int)
    requires Linked(v, F, intl) && Ready(v, F, intl, d, h, s)
    ensures |F.chains[d]| == HT_SIZE
    ensures var v', F' := LinkIn(v, F, d, h, s), Link(F, d, h, s);
            && Linked(v', F', intl)
            && Listing(v', F', d) == Listing(v, F, d)[s := NameOf(v, s)]
            && (forall e :: e != d ==> Listing(v', F', e) == Listing(v, F, e))
  {
    hide Linked, UpperName, LinkIn, Listing, Link;
    LinkKeepsLinked(v, F, intl, d, h, s);
    var v', F' := LinkIn(v, F, d, h, s), Link(F, d, h, s);
    LinkListing(v, v', F, d, h, s, d);
    forall e | e != d ensures Listing(v', F', e) == Listing(v, F, e) {
      LinkListing(v, v', F, d, h, s, e);
    }
  }

  lemma LinkListing(v: Vol, v': Vol, F: Forest, d: int, h: nat, s: int, e: int)
    requires d in F.chains && h < HT_SIZE && |F.chains[d]| == HT_SIZE && s !in F.place
    requires forall t :: t in Link(F, d, h, s).place ==> NameOf(v', t) == NameOf(v, t)
    ensures Listing(v', Link(F, d, h, s), e) ==
            if e == d then Listing(v, F, e)[s := NameOf(v, s)] else Listing(v, F, e)
  {
    hide UpperName;
  }

  /* ---- taking an entry out ---- */

  /** The sector that is written when entry `s` is taken out of its chain. */
  function UnlinkPoint(F: Forest, s: int): int
    requires s in F.place && HasPlace(F, s)
  {
    var p := F.place[s];
    if p.idx == 0 then p.dir else F.chains[p.dir][p.bucket][p.idx - 1]
  }

  lemma UnlinkWrites(v: Vol, F: Forest, intl: bool, s: int)
    requires Linked(v, F, intl) && s in F.place
    ensures HasPlace(F, s)
    ensures var x, v', p := UnlinkPoint(F, s), UnlinkIn(v, F, s), F.place[s];
            var next := PtrOrZero(F.chains[p.dir][p.bucket], p.idx + 1);
            && NodeAt(v, s).nextSameHash == next
            && OnlyAt(v, v', x) && v'.free == v.free && IsNode(v', x) && x != s
            && (if p.idx == 0 then
                  x == p.dir && NodeAt(v', x) == NodeAt(v, x).(slots := NodeAt(v, x).slots[p.bucket := next])
                else
                  && x in F.place && F.place[x] == Place(p.dir, p.bucket, p.idx - 1)
                  && NodeAt(v', x) == NodeAt(v, x).(nextSameHash := next))
  {
    hide Linked, Distinct, ForestOK, Hash, UpperName;
    LinkedParts(v, F, intl);
    LinkedEntry(v, F, intl, s);
    var x, p := UnlinkPoint(F, s), F.place[s];
    LinkedDir(v, F, intl, p.dir);
    if p.idx != 0 {
      ChainPlaces(F, p.dir, p.bucket, p.idx - 1);
      LinkedEntry(v, F, intl, x);
    }
    SetNodeOnly(v, x, NodeAt(UnlinkIn(v, F, s), x));
  }

  lemma UnlinkKeepsDir(v: Vol, F: Forest, intl: bool, s: int, e: int)
    requires Linked(v, F, intl) && s in F.place && e in F.chains
    ensures HasPlace(F, s)
    ensures var v', F' := UnlinkIn(v, F, s), Unlink(F, s);
            e in F'.chains && |F'.chains[e]| == HT_SIZE && DirOK(v', F', e)
  {
    hide Linked;
    UnlinkWrites(v, F, intl, s);
    LinkedDir(v, F, intl, e);
    LinkedDir(v, F, intl, F.place[s].dir);
    RootIsNoEntry(v, F, intl);
    hide UnlinkIn, UnlinkPoint, OnDisk, NodeAt;
    var v', F' := UnlinkIn(v, F, s), Unlink(F, s);
    forall g | 0 <= g < HT_SIZE ensures NodeAt(v', e).slots[g] == PtrOrZero(F'.chains[e][g], 0) {
      assert NodeAt(v, e).slots[g] == PtrOrZero(F.chains[e][g], 0);
    }
  }

  lemma CutOut(c: seq<int>, k: nat, i: nat)
    requires k < |c| && i < |c| && i != k
    ensures var c', j := c[..k] + c[k + 1..], if i > k then i - 1 else i;
            && c'[j] == c[i]
            && PtrOrZero(c', j + 1) == PtrOrZero(c, if i + 1 == k then k + 1 else i + 1)
  {
  }

  lemma UnlinkKeepsEntry(v: Vol, F: Forest, intl: bool, s: int, t: int)
    requires Linked(v, F, intl) && s in F.place && t in F.place && t != s
    ensures HasPlace(F, s)
    ensures var v', F' := UnlinkIn(v, F, s), Unlink(F, s);
            t in F'.place && HasPlace(F', t) && EntryOK(v', F', intl, t) && NameOf(v', t) == NameOf(v, t)
  {
    hide Linked, Hash, Upper;
    UnlinkWrites(v, F, intl, s);
    LinkedEntry(v, F, intl, t);
    LinkedDir(v, F, intl, F.place[s].dir);
    hide UnlinkIn, UnlinkPoint, OnDisk, NodeAt, DirOK;
    var v', F' := UnlinkIn(v, F, s), Unlink(F, s);
    var p, q := F.place[s], F.place[t];
    if q.dir == p.dir && q.bucket == p.bucket {
      CutOut(F.chains[p.dir][p.bucket], p.idx, q.idx);
    }
  }

  lemma UnlinkKeepsLinked(v: Vol, F: Forest, intl: bool, s: int)
    requires Linked(v, F, intl) && s in F.place
    ensures HasPlace(F, s)
    ensures var v', F' := UnlinkIn(v, F, s), Unlink(F, s);
            && Linked(v', F', intl)
            && (forall t :: t in F'.place ==> NameOf(v', t) == NameOf(v, t))
  {
    hide Linked, ForestOK, Distinct, DirOK, EntryOK, HasPlace, NameOf, UnlinkIn, UnlinkPoint, IsNode;
    LinkedParts(v, F, intl);
    UnlinkWrites(v, F, intl, s);
    UnlinkForest(F, s);
    var v', F' := UnlinkIn(v, F, s), Unlink(F, s);
    forall e | e in F'.chains ensures |F'.chains[e]| == HT_SIZE && DirOK(v', F', e) {
      UnlinkKeepsDir(v, F, intl, s, e);
    }
    forall t | t in F'.place
      ensures HasPlace(F', t) && EntryOK(v', F', intl, t) && NameOf(v', t) == NameOf(v, t)
    {
      UnlinkKeepsEntry(v, F, intl, s, t);
    }
    StillDistinct(v, v', F, F', intl);
    Assembled(v', F', intl);
  }

  /** Taking an entry out keeps all chains, and takes exactly its name from its directory. */
  lemma UnlinkKeeps(v: Vol, F: Forest, intl: bool, s: int)
    requires Linked(v, F, intl) && s in F.place
    ensures HasPlace(F, s)
    ensures var v', F', d := UnlinkIn(v, F, s), Unlink(F, s), F.place[s].dir;
            && Linked(v', F', intl) && s !in F'.place
            && Listing(v', F', d) == Listing(v, F, d) - {s}
            && (forall e :: e != d ==> Listing(v', F', e) == Listing(v, F, e))
  {
    hide Linked, UpperName, UnlinkIn, Listing, Unlink;
    UnlinkKeepsLinked(v, F, intl, s);
    var v', F', d := UnlinkIn(v, F, s), Unlink(F, s), F.place[s].dir;
    UnlinkListing(v, v', F, s, d);
    forall e | e != d ensures Listing(v', F', e) == Listing(v, F, e) {
      UnlinkListing(v, v', F, s, e);
    }
  }

  lemma UnlinkListing(v: Vol, v': Vol, F: Forest, s: int, e: int)
    requires s in F.place && HasPlace(F, s)
    requires forall t :: t in Unlink(F, s).place ==> NameOf(v', t) == NameOf(v, t)
    ensures s !in Unlink(F, s).place
    ensures Listing(v', Unlink(F, s), e) ==
            if e == F.place[s].dir then Listing(v, F, e) - {s} else Listing(v, F, e)
  {
    hide UpperName;
    var F' := Unlink(F, s);
    assert forall t :: t in F.place && t != s ==> t in F'.place && F'.place[t].dir == F.place[t].dir;
    assert Listing(v', F', e).Keys ==
           (if e == F.place[s].dir then Listing(v, F, e) - {s} else Listing(v, F, e)).Keys;
  }

  /* ---- rewriting a block ---- */

  /** Block `n` serves the chains at sector `x` as well as the block that is there. */
  ghost predicate SameLinks(v: Vol, F: Forest, x: int, n: Node) {
    var m := NodeAt(v, x);
    && OnDisk(v, x) && n.typ == T_HEADER
    && (x in F.place ==>
          && n.headerKey == m.headerKey && n.parent == m.parent && n.nextSameHash == m.nextSameHash
          && n.name == m.name && n.secType == m.secType)
    && (x in F.chains ==>
          n.secType == m.secType && n.slots == m.slots && n.highSeq == m.highSeq
          && (x == v.root ==> PlainRoot(n))
          && (x != v.root ==> n.headerKey == m.headerKey && n.extension == m.extension))
  }

  /** Rewriting a block without touching its links and its name changes no chain and no listing. */
  lemma StoreKeeps(v: Vol, F: Forest, intl: bool, x: int, n: Node)
    requires Linked(v, F, intl) && SameLinks(v, F, x, n)
    ensures var v' := SetNode(v, x, n);
            && Linked(v', F, intl)
            && (forall e :: Listing(v', F, e) == Listing(v, F, e))
            && OnlyAt(v, v', x) && NodeAt(v', x) == n && v'.free == v.free
  {
    hide Linked, ForestOK, Distinct, DirOK, EntryOK, HasPlace, NameOf, SetNode, SameLinks, Listing, OnlyAt;
    LinkedParts(v, F, intl);
    var v' := SetNode(v, x, n);
    SameLinksOnly(v, F, x, n);
    forall d | d in F.chains ensures |F.chains[d]| == HT_SIZE && DirOK(v', F, d) {
      StoreKeepsDir(v, F, intl, x, n, d);
    }
    forall t | t in F.place
      ensures HasPlace(F, t) && EntryOK(v', F, intl, t) && NameOf(v', t) == NameOf(v, t)
    {
      StoreKeepsEntry(v, F, intl, x, n, t);
    }
    StillDistinct(v, v', F, F, intl);
    Assembled(v', F, intl);
    forall e ensures Listing(v', F, e) == Listing(v, F, e) {
      SameListing(v, v', F, e);
    }
  }

  lemma SameListing(v: Vol, v': Vol, F: Forest, e: int)
    requires forall t :: t in F.place ==> NameOf(v', t) == NameOf(v, t)
    ensures Listing(v', F, e) == Listing(v, F, e)
  {
    hide NameOf;
  }

  lemma SameLinksOnly(v: Vol, F: Forest, x: int, n: Node)
    requires SameLinks(v, F, x, n)
    ensures var v' := SetNode(v, x, n);
            && OnlyAt(v, v', x) && NodeAt(v', x) == n && v'.free == v.free
            && v'.root == v.root && v'.last == v.last && |v'.disk| == |v.disk|
  {
    SetNodeOnly(v, x, n);
  }

  lemma StoreKeepsDir(v: Vol, F: Forest, intl: bool, x: int, n: Node, d: int)
    requires Linked(v, F, intl) && SameLinks(v, F, x, n) && d in F.chains
    ensures |F.chains[d]| == HT_SIZE && DirOK(SetNode(v, x, n), F, d)
  {
    hide Linked;
    LinkedDir(v, F, intl, d);
    SetNodeOnly(v, x, n);
  }

  lemma StoreKeepsEntry(v: Vol, F: Forest, intl: bool, x: int, n: Node, t: int)
    requires Linked(v, F, intl) && SameLinks(v, F, x, n) && t in F.place
    ensures var v' := SetNode(v, x, n);
            HasPlace(F, t) && EntryOK(v', F, intl, t) && NameOf(v', t) == NameOf(v, t)
  {
    hide Linked, Hash, Upper;
    LinkedEntry(v, F, intl, t);
    SetNodeOnly(v, x, n);
  }

  /** The chains do not depend on which sectors are free. */
  lemma FreeIsApart(v: Vol, F: Forest, intl: bool, free: set<int>)
    requires Linked(v, F, intl)
    ensures var w := v.(free := free);
            && Linked(w, F, intl)
            && (forall x :: NodeAt(w, x) == NodeAt(v, x))
            && (forall e :: Listing(w, F, e) == Listing(v, F, e))
  {
    var w := v.(free := free);
    hide Linked, ForestOK, Distinct, DirOK, EntryOK, HasPlace;
    LinkedParts(v, F, intl);
    forall d | d in F.chains ensures |F.chains[d]| == HT_SIZE && DirOK(w, F, d) {
      LinkedDir(v, F, intl, d);
      FreeIsApartDir(v, F, d, free);
    }
    forall s | s in F.place ensures HasPlace(F, s) && EntryOK(w, F, intl, s) {
      LinkedEntry(v, F, intl, s);
      FreeIsApartEntry(v, F, intl, s, free);
    }
    StillDistinct(v, w, F, F, intl);
    Assembled(w, F, intl);
    forall e ensures Listing(w, F, e) == Listing(v, F, e) {
      SameListing(v, w, F, e);
    }
  }

  lemma FreeIsApartDir(v: Vol, F: Forest, d: int, free: set<int>)
    requires d in F.chains && |F.chains[d]| == HT_SIZE && DirOK(v, F, d)
    ensures DirOK(v.(free := free), F, d)
  {
  }

  lemma FreeIsApartEntry(v: Vol, F: Forest, intl: bool, s: int, free: set<int>)
    requires s in F.place && HasPlace(F, s) && EntryOK(v, F, intl, s)
    ensures EntryOK(v.(free := free), F, intl, s)
  {
    hide Hash;
  }
}
