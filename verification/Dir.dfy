/**
  Directories, changed in place: looking up, creating, removing and renaming entries by
  walking the chains of a hash table. Models adf_dir.c on volumes without directory cache.
*/
module Dir {
  import opened Blocks
  import opened Names
  import opened FileInv
  import opened FileSpec
  import opened DirInv
  import opened DirLink
  import opened DirSpec
  import opened Volume

  /** adfReadEntryBlock */
  method ReadEntryBlock(vol: AdfVolume, nSect: int) returns (r: Option<Node>)
    requires vol.Valid()
    ensures r == ReadEntry(vol.V(), nSect)
  {
    r := vol.ReadNodeBlock(nSect);
    if r.Some? && r.value.typ != T_HEADER {
      r := None;
    }
  }

  /** adfWriteEntryBlock */
  method WriteEntryBlock(vol: AdfVolume, nSect: int, ent: Node) returns (rc: Rc)
    requires vol.Valid()
    modifies vol.disk
    ensures vol.Valid() && vol.V() == SetNode(old(vol.V()), nSect, ent)
    ensures rc == RcOk <==> OnDisk(old(vol.V()), nSect)
  {
    var ok := vol.WriteBlock(nSect, Meta(ent));
    rc := if ok then RcOk else RcBlockOutOfRange;
  }

  /** Writing a root, directory or file header block with the function for its type. */
  method WriteByType(vol: AdfVolume, nSect: int, ent: Node) returns (rc: Rc)
    requires vol.Valid()
    modifies vol.disk
    ensures vol.Valid() && vol.V() == SetNode(old(vol.V()), nSect, Seal(ent))
    ensures rc == RcOk <==> OnDisk(old(vol.V()), nSect)
  {
    if ent.secType == ST_ROOT {
      rc := WriteEntryBlock(vol, nSect, SealRoot(ent));
    } else if ent.secType == ST_DIR {
      rc := WriteEntryBlock(vol, nSect, SealDir(ent));
    } else {
      rc := WriteEntryBlock(vol, nSect, SealHdr(ent));
    }
  }

  /** A root or directory block as it is written; every other block becomes one of a directory. */
  function SealParent(n: Node): Node {
    if n.secType == ST_ROOT then SealRoot(n) else SealDir(n)
  }

  /** Writing a block as that of a directory, or of the root. */
  method WriteParent(vol: AdfVolume, nSect: int, dir: Node) returns (rc: Rc)
    requires vol.Valid()
    modifies vol.disk
    ensures vol.Valid() && vol.V() == SetNode(old(vol.V()), nSect, SealParent(dir))
    ensures rc == RcOk <==> OnDisk(old(vol.V()), nSect)
  {
    if dir.secType == ST_ROOT {
      rc := WriteEntryBlock(vol, nSect, SealRoot(dir));
    } else {
      rc := WriteEntryBlock(vol, nSect, SealDir(dir));
    }
  }

  /** No pointer of the table leads to an entry block. */
  ghost predicate LeadsNowhere(v: Vol, slots: Slots) {
    forall h :: 0 <= h < HT_SIZE ==> slots[h] == 0 || ReadEntry(v, slots[h]) == None
  }

  /**
    A sector that is no directory: it cannot be read as an entry block, or it is the header
    of a file, whose table has data blocks, or an old header without entries.
  */
  ghost predicate Barren(v: Vol, d: int) {
    match ReadEntry(v, d)
    case None => true
    case Some(n) => n.headerKey == d && n.secType in {ST_DIR, ST_FILE} && LeadsNowhere(v, n.slots)
  }

  /** The entry before `s` in its chain, or 0. */
  ghost function Before(F: Forest, s: int): int
    requires s in F.place && HasPlace(F, s)
  {
    var p := F.place[s];
    if p.idx == 0 then 0 else F.chains[p.dir][p.bucket][p.idx - 1]
  }

  /** What a lookup should find: the one entry with the name, with its block and the entry before it. */
  ghost predicate Finds(v: Vol, F: Forest, intl: bool, d: int, name: seq<byte>, nSect: int, entry: Node, updSect: int) {
    if |name| > MAX_NAME_LEN || NewName(v, F, intl, d, name) then nSect == -1
    else
      && nSect in Listing(v, F, d) && Upper(Listing(v, F, d)[nSect], intl) == Upper(name, intl)
      && nSect in F.place && HasPlace(F, nSect) && F.place[nSect].dir == d
      && F.place[nSect].bucket == Hash(name, intl)
      && entry == NodeAt(v, nSect) && updSect == Before(F, nSect)
  }

  /** The walk along chain `h` has met the first `k` entries, none of which has the name. */
  ghost predicate Passed(v: Vol, F: Forest, intl: bool, chain: seq<int>, name: seq<byte>, k: nat) {
    && k <= |chain|
    && forall i :: 0 <= i < k ==> UpperName(v, chain[i], intl) != Upper(name, intl)
  }

  /** The block of an entry of a chain, and the entry behind it. */
  lemma ChainEntry(v: Vol, F: Forest, intl: bool, d: int, h: nat, k: nat)
    requires Linked(v, F, intl) && d in F.chains && h < HT_SIZE
    ensures |F.chains[d]| == HT_SIZE
    ensures k < |F.chains[d][h]| ==>
              var s := F.chains[d][h][k];
              && s in F.place && HasPlace(F, s) && F.place[s] == Place(d, h, k) && 2 <= s
              && ReadEntry(v, s) == Some(NodeAt(v, s))
              && NodeAt(v, s).nextSameHash == PtrOrZero(F.chains[d][h], k + 1)
              && NodeAt(v, s).headerKey == s && s != d
              && (NodeAt(v, s).secType == ST_DIR || NodeAt(v, s).secType == ST_FILE)
  {
    hide Linked, Hash, ForestOK;
    LinkedParts(v, F, intl);
    LinkedDir(v, F, intl, d);
    if k < |F.chains[d][h]| {
      ChainPlaces(F, d, h, k);
      LinkedEntry(v, F, intl, F.chains[d][h][k]);
    }
  }

  lemma FoundHere(v: Vol, F: Forest, intl: bool, d: int, name: seq<byte>, k: nat)
    requires Linked(v, F, intl) && d in F.chains && |name| <= MAX_NAME_LEN
    requires |F.chains[d]| == HT_SIZE && k < |ChainOf(F, d, name, intl)|
    requires UpperName(v, ChainOf(F, d, name, intl)[k], intl) == Upper(name, intl)
    ensures var s := ChainOf(F, d, name, intl)[k];
            Finds(v, F, intl, d, name, s, NodeAt(v, s), if k == 0 then 0 else ChainOf(F, d, name, intl)[k - 1])
    ensures !NewName(v, F, intl, d, name)
  {
    hide Linked, Hash, Upper;
    var h := Hash(name, intl);
    ChainEntry(v, F, intl, d, h, k);
    var s, m := F.chains[d][h][k], Listing(v, F, d);
    assert s in m && m[s] == NameOf(v, s);
  }

  lemma NotFound(v: Vol, F: Forest, intl: bool, d: int, name: seq<byte>)
    requires Linked(v, F, intl) && d in F.chains
    requires |F.chains[d]| == HT_SIZE
    requires Passed(v, F, intl, ChainOf(F, d, name, intl), name, |ChainOf(F, d, name, intl)|)
    ensures NewName(v, F, intl, d, name)
  {
    hide Linked, Hash, Upper;
    var m, chain := Listing(v, F, d), ChainOf(F, d, name, intl);
    if HasName(m, intl, name) {
      var s :| s in m && Upper(m[s], intl) == Upper(name, intl);
      ListedInChain(v, F, intl, d, name, s);
    }
  }

  /**
    adfNameToEntryBlk: exactly the entry with the name, without regard to case, is found,
    and with it the entry before it in its chain. In a table that is not that of a directory
    none is found.
  */
  method NameToEntryBlk(vol: AdfVolume, ht: Slots, name: seq<byte>, ghost F: Forest, ghost d: int)
    returns (nSect: int, entry: Node, updSect: int)
    requires vol.Valid() && Linked(vol.V(), F, vol.intl)
    requires if d in F.chains then ht == NodeAt(vol.V(), d).slots else LeadsNowhere(vol.V(), ht)
    ensures if d in F.chains then Finds(vol.V(), F, vol.intl, d, name, nSect, entry, updSect) else nSect == -1
  {
    hide Linked, Hash, Upper, Listing, NewName, ReadEntry, NodeAt, UpperName, HasPlace;
    ghost var v := vol.V();
    nSect, updSect := -1, 0;
    entry := Node(0, 0, 0, 0, NoSlots(), 0, [], 0, 0, 0, 0);
    if |name| > MAX_NAME_LEN {
      return;
    }
    var hashVal := GetHashValue(name, vol.intl);
    var upperName := StrToUpper(name, vol.intl);
    ghost var chain, k := [], 0;
    if d in F.chains {
      HeadOfChain(v, F, vol.intl, d, hashVal);
      chain := F.chains[d][hashVal];
    }
    var sect, found := ht[hashVal], false;
    while !found && sect != 0
      invariant if d in F.chains then |F.chains[d]| == HT_SIZE && chain == F.chains[d][hashVal]
                else !found && sect == ht[hashVal] && chain == []
      invariant 0 <= k <= |chain|
      invariant found ==> k < |chain| && sect == chain[k] && entry == NodeAt(v, sect) && UpperName(v, sect, vol.intl) == upperName
      invariant d in F.chains && !found ==> sect == PtrOrZero(chain, k)
      invariant Passed(v, F, vol.intl, chain, name, k)
      invariant updSect == if k == 0 then 0 else chain[k - 1]
      decreases |chain| - k, !found
    {
      if d in F.chains {
        ChainEntry(v, F, vol.intl, d, hashVal, k);
      }
      var e := ReadEntryBlock(vol, sect);
      if e.None? {
        return;
      }
      entry := e.value;
      var upperName2 := StrToUpper(entry.name, vol.intl);
      NameOfEntry(v, sect, vol.intl);
      found := |name| == |entry.name| && upperName == upperName2;
      if !found {
        updSect := sect;
        sect := entry.nextSameHash;
        k := k + 1;
      }
    }
    if found {
      FoundHere(v, F, vol.intl, d, name, k);
      nSect := sect;
    } else if d in F.chains {
      EndOfChain(v, F, vol.intl, d, hashVal, k);
      NotFound(v, F, vol.intl, d, name);
    }
  }

  lemma HeadOfChain(v: Vol, F: Forest, intl: bool, d: int, h: nat)
    requires Linked(v, F, intl) && d in F.chains && h < HT_SIZE
    ensures |F.chains[d]| == HT_SIZE && NodeAt(v, d).slots[h] == PtrOrZero(F.chains[d][h], 0)
  {
    LinkedDir(v, F, intl, d);
    hide Linked;
  }

  lemma NameOfEntry(v: Vol, s: int, intl: bool)
    ensures UpperName(v, s, intl) == Upper(NodeAt(v, s).name, intl)
  {
  }

  lemma EndOfChain(v: Vol, F: Forest, intl: bool, d: int, h: nat, k: nat)
    requires Linked(v, F, intl) && d in F.chains && h < HT_SIZE
    ensures |F.chains[d]| == HT_SIZE
    ensures k <= |F.chains[d][h]| && PtrOrZero(F.chains[d][h], k) == 0 ==> k == |F.chains[d][h]|
  {
    hide Linked;
    ChainEntry(v, F, intl, d, h, k);
  }

  /* ---- creating ---- */

  /** Why adfCreateEntry may refuse to add an entry. */
  ghost predicate Refused(v: Vol, F: Forest, intl: bool, d: int, name: seq<byte>, thisSect: int) {
    || |name| > MAX_NAME_LEN
    || !NewName(v, F, intl, d, name)
    || (thisSect == -1 && v.free == {})
  }

  /** Why it may refuse to add one to a block that is no directory. */
  predicate RefusedAt(v: Vol, dir: Node, intl: bool, name: seq<byte>, thisSect: int) {
    || |name| > MAX_NAME_LEN
    || dir.slots[Hash(name, intl)] != 0
    || (thisSect == -1 && v.free == {})
  }

  /** The block with a pointer to `s`, as it is written for a directory. */
  function AsDirectory(n: Node, h: nat, s: int): Node
    requires h < HT_SIZE
  {
    SealDir(n.(slots := n.slots[h := s]))
  }

  lemma TableOf(v: Vol, F: Forest, intl: bool, d: int)
    requires Linked(v, F, intl)
    ensures d in F.chains ==> |F.chains[d]| == HT_SIZE
  {
    hide ForestOK, Distinct, DirOK, EntryOK;
    LinkedParts(v, F, intl);
    if d in F.chains {
      LinkedDir(v, F, intl, d);
    }
  }

  lemma SealOfDir(n: Node)
    requires n.secType in {ST_ROOT, ST_DIR}
    ensures Seal(n) == SealParent(n)
  {
  }

  /** The volume once the sector of the new entry is known, and taken if it is a new one. */
  function WithSector(v: Vol, thisSect: int, newSect: int): Vol {
    if thisSect == -1 then Take(v, newSect) else v
  }

  /** The sector of the new entry: the one given, or the first free one. */
  method SectorFor(vol: AdfVolume, thisSect: int) returns (newSect: int)
    requires vol.Valid()
    modifies vol.Bits()
    ensures VolOK(old(vol.V())) && vol.Valid()
    ensures newSect == if thisSect != -1 then thisSect else FirstFree(old(vol.V()))
    ensures vol.V() == if newSect == -1 then old(vol.V()) else WithSector(old(vol.V()), thisSect, newSect)
  {
    vol.VIsOK();
    newSect := thisSect;
    if thisSect == -1 {
      newSect := vol.Get1FreeBlock();
    }
  }

  /** The last entry of the chain that starts at `first`, unless one of them has the name or cannot be read. */
  method LastOfChain(vol: AdfVolume, first: int, name: seq<byte>, ghost F: Forest, ghost d: int)
    returns (refused: bool, last: int, updEntry: Node)
    requires vol.Valid() && Linked(vol.V(), F, vol.intl)
    requires d in F.chains ==> |F.chains[d]| == HT_SIZE && first == PtrOrZero(ChainOf(F, d, name, vol.intl), 0)
    requires d !in F.chains ==> ReadEntry(vol.V(), first) == None
    requires first != 0 && |name| <= MAX_NAME_LEN
    ensures d in F.chains ==> |F.chains[d]| == HT_SIZE
    ensures refused <==> d !in F.chains || !NewName(vol.V(), F, vol.intl, d, name)
    ensures !refused ==>
              var chain := ChainOf(F, d, name, vol.intl);
              chain != [] && last == chain[|chain| - 1] && updEntry == NodeAt(vol.V(), last)
  {
    hide Linked, Hash, Upper, NewName, ReadEntry, NodeAt, UpperName, HasPlace;
    ghost var v := vol.V();
    var name2 := StrToUpper(name, vol.intl);
    ghost var h, chain := Hash(name, vol.intl), if d in F.chains then ChainOf(F, d, name, vol.intl) else [];
    var nSect := first;
    last, refused := first, false;
    updEntry := Node(0, 0, 0, 0, NoSlots(), 0, [], 0, 0, 0, 0);
    ghost var k := 0;
    while nSect != 0
      invariant 0 <= k <= |chain|
      invariant if d in F.chains then nSect == PtrOrZero(chain, k) else nSect == first
      invariant Passed(v, F, vol.intl, chain, name, k)
      invariant if k == 0 then last == first else last == chain[k - 1] && updEntry == NodeAt(v, last)
      decreases |chain| - k
    {
      if d in F.chains {
        ChainEntry(v, F, vol.intl, d, h, k);
      }
      var e := ReadEntryBlock(vol, nSect);
      if e.None? {
        refused := true;
        return;
      }
      updEntry, last := e.value, nSect;
      var name3 := StrToUpper(updEntry.name, vol.intl);
      NameOfEntry(v, nSect, vol.intl);
      if |updEntry.name| == |name| && name3 == name2 {
        FoundHere(v, F, vol.intl, d, name, k);
        refused := true;
        return;
      }
      nSect := updEntry.nextSameHash;
      k := k + 1;
    }
    EndOfChain(v, F, vol.intl, d, h, k);
    NotFound(v, F, vol.intl, d, name);
  }

  lemma TailFacts(v: Vol, F: Forest, intl: bool, d: int, h: nat)
    requires Linked(v, F, intl) && d in F.chains && h < HT_SIZE
    ensures |F.chains[d]| == HT_SIZE
    ensures var chain, x := F.chains[d][h], LinkPoint(F, d, h);
            && x == (if chain == [] then d else chain[|chain| - 1])
            && OnDisk(v, x) && NodeAt(v, x).secType in {ST_ROOT, ST_DIR, ST_FILE}
            && (chain != [] ==> NodeAt(v, x).headerKey == x && NodeAt(v, x).secType != ST_ROOT)
            && (chain == [] ==> NodeAt(v, x).secType == (if x == v.root then ST_ROOT else ST_DIR))
            && (chain == [] && x != v.root ==> NodeAt(v, x).headerKey == x)
  {
    hide Linked, Hash, ForestOK;
    LinkedDir(v, F, intl, d);
    if F.chains[d][h] != [] {
      LinkedParts(v, F, intl);
      ChainPlaces(F, d, h, |F.chains[d][h]| - 1);
      LinkedEntry(v, F, intl, F.chains[d][h][|F.chains[d][h]| - 1]);
    }
  }

  lemma EmptyChainIsNew(v: Vol, F: Forest, intl: bool, d: int, name: seq<byte>)
    requires Linked(v, F, intl) && d in F.chains && |F.chains[d]| == HT_SIZE
    requires ChainOf(F, d, name, intl) == []
    ensures NewName(v, F, intl, d, name)
  {
    NotFound(v, F, intl, d, name);
  }

  lemma AddEntryIs(v: Vol, F: Forest, d: int, h: nat, s: int, n: Node)
    requires h < HT_SIZE && d in F.chains && |F.chains[d]| == HT_SIZE
    requires OnDisk(v, LinkPoint(F, d, h))
    requires var m := NodeAt(v, LinkPoint(F, d, h));
             n == if F.chains[d][h] == [] then m.(slots := m.slots[h := s]) else m.(nextSameHash := s)
    ensures AddEntry(v, F, d, h, s) == SetNode(v, LinkPoint(F, d, h), Seal(n))
  {
    var x := LinkPoint(F, d, h);
    var w := SetNode(v, x, n);
    assert LinkIn(v, F, d, h, s) == w && NodeAt(w, x) == n;
    assert SetNode(w, x, Seal(n)).disk == v.disk[x := Meta(Seal(n))];
  }

  /**
    adfCreateEntry: an entry whose name is new is linked into its chain, at a sector that
    was free unless one is given; otherwise nothing changes. A block that is no directory
    gets a pointer to the entry where it has none, and is written as a directory.
  */
  method CreateEntry(vol: AdfVolume, dir: Node, name: seq<byte>, thisSect: int, ghost F: Forest, ghost d: int)
    returns (newSect: int, dir': Node)
    requires vol.Valid() && Linked(vol.V(), F, vol.intl) && dir == NodeAt(vol.V(), d)
    requires d !in F.chains ==> Barren(vol.V(), d) && ReadEntry(vol.V(), d) == Some(dir)
    modifies vol.disk, vol.Bits()
    ensures VolOK(old(vol.V())) && vol.Valid()
    ensures d in F.chains ==> |F.chains[d]| == HT_SIZE
    ensures d in F.chains ==>
              if Refused(old(vol.V()), F, vol.intl, d, name, thisSect) then newSect == -1 && vol.V() == old(vol.V())
              else
                && newSect == (if thisSect != -1 then thisSect else FirstFree(old(vol.V())))
                && vol.V() == AddEntry(WithSector(old(vol.V()), thisSect, newSect), F, d, Hash(name, vol.intl), newSect)
    ensures d !in F.chains ==>
              if RefusedAt(old(vol.V()), dir, vol.intl, name, thisSect) then newSect == -1 && vol.V() == old(vol.V())
              else
                && newSect == (if thisSect != -1 then thisSect else FirstFree(old(vol.V())))
                && vol.V() == SetNode(WithSector(old(vol.V()), thisSect, newSect), d, AsDirectory(dir, Hash(name, vol.intl), newSect))
  {
    hide Linked, Hash, Upper, NewName, NodeAt, UpperName, HasPlace, AddEntry, Seal, LinkPoint, SetNode, FreeInOrder, ReadEntry;
    ghost var v := vol.V();
    vol.VIsOK();
    newSect, dir' := -1, dir;
    if |name| > MAX_NAME_LEN {
      TableOf(v, F, vol.intl, d);
      return;
    }
    var hashValue := GetHashValue(name, vol.intl);
    var nSect := dir.slots[hashValue];
    TableOf(v, F, vol.intl, d);
    if d in F.chains {
      HeadOfChain(v, F, vol.intl, d, hashValue);
      TailFacts(v, F, vol.intl, d, hashValue);
      EndOfChain(v, F, vol.intl, d, hashValue, 0);
      if nSect == 0 {
        EmptyChainIsNew(v, F, vol.intl, d, name);
      }
    }
    if nSect == 0 {
      newSect := SectorFor(vol, thisSect);
      if newSect == -1 {
        return;
      }
      FreeIsApart(v, F, vol.intl, vol.V().free);
      dir' := dir.(slots := dir.slots[hashValue := newSect]);
      var rc;
      if d in F.chains {
        AddEntryIs(vol.V(), F, d, hashValue, newSect, dir');
        SealOfDir(dir');
      }
      if dir'.secType == ST_ROOT {
        rc := WriteParent(vol, vol.rootBlock, dir');
      } else {
        rc := WriteParent(vol, dir'.headerKey, dir');
      }
    } else {
      var refused, last, updEntry := LastOfChain(vol, nSect, name, F, d);
      if refused {
        return;
      }
      newSect := SectorFor(vol, thisSect);
      if newSect == -1 {
        return;
      }
      FreeIsApart(v, F, vol.intl, vol.V().free);
      updEntry := updEntry.(nextSameHash := newSect);
      AddEntryIs(vol.V(), F, d, hashValue, newSect, updEntry);
      var rc := WriteByType(vol, updEntry.headerKey, updEntry);
    }
  }

  /** The block of a new file or directory. */
  function NewEntryNode(s: int, d: int, name: seq<byte>, secType: int): Node {
    Node(T_HEADER, s, 0, 0, NoSlots(), 0, name, 0, d, 0, secType)
  }

  /** No block of a directory is free. */
  ghost predicate InUse(v: Vol, F: Forest) {
    && (forall s :: s in F.place ==> s !in v.free)
    && (forall d :: d in F.chains ==> d !in v.free)
  }

  lemma FreeIsUnused(v: Vol, F: Forest, intl: bool, s: int)
    requires Linked(v, F, intl) && VolOK(v) && InUse(v, F) && s in v.free
    ensures Unused(v, F, s)
  {
    hide ForestOK, Distinct, DirOK, EntryOK;
  }

  /** The directories of a volume are whole and their blocks in use. */
  ghost predicate TreeOK(v: Vol, F: Forest, intl: bool) {
    VolOK(v) && DirsOK(v, F, intl) && InUse(v, F)
  }

  /** One new entry: the first free sector is taken for it, and exactly one directory lists one more name. */
  ghost predicate Grew(v: Vol, F: Forest, v': Vol, F': Forest, intl: bool, d: int, n: Node, isDir: bool) {
    var s := n.headerKey;
    && s in v.free && v'.free == v.free - {s} && v'.last == v.last
    && TreeOK(v', F', intl)
    && F'.place.Keys == F.place.Keys + {s}
    && F'.chains.Keys == F.chains.Keys + (if isDir then {s} else {})
    && NodeAt(v', s) == n
    && Listing(v', F', d) == Listing(v, F, d)[s := n.name]
    && forall e :: e != d ==> Listing(v', F', e) == Listing(v, F, e)
  }

  lemma CreatedGrew(v: Vol, F: Forest, intl: bool, d: int, s: int, name: seq<byte>, isDir: bool) returns (F': Forest)
    requires TreeOK(v, F, intl) && d in F.chains && s in v.free
    requires |name| <= MAX_NAME_LEN && NewName(v, F, intl, d, name)
    ensures |F.chains[d]| == HT_SIZE && s != d && s !in F.place && s !in F.chains
    ensures F' == WithEntry(F, d, s, NewEntryNode(s, d, name, if isDir then ST_DIR else ST_FILE), isDir, intl)
    ensures var n := NewEntryNode(s, d, name, if isDir then ST_DIR else ST_FILE);
            Grew(v, F, Created(Take(v, s), F, d, s, n, intl), F', intl, d, n, isDir)
  {
    hide Linked, Listing, Created, Upper, Hash, NodeAt, WithEntry, NewName;
    LinkedDir(v, F, intl, d);
    FreeIsApart(v, F, intl, v.free - {s});
    var w, n := Take(v, s), NewEntryNode(s, d, name, if isDir then ST_DIR else ST_FILE);
    FreeIsUnused(v, F, intl, s);
    NameStillNew(v, w, F, intl, d, name);
    CreateAdds(w, F, intl, d, s, n, isDir);
    F' := WithEntry(F, d, s, n, isDir, intl);
    WithEntryKeys(F, d, s, n, isDir, intl);
    CreatedShape(w, F, d, s, n, intl);
  }

  lemma NameStillNew(v: Vol, w: Vol, F: Forest, intl: bool, d: int, name: seq<byte>)
    requires Listing(w, F, d) == Listing(v, F, d)
    ensures NewName(w, F, intl, d, name) <==> NewName(v, F, intl, d, name)
  {
  }

  lemma WithEntryKeys(F: Forest, d: int, s: int, n: Node, isDir: bool, intl: bool)
    requires d in F.chains && |F.chains[d]| == HT_SIZE && s != d
    ensures var F' := WithEntry(F, d, s, n, isDir, intl);
            && F'.place.Keys == F.place.Keys + {s}
            && F'.chains.Keys == F.chains.Keys + (if isDir then {s} else {})
  {
  }

  lemma CreatedShape(v: Vol, F: Forest, d: int, s: int, n: Node, intl: bool)
    requires d in F.chains && |F.chains[d]| == HT_SIZE
    ensures var v' := Created(v, F, d, s, n, intl);
            v'.root == v.root && v'.last == v.last && v'.free == v.free && |v'.disk| == |v.disk|
  {
    hide Hash;
  }

  lemma AddedShape(v: Vol, F: Forest, d: int, h: nat, s: int)
    requires VolOK(v) && d in F.chains && |F.chains[d]| == HT_SIZE && h < HT_SIZE && s in v.free
    ensures OnDisk(AddEntry(Take(v, s), F, d, h, s), s)
  {
  }

  /** The block `dir` at sector `d`, if it can be read, gets a new entry though it is no directory. */
  ghost predicate TakesEntry(v: Vol, intl: bool, d: int, name: seq<byte>) {
    ReadEntry(v, d).Some? && !RefusedAt(v, ReadEntry(v, d).value, intl, name, -1)
  }

  /** The volume after an entry was created in a block that is no directory. */
  function CreatedAt(v: Vol, intl: bool, d: int, dir: Node, n: Node): Vol {
    SetNode(SetNode(Take(v, n.headerKey), d, AsDirectory(dir, Hash(n.name, intl), n.headerKey)), n.headerKey, Seal(n))
  }

  /**
    adfCreateFile: a file without content, under a name that is new in its directory. Below
    a block that is no directory the file is in no directory, and the block becomes one.
  */
  method CreateFile(vol: AdfVolume, nParent: int, name: seq<byte>, ghost F: Forest)
    returns (rc: Rc, fhdr: Node, ghost F': Forest)
    requires vol.Valid() && TreeOK(vol.V(), F, vol.intl) && (nParent in F.chains || Barren(vol.V(), nParent))
    modifies vol, vol.disk, vol.Bits(), vol.pages
    ensures vol.Valid()
    ensures rc == RcOk <==> if nParent in F.chains then !Refused(old(vol.V()), F, vol.intl, nParent, name, -1)
                            else TakesEntry(old(vol.V()), vol.intl, nParent, name)
    ensures rc != RcOk ==> vol.V() == old(vol.V()) && F' == F
    ensures rc == RcOk && nParent in F.chains ==>
              && fhdr == NewEntryNode(FirstFree(old(vol.V())), nParent, name, ST_FILE)
              && Grew(old(vol.V()), F, vol.V(), F', vol.intl, nParent, fhdr, false)
              && |F.chains[nParent]| == HT_SIZE && fhdr.headerKey != nParent
              && vol.V() == Created(Take(old(vol.V()), fhdr.headerKey), F, nParent, fhdr.headerKey, fhdr, vol.intl)
              && F' == WithEntry(F, nParent, fhdr.headerKey, fhdr, false, vol.intl)
              && vol.FreeOf(vol.pages) == vol.Free()
    ensures rc == RcOk && nParent !in F.chains ==>
              var dir := ReadEntry(old(vol.V()), nParent).value;
              && fhdr == NewEntryNode(FirstFree(old(vol.V())), if dir.secType == ST_DIR then nParent else 0, name, ST_FILE)
              && vol.V() == CreatedAt(old(vol.V()), vol.intl, nParent, dir, fhdr)
              && F' == F && vol.FreeOf(vol.pages) == vol.Free()
  {
    hide Linked, Hash, Upper, NewName, NodeAt, Grew, AddEntry, Created, FreeInOrder, Listing, ReadEntry, Barren, AsDirectory;
    ghost var v := vol.V();
    F' := F;
    fhdr := NewEntryNode(0, 0, [], ST_FILE);
    ParentReads(v, F, vol.intl, nParent);
    var r := ReadEntryBlock(vol, nParent);
    if r.None? {
      return RcError, fhdr, F';
    }
    var parent := r.value;
    var nSect, _ := CreateEntry(vol, parent, name, -1, F, nParent);
    if nSect == -1 {
      return RcError, fhdr, F';
    }
    var p := if parent.secType == ST_ROOT then vol.rootBlock else if parent.secType == ST_DIR then parent.headerKey else 0;
    fhdr := NewEntryNode(nSect, p, name, ST_FILE);
    rc := WriteByType(vol, nSect, fhdr);
    if nParent in F.chains {
      AddedShape(v, F, nParent, Hash(name, vol.intl), nSect);
      F' := CreatedGrew(v, F, vol.intl, nParent, nSect, name, false);
      CreatedIs(Take(v, nSect), F, nParent, nSect, fhdr, vol.intl);
    } else {
      AddedAt(v, nParent, AsDirectory(parent, Hash(name, vol.intl), nSect), nSect);
    }
    vol.UpdateBitmap();
  }

  /** The block of the parent, when it can be read. */
  lemma ParentReads(v: Vol, F: Forest, intl: bool, d: int)
    requires Linked(v, F, intl) && (d in F.chains || Barren(v, d))
    ensures d in F.chains ==> ReadEntry(v, d) == Some(NodeAt(v, d))
    ensures ReadEntry(v, d).Some? ==>
              var n := ReadEntry(v, d).value;
              && n == NodeAt(v, d)
              && (d in F.chains ==> n.secType in {ST_ROOT, ST_DIR} && d == (if n.secType == ST_ROOT then v.root else n.headerKey))
              && (d !in F.chains ==> n.secType in {ST_DIR, ST_FILE} && n.headerKey == d && LeadsNowhere(v, n.slots))
  {
    if d in F.chains {
      LinkedDir(v, F, intl, d);
    }
    hide Linked;
  }

  lemma AddedAt(v: Vol, d: int, n: Node, s: int)
    requires VolOK(v) && s in v.free
    ensures OnDisk(SetNode(Take(v, s), d, n), s)
  {
  }

  lemma DirEntryReads(v: Vol, F: Forest, intl: bool, d: int)
    requires Linked(v, F, intl) && d in F.chains
    ensures ReadEntry(v, d) == Some(NodeAt(v, d))
    ensures d == (if NodeAt(v, d).secType == ST_ROOT then v.root else NodeAt(v, d).headerKey)
  {
    LinkedDir(v, F, intl, d);
    hide Linked;
  }

  lemma CreatedIs(v: Vol, F: Forest, d: int, s: int, n: Node, intl: bool)
    requires d in F.chains && |F.chains[d]| == HT_SIZE
    requires n == NewEntryNode(s, d, n.name, n.secType) && (n.secType == ST_FILE || n.secType == ST_DIR)
    ensures SetNode(AddEntry(v, F, d, Hash(n.name, intl), s), s, Seal(n)) == Created(v, F, d, s, n, intl)
  {
    hide Hash, AddEntry;
  }

  /** adfCreateDir: a directory without entries, likewise. */
  method CreateDir(vol: AdfVolume, nParent: int, name: seq<byte>, ghost F: Forest)
    returns (rc: Rc, ghost F': Forest)
    requires vol.Valid() && TreeOK(vol.V(), F, vol.intl) && (nParent in F.chains || Barren(vol.V(), nParent))
    modifies vol, vol.disk, vol.Bits(), vol.pages
    ensures vol.Valid()
    ensures rc == RcOk <==> if nParent in F.chains then !Refused(old(vol.V()), F, vol.intl, nParent, name, -1)
                            else TakesEntry(old(vol.V()), vol.intl, nParent, name)
    ensures rc != RcOk ==> vol.V() == old(vol.V()) && F' == F
    ensures rc == RcOk && nParent in F.chains ==>
              && vol.FreeOf(vol.pages) == vol.Free()
              && Grew(old(vol.V()), F, vol.V(), F', vol.intl, nParent,
                      NewEntryNode(FirstFree(old(vol.V())), nParent, name, ST_DIR), true)
    ensures rc == RcOk && nParent !in F.chains ==>
              && vol.V() == CreatedAt(old(vol.V()), vol.intl, nParent, ReadEntry(old(vol.V()), nParent).value,
                                      NewEntryNode(FirstFree(old(vol.V())), nParent, name, ST_DIR))
              && F' == F && vol.FreeOf(vol.pages) == vol.Free()
  {
    hide Linked, Hash, Upper, NewName, NodeAt, Grew, AddEntry, Created, FreeInOrder, Listing, ReadEntry, Barren, AsDirectory;
    ghost var v := vol.V();
    F' := F;
    ParentReads(v, F, vol.intl, nParent);
    var r := ReadEntryBlock(vol, nParent);
    if r.None? {
      return RcError, F';
    }
    var parent := r.value;
    var nSect, _ := CreateEntry(vol, parent, name, -1, F, nParent);
    if nSect == -1 {
      return RcError, F';
    }
    var p := if parent.secType == ST_ROOT then vol.rootBlock else parent.headerKey;
    var dir := NewEntryNode(nSect, p, name, ST_DIR);
    rc := WriteByType(vol, nSect, dir);
    if nParent in F.chains {
      AddedShape(v, F, nParent, Hash(name, vol.intl), nSect);
      F' := CreatedGrew(v, F, vol.intl, nParent, nSect, name, true);
      CreatedIs(Take(v, nSect), F, nParent, nSect, dir, vol.intl);
    } else {
      AddedAt(v, nParent, AsDirectory(parent, Hash(name, vol.intl), nSect), nSect);
    }
    vol.UpdateBitmap();
  }
}
