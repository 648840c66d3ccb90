/**
  The invariant of the directories of a volume. A directory block holds 72 chains of
  entries, linked by nextSameHash. A forest lists them: which chain of which directory
  each entry is in, and where. Every entry has one place, so no chain is cyclic and no
  two chains share an entry.
*/
module DirInv {
  import opened Blocks
  import opened Names
  import opened FileInv

  datatype Place = Place(dir: int, bucket: nat, idx: nat)

  /** The chains of each directory, and the place of each entry in them. */
  datatype Forest = Forest(chains: map<int, seq<seq<int>>>, place: map<int, Place>)

  /** Every entry of every chain has exactly one place, and no directory is in itself. */
  ghost predicate ForestOK(F: Forest) {
    && (forall d :: d in F.chains ==> |F.chains[d]| == HT_SIZE)
    && (forall d, h, i :: d in F.chains && 0 <= h < HT_SIZE && 0 <= i < |F.chains[d][h]| ==>
          F.chains[d][h][i] in F.place && F.place[F.chains[d][h][i]] == Place(d, h, i))
    && (forall s :: s in F.place ==> HasPlace(F, s))
  }

  ghost predicate HasPlace(F: Forest, s: int)
    requires s in F.place
  {
    var p := F.place[s];
    && p.dir in F.chains && p.dir != s
    && |F.chains[p.dir]| == HT_SIZE && p.bucket < HT_SIZE
    && p.idx < |F.chains[p.dir][p.bucket]| && F.chains[p.dir][p.bucket][p.idx] == s
  }

  ghost predicate IsNode(v: Vol, s: int) {
    OnDisk(v, s) && v.disk[s].Meta? && v.disk[s].node.typ == T_HEADER
  }

  /** The node at a sector; a blank one where there is none. */
  function NodeAt(v: Vol, s: int): Node {
    if OnDisk(v, s) && v.disk[s].Meta? then v.disk[s].node else Node(0, 0, 0, 0, NoSlots(), 0, [], 0, 0, 0, 0)
  }

  ghost predicate NameOK(n: Node) {
    |n.name| <= MAX_NAME_LEN
  }

  /** An entry block in chain `h` of directory `d`, before entry `next`. */
  ghost predicate EntryNode(n: Node, s: int, d: int, h: nat, next: int, isDir: bool, intl: bool) {
    && n.headerKey == s && n.parent == d && n.nextSameHash == next
    && NameOK(n) && Hash(n.name, intl) == h
    && n.secType == (if isDir then ST_DIR else ST_FILE)
  }

  ghost predicate EntryOK(v: Vol, F: Forest, intl: bool, s: int)
    requires s in F.place && HasPlace(F, s)
  {
    var p := F.place[s];
    && 2 <= s && IsNode(v, s) && s != v.root
    && EntryNode(NodeAt(v, s), s, p.dir, p.bucket, PtrOrZero(F.chains[p.dir][p.bucket], p.idx + 1), s in F.chains, intl)
  }

  /** A root block is no entry: it names no sector, no parent and no entry behind it. */
  predicate PlainRoot(n: Node) {
    n.headerKey == 0 && n.parent == 0 && n.nextSameHash == 0 && n.firstData == 0
  }

  /** A directory block: its hash table points at the first entries of its chains, and it has no directory cache. */
  ghost predicate DirOK(v: Vol, F: Forest, d: int)
    requires d in F.chains && |F.chains[d]| == HT_SIZE
  {
    && 2 <= d && IsNode(v, d)
    && NodeAt(v, d).secType == (if d == v.root then ST_ROOT else ST_DIR)
    && (d != v.root ==> NodeAt(v, d).headerKey == d && NodeAt(v, d).extension == 0)
    && (d == v.root ==> PlainRoot(NodeAt(v, d)))
    && NodeAt(v, d).highSeq == 0
    && forall h :: 0 <= h < HT_SIZE ==> NodeAt(v, d).slots[h] == PtrOrZero(F.chains[d][h], 0)
  }

  /** The name of an entry, as it was given. */
  function NameOf(v: Vol, s: int): seq<byte> {
    NodeAt(v, s).name
  }

  function UpperName(v: Vol, s: int, intl: bool): seq<byte> {
    Upper(NameOf(v, s), intl)
  }

  /** No two entries of a directory have the same name, without regard to case. */
  ghost predicate Distinct(v: Vol, F: Forest, intl: bool) {
    forall s, t :: s in F.place && t in F.place && s != t && F.place[s].dir == F.place[t].dir ==>
      UpperName(v, s, intl) != UpperName(v, t, intl)
  }

  /** All chains are as the forest says. */
  ghost predicate Linked(v: Vol, F: Forest, intl: bool) {
    && 2 < v.root <= v.last && |v.disk| == v.last + 1
    && ForestOK(F)
    && (forall d :: d in F.chains ==> DirOK(v, F, d))
    && (forall s :: s in F.place ==> EntryOK(v, F, intl, s))
    && Distinct(v, F, intl)
    && v.root in F.chains
  }

  /** Every directory but the root is an entry itself. */
  ghost predicate DirsOK(v: Vol, F: Forest, intl: bool) {
    && Linked(v, F, intl)
    && forall d :: d in F.chains ==> d == v.root || d in F.place
  }

  /** What a directory lists: its entries and their names. */
  ghost function Listing(v: Vol, F: Forest, d: int): map<int, seq<byte>> {
    map s | s in F.place && F.place[s].dir == d :: NameOf(v, s)
  }

  /** Is the name, without regard to case, one of those listed? */
  ghost predicate HasName(m: map<int, seq<byte>>, intl: bool, name: seq<byte>) {
    exists s :: s in m && Upper(m[s], intl) == Upper(name, intl)
  }

  /** A name stands for at most one entry, without regard to case. */
  lemma ListingInjective(v: Vol, F: Forest, intl: bool, d: int, s: int, t: int)
    requires Linked(v, F, intl) && s in Listing(v, F, d) && t in Listing(v, F, d)
    requires Upper(Listing(v, F, d)[s], intl) == Upper(Listing(v, F, d)[t], intl)
    ensures s == t
  {
    hide Upper, NameOf, ForestOK, DirOK, EntryOK;
  }

  /** The chain a name belongs to. */
  ghost function ChainOf(F: Forest, d: int, name: seq<byte>, intl: bool): seq<int>
    requires d in F.chains && |F.chains[d]| == HT_SIZE
  {
    F.chains[d][Hash(name, intl)]
  }

  lemma ChainPlaces(F: Forest, d: int, h: nat, i: nat)
    requires ForestOK(F) && d in F.chains && h < HT_SIZE && i < |F.chains[d][h]|
    ensures F.chains[d][h][i] in F.place && F.place[F.chains[d][h][i]] == Place(d, h, i)
  {
  }

  /** An entry is listed exactly if it is in one of the chains; one with a given name, if it is in its chain. */
  lemma ListedInChain(v: Vol, F: Forest, intl: bool, d: int, name: seq<byte>, s: int)
    requires Linked(v, F, intl) && d in F.chains
    requires s in Listing(v, F, d) && Upper(Listing(v, F, d)[s], intl) == Upper(name, intl)
    ensures s in ChainOf(F, d, name, intl)
    ensures F.place[s] == Place(d, Hash(name, intl), F.place[s].idx)
  {
    assert EntryOK(v, F, intl, s);
    SameUpperSameHash(NodeAt(v, s).name, name, intl);
    assert HasPlace(F, s);
  }
}
