/**
  The blocks of a mounted volume, as values: the disk, the set of free sectors,
  and the circular first-fit order in which the allocator looks for free sectors.
  Models the block structures of adf_blk.h and the scan of adfGetFreeBlocks.
*/
module Blocks {

  type byte = b: int | 0 <= b < 256

  const U32 := 0x1_0000_0000

  /** The 72 data block pointers of a header or extension block; a directory's hash table. */
  type Slots = s: seq<int> | |s| == 72 witness seq(72, _ => 0)

  /** The bytes of one 512-byte block. */
  type Buf = b: seq<byte> | |b| == 512 witness seq(512, _ => 0)

  function NoSlots(): Slots { seq(72, _ => 0) }
  function ZeroBuf(): Buf { seq(512, _ => 0) }

  /* Primary and secondary block types. */
  const T_HEADER := 2
  const T_LIST := 16
  const ST_ROOT := 1
  const ST_DIR := 2
  const ST_FILE := -3

  /**
    A block with block pointers, once decoded: a file header, a file extension
    block, a directory or the root. They share one layout on disk, and the
    library reads and writes them through each other's structures.
  */
  datatype Node = Node(
    typ: int,
    headerKey: int,
    highSeq: int,
    firstData: int,
    slots: Slots,
    byteSize: nat,
    name: seq<byte>,
    nextSameHash: int,
    parent: int,
    extension: int,
    secType: int)

  datatype Block = Data(bytes: Buf) | Meta(node: Node)

  /** Pointer number `k` of a node: pointers are stored in reverse order. */
  function Slot(n: Node, k: int): int
    requires 0 <= k < 72
  {
    n.slots[71 - k]
  }

  function SetSlot(n: Node, k: int, x: int): Node
    requires 0 <= k < 72
  {
    n.(slots := n.slots[71 - k := x])
  }

  /** The disk and the free sectors of a volume whose sectors are 0 to `last`. */
  datatype Vol = Vol(root: int, last: int, disk: seq<Block>, free: set<int>)

  /** Sectors 0 and 1 hold the boot block and are not in the bitmap. */
  predicate VolOK(v: Vol) {
    && 2 < v.root <= v.last
    && |v.disk| == v.last + 1
    && forall s :: s in v.free ==> 2 <= s <= v.last
  }

  predicate OnDisk(v: Vol, s: int) {
    0 <= s <= v.last && s < |v.disk|
  }

  /** Storing a block outside the volume is refused and changes nothing. */
  function Store(v: Vol, s: int, b: Block): Vol {
    if OnDisk(v, s) then v.(disk := v.disk[s := b]) else v
  }

  datatype Option<T> = None | Some(value: T)

  /** A list, and the rest of it, if that is found. */
  function After(found: seq<int>, rest: Option<seq<int>>): Option<seq<int>> {
    match rest
    case None => None
    case Some(r) => Some(found + r)
  }

  lemma AfterNothing(rest: Option<seq<int>>)
    ensures After([], rest) == rest
  {
    if rest.Some? {
      assert [] + rest.value == rest.value;
    }
  }

  lemma AfterAfter(a: seq<int>, b: seq<int>, rest: Option<seq<int>>)
    ensures After(a, After(b, rest)) == After(a + b, rest)
  {
    if rest.Some? {
      assert a + (b + rest.value) == a + b + rest.value;
    }
  }

  /** A header, extension, directory or root block; None if out of range or its checksum fails. */
  function ReadNode(v: Vol, s: int): Option<Node> {
    if OnDisk(v, s) && v.disk[s].Meta? then Some(v.disk[s].node) else None
  }

  /** A data block; sector 0 can never be one. */
  function ReadData(v: Vol, s: int): Option<Buf> {
    if s >= 1 && OnDisk(v, s) && v.disk[s].Data? then Some(v.disk[s].bytes) else None
  }

  /** The sector the allocator looks at in step `k` of its scan. */
  function Circ(root: int, last: int, k: nat): int {
    if root + k <= last then root + k else root + k - last + 1
  }

  /** The free sectors among the first `k` of the scan, in the order of the scan. */
  function FreeInOrder(free: set<int>, root: int, last: int, k: nat): seq<int> {
    if k == 0 then []
    else
      var before := FreeInOrder(free, root, last, k - 1);
      var s := Circ(root, last, k - 1);
      if s in free then before + [s] else before
  }

  /** All free sectors in the order of the scan, which ends before the root comes up again. */
  function ScanOrder(v: Vol): seq<int>
    requires 2 < v.root <= v.last
  {
    FreeInOrder(v.free, v.root, v.last, v.last - 1)
  }

  ghost predicate NoDuplicates(s: seq<int>) {
    forall i, j :: 0 <= i < j < |s| ==> s[i] != s[j]
  }

  lemma {:induction false} FreeInOrderMembers(free: set<int>, root: int, last: int, k: nat)
    requires 2 < root <= last && k <= last - 1
    ensures var o := FreeInOrder(free, root, last, k);
            && NoDuplicates(o)
            && (forall x :: x in o <==> x in free && exists i :: 0 <= i < k && Circ(root, last, i) == x)
  {
    if k > 0 {
      FreeInOrderMembers(free, root, last, k - 1);
      var before := FreeInOrder(free, root, last, k - 1);
      var s := Circ(root, last, k - 1);
      assert forall i :: 0 <= i < k - 1 ==> Circ(root, last, i) != s;
      assert s !in before;
      var o := FreeInOrder(free, root, last, k);
      forall x ensures x in o <==> x in free && exists i :: 0 <= i < k && Circ(root, last, i) == x {
        if x in free && x == s {
          assert o[|o| - 1] == x;
        }
        if x in before {
          var i :| 0 <= i < k - 1 && Circ(root, last, i) == x;
        }
      }
    }
  }

  /** The scan meets every free sector exactly once. */
  lemma ScanOrderIsFree(v: Vol)
    requires VolOK(v)
    ensures NoDuplicates(ScanOrder(v))
    ensures forall x :: x in ScanOrder(v) <==> x in v.free
    ensures |ScanOrder(v)| == |v.free|
  {
    FreeInOrderMembers(v.free, v.root, v.last, v.last - 1);
    forall x | x in v.free ensures x in ScanOrder(v) {
      var i := if x >= v.root then x - v.root else x + v.last - 1 - v.root;
      assert Circ(v.root, v.last, i) == x;
    }
    DistinctCount(ScanOrder(v), v.free);
  }

  lemma {:induction false} DistinctCount(s: seq<int>, elems: set<int>)
    requires NoDuplicates(s)
    requires forall x :: x in s <==> x in elems
    ensures |s| == |elems|
  {
    if s == [] {
      assert forall x :: x in elems ==> x in s;
    } else {
      var x, init := s[|s| - 1], s[..|s| - 1];
      assert forall y :: y in init <==> y in elems - {x};
      DistinctCount(init, elems - {x});
    }
  }

  /** The sectors from the root on come first, then those before it; both from the least one on. */
  predicate Sooner(root: int, x: int, y: int) {
    if x >= root then y > x || y < root else x < y < root
  }

  predicate AllSooner(root: int, o: seq<int>, y: int) {
    forall i :: 0 <= i < |o| ==> Sooner(root, o[i], y)
  }

  predicate GoesUp(root: int, o: seq<int>) {
    forall j :: 0 <= j < |o| ==> AllSooner(root, o[..j], o[j])
  }

  lemma OneMoreSooner(root: int, o: seq<int>, s: int, next: int)
    requires AllSooner(root, o, s) && Sooner(root, s, next) && GoesUp(root, o)
    ensures AllSooner(root, o, next) && AllSooner(root, o + [s], next) && GoesUp(root, o + [s])
  {
    forall j | 0 <= j < |o + [s]| ensures AllSooner(root, (o + [s])[..j], (o + [s])[j]) {
      assert (o + [s])[..j] == o[..j];
      if j == |o| {
        assert o[..j] == o;
      }
    }
  }

  lemma LastSooner(root: int, o: seq<int>, s: int)
    requires AllSooner(root, o, s) && GoesUp(root, o)
    ensures GoesUp(root, o + [s])
  {
    forall j | 0 <= j < |o + [s]| ensures AllSooner(root, (o + [s])[..j], (o + [s])[j]) {
      assert (o + [s])[..j] == o[..j];
      if j == |o| {
        assert o[..j] == o;
      }
    }
  }

  /** The scan goes up from the root to the end of the volume, and on from sector 2. */
  lemma {:induction false} ScanGoesUp(v: Vol, k: nat)
    requires VolOK(v) && k <= v.last - 1
    ensures GoesUp(v.root, FreeInOrder(v.free, v.root, v.last, k))
    ensures k < v.last - 1 ==> AllSooner(v.root, FreeInOrder(v.free, v.root, v.last, k), Circ(v.root, v.last, k))
  {
    hide GoesUp, AllSooner;
    if k == 0 {
      NothingSooner(v.root, Circ(v.root, v.last, 0));
    } else {
      ScanGoesUp(v, k - 1);
      var before, s := FreeInOrder(v.free, v.root, v.last, k - 1), Circ(v.root, v.last, k - 1);
      LastSooner(v.root, before, s);
      if k < v.last - 1 {
        OneMoreSooner(v.root, before, s, Circ(v.root, v.last, k));
      }
    }
  }

  lemma NothingSooner(root: int, y: int)
    ensures GoesUp(root, []) && AllSooner(root, [], y)
  {
  }

  /** The sector one allocation takes, or -1: the first free sector of the scan. */
  function FirstFree(v: Vol): (s: int)
    requires VolOK(v)
    ensures s == -1 <==> v.free == {}
    ensures s != -1 ==> s in v.free
  {
    ScanOrderIsFree(v);
    var o := ScanOrder(v);
    if o == [] then -1 else (assert o[0] in o; o[0])
  }

  function Elements(s: seq<int>): set<int> {
    set x | x in s
  }

  function Take(v: Vol, s: int): Vol {
    v.(free := v.free - {s})
  }
}
