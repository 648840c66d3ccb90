/** The blocks a shrinking file gives up: each one beyond the new size, exactly once. */
module FileTruncate {
  import opened FileUtil
  import opened Blocks
  import opened FileSpec
  import opened FileInv
  import opened FileSeek
  import opened FileBlocks
  import opened TruncateSpec

  /** Extension block `i` and its successors, each after the data blocks it lists. */
  function RemovalFrom(L: Layout, i: nat): seq<int>
    decreases |L.exts| - i
  {
    if i >= |L.exts| then []
    else
      var from := MAX_DATABLK * (i + 1);
      var end := Min(|L.data|, from + MAX_DATABLK);
      (if from <= end then L.data[from..end] else []) + [L.exts[i]] + RemovalFrom(L, i + 1)
  }

  /** All blocks beyond the first `n'` data blocks, in the order they are listed. */
  function RemovalOrder(L: Layout, n': nat): seq<int>
    requires n' <= |L.data|
  {
    var e' := Datablocks2Extblocks(n');
    L.data[n'..Min(|L.data|, MAX_DATABLK * (e' + 1))] + RemovalFrom(L, e')
  }

  /* ---- each block exactly once ---- */

  lemma MultisetSplit(s: seq<int>, a: nat, b: nat)
    requires a <= b <= |s|
    ensures multiset(s[a..]) == multiset(s[a..b]) + multiset(s[b..])
  {
    assert s[a..] == s[a..b] + s[b..];
  }

  /** The data blocks that extension block `i` and its successors list. */
  function ListedFrom(L: Layout, i: nat): seq<int> {
    if i < |L.exts| && MAX_DATABLK * (i + 1) <= |L.data| then L.data[MAX_DATABLK * (i + 1)..] else []
  }

  lemma ExtBounds(n: nat, e: nat, i: nat)
    requires i < e == Datablocks2Extblocks(n)
    ensures var from, end := MAX_DATABLK * (i + 1), Min(n, MAX_DATABLK * (i + 1) + MAX_DATABLK);
            from <= end <= n && (if i + 1 < e then end == MAX_DATABLK * (i + 2) else end == n)
  {
  }

  /** Extension block `i`, what it lists, and the rest. */
  lemma RemovalStep(L: Layout, i: nat)
    requires i < |L.exts| == Datablocks2Extblocks(|L.data|)
    ensures multiset(RemovalFrom(L, i)) + multiset(ListedFrom(L, i + 1)) ==
            multiset(ListedFrom(L, i)) + multiset{L.exts[i]} + multiset(RemovalFrom(L, i + 1))
  {
    ExtBounds(|L.data|, |L.exts|, i);
    hide Datablocks2Extblocks;
    var from := MAX_DATABLK * (i + 1);
    var end := Min(|L.data|, from + MAX_DATABLK);
    MultisetSplit(L.data, from, end);
    RemovalUnfolds(L, i, from, end);
    hide RemovalFrom;
    assert ListedFrom(L, i + 1) == L.data[end..];
  }

  lemma RemovalUnfolds(L: Layout, i: nat, from: nat, end: nat)
    requires i < |L.exts| && from == MAX_DATABLK * (i + 1) <= end == Min(|L.data|, from + MAX_DATABLK)
    ensures RemovalFrom(L, i) == L.data[from..end] + [L.exts[i]] + RemovalFrom(L, i + 1)
  {
  }

  lemma {:induction false} RemovalFromAll(L: Layout, i: nat)
    requires i <= |L.exts| == Datablocks2Extblocks(|L.data|)
    ensures multiset(RemovalFrom(L, i)) == multiset(ListedFrom(L, i)) + multiset(L.exts[i..])
    decreases |L.exts| - i
  {
    hide RemovalFrom, ListedFrom, Datablocks2Extblocks;
    if i < |L.exts| {
      RemovalFromAll(L, i + 1);
      RemovalStep(L, i);
      FirstExt(L.exts, i);
      CancelCommon(multiset(RemovalFrom(L, i)), multiset(ListedFrom(L, i + 1)), multiset(ListedFrom(L, i)), multiset{L.exts[i]},
                   multiset(RemovalFrom(L, i + 1)), multiset(L.exts[i + 1..]));
    } else {
      NothingFromHere(L);
    }
  }

  lemma FirstExt(s: seq<int>, i: nat)
    requires i < |s|
    ensures multiset(s[i..]) == multiset{s[i]} + multiset(s[i + 1..])
  {
    assert s[i..] == [s[i]] + s[i + 1..];
  }

  lemma NothingFromHere(L: Layout)
    ensures RemovalFrom(L, |L.exts|) == [] && ListedFrom(L, |L.exts|) == [] && L.exts[|L.exts|..] == []
  {
  }

  lemma CancelCommon(a: multiset<int>, f: multiset<int>, g: multiset<int>, s: multiset<int>, r: multiset<int>, x: multiset<int>)
    requires a + f == g + s + r && r == f + x
    ensures a == g + (s + x)
  {
    forall y ensures a[y] == (g + (s + x))[y] {
      assert (a + f)[y] == (g + s + r)[y];
    }
  }

  lemma RemovalBounds(L: Layout, n': nat)
    requires n' <= |L.data| && |L.exts| == Datablocks2Extblocks(|L.data|)
    ensures var e' := Datablocks2Extblocks(n');
            var end := Min(|L.data|, MAX_DATABLK * (e' + 1));
            && e' <= |L.exts| && n' <= end
            && (e' < |L.exts| ==> end == MAX_DATABLK * (e' + 1)) && (e' == |L.exts| ==> end == |L.data|)
  {
  }

  /** The list holds each data block and each extension block beyond the new size exactly once, and no other. */
  lemma RemovalOrderExact(L: Layout, n': nat)
    requires n' <= |L.data| && |L.exts| == Datablocks2Extblocks(|L.data|)
    ensures var e' := Datablocks2Extblocks(n');
            && e' <= |L.exts|
            && multiset(RemovalOrder(L, n')) == multiset(L.data[n'..]) + multiset(L.exts[e'..])
            && |RemovalOrder(L, n')| == |L.data| + |L.exts| - (n' + e')
  {
    hide RemovalFrom, Datablocks2Extblocks;
    RemovalBounds(L, n');
    var e' := Datablocks2Extblocks(n');
    RemovalFromAll(L, e');
    var end := Min(|L.data|, MAX_DATABLK * (e' + 1));
    MultisetSplit(L.data, n', end);
    assert ListedFrom(L, e') == L.data[end..];
    var all := multiset(RemovalOrder(L, n'));
    assert all == multiset(L.data[n'..end]) + multiset(RemovalFrom(L, e'));
    assert |all| == |multiset(L.data[n'..])| + |multiset(L.exts[e'..])|;
  }

  /* ---- the walk finds them ---- */

  lemma LastInExtIs(n: nat, e: nat, i: nat)
    requires i < e == Datablocks2Extblocks(n)
    ensures LastInExt(n, e, i) == Min(n, MAX_DATABLK * (i + 2)) - MAX_DATABLK * (i + 1)
    ensures 0 < LastInExt(n, e, i) <= 72
  {
  }

  lemma HdrRange(x: Node, L: Layout, from: nat, end: nat)
    requires HdrOK(x, L) && from <= end <= 72 && end <= |L.data|
    ensures SlotRange(x, from, end) == L.data[from..end]
  {
    forall k | 0 <= k < end - from ensures SlotRange(x, from, end)[k] == L.data[from..end][k] {
      assert SlotRange(x, from, end)[k] == Slot(x, from + k);
    }
  }

  /** The last pointer to remove from the extension block that becomes the last one. */
  lemma LastToRemove(n: nat, n': nat)
    requires MAX_DATABLK < n' < n
    ensures var e, e' := Datablocks2Extblocks(n), Datablocks2Extblocks(n');
            && 1 <= e' <= e && MAX_DATABLK * e' < n' <= MAX_DATABLK * (e' + 1)
            && (n' % MAX_DATABLK != 0 ==> n' == MAX_DATABLK * e' + n' % MAX_DATABLK)
            && (n' % MAX_DATABLK == 0 ==> n' == MAX_DATABLK * (e' + 1))
            && var last := if e' == e then LastInExt(n, e', e' - 1) else MAX_DATABLK;
               0 <= last <= 72 && MAX_DATABLK * e' + last == Min(n, MAX_DATABLK * (e' + 1))
  {
    var e, e' := Datablocks2Extblocks(n), Datablocks2Extblocks(n');
    if e' == e {
      LastInExtIs(n, e, e' - 1);
    }
  }

  lemma NoExts(n: nat)
    ensures Datablocks2Extblocks(n) >= 1 <==> n > MAX_DATABLK
  {
  }

  /**
    On the disk, extension block `j` has the pointers to the data blocks behind the first
    `n'` ones, and its link.
  */
  ghost predicate ExtBeyond(v: Vol, L: Layout, j: int, n': nat) {
    && 0 <= j < |L.exts| && OnDisk(v, L.exts[j]) && v.disk[L.exts[j]].Meta?
    && var x := v.disk[L.exts[j]].node;
       && x.extension == PtrOrZero(L.exts, j + 1)
       && forall k {:trigger Slot(x, k)} :: 0 <= k < 72 && n' <= MAX_DATABLK * (j + 1) + k < |L.data| ==>
            Slot(x, k) == L.data[MAX_DATABLK * (j + 1) + k]
  }

  /** All extension blocks but the last one are on the disk, as they are for every open file. */
  ghost predicate ChainBefore(v: Vol, hdr: Node, L: Layout) {
    Base(v, hdr, L) && forall j :: 0 <= j < |L.exts| - 1 ==> ExtOnDisk(v, L, j)
  }

  lemma InvChain(s: FS, L: Layout)
    requires Inv(s, L)
    ensures ChainBefore(s.v, s.h.hdr, L)
  {
    if Fresh(s.h, L) && |L.data| > MAX_DATABLK {
      LastCached(s.h, L);
      forall j | 0 <= j < |L.exts| - 1 ensures ExtOnDisk(s.v, L, j) {
        assert L.own[L.exts[j]] == IsExt(j);
        assert L.own[L.exts[|L.exts| - 1]] == IsExt(|L.exts| - 1);
        assert IsCachedExt(s.h, L, j) || ExtOnDisk(s.v, L, j);
      }
    }
  }

  lemma LastCached(h: Handle, L: Layout)
    requires CursorOK(h, L) && Fresh(h, L) && |L.data| > MAX_DATABLK && |L.exts| == Datablocks2Extblocks(|L.data|)
    ensures |L.exts| > 0 && h.ext.Some? && h.ext.value.headerKey == L.exts[|L.exts| - 1]
  {
  }

  lemma WholeChain(v: Vol, hdr: Node, L: Layout, n': nat)
    requires ChainOnDisk(v, hdr, L)
    ensures ChainBefore(v, hdr, L) && forall j :: 0 <= j < |L.exts| ==> ExtBeyond(v, L, j, n')
  {
    forall j | 0 <= j < |L.exts| ensures ExtBeyond(v, L, j, n') {
      assert ExtOnDisk(v, L, j);
    }
  }

  lemma ReadIsMeta(v: Vol, s: int)
    ensures ReadNode(v, s).Some? <==> OnDisk(v, s) && v.disk[s].Meta?
    ensures ReadNode(v, s).Some? ==> ReadNode(v, s).value == v.disk[s].node
  {
  }

  lemma ExtKeys(v: Vol, hdr: Node, L: Layout, i: nat)
    requires Base(v, hdr, L) && i < |L.exts|
    ensures L.exts[i] > 0 && |L.exts| == Datablocks2Extblocks(|L.data|) && HdrOK(hdr, L)
  {
    assert L.own[L.exts[i]] == IsExt(i);
  }

  /** What extension block `i` on the disk gives of the pointers from `from` to `end` - 1. */
  lemma ExtRange(x: Node, L: Layout, i: nat, from: nat, end: nat)
    requires from <= end <= 72 && MAX_DATABLK * (i + 1) + end <= |L.data|
    ensures var base := MAX_DATABLK * (i + 1);
            SlotRange(x, from, end) == L.data[base + from..base + end] <==>
            forall k {:trigger Slot(x, k)} :: from <= k < end ==> Slot(x, k) == L.data[base + k]
  {
    var base := MAX_DATABLK * (i + 1);
    var r, d := SlotRange(x, from, end), L.data[base + from..base + end];
    if r == d {
      forall k | from <= k < end ensures Slot(x, k) == L.data[base + k] {
        assert r[k - from] == d[k - from];
      }
    }
    if forall k {:trigger Slot(x, k)} :: from <= k < end ==> Slot(x, k) == L.data[base + k] {
      forall k | 0 <= k < end - from ensures r[k] == d[k] {
        assert r[k] == Slot(x, from + k);
      }
    }
  }

  /** Which pointers of extension block `i` count. */
  lemma BeyondIs(v: Vol, L: Layout, i: nat, n': nat, from: nat, end: nat)
    requires i < |L.exts| && OnDisk(v, L.exts[i]) && v.disk[L.exts[i]].Meta?
    requires from <= end <= 72 && MAX_DATABLK * (i + 1) + end == Min(|L.data|, MAX_DATABLK * (i + 2))
    requires if n' <= MAX_DATABLK * (i + 1) then from == 0 else n' == MAX_DATABLK * (i + 1) + from
    ensures var x := v.disk[L.exts[i]].node;
            ExtBeyond(v, L, i, n') <==>
            && x.extension == PtrOrZero(L.exts, i + 1)
            && SlotRange(x, from, end) == L.data[MAX_DATABLK * (i + 1) + from..MAX_DATABLK * (i + 1) + end]
  {
    ExtRange(v.disk[L.exts[i]].node, L, i, from, end);
  }

  /** Both lists begin alike; they are the same if their rests are. */
  lemma SameRest(a: seq<int>, rest: Option<seq<int>>, b: seq<int>)
    ensures After(a, rest) == Some(a + b) <==> rest == Some(b)
  {
    if rest.Some? && a + rest.value == a + b {
      assert (a + rest.value)[|a|..] == rest.value && (a + b)[|a|..] == b;
    }
  }

  lemma SameFirst(a: seq<int>, b: seq<int>, c: seq<int>, d: seq<int>)
    requires |a| == |b|
    ensures a + c == b + d <==> a == b && c == d
  {
    if a + c == b + d {
      assert (a + c)[..|a|] == a && (b + d)[..|b|] == b;
      assert (a + c)[|a|..] == c && (b + d)[|b|..] == d;
    }
  }

  /** The walk from the last extension block on is right exactly if that block is on the disk. */
  lemma LastExtExact(v: Vol, hdr: Node, L: Layout, n': nat)
    requires Base(v, hdr, L) && |L.exts| > 0 && n' <= MAX_DATABLK * |L.exts|
    ensures var i, n, e := |L.exts| - 1, |L.data|, |L.exts|;
            RemoveExts(v, L.exts[i], n, e, i) == Some(RemovalFrom(L, i)) <==> ExtBeyond(v, L, i, n')
  {
    var i, n, e := |L.exts| - 1, |L.data|, |L.exts|;
    ExtKeys(v, hdr, L, i);
    LastInExtIs(n, e, i);
    ReadIsMeta(v, L.exts[i]);
    var end := LastInExt(n, e, i);
    RemovalUnfolds(L, i, MAX_DATABLK * (i + 1), n);
    NothingFromHere(L);
    hide RemovalFrom, LastInExt, SlotRange, Base, ExtBeyond, Datablocks2Extblocks, ReadNode;
    if ReadNode(v, L.exts[i]).Some? {
      var x := v.disk[L.exts[i]].node;
      BeyondIs(v, L, i, n', 0, end);
      var a, b := SlotRange(x, 0, end), L.data[MAX_DATABLK * (i + 1)..n];
      assert b + [L.exts[i]] + [] == b + [L.exts[i]];
      assert a + [L.exts[i]] + [] == a + [L.exts[i]];
      SameFirst(a, b, [L.exts[i]], [L.exts[i]]);
      assert RemoveExts(v, x.extension, n, e, e) == if x.extension == 0 then Some([]) else None;
    } else {
      NotBeyond(v, L, i, n');
    }
  }

  lemma NotBeyond(v: Vol, L: Layout, i: nat, n': nat)
    requires i < |L.exts| && ReadNode(v, L.exts[i]).None?
    ensures !ExtBeyond(v, L, i, n')
  {
  }

  /** Before that it passes extension blocks that are on the disk. */
  lemma {:induction false} RemoveExtsExact(v: Vol, hdr: Node, L: Layout, i: nat, n': nat)
    requires ChainBefore(v, hdr, L) && i < |L.exts| && n' <= MAX_DATABLK * (i + 1)
    ensures RemoveExts(v, L.exts[i], |L.data|, |L.exts|, i) == Some(RemovalFrom(L, i)) <==>
            ExtBeyond(v, L, |L.exts| - 1, n')
    decreases |L.exts| - i
  {
    hide RemoveExts, RemovalFrom, Base, ExtBeyond, ExtOnDisk;
    if i == |L.exts| - 1 {
      LastExtExact(v, hdr, L, n');
    } else {
      RemoveExtsExact(v, hdr, L, i + 1, n');
      ExtPassed(v, hdr, L, i);
      var x := v.disk[L.exts[i]].node;
      var a := SlotRange(x, 0, LastInExt(|L.data|, |L.exts|, i)) + [L.exts[i]];
      SameRest(a, RemoveExts(v, L.exts[i + 1], |L.data|, |L.exts|, i + 1), RemovalFrom(L, i + 1));
    }
  }

  /** What the disk has in extension block `i`. */
  lemma OnDiskLists(v: Vol, hdr: Node, L: Layout, i: nat, from: nat, end: nat)
    requires Base(v, hdr, L) && i + 1 < |L.exts| && ExtOnDisk(v, L, i)
    requires from <= end <= 72 && MAX_DATABLK * (i + 1) + end <= |L.data|
    ensures OnDisk(v, L.exts[i]) && v.disk[L.exts[i]].Meta? && v.disk[L.exts[i]].node.extension == L.exts[i + 1]
    ensures ReadNode(v, L.exts[i]) == Some(v.disk[L.exts[i]].node) && L.exts[i] > 0
    ensures SlotRange(v.disk[L.exts[i]].node, from, end) == L.data[MAX_DATABLK * (i + 1) + from..MAX_DATABLK * (i + 1) + end]
  {
    ExtKeys(v, hdr, L, i);
    ReadIsMeta(v, L.exts[i]);
    ExtRange(v.disk[L.exts[i]].node, L, i, from, end);
    hide SlotRange, Base;
  }

  /** One extension block that is on the disk, and the rest. */
  lemma ExtPassed(v: Vol, hdr: Node, L: Layout, i: nat)
    requires Base(v, hdr, L) && i + 1 < |L.exts| && ExtOnDisk(v, L, i)
    ensures OnDisk(v, L.exts[i]) && v.disk[L.exts[i]].Meta?
    ensures var x, n, e := v.disk[L.exts[i]].node, |L.data|, |L.exts|;
            var a := SlotRange(x, 0, LastInExt(n, e, i)) + [L.exts[i]];
            && RemoveExts(v, L.exts[i], n, e, i) == After(a, RemoveExts(v, L.exts[i + 1], n, e, i + 1))
            && RemovalFrom(L, i) == a + RemovalFrom(L, i + 1)
  {
    hide SlotRange, LastInExt, RemovalFrom, Base, Datablocks2Extblocks, ExtOnDisk, ReadNode, OnDisk;
    var n, e := |L.data|, |L.exts|;
    ExtKeys(v, hdr, L, i);
    LastInExtIs(n, e, i);
    var end := LastInExt(n, e, i);
    ExtBounds(n, e, i);
    OnDiskLists(v, hdr, L, i, 0, end);
    RemovalUnfolds(L, i, MAX_DATABLK * (i + 1), MAX_DATABLK * (i + 1) + end);
  }

  /** The chain up to extension block `j + k` can be followed. */
  lemma {:induction false} ChainTo(v: Vol, hdr: Node, L: Layout, j: nat, k: nat)
    requires ChainBefore(v, hdr, L) && j + k < |L.exts|
    ensures ExtChain(v, L.exts[j], k) == ReadNode(v, L.exts[j + k])
    decreases k
  {
    ExtKeys(v, hdr, L, j);
    if k > 0 {
      assert ExtOnDisk(v, L, j);
      ChainTo(v, hdr, L, j + 1, k - 1);
    }
  }

  lemma ReadExtNIs(v: Vol, hdr: Node, L: Layout, j: nat)
    requires ChainBefore(v, hdr, L) && j < |L.exts|
    ensures ReadExtBlockN(v, hdr, j) == ReadNode(v, L.exts[j])
  {
    StoredSize(v, hdr, L);
    ExtKeys(v, hdr, L, 0);
    ChainTo(v, hdr, L, 0, j);
  }

  lemma RemoveFirstFromHdr(v: Vol, hdr: Node, L: Layout, n': nat)
    requires HdrOK(hdr, L) && L.exts != [] && |L.data| > MAX_DATABLK && n' <= MAX_DATABLK
    ensures RemoveFirst(v, hdr, n', 0, |L.data|, |L.exts|) == Some((L.data[n'..MAX_DATABLK], L.exts[0]))
  {
    HdrRange(hdr, L, n', MAX_DATABLK);
  }

  lemma RemoveFirstUnfolds(v: Vol, hdr: Node, n': nat, e': nat, n: nat, e: nat)
    requires MAX_DATABLK < n' < n && e == Datablocks2Extblocks(n) && e' == Datablocks2Extblocks(n')
    ensures var last := if e' == e then LastInExt(n, e', e' - 1) else MAX_DATABLK;
            && e' >= 1
            && RemoveFirst(v, hdr, n', e', n, e) ==
               match ReadExtBlockN(v, hdr, e' - 1)
               case None => None
               case Some(x) => Some((if n' % MAX_DATABLK != 0 then SlotRange(x, n' % MAX_DATABLK, last) else [], x.extension))
  {
    LastToRemove(n, n');
    hide ReadExtBlockN, LastInExt, SlotRange;
  }

  /** From an extension block that is not the last one. */
  lemma RemoveFirstFromExt(v: Vol, hdr: Node, L: Layout, n': nat)
    requires ChainBefore(v, hdr, L) && MAX_DATABLK < n' < |L.data| && Datablocks2Extblocks(n') < |L.exts|
    ensures var e' := Datablocks2Extblocks(n');
            && n' <= MAX_DATABLK * (e' + 1) <= |L.data|
            && RemoveFirst(v, hdr, n', e', |L.data|, |L.exts|) == Some((L.data[n'..MAX_DATABLK * (e' + 1)], L.exts[e']))
  {
    hide LastInExt, SlotRange, ReadExtBlockN, RemoveFirst, Base, HdrOK, ExtOnDisk, ReadNode, OnDisk;
    ExtKeys(v, hdr, L, 0);
    var e', n, e := Datablocks2Extblocks(n'), |L.data|, |L.exts|;
    LastToRemove(n, n');
    RemoveFirstUnfolds(v, hdr, n', e', n, e);
    RemovalBounds(L, n');
    hide Datablocks2Extblocks;
    ReadExtNIs(v, hdr, L, e' - 1);
    OnDiskLists(v, hdr, L, e' - 1, n' % MAX_DATABLK, MAX_DATABLK);
    if n' % MAX_DATABLK == 0 {
      assert L.data[n'..MAX_DATABLK * (e' + 1)] == [];
    }
  }

  /** The walk through a file that keeps no more blocks than its header and all but the last extension block list. */
  lemma RemoveBeforeLast(v: Vol, hdr: Node, L: Layout, size': nat, n': nat)
    requires ChainBefore(v, hdr, L) && size' <= hdr.byteSize && n' < |L.data| && |L.data| > MAX_DATABLK
    requires |L.data| == Size2Datablocks(hdr.byteSize, FFS_BLOCK) && n' == Size2Datablocks(size', FFS_BLOCK)
    requires Datablocks2Extblocks(n') < |L.exts|
    ensures BlocksToRemove(v, hdr, size') == Some(RemovalOrder(L, n')) <==> ExtBeyond(v, L, |L.exts| - 1, n')
  {
    hide RemoveFirst, RemoveExts, BlocksToRemove, RemovalFrom, Size2Datablocks, ExtBeyond, HdrOK, Base;
    var e', n, e := Datablocks2Extblocks(n'), |L.data|, |L.exts|;
    ExtKeys(v, hdr, L, e');
    RemovalOrderExact(L, n');
    RemovalBounds(L, n');
    NoExts(n');
    if n' <= MAX_DATABLK {
      RemoveFirstFromHdr(v, hdr, L, n');
    } else {
      RemoveFirstFromExt(v, hdr, L, n');
    }
    hide Datablocks2Extblocks;
    var list := L.data[n'..MAX_DATABLK * (e' + 1)];
    RemoveExtsExact(v, hdr, L, e', n');
    BlocksUnfold(v, hdr, size', n, n', list, L.exts[e']);
    SameRest(list, RemoveExts(v, L.exts[e'], n, e, e'), RemovalFrom(L, e'));
  }

  lemma BlocksUnfold(v: Vol, hdr: Node, size': nat, n: nat, n': nat, list: seq<int>, next: int)
    requires hdr.byteSize >= size' && n' < n && n > MAX_DATABLK
    requires n == Size2Datablocks(hdr.byteSize, FFS_BLOCK) && n' == Size2Datablocks(size', FFS_BLOCK)
    requires RemoveFirst(v, hdr, n', Datablocks2Extblocks(n'), n, Datablocks2Extblocks(n)) == Some((list, next))
    ensures var e, e' := Datablocks2Extblocks(n), Datablocks2Extblocks(n');
            var all := After(list, RemoveExts(v, next, n, e, e'));
            BlocksToRemove(v, hdr, size') == if all.Some? && |all.value| != n + e - (n' + e') then None else all
  {
    hide Size2Datablocks, RemoveFirst, RemoveExts;
    assert Datablocks2Extblocks(n) >= Datablocks2Extblocks(n');
  }

  lemma BlocksNone(v: Vol, hdr: Node, size': nat, n: nat, n': nat)
    requires hdr.byteSize >= size' && n' < n && n > MAX_DATABLK
    requires n == Size2Datablocks(hdr.byteSize, FFS_BLOCK) && n' == Size2Datablocks(size', FFS_BLOCK)
    requires RemoveFirst(v, hdr, n', Datablocks2Extblocks(n'), n, Datablocks2Extblocks(n)) == None
    ensures BlocksToRemove(v, hdr, size') == None
  {
    hide Size2Datablocks, RemoveFirst, RemoveExts;
    assert Datablocks2Extblocks(n) >= Datablocks2Extblocks(n');
  }

  /** What the walk that begins in the last extension block lists. */
  lemma InLastIs(v: Vol, hdr: Node, L: Layout, size': nat, n': nat)
    requires ChainBefore(v, hdr, L) && size' <= hdr.byteSize && MAX_DATABLK < n' < |L.data|
    requires |L.data| == Size2Datablocks(hdr.byteSize, FFS_BLOCK) && n' == Size2Datablocks(size', FFS_BLOCK)
    requires Datablocks2Extblocks(n') == |L.exts|
    ensures var n, e := |L.data|, |L.exts|;
            var from, last := n' % MAX_DATABLK, LastInExt(n, e, e - 1);
            && e > 0 && from < last <= 72 && n' == MAX_DATABLK * e + from && n == MAX_DATABLK * e + last
            && BlocksToRemove(v, hdr, size') ==
               match ReadNode(v, L.exts[e - 1])
               case None => None
               case Some(x) => if x.extension == 0 then Some(SlotRange(x, from, last)) else None
  {
    hide RemoveFirst, BlocksToRemove, Size2Datablocks, HdrOK, Base, LastInExt, SlotRange, ReadExtBlockN;
    var n, e := |L.data|, |L.exts|;
    NoExts(n');
    ExtKeys(v, hdr, L, e - 1);
    LastToRemove(n, n');
    RemoveFirstUnfolds(v, hdr, n', e, n, e);
    LastInExtIs(n, e, e - 1);
    hide Datablocks2Extblocks, RemoveExts;
    ReadExtNIs(v, hdr, L, e - 1);
    var from, last := n' % MAX_DATABLK, LastInExt(n, e, e - 1);
    if ReadNode(v, L.exts[e - 1]).None? {
      BlocksNone(v, hdr, size', n, n');
    } else {
      var x := ReadNode(v, L.exts[e - 1]).value;
      BlocksUnfold(v, hdr, size', n, n', SlotRange(x, from, last), x.extension);
      BehindLast(v, x.extension, n, e);
      assert SlotRange(x, from, last) + [] == SlotRange(x, from, last);
    }
  }

  /** The walk through a file that keeps all its extension blocks: it begins in the last one. */
  lemma RemoveInLast(v: Vol, hdr: Node, L: Layout, size': nat, n': nat)
    requires ChainBefore(v, hdr, L) && size' <= hdr.byteSize && MAX_DATABLK < n' < |L.data|
    requires |L.data| == Size2Datablocks(hdr.byteSize, FFS_BLOCK) && n' == Size2Datablocks(size', FFS_BLOCK)
    requires Datablocks2Extblocks(n') == |L.exts| == Datablocks2Extblocks(|L.data|)
    ensures BlocksToRemove(v, hdr, size') == Some(RemovalOrder(L, n')) <==> ExtBeyond(v, L, |L.exts| - 1, n')
  {
    hide BlocksToRemove, RemovalFrom, Size2Datablocks, ExtBeyond, HdrOK, Base, LastInExt, SlotRange, ChainBefore;
    var n, e := |L.data|, |L.exts|;
    InLastIs(v, hdr, L, size', n');
    NothingFromHere(L);
    hide Datablocks2Extblocks;
    ReadIsMeta(v, L.exts[e - 1]);
    hide ReadNode;
    var from, last := n' % MAX_DATABLK, LastInExt(n, e, e - 1);
    assert RemovalOrder(L, n') == L.data[n'..n];
    if ReadNode(v, L.exts[e - 1]).None? {
      NotBeyond(v, L, e - 1, n');
    } else {
      BeyondIs(v, L, e - 1, n', from, last);
    }
  }

  lemma BehindLast(v: Vol, key: int, n: nat, e: nat)
    ensures RemoveExts(v, key, n, e, e) == if key == 0 then Some([]) else None
  {
  }

  lemma BlocksUnfoldHdr(v: Vol, hdr: Node, size': nat, n: nat, n': nat)
    requires hdr.byteSize > size' && n' < n <= MAX_DATABLK
    requires n == Size2Datablocks(hdr.byteSize, FFS_BLOCK) && n' == Size2Datablocks(size', FFS_BLOCK)
    ensures BlocksToRemove(v, hdr, size') == Some(SlotRange(hdr, n', n))
  {
    hide Size2Datablocks, SlotRange;
  }

  lemma RemoveInHeader(v: Vol, hdr: Node, L: Layout, size': nat, n': nat)
    requires HdrOK(hdr, L) && size' <= hdr.byteSize && n' < |L.data| <= MAX_DATABLK
    requires |L.data| == Size2Datablocks(hdr.byteSize, FFS_BLOCK) && n' == Size2Datablocks(size', FFS_BLOCK)
    requires |L.exts| == Datablocks2Extblocks(|L.data|)
    ensures BlocksToRemove(v, hdr, size') == Some(RemovalOrder(L, n'))
  {
    hide Size2Datablocks, BlocksToRemove;
    HdrRange(hdr, L, n', |L.data|);
    BlocksUnfoldHdr(v, hdr, size', |L.data|, n');
    assert RemovalOrder(L, n') == L.data[n'..|L.data|];
  }

  lemma NothingToRemove(v: Vol, hdr: Node, L: Layout, size': nat, n: nat)
    requires n == Size2Datablocks(hdr.byteSize, FFS_BLOCK) == Size2Datablocks(size', FFS_BLOCK) == |L.data|
    requires |L.exts| == Datablocks2Extblocks(n) && |RemovalOrder(L, n)| == |L.data| + |L.exts| - (n + Datablocks2Extblocks(n))
    ensures BlocksToRemove(v, hdr, size') == Some(RemovalOrder(L, n))
  {
    hide Size2Datablocks, RemovalOrder, Datablocks2Extblocks, RemoveFirst, RemoveExts;
    assert RemovalOrder(L, n) == [];
  }

  lemma SizesShrink(v: Vol, hdr: Node, L: Layout, size': nat)
    requires Base(v, hdr, L) && size' <= hdr.byteSize
    ensures HdrOK(hdr, L)
    ensures Size2Datablocks(hdr.byteSize, FFS_BLOCK) == |L.data|
    ensures |L.exts| == Datablocks2Extblocks(|L.data|)
    ensures Size2Datablocks(size', FFS_BLOCK) <= |L.data|
  {
    StoredSize(v, hdr, L);
    Size2DatablocksLeast(hdr.byteSize, FFS_BLOCK, |L.data|);
    Size2DatablocksLeast(size', FFS_BLOCK, |L.data|);
  }

  /** The walk finds exactly the blocks beyond the new size. */
  ghost predicate ListsRemoval(v: Vol, hdr: Node, L: Layout, size': nat) {
    var n' := Size2Datablocks(size', FFS_BLOCK);
    n' <= |L.data| && BlocksToRemove(v, hdr, size') == Some(RemovalOrder(L, n'))
  }

  /**
    adfFileTruncateGetBlocksToRemove lists exactly the blocks beyond the new size, as many
    as the vector has room for, if and only if there are none, the file has no extension
    blocks, or the last one is on the disk as far as it lists them. It reads that block from
    the disk, though a newer one may be cached.
  */
  lemma ListsRemovalExact(v: Vol, hdr: Node, L: Layout, size': nat)
    requires ChainBefore(v, hdr, L) && size' <= hdr.byteSize
    ensures var n' := Size2Datablocks(size', FFS_BLOCK);
            ListsRemoval(v, hdr, L, size') <==> n' == |L.data| || L.exts == [] || ExtBeyond(v, L, |L.exts| - 1, n')
  {
    hide BlocksToRemove, RemovalOrder, Size2Datablocks, Datablocks2Extblocks, HdrOK, ExtBeyond, Base;
    SizesShrink(v, hdr, L, size');
    var n', n := Size2Datablocks(size', FFS_BLOCK), |L.data|;
    RemovalOrderExact(L, n');
    NoExts(n);
    NoExts(n');
    if n' == n {
      NothingToRemove(v, hdr, L, size', n);
    } else if n <= MAX_DATABLK {
      RemoveInHeader(v, hdr, L, size', n');
    } else if Datablocks2Extblocks(n') < |L.exts| {
      RemoveBeforeLast(v, hdr, L, size', n');
    } else {
      RemoveInLast(v, hdr, L, size', n');
    }
  }

  /** On a file that is on the disk it always does. */
  lemma BlocksToRemoveExact(v: Vol, hdr: Node, L: Layout, size': nat)
    requires ChainOnDisk(v, hdr, L) && size' <= hdr.byteSize
    ensures ListsRemoval(v, hdr, L, size')
  {
    hide ChainOnDisk, ListsRemoval, ExtBeyond;
    WholeChain(v, hdr, L, Size2Datablocks(size', FFS_BLOCK));
    ListsRemovalExact(v, hdr, L, size');
  }

  /** The same for an open file: only the cached extension block can be newer than on the disk. */
  lemma RemovalExact(s: FS, L: Layout, size': nat)
    requires Inv(s, L) && size' <= s.h.hdr.byteSize
    ensures var n' := Size2Datablocks(size', FFS_BLOCK);
            ListsRemoval(s.v, s.h.hdr, L, size') <==> n' == |L.data| || L.exts == [] || ExtBeyond(s.v, L, |L.exts| - 1, n')
    ensures !s.h.changed ==> ListsRemoval(s.v, s.h.hdr, L, size')
  {
    hide ListsRemoval, ExtBeyond;
    InvChain(s, L);
    ListsRemovalExact(s.v, s.h.hdr, L, size');
    if !s.h.changed {
      BlocksToRemoveExact(s.v, s.h.hdr, L, size');
    }
  }
}
