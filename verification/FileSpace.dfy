/** How many sectors files take: what their sizes stand for, wherever their blocks are. */
module FileSpace {
  import opened FileUtil
  import opened Blocks
  import opened FileSpec
  import opened FileInv
  import opened FileBlocks
  import opened FileWrite
  import opened FileRuns

  ghost function SumOf(m: map<int, nat>): nat
    decreases |m|
  {
    if exists k :: k in m then (var k :| k in m; m[k] + SumOf(m - {k})) else 0
  }

  /** The sum does not depend on the order of the keys. */
  lemma {:induction false} SumWithout(m: map<int, nat>, k: int)
    requires k in m
    ensures SumOf(m) == m[k] + SumOf(m - {k})
    decreases |m|
  {
    var j :| j in m && SumOf(m) == m[j] + SumOf(m - {j});
    if j != k {
      SumWithout(m - {j}, k);
      SumWithout(m - {k}, j);
      assert m - {j} - {k} == m - {k} - {j};
    }
  }

  /** The sectors that files of these sizes take, headers and extension blocks included. */
  ghost function SizesOf(files: map<int, View>): map<int, nat> {
    map s | s in files :: Size2Blocks(|files[s].bytes|, FFS_BLOCK)
  }

  ghost function BlocksUsed(files: map<int, View>): nat {
    SumOf(SizesOf(files))
  }

  lemma {:induction false} OwnedCount(Ls: map<int, Layout>, sizes: map<int, nat>)
    requires forall s :: s in Ls <==> s in sizes
    requires forall s :: s in Ls ==> |Ls[s].own.Keys| == sizes[s]
    requires forall i, j :: i in Ls && j in Ls && i != j ==> Ls[i].own.Keys !! Ls[j].own.Keys
    ensures |Owned(Ls)| == SumOf(sizes)
    decreases |Ls|
  {
    hide Owned;
    if k :| k in Ls {
      SumWithout(sizes, k);
      OwnedCount(Ls - {k}, sizes - {k});
      OwnedSplit(Ls, k);
      JoinedCount(Owned(Ls - {k}), Ls[k].own.Keys);
    } else {
      NothingOwned(Ls);
    }
  }

  lemma NothingOwned(Ls: map<int, Layout>)
    requires forall k :: k !in Ls
    ensures Owned(Ls) == {}
  {
  }

  lemma JoinedCount(a: set<int>, b: set<int>)
    requires a !! b
    ensures |a + b| == |a| + |b|
  {
  }

  lemma OwnedSplit(Ls: map<int, Layout>, k: int)
    requires k in Ls && forall i, j :: i in Ls && j in Ls && i != j ==> Ls[i].own.Keys !! Ls[j].own.Keys
    ensures Owned(Ls) == Owned(Ls - {k}) + Ls[k].own.Keys && Owned(Ls - {k}) !! Ls[k].own.Keys
  {
    var rest := Ls - {k};
    forall x ensures x in Owned(Ls) <==> x in Owned(rest) || x in Ls[k].own.Keys {
      if x in Owned(Ls) {
        var i :| i in Ls && x in Ls[i].own.Keys;
        if i != k {
          assert i in rest && x in rest[i].own.Keys;
        }
      }
      if x in Owned(rest) {
        var i :| i in rest && x in rest[i].own.Keys;
        assert i in Ls && x in Ls[i].own.Keys;
      }
    }
  }

  /** A whole file has as many sectors as its bytes stand for. */
  lemma OwnSize(v: Vol, f: File, L: Layout)
    requires FileOK(v, f, L)
    ensures |L.own.Keys| == Size2Blocks(|ViewOf(v, f, L).bytes|, FFS_BLOCK)
  {
    OwnCount(L);
    match f
    case Open(h) =>
      SizeBlocks(FS(v, h), L);
      ContentLength(FS(v, h), L);
    case Closed(header) =>
      StoredNumbers(v, v.disk[header].node, L);
      assert |DiskContent(v, L, v.disk[header].node.byteSize)| == v.disk[header].node.byteSize;
  }

  /** The files of a world own as many sectors as their bytes stand for. */
  lemma OwnedIsUsed(w: World, Ls: map<int, Layout>, reserved: set<int>)
    requires WorldOK(w, Ls, reserved)
    ensures Ls.Keys == w.files.Keys && |Owned(Ls)| == BlocksUsed(Views(w, Ls))
  {
    hide FileOK, ViewOf, Owned;
    var sizes := SizesOf(Views(w, Ls));
    forall s ensures s in Ls <==> s in sizes {
      assert s in Ls.Keys <==> s in w.files.Keys;
    }
    forall s | s in Ls ensures |Ls[s].own.Keys| == sizes[s] {
      OwnSize(w.v, w.files[s], Ls[s]);
    }
    OwnedCount(Ls, sizes);
  }

  /** Over every run, as many sectors are free as the bytes of all files leave. */
  lemma RunLeaves(w: World, Ls: map<int, Layout>, reserved: set<int>, ops: seq<Op>) returns (Ls': map<int, Layout>)
    requires WorldOK(w, Ls, reserved) && AllAllowed(w, ops)
    ensures WorldOK(Run(w, ops), Ls', reserved) && Ls.Keys == w.files.Keys
    ensures |Run(w, ops).v.free| == |w.v.free| + BlocksUsed(Views(w, Ls)) - BlocksUsed(ViewRun(Views(w, Ls), ops))
  {
    hide WorldOK, Run, Owned, AllAllowed, Views, ViewRun, Outputs, ViewOutputs, BlocksUsed;
    Ls' := RunRefines(w, Ls, reserved, ops);
    RunKeepsSum(w, Ls, reserved, ops, Ls');
    OwnedIsUsed(w, Ls, reserved);
    OwnedIsUsed(Run(w, ops), Ls', reserved);
  }

  lemma RunKeepsSum(w: World, Ls: map<int, Layout>, reserved: set<int>, ops: seq<Op>, Ls': map<int, Layout>)
    requires WorldOK(w, Ls, reserved) && AllAllowed(w, ops) && WorldOK(Run(w, ops), Ls', reserved)
    requires ReservedSame(w.v, Run(w, ops).v, reserved)
    ensures |Run(w, ops).v.free| + |Owned(Ls')| == |w.v.free| + |Owned(Ls)|
  {
    hide WorldOK, Run, Owned, AllAllowed;
    var w' := Run(w, ops);
    OwnedIsRest(w, Ls, reserved);
    OwnedIsRest(w', Ls', reserved);
    var before, after := w.v.free + Owned(Ls), w'.v.free + Owned(Ls');
    forall x ensures x in after <==> x in before {
    }
    assert after == before;
    assert |w'.v.free + Owned(Ls')| == |w'.v.free| + |Owned(Ls')|;
    assert |w.v.free + Owned(Ls)| == |w.v.free| + |Owned(Ls)|;
  }
}
