/** Which sectors creating, removing and renaming an entry write. */
module DirTouch {
  import opened Blocks
  import opened Names
  import opened FileInv
  import opened DirInv
  import opened DirLink
  import opened DirSpec

  lemma SetNodeTouches(v: Vol, x: int, n: Node)
    ensures SameOutside(v, SetNode(v, x, n), {x})
  {
  }

  lemma TouchMore(v: Vol, w: Vol, u: Vol, S: set<int>, T: set<int>)
    requires SameOutside(v, w, S) && SameOutside(w, u, T)
    ensures SameOutside(v, u, S + T)
  {
  }

  lemma LinkTouches(v: Vol, F: Forest, d: int, h: nat, s: int)
    requires h < HT_SIZE && d in F.chains && |F.chains[d]| == HT_SIZE
    ensures SameOutside(v, LinkIn(v, F, d, h, s), {LinkPoint(F, d, h)})
  {
    hide SetNode, SameOutside;
    forall x, n ensures SameOutside(v, SetNode(v, x, n), {x}) {
      SetNodeTouches(v, x, n);
    }
  }

  lemma AddTouches(v: Vol, F: Forest, d: int, h: nat, s: int)
    requires h < HT_SIZE && d in F.chains && |F.chains[d]| == HT_SIZE
    ensures SameOutside(v, AddEntry(v, F, d, h, s), {LinkPoint(F, d, h)})
  {
    hide SetNode, SameOutside, LinkIn, LinkPoint, Seal;
    LinkTouches(v, F, d, h, s);
    var w, x := LinkIn(v, F, d, h, s), LinkPoint(F, d, h);
    SetNodeTouches(w, x, Seal(NodeAt(w, x)));
    TouchMore(v, w, AddEntry(v, F, d, h, s), {x}, {x});
    assert {x} + {x} == {x};
  }

  lemma TakeTouches(v: Vol, s: int)
    ensures SameOutside(v, Take(v, s), {})
  {
  }

  lemma CreatedTouches(v: Vol, F: Forest, d: int, s: int, n: Node, intl: bool)
    requires d in F.chains && |F.chains[d]| == HT_SIZE
    ensures SameOutside(v, Created(Take(v, s), F, d, s, n, intl), {LinkPoint(F, d, Hash(n.name, intl)), s})
  {
    hide SetNode, SameOutside, AddEntry, LinkPoint, Hash, Take;
    var h := Hash(n.name, intl);
    var w := AddEntry(Take(v, s), F, d, h, s);
    TakeTouches(v, s);
    AddTouches(Take(v, s), F, d, h, s);
    TouchMore(v, Take(v, s), w, {}, {LinkPoint(F, d, h)});
    SetNodeTouches(w, s, n);
    TouchMore(v, w, SetNode(w, s, n), {} + {LinkPoint(F, d, h)}, {s});
    assert {} + {LinkPoint(F, d, h)} + {s} == {LinkPoint(F, d, h), s};
  }

  lemma UnlinkTouches(v: Vol, F: Forest, s: int)
    requires s in F.place && HasPlace(F, s)
    ensures SameOutside(v, UnlinkIn(v, F, s), {UnlinkPoint(F, s)})
  {
    hide SetNode, SameOutside;
    forall x, n ensures SameOutside(v, SetNode(v, x, n), {x}) {
      SetNodeTouches(v, x, n);
    }
  }

  /** The sectors a rename writes. */
  function RenamePoints(F: Forest, s: int, d: int, h: nat): set<int>
    requires s in F.place && HasPlace(F, s) && h < HT_SIZE
    requires d in Unlink(F, s).chains && |Unlink(F, s).chains[d]| == HT_SIZE
  {
    {UnlinkPoint(F, s), s, F.place[s].dir, LinkPoint(Unlink(F, s), d, h), d}
  }

  lemma TakenOutTouches(v: Vol, F: Forest, s: int, d: int, name: seq<byte>)
    requires s in F.place && HasPlace(F, s)
    ensures SameOutside(v, TakenOut(v, F, s, d, name), {UnlinkPoint(F, s), s, F.place[s].dir})
  {
    hide SetNode, SameOutside, UnlinkIn, UnlinkPoint, Seal, Moved, NodeAt;
    var p := F.place[s].dir;
    var u := UnlinkIn(v, F, s);
    UnlinkTouches(v, F, s);
    var n := Moved(NodeAt(v, s), d, name);
    var w := SetNode(u, s, n);
    SetNodeTouches(u, s, n);
    TouchMore(v, u, w, {UnlinkPoint(F, s)}, {s});
    SetNodeTouches(w, p, Seal(NodeAt(w, p)));
    TouchMore(v, w, Resealed(w, p), {UnlinkPoint(F, s)} + {s}, {p});
    assert {UnlinkPoint(F, s)} + {s} + {p} == {UnlinkPoint(F, s), s, p};
  }

  lemma RenamedTouches(v: Vol, F: Forest, s: int, d: int, name: seq<byte>, intl: bool)
    requires s in F.place && HasPlace(F, s)
    requires d in Unlink(F, s).chains && |Unlink(F, s).chains[d]| == HT_SIZE
    ensures SameOutside(v, Renamed(v, F, s, d, name, intl), RenamePoints(F, s, d, Hash(name, intl)))
  {
    hide SetNode, SameOutside, AddEntry, TakenOut, UnlinkPoint, LinkPoint, Seal, NodeAt, Hash, Unlink;
    var w, G, h := TakenOut(v, F, s, d, name), Unlink(F, s), Hash(name, intl);
    var a := AddEntry(w, G, d, h, s);
    var S, l := {UnlinkPoint(F, s), s, F.place[s].dir}, LinkPoint(G, d, h);
    TakenOutTouches(v, F, s, d, name);
    AddTouches(w, G, d, h, s);
    TouchMore(v, w, a, S, {l});
    SetNodeTouches(a, d, Seal(NodeAt(a, d)));
    TouchMore(v, a, Resealed(a, d), S + {l}, {d});
    assert S + {l} + {d} == RenamePoints(F, s, d, h);
  }
}
