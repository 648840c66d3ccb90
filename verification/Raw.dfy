/**
  Bytes of blocks: table-driven swapping between big and little endian, and the two
  checksums. Models adfSwapEndian with swapTable, adfNormalSum, adfBootSum and
  adfBootSum2 of adf_raw.c, on a host of little endian.
*/
module Raw {
  import opened Blocks

  /* ---- swapping ---- */

  /** A span of `len` characters, or of `len` longwords. */
  datatype SwapEl = Chars(len: nat) | Longs(len: nat)

  /** The spans of each block type, and how many bytes they are in all. */
  datatype SwapRow = SwapRow(els: seq<SwapEl>, total: nat)

  function SwapTable(): seq<SwapRow> {
    [ SwapRow([Chars(4), Longs(2), Chars(1012)], 1024),
      SwapRow([Longs(108), Chars(40), Longs(10)], 512),
      SwapRow([Longs(6), Chars(488)], 512),
      SwapRow([Longs(82), Chars(92), Longs(3), Chars(36), Longs(11)], 512),
      SwapRow([Longs(6)], 24),
      SwapRow([Longs(128)], 512),
      SwapRow([Longs(6), Chars(64), Longs(86), Chars(32), Longs(12)], 512),
      SwapRow([Chars(4), Longs(39), Chars(56), Longs(10)], 256),
      SwapRow([Chars(4), Longs(127)], 512),
      SwapRow([Chars(4), Longs(8), Chars(32), Longs(31), Chars(4), Longs(15)], 256),
      SwapRow([Chars(4), Longs(7), Chars(4), Longs(55)], 256),
      SwapRow([Chars(4), Longs(4), Chars(492)], 512) ]
  }

  /** How many bytes a span has. */
  function Span(el: SwapEl): nat {
    match el
    case Chars(len) => len
    case Longs(len) => 4 * len
  }

  function Spans(els: seq<SwapEl>): nat {
    if els == [] then 0 else Span(els[0]) + Spans(els[1..])
  }

  /** Where the byte that lands at `i` comes from: longwords are reversed, all else stays. */
  function Source(els: seq<SwapEl>, i: nat): nat
    decreases els
  {
    if els == [] then i
    else if i >= Span(els[0]) then Span(els[0]) + Source(els[1..], i - Span(els[0]))
    else if els[0].Chars? then i
    else i / 4 * 4 + (3 - i % 4)
  }

  lemma {:induction false} SourceInside(els: seq<SwapEl>, i: nat)
    ensures i < Spans(els) ==> Source(els, i) < Spans(els)
    ensures i >= Spans(els) ==> Source(els, i) == i
    decreases els
  {
    if els != [] && i >= Span(els[0]) {
      SourceInside(els[1..], i - Span(els[0]));
    }
  }

  /** Swapping twice goes back to where a byte came from. */
  lemma {:induction false} SourceTwice(els: seq<SwapEl>, i: nat)
    ensures Source(els, Source(els, i)) == i
    decreases els
  {
    if els != [] && i >= Span(els[0]) {
      SourceTwice(els[1..], i - Span(els[0]));
    }
  }

  /** The block after swapping. */
  function Swapped(s: seq<byte>, els: seq<SwapEl>): (t: seq<byte>)
    requires Spans(els) <= |s|
    ensures |t| == |s|
  {
    seq(|s|, i requires 0 <= i < |s| => (SourceInside(els, i); s[Source(els, i)]))
  }

  /** adfSwapEndian is its own inverse. */
  lemma SwapTwice(s: seq<byte>, els: seq<SwapEl>)
    requires Spans(els) <= |s|
    ensures Swapped(Swapped(s, els), els) == s
  {
    var t := Swapped(Swapped(s, els), els);
    forall i | 0 <= i < |s| ensures t[i] == s[i] {
      SourceInside(els, i);
      SourceTwice(els, i);
    }
  }

  /** Is byte `i` part of a span of characters, or behind all spans? */
  predicate IsChar(els: seq<SwapEl>, i: nat)
    decreases els
  {
    els == [] || (if i >= Span(els[0]) then IsChar(els[1..], i - Span(els[0])) else els[0].Chars?)
  }

  /** Exactly the bytes of characters stay where they are. */
  lemma {:induction false} CharsStay(els: seq<SwapEl>, i: nat)
    ensures Source(els, i) == i <==> IsChar(els, i)
    decreases els
  {
    if els != [] && i >= Span(els[0]) {
      CharsStay(els[1..], i - Span(els[0]));
    }
  }

  /** The spans of every block type fill the block exactly. */
  lemma TableFillsBlocks(typ: nat)
    requires typ < |SwapTable()|
    ensures Spans(SwapTable()[typ].els) == SwapTable()[typ].total
  {
    var els := SwapTable()[typ].els;
    SpansUnfold(els);
    SpansUnfold(els[1..]);
    if |els| >= 3 {
      SpansUnfold(els[2..]);
      SpansUnfold(els[3..]);
    }
    if |els| >= 5 {
      SpansUnfold(els[4..]);
      SpansUnfold(els[5..]);
    }
    if |els| >= 6 {
      SpansUnfold(els[6..]);
    }
  }

  lemma SpansUnfold(els: seq<SwapEl>)
    ensures els != [] ==> Spans(els) == Span(els[0]) + Spans(els[1..])
    ensures els == [] ==> Spans(els) == 0
  {
  }

  /* ---- the table and the blocks it is for ---- */

  /** The bytes of a block of type `typ` that are declared as characters, or lie behind what is declared. */
  predicate InCharField(typ: nat, i: nat) {
    match typ
    case 0 => i < 0x004 || i >= 0x00c
    case 1 => 0x1b0 <= i < 0x1d8 || i >= 0x200
    case 2 => i >= 0x018
    case 3 => 0x148 <= i < 0x1a4 || 0x1b0 <= i < 0x1d0 || i >= 0x200
    case 4 => i >= 0x018
    case 5 => i >= 0x200
    case 6 => 0x018 <= i < 0x058 || 0x1b0 <= i < 0x1d0 || i >= 0x200
    case 7 => i < 0x004 || 0x0a0 <= i < 0x0d8 || i >= 0x100
    case 8 => i < 0x004 || i >= 0x200
    case 9 => i < 0x004 || 0x024 <= i < 0x044 || 0x0c0 <= i < 0x0c4 || i >= 0x100
    case 10 => i < 0x004 || 0x020 <= i < 0x024 || i >= 0x100
    case 11 => i < 0x004 || i >= 0x014
    case _ => true
  }

  /** Is byte `i` a character, when the spans from number `n` on begin at byte `p`? */
  predicate CharFrom(els: seq<SwapEl>, n: nat, p: nat, i: nat)
    requires n <= |els| && p <= i
  {
    IsChar(els[n..], i - p)
  }

  lemma CharUnfold(els: seq<SwapEl>, n: nat, p: nat, i: nat)
    requires n <= |els| && p <= i
    ensures n == |els| ==> CharFrom(els, n, p, i)
    ensures n < |els| ==>
              (CharFrom(els, n, p, i) <==>
                 if i < p + Span(els[n]) then els[n].Chars? else CharFrom(els, n + 1, p + Span(els[n]), i))
  {
    if n < |els| {
      assert els[n..][1..] == els[n + 1..];
    }
  }

  /**
    The table swaps exactly the bytes of a block that are not declared as characters, but
    for a longword of an entry block that is not used.
  */
  lemma TableFitsBlocks(typ: nat, i: nat)
    requires typ < |SwapTable()|
    ensures IsChar(SwapTable()[typ].els, i) <==> InCharField(typ, i) || (typ == 3 && 0x1d0 <= i < 0x1d4)
  {
    hide IsChar, CharFrom;
    var els := SwapTable()[typ].els;
    WholeRow(els, i);
    CharUnfold(els, 0, 0, i);
    var p := Span(els[0]);
    if i >= p {
      CharUnfold(els, 1, p, i);
      if |els| > 1 && i >= p + Span(els[1]) {
        LaterSpans(els, p + Span(els[1]), i);
      }
    }
  }

  lemma WholeRow(els: seq<SwapEl>, i: nat)
    ensures IsChar(els, i) <==> CharFrom(els, 0, 0, i)
  {
    assert els[0..] == els;
  }

  /** The spans of a row from the third on. */
  lemma LaterSpans(els: seq<SwapEl>, p: nat, i: nat)
    requires 2 <= |els| <= 6 && p <= i
    ensures CharFrom(els, 2, p, i) <==>
            if |els| == 2 then true
            else if i < p + Span(els[2]) then els[2].Chars?
            else if |els| == 3 then true
            else if i < p + Span(els[2]) + Span(els[3]) then els[3].Chars?
            else if |els| == 4 then true
            else if i < p + Span(els[2]) + Span(els[3]) + Span(els[4]) then els[4].Chars?
            else if |els| == 5 then true
            else i >= p + Span(els[2]) + Span(els[3]) + Span(els[4]) + Span(els[5]) || els[5].Chars?
  {
    hide CharFrom, Span;
    CharUnfold(els, 2, p, i);
    if |els| > 2 && i >= p + Span(els[2]) {
      var p3 := p + Span(els[2]);
      CharUnfold(els, 3, p3, i);
      if |els| > 3 && i >= p3 + Span(els[3]) {
        var p4 := p3 + Span(els[3]);
        CharUnfold(els, 4, p4, i);
        if |els| > 4 && i >= p4 + Span(els[4]) {
          CharUnfold(els, 5, p4 + Span(els[4]), i);
          if |els| > 5 && i >= p4 + Span(els[4]) + Span(els[5]) {
            CharUnfold(els, 6, p4 + Span(els[4]) + Span(els[5]), i);
          }
        }
      }
    }
  }

  /** The first `p` bytes are swapped by `els`, the others are as they were. */
  ghost predicate SwappedTo(before: seq<byte>, now: seq<byte>, els: seq<SwapEl>, p: nat) {
    && |now| == |before| && p <= |before| && Spans(els) <= |before|
    && (forall i :: 0 <= i < p ==> Source(els, i) < |before| && now[i] == before[Source(els, i)])
    && (forall i :: p <= i < |before| ==> now[i] == before[i])
  }

  /** Position `p` is where span `el` of the table begins, after the spans `done`. */
  lemma {:induction false} SourceBehind(done: seq<SwapEl>, rest: seq<SwapEl>, k: nat)
    ensures Source(done + rest, Spans(done) + k) == Spans(done) + Source(rest, k)
    ensures Spans(done + rest) == Spans(done) + Spans(rest)
    decreases done
  {
    if done == [] {
      assert done + rest == rest;
    } else {
      assert (done + rest)[1..] == done[1..] + rest;
      SourceBehind(done[1..], rest, k);
    }
  }

  lemma SpanAt(els: seq<SwapEl>, n: nat, k: nat)
    requires n < |els| && k < Span(els[n])
    ensures Spans(els[..n + 1]) == Spans(els[..n]) + Span(els[n]) <= Spans(els)
    ensures Source(els, Spans(els[..n]) + k) == Spans(els[..n]) + (if els[n].Chars? then k else k / 4 * 4 + (3 - k % 4))
  {
    SpansStep(els, n);
    assert els == els[..n] + els[n..];
    SourceBehind(els[..n], els[n..], k);
  }

  lemma SpansStep(els: seq<SwapEl>, n: nat)
    requires n < |els|
    ensures Spans(els[..n + 1]) == Spans(els[..n]) + Span(els[n]) <= Spans(els)
  {
    hide Source, Span;
    assert els == els[..n + 1] + els[n + 1..] && els[..n + 1] == els[..n] + [els[n]];
    SourceBehind(els[..n + 1], els[n + 1..], 0);
    SourceBehind(els[..n], [els[n]], 0);
    assert Spans([els[n]]) == Span(els[n]) + Spans([]);
  }

  /** swapUint32AtPtr */
  method SwapLong(buf: array<byte>, p: nat)
    requires p + 4 <= buf.Length
    modifies buf
    ensures forall i :: 0 <= i < buf.Length ==> buf[i] == old(buf[if p <= i < p + 4 then p + (3 - (i - p)) else i])
  {
    buf[p], buf[p + 1], buf[p + 2], buf[p + 3] := buf[p + 3], buf[p + 2], buf[p + 1], buf[p];
  }

  lemma LongIndex(j: nat, m: nat)
    requires m < 4
    ensures (4 * j + m) / 4 * 4 + (3 - (4 * j + m) % 4) == 4 * j + (3 - m)
  {
  }

  /** One more longword of span `n` has been swapped. */
  lemma LongSwapped(before: seq<byte>, now: seq<byte>, next: seq<byte>, els: seq<SwapEl>, n: nat, j: nat)
    requires n < |els| && els[n].Longs? && j < els[n].len && |next| == |now|
    requires SwappedTo(before, now, els, Spans(els[..n]) + 4 * j)
    requires var p := Spans(els[..n]) + 4 * j;
             && p + 4 <= |now|
             && forall i :: 0 <= i < |now| ==> next[i] == now[if p <= i < p + 4 then p + (3 - (i - p)) else i]
    ensures SwappedTo(before, next, els, Spans(els[..n]) + 4 * (j + 1))
  {
    hide Spans, Source;
    var p0 := Spans(els[..n]);
    var p := p0 + 4 * j;
    forall i | 0 <= i < p + 4 ensures Source(els, i) < |before| && next[i] == before[Source(els, i)] {
      if i >= p {
        SpanAt(els, n, i - p0);
        LongIndex(j, i - p);
      }
    }
  }

  /** A span of characters is passed over. */
  lemma CharsPassed(before: seq<byte>, now: seq<byte>, els: seq<SwapEl>, n: nat)
    requires n < |els| && els[n].Chars? && SwappedTo(before, now, els, Spans(els[..n]))
    ensures SwappedTo(before, now, els, Spans(els[..n + 1])) && Spans(els[..n + 1]) == Spans(els[..n]) + els[n].len
  {
    SpansStep(els, n);
    var p := Spans(els[..n]);
    forall i | 0 <= i < p + els[n].len ensures Source(els, i) < |before| && now[i] == before[Source(els, i)] {
      if i >= p {
        SpanAt(els, n, i - p);
      }
    }
  }

  /** One span of longwords. */
  method SwapSpan(buf: array<byte>, els: seq<SwapEl>, n: nat, p0: nat, ghost before: seq<byte>) returns (p: nat)
    requires n < |els| && els[n].Longs? && p0 == Spans(els[..n]) && SwappedTo(before, buf[..], els, p0)
    modifies buf
    ensures p == Spans(els[..n + 1]) && SwappedTo(before, buf[..], els, p)
  {
    hide SwappedTo;
    SpansStep(els, n);
    p := p0;
    var j := 0;
    SwappedLength(before, buf[..], els, p0);
    while j < els[n].len
      invariant 0 <= j <= els[n].len && p == p0 + 4 * j
      invariant SwappedTo(before, buf[..], els, p) && Spans(els) <= buf.Length
    {
      ghost var now := buf[..];
      SwapLong(buf, p);
      LongSwapped(before, now, buf[..], els, n, j);
      p := p + 4;
      j := j + 1;
    }
  }

  lemma SwappedLength(before: seq<byte>, now: seq<byte>, els: seq<SwapEl>, p: nat)
    requires SwappedTo(before, now, els, p)
    ensures Spans(els) <= |now| == |before|
  {
  }

  lemma AllSwapped(before: seq<byte>, now: seq<byte>, els: seq<SwapEl>)
    requires SwappedTo(before, now, els, Spans(els))
    ensures now == Swapped(before, els)
  {
    forall q | 0 <= q < |before| ensures now[q] == Swapped(before, els)[q] {
      SourceInside(els, q);
    }
  }

  /** adfSwapEndian: the block is swapped in place. */
  method SwapEndian(buf: array<byte>, typ: nat)
    requires typ < |SwapTable()| && SwapTable()[typ].total <= buf.Length
    modifies buf
    ensures Spans(SwapTable()[typ].els) <= buf.Length
    ensures buf[..] == Swapped(old(buf[..]), SwapTable()[typ].els)
  {
    hide SwapTable, SwappedTo, Spans, Swapped;
    TableFillsBlocks(typ);
    ghost var before := buf[..];
    var els := SwapTable()[typ].els;
    var i, p := 0, 0;
    NothingSwapped(before, els);
    while i < |els|
      invariant 0 <= i <= |els| && p == Spans(els[..i])
      invariant SwappedTo(before, buf[..], els, p)
    {
      if els[i].Chars? {
        CharsPassed(before, buf[..], els, i);
        p := p + els[i].len;
      } else {
        p := SwapSpan(buf, els, i, p, before);
      }
      i := i + 1;
    }
    assert els[..|els|] == els;
    AllSwapped(before, buf[..], els);
  }

  lemma NothingSwapped(before: seq<byte>, els: seq<SwapEl>)
    requires Spans(els) <= |before|
    ensures SwappedTo(before, before, els, 0) && Spans(els[..0]) == 0
  {
  }

  /* ---- the checksum of a block ---- */

  /** The big-endian longword at byte `p`. */
  function LongAt(s: seq<byte>, p: nat): (x: nat)
    requires p + 4 <= |s|
    ensures x < U32
  {
    ((s[p] as int * 256 + s[p + 1] as int) * 256 + s[p + 2] as int) * 256 + s[p + 3] as int
  }

  /** The sum, in 32 bits, of the first `n` longwords but number `skip`. */
  function SumBut(s: seq<byte>, n: nat, skip: int): (x: nat)
    requires 4 * n <= |s|
    ensures x < U32
  {
    if n == 0 then 0
    else if n - 1 == skip then SumBut(s, n - 1, skip)
    else (SumBut(s, n - 1, skip) + LongAt(s, 4 * (n - 1))) % U32
  }

  /** The number that makes the sum 0. */
  function Negated(x: nat): (y: nat)
    requires x < U32
    ensures y < U32 && (x + y) % U32 == 0
  {
    (U32 - x) % U32
  }

  /** The sum, without bound, of the first `n` longwords but number `skip`, the bytes of each by their weights. */
  function PlainSum(s: seq<byte>, n: nat, skip: int): nat
    requires 4 * n <= |s|
  {
    if n == 0 then 0
    else
      var k := n - 1;
      PlainSum(s, k, skip)
      + if k == skip then 0 else
        s[4 * k] as int * 0x100_0000 + s[4 * k + 1] as int * 0x1_0000 + s[4 * k + 2] as int * 0x100 + s[4 * k + 3] as int
  }

  lemma PlainStep(s: seq<byte>, n: nat, skip: int)
    requires 4 * n <= |s|
    ensures PlainSum(s, 0, skip) == 0
    ensures n > 0 ==> PlainSum(s, n, skip) == PlainSum(s, n - 1, skip) + if n - 1 == skip then 0 else LongAt(s, 4 * (n - 1))
  {
  }

  /** The sum in 32 bits is what is left of the plain one. */
  lemma {:induction false} SumIsPlain(s: seq<byte>, n: nat, skip: int)
    requires 4 * n <= |s|
    ensures SumBut(s, n, skip) == PlainSum(s, n, skip) % U32
  {
    hide LongAt, PlainSum;
    PlainStep(s, n, skip);
    if n > 0 {
      SumIsPlain(s, n - 1, skip);
    }
  }

  lemma NegatedCancels(p: nat)
    ensures (Negated(p % U32) + p) % U32 == 0
  {
  }

  /** The checksum makes the plain sum of all other longwords a multiple of 2^32. */
  lemma ChecksumCancels(s: seq<byte>, offset: nat)
    ensures (NormalSumOf(s, offset) + PlainSum(s, |s| / 4, offset / 4)) % 0x1_0000_0000 == 0
  {
    hide PlainSum, SumBut, Negated;
    SumIsPlain(s, |s| / 4, offset / 4);
    NegatedCancels(PlainSum(s, |s| / 4, offset / 4));
  }

  function NormalSumOf(s: seq<byte>, offset: nat): (x: nat)
    ensures x < U32
  {
    Negated(SumBut(s, |s| / 4, offset / 4))
  }

  /** adfNormalSum */
  method NormalSum(buf: array<byte>, offset: nat) returns (newsum: nat)
    ensures newsum == NormalSumOf(buf[..], offset) < 0x1_0000_0000
    ensures (newsum + PlainSum(buf[..], buf.Length / 4, offset / 4)) % 0x1_0000_0000 == 0
  {
    ChecksumCancels(buf[..], offset);
    hide PlainSum;
    newsum := 0;
    var i := 0;
    while i < buf.Length / 4
      invariant 0 <= i <= buf.Length / 4
      invariant newsum == SumBut(buf[..], i, offset / 4)
    {
      if i != offset / 4 {
        newsum := (newsum + LongAt(buf[..], 4 * i)) % U32;
      }
      i := i + 1;
    }
    newsum := (U32 - newsum) % U32;
  }

  /** adfBitmapSum: the longwords of a bitmap block but the first one are taken off 0. */
  method BitmapSum(buf: array<byte>) returns (newSum: nat)
    requires buf.Length == 512
    ensures newSum == NormalSumOf(buf[..], 0) < 0x1_0000_0000
  {
    newSum := 0;
    var i := 1;
    assert SumBut(buf[..], 1, 0) == 0;
    while i < 128
      invariant 1 <= i <= 128
      invariant newSum == Negated(SumBut(buf[..], i, 0))
    {
      TakenOff(SumBut(buf[..], i, 0), LongAt(buf[..], 4 * i));
      newSum := (newSum - LongAt(buf[..], 4 * i)) % U32;
      i := i + 1;
    }
  }

  /** Taking a longword off a negated sum is adding it before. */
  lemma TakenOff(x: nat, d: nat)
    requires x < U32 && d < U32
    ensures (Negated(x) - d) % U32 == Negated((x + d) % U32)
  {
  }

  /** A longword as four bytes, big-endian. */
  function LongBytes(x: nat): (b: seq<byte>)
    requires x < U32
    ensures |b| == 4
  {
    [x / 256 / 256 / 256, x / 256 / 256 % 256, x / 256 % 256, x % 256]
  }

  lemma LongBack(x: nat)
    requires x < U32
    ensures LongAt(LongBytes(x), 0) == x
  {
    var a := x / 256;
    var b := a / 256;
    assert b == b / 256 * 256 + b % 256 && a == b * 256 + a % 256 && x == a * 256 + x % 256;
  }

  /** The block with longword `x` stored at byte `p`. */
  function WithLong(s: seq<byte>, p: nat, x: nat): (t: seq<byte>)
    requires p + 4 <= |s| && x < U32
    ensures |t| == |s|
  {
    s[..p] + LongBytes(x) + s[p + 4..]
  }

  lemma LongAtWith(s: seq<byte>, j: nat, x: nat, i: nat)
    requires 4 * j + 4 <= |s| && 4 * i + 4 <= |s| && x < U32
    ensures LongAt(WithLong(s, 4 * j, x), 4 * i) == if i == j then x else LongAt(s, 4 * i)
  {
    var t, b := WithLong(s, 4 * j, x), LongBytes(x);
    if i == j {
      assert t[4 * j] == b[0] && t[4 * j + 1] == b[1] && t[4 * j + 2] == b[2] && t[4 * j + 3] == b[3];
      LongBack(x);
    }
  }

  /** The sum that leaves out longword `j` does not depend on it. */
  lemma {:induction false} SumSkips(s: seq<byte>, j: nat, x: nat, n: nat)
    requires 4 * j + 4 <= |s| && 4 * n <= |s| && x < U32
    ensures SumBut(WithLong(s, 4 * j, x), n, j) == SumBut(s, n, j)
  {
    hide LongAt, WithLong;
    if n > 0 {
      SumSkips(s, j, x, n - 1);
      LongAtWith(s, j, x, n - 1);
    }
  }

  /** Leaving out a longword takes it off the sum. */
  lemma {:induction false} SumAll(s: seq<byte>, n: nat, j: nat)
    requires 4 * n <= |s| && 4 * j + 4 <= |s|
    ensures SumBut(s, n, -1) == if j < n then (SumBut(s, n, j) + LongAt(s, 4 * j)) % U32 else SumBut(s, n, j)
  {
    hide LongAt;
    if n > 0 {
      SumAll(s, n - 1, j);
      if j < n - 1 {
        AddMod(SumBut(s, n - 1, j), LongAt(s, 4 * j), LongAt(s, 4 * (n - 1)));
      }
    }
  }

  lemma AddMod(a: nat, b: nat, c: nat)
    requires a < U32 && b < U32 && c < U32
    ensures ((a + b) % U32 + c) % U32 == ((a + c) % U32 + b) % U32
  {
  }

  /** A block stored with its checksum at longword `j`. */
  function Sealed(s: seq<byte>, j: nat): (t: seq<byte>)
    requires 4 * j + 4 <= |s|
    ensures |t| == |s|
  {
    WithLong(s, 4 * j, NormalSumOf(s, 4 * j))
  }

  /**
    A block written with its checksum has sum 0, and when it is read the checksum that is
    computed is the one that is stored.
  */
  lemma SealedPasses(s: seq<byte>, j: nat)
    requires 4 * j + 4 <= |s| && |s| % 4 == 0
    ensures var t := Sealed(s, j);
            && SumBut(t, |t| / 4, -1) == 0
            && NormalSumOf(t, 4 * j) == LongAt(t, 4 * j)
  {
    var t, x := Sealed(s, j), NormalSumOf(s, 4 * j);
    SumSkips(s, j, x, |s| / 4);
    LongAtWith(s, j, x, j);
    SumAll(t, |t| / 4, j);
  }

  lemma {:induction false} SumDiffers(s: seq<byte>, i: nat, x: nat, j: nat, n: nat)
    requires 4 * i + 4 <= |s| && 4 * n <= |s| && x < U32 && i != j && x != LongAt(s, 4 * i)
    ensures SumBut(WithLong(s, 4 * i, x), n, j) == SumBut(s, n, j) <==> i >= n
  {
    hide LongAt, WithLong, LongBytes;
    if n > 0 {
      SumDiffers(s, i, x, j, n - 1);
      LongAtWith(s, i, x, n - 1);
      if n - 1 != j {
        if i == n - 1 {
          ModDiffers(SumBut(s, n - 1, j), LongAt(s, 4 * i), x);
        } else {
          ModCancels(SumBut(WithLong(s, 4 * i, x), n - 1, j), SumBut(s, n - 1, j), LongAt(s, 4 * (n - 1)));
        }
      }
    }
  }

  lemma ModDiffers(a: nat, x: nat, y: nat)
    requires a < U32 && x < U32 && y < U32 && x != y
    ensures (a + x) % U32 != (a + y) % U32
  {
  }

  lemma ModCancels(a: nat, b: nat, c: nat)
    requires a < U32 && b < U32 && c < U32
    ensures (a + c) % U32 == (b + c) % U32 <==> a == b
  {
  }

  /** Any change of one other longword of the block is detected. */
  lemma ChangeIsDetected(s: seq<byte>, j: nat, i: nat, x: nat)
    requires 4 * j + 4 <= |s| && |s| % 4 == 0 && 4 * i + 4 <= |s| && i != j && x < U32
    requires x != LongAt(Sealed(s, j), 4 * i)
    ensures var t := WithLong(Sealed(s, j), 4 * i, x);
            NormalSumOf(t, 4 * j) != LongAt(t, 4 * j)
  {
    var u := Sealed(s, j);
    SealedPasses(s, j);
    SumDiffers(u, i, x, j, |u| / 4);
    LongAtWith(u, i, x, j);
    NegatedDiffers(SumBut(u, |u| / 4, j), SumBut(WithLong(u, 4 * i, x), |u| / 4, j));
  }

  lemma NegatedDiffers(a: nat, b: nat)
    requires a < U32 && b < U32 && a != b
    ensures Negated(a) != Negated(b)
  {
  }

  /* ---- a block is written and read ---- */

  /** Longword `j`, where the checksum is, is swapped as a longword. */
  predicate SwapsLong(els: seq<SwapEl>, j: nat) {
    && els != []
    && if els[0].Longs? then j < els[0].len
       else els[0].len == 4 && |els| > 1 && els[1].Longs? && 1 <= j <= els[1].len
  }

  /** The checksum is swapped as a longword in every block type that has one. */
  lemma ChecksumIsLong(typ: nat)
    requires 1 <= typ < |SwapTable()|
    ensures SwapsLong(SwapTable()[typ].els, if typ < 7 then 5 else 2)
    ensures typ == 5 ==> SwapsLong(SwapTable()[typ].els, 0)
  {
  }

  lemma LongSource(els: seq<SwapEl>, j: nat, i: nat)
    requires SwapsLong(els, j) && 4 * j <= i < 4 * j + 4
    ensures Source(els, i) == 4 * j + (3 - (i - 4 * j))
    ensures 4 * j + 4 <= Spans(els)
  {
    LongIndex(j, i - 4 * j);
    if els[0].Chars? {
      SpansUnfold(els);
      SpansUnfold(els[1..]);
      LongIndex(j - 1, i - 4 * j);
      assert Source(els[1..], i - 4) == 4 * (j - 1) + (3 - (i - 4 * j));
    } else {
      SpansUnfold(els);
    }
  }

  /** The longword of the host at byte `p`, least byte first. */
  function HostLongAt(s: seq<byte>, p: nat): (x: nat)
    requires p + 4 <= |s|
    ensures x < U32
  {
    LongAt([s[p + 3], s[p + 2], s[p + 1], s[p]], 0)
  }

  /** Are all spans whole longwords, so that every longword is at a multiple of 4? */
  predicate Aligned(els: seq<SwapEl>) {
    forall n :: 0 <= n < |els| ==> Span(els[n]) % 4 == 0
  }

  lemma TableIsAligned(typ: nat)
    requires typ < |SwapTable()|
    ensures Aligned(SwapTable()[typ].els)
  {
  }

  lemma {:induction false} LongMirrored(els: seq<SwapEl>, p: nat, m: nat)
    requires Aligned(els) && p % 4 == 0 && m < 4 && !IsChar(els, p)
    ensures Source(els, p + m) == p + (3 - m) && p + 4 <= Spans(els)
    decreases els
  {
    hide Source, Spans, Span;
    SpansUnfold(els);
    MirrorUnfold(els, p);
    if p >= Span(els[0]) {
      AlignedRest(els);
      LongMirrored(els[1..], p - Span(els[0]), m);
      SourceUnfold(els, p + m);
    } else {
      InFirstSpan(els, p, m);
    }
  }

  lemma MirrorUnfold(els: seq<SwapEl>, p: nat)
    requires !IsChar(els, p)
    ensures els != []
    ensures if p >= Span(els[0]) then !IsChar(els[1..], p - Span(els[0])) else els[0].Longs?
  {
  }

  lemma AlignedRest(els: seq<SwapEl>)
    requires Aligned(els) && els != []
    ensures Aligned(els[1..]) && Span(els[0]) % 4 == 0
  {
  }

  lemma InFirstSpan(els: seq<SwapEl>, p: nat, m: nat)
    requires els != [] && els[0].Longs? && p < Span(els[0]) && p % 4 == 0 && m < 4
    ensures Source(els, p + m) == p + (3 - m) && p + 4 <= Span(els[0])
  {
    LongIndex(p / 4, m);
  }

  /** After a swap the host reads every longword as the disk has it, and every character. */
  lemma HostReads(s: seq<byte>, els: seq<SwapEl>, p: nat)
    requires Aligned(els) && Spans(els) <= |s| && p % 4 == 0 && p < |s|
    ensures IsChar(els, p) ==> Swapped(s, els)[p] == s[p]
    ensures !IsChar(els, p) ==> p + 4 <= |s| && HostLongAt(Swapped(s, els), p) == LongAt(s, p)
  {
    if IsChar(els, p) {
      CharsStay(els, p);
    } else {
      LongMirrored(els, p, 0);
      LongMirrored(els, p, 1);
      LongMirrored(els, p, 2);
      LongMirrored(els, p, 3);
      hide Source, IsChar, Spans;
      var t := Swapped(s, els);
      assert t[p] == s[p + 3] && t[p + 1] == s[p + 2] && t[p + 2] == s[p + 1] && t[p + 3] == s[p];
    }
  }

  /** A number of 16 bits, with its most or its least significant byte first. */
  function ShortAt(s: seq<byte>, p: nat): nat
    requires p + 2 <= |s|
  {
    s[p] as int * 256 + s[p + 1] as int
  }

  function HostShortAt(s: seq<byte>, p: nat): nat
    requires p + 2 <= |s|
  {
    s[p] as int + s[p + 1] as int * 256
  }

  const FSHD := 10

  /**
    The two version numbers of a file system header, which have 16 bits each, are swapped as
    one longword: each is read where the other one should be.
  */
  lemma VersionsExchanged(s: seq<byte>)
    requires |s| == 256
    ensures Spans(SwapTable()[FSHD].els) <= |s|
    ensures var t := Swapped(s, SwapTable()[FSHD].els);
            HostShortAt(t, 0x24) == ShortAt(s, 0x26) && HostShortAt(t, 0x26) == ShortAt(s, 0x24)
  {
    hide Source, IsChar, Spans, Aligned;
    TableFillsBlocks(FSHD);
    TableIsAligned(FSHD);
    TableFitsBlocks(FSHD, 0x24);
    assert |SwapTable()| == 12 && SwapTable()[FSHD].total == 256;
    hide SwapTable;
    var els := SwapTable()[FSHD].els;
    LongMirrored(els, 0x24, 0);
    LongMirrored(els, 0x24, 1);
    LongMirrored(els, 0x24, 2);
    LongMirrored(els, 0x24, 3);
    var t := Swapped(s, els);
    assert t[0x24] == s[0x27] && t[0x25] == s[0x26] && t[0x26] == s[0x25] && t[0x27] == s[0x24];
  }

  /** What is written: the block is swapped, and its checksum stored in longword `j`. */
  function Written(s: seq<byte>, els: seq<SwapEl>, j: nat): (t: seq<byte>)
    requires Spans(els) <= |s| && 4 * j + 4 <= |s|
    ensures |t| == |s|
  {
    Sealed(Swapped(s, els), j)
  }

  /**
    A block that is written and read passes the check, and all its fields but the checksum
    are as they were.
  */
  lemma WriteThenRead(s: seq<byte>, els: seq<SwapEl>, j: nat)
    requires Spans(els) <= |s| && |s| % 4 == 0 && SwapsLong(els, j)
    ensures 4 * j + 4 <= |s|
    ensures var t := Written(s, els, j);
            var r := Swapped(t, els);
            && HostLongAt(r, 4 * j) == NormalSumOf(t, 4 * j)
            && r[..4 * j] == s[..4 * j] && r[4 * j + 4..] == s[4 * j + 4..]
  {
    hide Source, NormalSumOf, Spans, SwapsLong, Written, HostLongAt, Swapped;
    LongSource(els, j, 4 * j);
    var r := Swapped(Written(s, els, j), els);
    ChecksumReadBack(s, els, j);
    forall i | 0 <= i < |s| && !(4 * j <= i < 4 * j + 4) ensures r[i] == s[i] {
      FieldReadBack(s, els, j, i);
    }
  }

  lemma FieldReadBack(s: seq<byte>, els: seq<SwapEl>, j: nat, i: nat)
    requires Spans(els) <= |s| && SwapsLong(els, j) && 4 * j + 4 <= |s| && i < |s| && !(4 * j <= i < 4 * j + 4)
    ensures Swapped(Written(s, els, j), els)[i] == s[i]
  {
    hide Source, NormalSumOf, Spans, SwapsLong;
    SourceInside(els, i);
    SourceTwice(els, i);
    var k := Source(els, i);
    if 4 * j <= k < 4 * j + 4 {
      LongSource(els, j, k);
    }
    assert Written(s, els, j)[k] == Swapped(s, els)[k];
  }

  lemma ChecksumReadBack(s: seq<byte>, els: seq<SwapEl>, j: nat)
    requires Spans(els) <= |s| && |s| % 4 == 0 && SwapsLong(els, j) && 4 * j + 4 <= |s|
    ensures var t := Written(s, els, j);
            HostLongAt(Swapped(t, els), 4 * j) == NormalSumOf(t, 4 * j)
  {
    hide Source, NormalSumOf, Spans, SwapsLong, LongAt, Sealed;
    LongSource(els, j, 4 * j);
    LongSource(els, j, 4 * j + 1);
    LongSource(els, j, 4 * j + 2);
    LongSource(els, j, 4 * j + 3);
    SealedPasses(Swapped(s, els), j);
    var t := Written(s, els, j);
    var r := Swapped(t, els);
    assert [r[4 * j + 3], r[4 * j + 2], r[4 * j + 1], r[4 * j]] == [t[4 * j], t[4 * j + 1], t[4 * j + 2], t[4 * j + 3]];
    SameLong([t[4 * j], t[4 * j + 1], t[4 * j + 2], t[4 * j + 3]], t, 4 * j);
  }

  lemma SameLong(b: seq<byte>, t: seq<byte>, p: nat)
    requires |b| == 4 && p + 4 <= |t| && b == [t[p], t[p + 1], t[p + 2], t[p + 3]]
    ensures LongAt(b, 0) == LongAt(t, p)
  {
  }

  /** Store a longword, most significant byte first. */
  method PutLong(buf: array<byte>, p: nat, x: nat)
    requires p + 4 <= buf.Length && x < U32
    modifies buf
    ensures buf[..] == WithLong(old(buf[..]), p, x)
  {
    var b := LongBytes(x);
    buf[p], buf[p + 1], buf[p + 2], buf[p + 3] := b[0], b[1], b[2], b[3];
    assert buf[..] == old(buf[..p]) + b + old(buf[p + 4..]);
  }

  /** How a block of type `typ` with its checksum in longword `j` is made ready to be written. */
  method StoreBlock(buf: array<byte>, typ: nat, j: nat)
    requires typ < |SwapTable()| && SwapTable()[typ].total <= buf.Length && SwapsLong(SwapTable()[typ].els, j)
    modifies buf
    ensures Spans(SwapTable()[typ].els) <= buf.Length && 4 * j + 4 <= buf.Length
    ensures buf[..] == Written(old(buf[..]), SwapTable()[typ].els, j)
  {
    hide SwapTable, Spans, SwapsLong, NormalSumOf, Swapped;
    LongSource(SwapTable()[typ].els, j, 4 * j);
    SwapEndian(buf, typ);
    var newSum := NormalSum(buf, 4 * j);
    PutLong(buf, 4 * j, newSum);
  }

  /** How a block of type `typ` is taken from the bytes read, and its checksum checked. */
  method FetchBlock(buf: array<byte>, blk: array<byte>, typ: nat, j: nat) returns (ok: bool)
    requires typ < |SwapTable()| && SwapTable()[typ].total <= buf.Length == blk.Length && buf != blk
    requires SwapsLong(SwapTable()[typ].els, j)
    modifies blk
    ensures Spans(SwapTable()[typ].els) <= buf.Length && 4 * j + 4 <= buf.Length
    ensures blk[..] == Swapped(buf[..], SwapTable()[typ].els)
    ensures ok <==> HostLongAt(blk[..], 4 * j) == NormalSumOf(buf[..], 4 * j)
  {
    hide SwapTable, Spans, SwapsLong, NormalSumOf, Swapped;
    LongSource(SwapTable()[typ].els, j, 4 * j);
    forall i | 0 <= i < blk.Length {
      blk[i] := buf[i];
    }
    assert blk[..] == buf[..];
    SwapEndian(blk, typ);
    var checksumCalculated := NormalSum(buf, 4 * j);
    ok := HostLongAt(blk[..], 4 * j) == checksumCalculated;
  }

  /* ---- a root block that is read as an entry ---- */

  const ROOT_ROW := 1
  const ENTRY_ROW := 3

  function Mirror(i: nat): nat {
    i / 4 * 4 + (3 - i % 4)
  }

  lemma MirrorShift(i: nat, k: nat)
    requires k <= i && k % 4 == 0
    ensures k + Mirror(i - k) == Mirror(i)
  {
  }

  lemma SourceUnfold(els: seq<SwapEl>, i: nat)
    requires els != []
    ensures Source(els, i) == if i >= Span(els[0]) then Span(els[0]) + Source(els[1..], i - Span(els[0]))
                              else if els[0].Chars? then i else Mirror(i)
  {
  }

  lemma RootSource(i: nat)
    requires i < 512
    ensures Source(SwapTable()[ROOT_ROW].els, i) == if 432 <= i < 472 then i else Mirror(i)
  {
    hide Source, Mirror;
    var els := SwapTable()[ROOT_ROW].els;
    SourceUnfold(els, i);
    if i >= 432 {
      SourceUnfold(els[1..], i - 432);
    }
    if i >= 472 {
      SourceUnfold(els[2..], i - 472);
      MirrorShift(i, 472);
    }
  }

  /** The source of byte `i` of an entry block, from the first name on. */
  lemma EntryTail(i: nat)
    requires 420 <= i < 512
    ensures 420 + Source(SwapTable()[ENTRY_ROW].els[2..], i - 420) == if 432 <= i < 468 then i else Mirror(i)
  {
    hide Source, Mirror;
    var els := SwapTable()[ENTRY_ROW].els[2..];
    SourceUnfold(els, i - 420);
    MirrorShift(i, 420);
    if i >= 432 {
      SourceUnfold(els[1..], i - 432);
    }
    if i >= 468 {
      SourceUnfold(els[2..], i - 468);
      MirrorShift(i, 468);
    }
  }

  lemma EntrySource(i: nat)
    requires i < 512
    ensures Source(SwapTable()[ENTRY_ROW].els, i) == if 328 <= i < 420 || 432 <= i < 468 then i else Mirror(i)
  {
    hide Source, Mirror;
    var els := SwapTable()[ENTRY_ROW].els;
    SourceUnfold(els, i);
    if i >= 328 {
      SourceUnfold(els[1..], i - 328);
      assert els[1..][1..] == els[2..];
    }
    if i >= 420 {
      EntryTail(i);
    }
  }

  /** The bytes that an entry block has as characters and a root block as longwords, or the other way round. */
  predicate SwapsApart(i: nat) {
    328 <= i < 420 || 468 <= i < 472
  }

  /** What becomes of the bytes of a root block that is read as an entry and written as a root block. */
  function RootRewritten(raw: seq<byte>): (t: seq<byte>)
    requires |raw| == 512
    ensures |t| == 512
  {
    RowSpans();
    Swapped(Swapped(raw, SwapTable()[ENTRY_ROW].els), SwapTable()[ROOT_ROW].els)
  }

  /**
    A root block that is read as an entry and written as a root block, as creating an entry
    in it does, has the pointers to bitmap pages from the fourth on, and the one to the
    bitmap extension, in the other byte order. It is kept exactly if all of them read the
    same both ways, as zeros do.
  */
  lemma RootReadAsEntry(raw: seq<byte>)
    requires |raw| == 512
    ensures var t := RootRewritten(raw);
            && (forall i :: 0 <= i < 512 ==> t[i] == raw[if SwapsApart(i) then Mirror(i) else i])
            && (t == raw <==> forall i :: 0 <= i < 512 && SwapsApart(i) ==> raw[i] == raw[Mirror(i)])
  {
    hide Source, Spans, SwapTable;
    RowSpans();
    var e, r := SwapTable()[ENTRY_ROW].els, SwapTable()[ROOT_ROW].els;
    var u := Swapped(raw, e);
    var t := Swapped(u, r);
    forall i | 0 <= i < 512 ensures t[i] == raw[if SwapsApart(i) then Mirror(i) else i] {
      SourceInside(r, i);
      RootSource(i);
      var k := Source(r, i);
      SourceInside(e, k);
      EntrySource(k);
      MirrorTwice(i);
      assert t[i] == u[k] == raw[Source(e, k)];
    }
  }

  lemma MirrorTwice(i: nat)
    ensures Mirror(Mirror(i)) == i && Mirror(i) / 4 == i / 4
  {
  }

  lemma RowSpans()
    ensures |SwapTable()| > 3
    ensures Spans(SwapTable()[ENTRY_ROW].els) == Spans(SwapTable()[ROOT_ROW].els) == 512
  {
    TableFillsBlocks(ENTRY_ROW);
    TableFillsBlocks(ROOT_ROW);
  }

  /* ---- the checksum of the boot block ---- */

  /** A sum of 32 bits in which a carry comes back in at the low end. */
  function AddCarry(a: nat, d: nat): (x: nat)
    requires a < U32 && d < U32
    ensures x < U32
  {
    if a + d < U32 then a + d else a + d + 1 - U32
  }

  function BootSumOf(s: seq<byte>, n: nat): (x: nat)
    requires 4 * n <= |s|
    ensures x < U32
  {
    if n == 0 then 0
    else if n == 2 then BootSumOf(s, 1)
    else AddCarry(BootSumOf(s, n - 1), LongAt(s, 4 * (n - 1)))
  }

  /** What a sum with a carry leaves of a plain sum: 1 to 0xffffffff, and 0 of nothing. */
  function Carried(p: nat): (x: nat)
    ensures x < U32
  {
    if p == 0 then 0 else (p - 1) % 0xffff_ffff + 1
  }

  /** The boot sum is the sum of the longwords but number 1, modulo 0xffffffff, where only nothing has the sum 0. */
  lemma {:induction false} BootSumIsModulo(s: seq<byte>, n: nat)
    requires 4 * n <= |s|
    ensures BootSumOf(s, n) == Carried(PlainSum(s, n, 1))
  {
    hide LongAt, AddCarry, PlainSum, Carried;
    PlainStep(s, n, 1);
    if n == 0 {
      NothingCarried();
    } else if n == 2 {
      BootSumIsModulo(s, 1);
    } else {
      BootSumIsModulo(s, n - 1);
      CarryStep(PlainSum(s, n - 1, 1), LongAt(s, 4 * (n - 1)));
    }
  }

  lemma NothingCarried()
    ensures Carried(0) == 0
  {
  }

  /** One more longword. */
  lemma CarryStep(p: nat, d: nat)
    requires d < U32
    ensures AddCarry(Carried(p), d) == Carried(p + d)
  {
    if p > 0 {
      var x, q := (p - 1) % 0xffff_ffff, (p - 1) / 0xffff_ffff;
      RemainderOf(q, x + d);
    }
  }

  lemma RemainderOf(q: nat, r: nat)
    ensures (0xffff_ffff * q + r) % 0xffff_ffff == r % 0xffff_ffff
  {
  }

  lemma BootSumStep(s: seq<byte>, i: nat)
    requires 4 * (i + 1) <= |s|
    ensures BootSumOf(s, 0) == 0
    ensures BootSumOf(s, i + 1) == if i == 1 then BootSumOf(s, i) else AddCarry(BootSumOf(s, i), LongAt(s, 4 * i))
  {
    hide LongAt, AddCarry;
  }

  /** Both ways of adding with a carry: before the sum overflows, and after it has. */
  lemma CarryBefore(a: nat, d: nat)
    requires a < U32 && d < U32
    ensures AddCarry(a, d) == ((if 0xffff_ffff - a < d then (a + 1) % U32 else a) + d) % U32
  {
  }

  lemma CarryAfter(a: nat, d: nat)
    requires a < U32 && d < U32
    ensures var x := (a + d) % U32;
            AddCarry(a, d) == if x < a then (x + 1) % U32 else x
  {
  }

  /** adfBootSum: the carry is added before the sum would overflow. */
  method BootSum(buf: array<byte>) returns (newSum: nat)
    requires buf.Length == 1024
    ensures newSum == U32 - 1 - BootSumOf(buf[..], 256) == 0xffff_ffff - Carried(PlainSum(buf[..], 256, 1))
  {
    hide LongAt, AddCarry, BootSumOf, PlainSum, Carried;
    BootSumIsModulo(buf[..], 256);
    BootSumStep(buf[..], 0);
    newSum := 0;
    var i := 0;
    while i < 256
      invariant 0 <= i <= 256 && newSum == BootSumOf(buf[..], i)
    {
      BootSumStep(buf[..], i);
      if i != 1 {
        var d := LongAt(buf[..], 4 * i);
        CarryBefore(newSum, d);
        if 0xffff_ffff - newSum < d {
          newSum := (newSum + 1) % U32;
        }
        newSum := (newSum + d) % U32;
      }
      i := i + 1;
    }
    newSum := 0xffff_ffff - newSum;
  }

  /** adfBootSum2: the carry is added after the sum has overflowed; the result is that of adfBootSum. */
  method BootSum2(buf: array<byte>) returns (newSum: nat)
    requires buf.Length == 1024
    ensures newSum == U32 - 1 - BootSumOf(buf[..], 256) == 0xffff_ffff - Carried(PlainSum(buf[..], 256, 1))
  {
    hide LongAt, AddCarry, BootSumOf, PlainSum, Carried;
    BootSumIsModulo(buf[..], 256);
    BootSumStep(buf[..], 0);
    newSum := 0;
    var i := 0;
    while i < 256
      invariant 0 <= i <= 256 && newSum == BootSumOf(buf[..], i)
    {
      BootSumStep(buf[..], i);
      if i != 1 {
        var prevsum := newSum;
        CarryAfter(prevsum, LongAt(buf[..], 4 * i));
        newSum := (newSum + LongAt(buf[..], 4 * i)) % U32;
        if newSum < prevsum {
          newSum := (newSum + 1) % U32;
        }
      }
      i := i + 1;
    }
    newSum := 0xffff_ffff - newSum;
  }
}
