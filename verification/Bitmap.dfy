/**
  The arithmetic of the paged allocation bitmap: which page, word and bit stand for
  a sector, and what setting and clearing a bit does to the others.
*/
module Bitmap {

  /** 32-bit words in one bitmap page. */
  const MAP_SIZE := 127

  function Twice(w: bv32): bv32 { w + w }

  /** The word with only bit `k` set: entry `k` of the table of bit masks. */
  function Mask(k: nat): bv32 {
    if k == 0 then 1 else Twice(Mask(k - 1))
  }

  /** The table of bit masks. */
  lemma Masks()
    ensures Mask(0) == 0x1 && Mask(1) == 0x2 && Mask(2) == 0x4 && Mask(3) == 0x8
    ensures Mask(4) == 0x10 && Mask(5) == 0x20 && Mask(6) == 0x40 && Mask(7) == 0x80
    ensures Mask(8) == 0x100 && Mask(9) == 0x200 && Mask(10) == 0x400 && Mask(11) == 0x800
    ensures Mask(12) == 0x1000 && Mask(13) == 0x2000 && Mask(14) == 0x4000 && Mask(15) == 0x8000
    ensures Mask(16) == 0x10000 && Mask(17) == 0x20000 && Mask(18) == 0x40000 && Mask(19) == 0x80000
    ensures Mask(20) == 0x100000 && Mask(21) == 0x200000 && Mask(22) == 0x400000 && Mask(23) == 0x800000
    ensures Mask(24) == 0x1000000 && Mask(25) == 0x2000000 && Mask(26) == 0x4000000 && Mask(27) == 0x8000000
    ensures Mask(28) == 0x10000000 && Mask(29) == 0x20000000 && Mask(30) == 0x40000000 && Mask(31) == 0x80000000
  {
  }

  predicate Apart(a: bv32, b: bv32) { a & b == 0 }

  lemma TwiceApart(a: bv32, b: bv32)
    requires Apart(a, b)
    ensures Apart(Twice(a), Twice(b))
  {
  }

  lemma LowBitApart(a: bv32)
    ensures Apart(1, Twice(a))
  {
  }

  /** Different bits have disjoint masks. */
  lemma {:induction false} MasksApart(j: nat, k: nat)
    requires j < k
    ensures Apart(Mask(j), Mask(k))
  {
    if j > 0 {
      MasksApart(j - 1, k - 1);
      TwiceApart(Mask(j - 1), Mask(k - 1));
    } else {
      LowBitApart(Mask(k - 1));
    }
  }

  function Doubled(w: bv32, n: nat): bv32 {
    if n == 0 then w else Twice(Doubled(w, n - 1))
  }

  lemma {:induction false} ZeroDoubled(n: nat)
    ensures Doubled(0, n) == 0
  {
    if n > 0 {
      ZeroDoubled(n - 1);
    }
  }

  lemma {:induction false} MaskDoubled(k: nat, n: nat)
    ensures Doubled(Mask(k), n) == Mask(k + n)
  {
    if n > 0 {
      MaskDoubled(k, n - 1);
    }
  }

  lemma TopMask()
    ensures Mask(31) == 0x8000_0000
  {
    assert Mask(8) == 0x100;
    assert Mask(16) == 0x1_0000;
    assert Mask(24) == 0x100_0000;
  }

  /** A mask of a 32-bit word is never 0. */
  lemma MaskNonZero(k: nat)
    requires k < 32
    ensures Mask(k) != 0
  {
    MaskDoubled(k, 31 - k);
    ZeroDoubled(31 - k);
    TopMask();
  }

  predicate Has(w: bv32, m: bv32) { w & m != 0 }

  function WithBits(w: bv32, m: bv32): bv32 { w | m }

  function WithoutBits(w: bv32, m: bv32): bv32 { w & !m }

  predicate BitSet(w: bv32, k: nat) {
    Has(w, Mask(k))
  }

  lemma HasOther(w: bv32, m: bv32, o: bv32)
    requires Apart(m, o)
    ensures Has(WithBits(w, m), o) == Has(w, o)
    ensures Has(WithoutBits(w, m), o) == Has(w, o)
  {
    OrOther(w, m, o);
    AndNotOther(w, m, o);
  }

  lemma OrOther(w: bv32, m: bv32, o: bv32)
    requires m & o == 0
    ensures (w | m) & o == w & o
  {
  }

  lemma AndNotOther(w: bv32, m: bv32, o: bv32)
    requires m & o == 0
    ensures (w & !m) & o == w & o
  {
  }

  lemma HasSame(w: bv32, m: bv32)
    ensures m != 0 ==> Has(WithBits(w, m), m)
    ensures !Has(WithoutBits(w, m), m)
  {
  }

  lemma ApartSymmetric(a: bv32, b: bv32)
    requires Apart(a, b)
    ensures Apart(b, a)
  {
  }

  /** Setting or clearing bit `k` of a word changes that bit and no other. */
  lemma ChangeBit(w: bv32, k: nat, j: nat)
    requires k < 32 && j < 32
    ensures BitSet(WithBits(w, Mask(k)), j) <==> j == k || BitSet(w, j)
    ensures BitSet(WithoutBits(w, Mask(k)), j) <==> j != k && BitSet(w, j)
  {
    hide Mask, Has, WithBits, WithoutBits, Apart;
    if j == k {
      MaskNonZero(k);
      HasSame(w, Mask(k));
    } else {
      BitOther(k, j);
      HasOther(w, Mask(k), Mask(j));
    }
  }

  lemma BitOther(k: nat, j: nat)
    ensures j != k ==> Apart(Mask(k), Mask(j))
  {
    if j < k {
      MasksApart(j, k);
      ApartSymmetric(Mask(j), Mask(k));
    } else if k < j {
      MasksApart(k, j);
    }
  }

  /* ---- where the bit of a sector is ---- */

  function Page(s: int): int
    requires s >= 2
  {
    (s - 2) / (MAP_SIZE * 32)
  }

  function Word(s: int): int
    requires s >= 2
  {
    ((s - 2) / 32) % MAP_SIZE
  }

  function Bit(s: int): nat
    requires s >= 2
  {
    (s - 2) % 32
  }

  /** How many pages a bitmap of `nBlock` blocks takes. */
  function BitmapSize(nBlock: nat): nat {
    nBlock / (MAP_SIZE * 32) + (if nBlock % (MAP_SIZE * 32) != 0 then 1 else 0)
  }

  /** Page, word and bit determine the sector. */
  lemma SectorOf(s: int)
    requires s >= 2
    ensures s == 2 + MAP_SIZE * 32 * Page(s) + 32 * Word(s) + Bit(s)
    ensures 0 <= Word(s) < MAP_SIZE && Bit(s) < 32 && Page(s) >= 0
  {
    var w := (s - 2) / 32;
    assert w / MAP_SIZE == (s - 2) / (MAP_SIZE * 32);
  }

  lemma PlaceInjective(s: int, t: int)
    requires s >= 2 && t >= 2
    requires Page(s) == Page(t) && Word(s) == Word(t) && Bit(s) == Bit(t)
    ensures s == t
  {
    SectorOf(s);
    SectorOf(t);
  }

  /** The pages the size calls for hold the bits of all sectors of the volume. */
  lemma PageInRange(s: int, last: int)
    requires 2 <= s <= last
    ensures Page(s) < BitmapSize(last - 1)
  {
  }

  /** One page less would not. */
  lemma BitmapSizeTight(last: int)
    requires last >= 2
    ensures BitmapSize(last - 1) == Page(last) + 1
  {
  }
}
