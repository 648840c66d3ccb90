/**
  Size and position arithmetic of files: how many data blocks and file
  extension blocks a size needs, and which block holds a given offset.
  Models adf_file_util.c and adf_file_util.h.
*/
module FileUtil {

  /** Slots for data block pointers in a file header and in each extension block. */
  const MAX_DATABLK := 72

  /** Data bytes in one FFS data block. */
  const FFS_BLOCK := 512

  function Size2Datablocks(fsize: nat, blockSize: nat): (n: nat)
    requires blockSize > 0
  {
    fsize / blockSize + (if fsize % blockSize > 0 then 1 else 0)
  }

  function Datablocks2Extblocks(ndatablocks: nat): (n: nat) {
    if ndatablocks < 1 then 0 else (ndatablocks - 1) / MAX_DATABLK
  }

  function Size2Extblocks(fsize: nat, blockSize: nat): nat
    requires blockSize > 0
  {
    Datablocks2Extblocks(Size2Datablocks(fsize, blockSize))
  }

  /** Blocks of a file of `n` data blocks: data, extension and header blocks. */
  function BlocksOf(n: nat): nat {
    n + Datablocks2Extblocks(n) + 1
  }

  function Size2Blocks(fsize: nat, blockSize: nat): nat
    requires blockSize > 0
  {
    BlocksOf(Size2Datablocks(fsize, blockSize))
  }

  /** The three results of adfFileRealSize. */
  datatype RealSizeResult = RealSizeResult(total: nat, data: nat, ext: nat)

  function RealSize(size: nat, blockSize: nat): RealSizeResult
    requires blockSize > 0
  {
    var data := size / blockSize + (if size % blockSize != 0 then 1 else 0);
    var ext := if data > MAX_DATABLK
               then (data - MAX_DATABLK) / MAX_DATABLK + (if (data - MAX_DATABLK) % MAX_DATABLK != 0 then 1 else 0)
               else 0;
    RealSizeResult(ext + data + 1, data, ext)
  }

  /** The results of adfFilePos2DataBlock; `extBlock` is -1 when the header holds the slot. */
  datatype BlockPos = BlockPos(extBlock: int, posInExtBlk: nat, posInDataBlk: nat, curDataN: nat)

  function Pos2DataBlock(pos: nat, blockSize: nat): BlockPos
    requires blockSize > 0
  {
    var posInDataBlk := pos % blockSize;
    var curDataN := pos / blockSize;
    if curDataN < MAX_DATABLK then
      BlockPos(-1, 0, posInDataBlk, curDataN)
    else
      var dataSizeByExtBlock := blockSize * MAX_DATABLK;
      HeaderDataFits(pos, blockSize);
      var offsetInExt := pos - dataSizeByExtBlock;
      BlockPos(offsetInExt / dataSizeByExtBlock, (offsetInExt / blockSize) % MAX_DATABLK, posInDataBlk, curDataN)
  }

  lemma MulAtLeast(b: int, k: int)
    requires b > 0 && k >= 1
    ensures b * k >= b
  {
    assert b * (k - 1) >= 0;
  }

  lemma QuotientUnique(b: int, q: int, r: int, q': int, r': int)
    requires b > 0 && 0 <= r < b && 0 <= r' < b
    requires b * q + r == b * q' + r'
    ensures q == q' && r == r'
  {
    if q > q' {
      MulAtLeast(b, q - q');
    } else if q < q' {
      MulAtLeast(b, q' - q);
    }
  }

  /** `q` and `r` are the quotient and remainder of `a` by `b`. */
  lemma DivUnique(a: int, b: int, q: int, r: int)
    requires b > 0 && 0 <= r < b && a == b * q + r
    ensures a / b == q && a % b == r
  {
    QuotientUnique(b, a / b, a % b, q, r);
  }

  lemma HeaderDataFits(pos: nat, blockSize: nat)
    requires blockSize > 0 && pos / blockSize >= MAX_DATABLK
    ensures pos >= blockSize * MAX_DATABLK
  {
    assert blockSize * (pos / blockSize) >= blockSize * MAX_DATABLK;
  }

  /**
    The position decomposes exactly: first into data block and offset, and from
    block 72 on the data block into extension block and slot.
  */
  lemma Pos2DataBlockExact(pos: nat, blockSize: nat)
    requires blockSize > 0
    ensures var p := Pos2DataBlock(pos, blockSize);
            && pos == blockSize * p.curDataN + p.posInDataBlk
            && p.posInDataBlk < blockSize
            && p.posInExtBlk < MAX_DATABLK
            && (p.curDataN < MAX_DATABLK <==> p.extBlock == -1)
            && (p.extBlock != -1 ==>
                  p.extBlock >= 0 && p.curDataN == MAX_DATABLK + MAX_DATABLK * p.extBlock + p.posInExtBlk)
  {
    var n, d := pos / blockSize, pos % blockSize;
    if n >= MAX_DATABLK {
      HeaderDataFits(pos, blockSize);
      var off, m := pos - blockSize * MAX_DATABLK, n - MAX_DATABLK;
      assert off == blockSize * m + d;
      DivUnique(off, blockSize, m, d);
      ExtOffset(off, blockSize, m, d);
    }
  }

  lemma ExtOffset(off: nat, blockSize: nat, m: nat, d: nat)
    requires d < blockSize && off == blockSize * m + d
    ensures blockSize * MAX_DATABLK > 0
    ensures off / (blockSize * MAX_DATABLK) == m / MAX_DATABLK
  {
    var e, k := m / MAX_DATABLK, m % MAX_DATABLK;
    var span, r := blockSize * MAX_DATABLK, blockSize * k + d;
    assert r < span by {
      MulMonotone(blockSize, k, MAX_DATABLK - 1);
    }
    assert blockSize * m == span * e + blockSize * k by {
      assert m == MAX_DATABLK * e + k;
      Regroup(blockSize, e, k);
    }
    DivUnique(off, span, e, r);
  }

  lemma MulMonotone(b: nat, x: int, y: int)
    requires x <= y
    ensures b * x <= b * y
  {
    assert b * (y - x) >= 0;
  }

  lemma Regroup(b: int, e: int, k: int)
    ensures b * (MAX_DATABLK * e + k) == b * MAX_DATABLK * e + b * k
  {
  }

  /** The number of data blocks is the least one whose blocks hold `fsize` bytes. */
  lemma Size2DatablocksLeast(fsize: nat, blockSize: nat, n: nat)
    requires blockSize > 0
    ensures n >= Size2Datablocks(fsize, blockSize) <==> n * blockSize >= fsize
  {
    var q, r := fsize / blockSize, fsize % blockSize;
    assert fsize == blockSize * q + r;
    if n > q {
      MulMonotone(blockSize, q + 1, n);
    } else if n < q {
      MulMonotone(blockSize, n + 1, q);
    }
  }

  /** The number of extension blocks is the least one whose slots, with the header's, hold `n` pointers. */
  lemma Datablocks2ExtblocksLeast(n: nat, e: nat)
    ensures e >= Datablocks2Extblocks(n) <==> MAX_DATABLK * (e + 1) >= n
  {
  }

  /** The two ways the library counts the blocks of a file agree on every size. */
  lemma RealSizeAgrees(size: nat, blockSize: nat)
    requires blockSize > 0
    ensures var r := RealSize(size, blockSize);
            && r.total == Size2Blocks(size, blockSize)
            && r.data == Size2Datablocks(size, blockSize)
            && r.ext == Size2Extblocks(size, blockSize)
  {
    var d := Size2Datablocks(size, blockSize);
    if d > MAX_DATABLK {
      var m := d - MAX_DATABLK;
      assert (d - 1) / MAX_DATABLK == (m - 1) / MAX_DATABLK + 1;
    }
  }
}
