/**
  The records of a directory cache block: variable-length records packed one behind the
  other, edited in place. A block stands for a list of cache entries. Models adf_cache.c
  within one block.
*/
module Cache {
  import opened Blocks
  import opened Names

  const RECORDS := 488
  const MAX_COMMENT_LEN := 79
  const U16 := 0x1_0000

  datatype CacheEntry = CacheEntry(
    header: nat,
    size: nat,
    protect: nat,
    days: nat,
    mins: nat,
    ticks: nat,
    typ: int,
    name: seq<byte>,
    comm: seq<byte>)

  /** The fields of an entry fit their places in a record. */
  predicate Fits(e: CacheEntry) {
    && e.header < U32 && e.size < U32 && e.protect < U32
    && e.days < U16 && e.mins < U16 && e.ticks < U16
    && -128 <= e.typ < 128
    && 1 <= |e.name| <= MAX_NAME_LEN && |e.comm| <= MAX_COMMENT_LEN
  }

  /** Records begin at even offsets. */
  function Even(n: nat): (m: nat)
    ensures m % 2 == 0 && n <= m <= n + 1
  {
    if n % 2 == 0 then n else n + 1
  }

  /** The length of the record of an entry. */
  function EntryLen(e: CacheEntry): (n: nat)
    ensures n % 2 == 0 && 25 + |e.name| + |e.comm| <= n <= 26 + |e.name| + |e.comm|
  {
    Even(25 + |e.name| + |e.comm|)
  }

  /* ---- records as bytes ---- */

  function U16At(b: seq<byte>, p: nat): (x: nat)
    requires p + 2 <= |b|
    ensures x < U16
  {
    b[p] as int * 256 + b[p + 1] as int
  }

  function U32At(b: seq<byte>, p: nat): (x: nat)
    requires p + 4 <= |b|
    ensures x < U32
  {
    U16At(b, p) * U16 + U16At(b, p + 2)
  }

  /** A byte read as a signed character. */
  function Signed(x: byte): int {
    if x < 128 then x else x - 256
  }

  function Unsigned(t: int): (x: byte)
    requires -128 <= t < 128
    ensures Signed(x) == t
  {
    if t >= 0 then t else t + 256
  }

  /** The bytes `b` are the record of entry `e`. Bytes 12 to 15 and a last odd byte are not used. */
  ghost predicate IsRecord(b: seq<byte>, e: CacheEntry) {
    && Fits(e) && |b| == EntryLen(e)
    && U32At(b, 0) == e.header && U32At(b, 4) == e.size && U32At(b, 8) == e.protect
    && U16At(b, 16) == e.days && U16At(b, 18) == e.mins && U16At(b, 20) == e.ticks
    && Signed(b[22]) == e.typ && b[23] == |e.name|
    && b[24..24 + |e.name|] == e.name
    && b[24 + |e.name|] == |e.comm|
    && b[25 + |e.name|..25 + |e.name| + |e.comm|] == e.comm
  }

  /** The record of a file named "A" of 1000 bytes, with comment "B" and its header in sector 258. */
  lemma RecordOfA()
    ensures IsRecord([0, 0, 1, 2, 0, 0, 3, 0xe8, 0, 0, 0, 4, 9, 9, 9, 9, 0, 5, 1, 6, 0, 7, 0xfd, 1, 65, 1, 66, 0],
                     CacheEntry(258, 1000, 4, 5, 262, 7, -3, [65], [66]))
  {
    var b: seq<byte> := [0, 0, 1, 2, 0, 0, 3, 0xe8, 0, 0, 0, 4, 9, 9, 9, 9, 0, 5, 1, 6, 0, 7, 0xfd, 1, 65, 1, 66, 0];
    assert U16At(b, 0) == 0 && U16At(b, 2) == 258 && U16At(b, 4) == 0 && U16At(b, 6) == 1000;
    assert U16At(b, 8) == 0 && U16At(b, 10) == 4 && U16At(b, 16) == 5 && U16At(b, 18) == 262 && U16At(b, 20) == 7;
    assert b[24..25] == [65] && b[26..27] == [66];
  }

  /** A record determines its entry. */
  lemma RecordUnique(b: seq<byte>, c: seq<byte>, d: CacheEntry, e: CacheEntry)
    requires IsRecord(b, d) && IsRecord(c, e)
    requires b <= c || c <= b
    ensures d == e && b == c
  {
    assert b[23] == c[23];
    var n := |d.name|;
    assert b[24..24 + n] == c[24..24 + n];
    assert b[24 + n] == c[24 + n];
    assert b[25 + n..25 + n + |d.comm|] == c[25 + n..25 + n + |d.comm|];
  }

  /** How many bytes the records of a list of entries take. */
  function Total(es: seq<CacheEntry>): (n: nat)
    ensures n % 2 == 0
  {
    if es == [] then 0 else EntryLen(es[0]) + Total(es[1..])
  }

  /** The bytes `b` are the records of the entries `es`, one behind the other. */
  ghost predicate Records(b: seq<byte>, es: seq<CacheEntry>)
    decreases es
  {
    if es == [] then b == []
    else
      var n := EntryLen(es[0]);
      n <= |b| && IsRecord(b[..n], es[0]) && Records(b[n..], es[1..])
  }

  lemma {:induction false} RecordsLength(b: seq<byte>, es: seq<CacheEntry>)
    requires Records(b, es)
    ensures |b| == Total(es)
    decreases es
  {
    if es != [] {
      RecordsLength(b[EntryLen(es[0])..], es[1..]);
    }
  }

  lemma {:induction false} TotalJoin(es: seq<CacheEntry>, fs: seq<CacheEntry>)
    ensures Total(es + fs) == Total(es) + Total(fs)
    decreases es
  {
    if es == [] {
      assert es + fs == fs;
    } else {
      assert (es + fs)[1..] == es[1..] + fs;
      TotalJoin(es[1..], fs);
    }
  }

  lemma {:induction false} RecordsJoin(a: seq<byte>, es: seq<CacheEntry>, b: seq<byte>, fs: seq<CacheEntry>)
    requires Records(a, es) && Records(b, fs)
    ensures Records(a + b, es + fs)
    decreases es
  {
    hide IsRecord, EntryLen;
    if es == [] {
      assert a + b == b && es + fs == fs;
    } else {
      var n := EntryLen(es[0]);
      RecordsJoin(a[n..], es[1..], b, fs);
      assert (a + b)[..n] == a[..n] && (a + b)[n..] == a[n..] + b && (es + fs)[1..] == es[1..] + fs;
    }
  }

  lemma {:induction false} RecordsSplit(b: seq<byte>, es: seq<CacheEntry>, fs: seq<CacheEntry>)
    requires Records(b, es + fs)
    ensures Total(es) <= |b| && Records(b[..Total(es)], es) && Records(b[Total(es)..], fs)
    decreases es
  {
    hide IsRecord, EntryLen;
    if es == [] {
      assert es + fs == fs && b[0..] == b;
    } else {
      var n := EntryLen(es[0]);
      assert (es + fs)[1..] == es[1..] + fs;
      RecordsSplit(b[n..], es[1..], fs);
      var t := Total(es[1..]);
      assert b[..n + t][..n] == b[..n] && b[..n + t][n..] == b[n..][..t] && b[n + t..] == b[n..][t..];
    }
  }

  lemma OneRecord(b: seq<byte>, e: CacheEntry)
    ensures Records(b, [e]) <==> IsRecord(b, e)
  {
    hide IsRecord;
    if |b| == EntryLen(e) {
      assert b[..EntryLen(e)] == b && b[EntryLen(e)..] == [];
    }
    if IsRecord(b, e) {
      RecordLength(b, e);
    }
  }

  lemma RecordLength(b: seq<byte>, e: CacheEntry)
    requires IsRecord(b, e)
    ensures |b| == EntryLen(e) && Fits(e)
  {
  }

  lemma TotalStep(es: seq<CacheEntry>, k: nat)
    requires k < |es|
    ensures Total(es[..k + 1]) == Total(es[..k]) + EntryLen(es[k])
  {
    hide EntryLen;
    TotalJoin(es[..k], [es[k]]);
    assert es[..k + 1] == es[..k] + [es[k]];
    assert Total([es[k]]) == EntryLen(es[k]) + Total([]);
  }

  lemma SplitAt(b: seq<byte>, es: seq<CacheEntry>, k: nat)
    requires Records(b, es) && k <= |es|
    ensures var p := Total(es[..k]);
            p <= |b| && Records(b[..p], es[..k]) && Records(b[p..], es[k..])
  {
    hide IsRecord, EntryLen, Total, Records;
    assert es == es[..k] + es[k..];
    RecordsSplit(b, es[..k], es[k..]);
  }

  lemma FirstRecord(b: seq<byte>, es: seq<CacheEntry>)
    requires Records(b, es) && es != []
    ensures var n := EntryLen(es[0]);
            n <= |b| && IsRecord(b[..n], es[0]) && Records(b[n..], es[1..])
  {
    hide IsRecord, EntryLen;
  }

  /** Record `k` and what is before and behind it. */
  lemma RecordAt(b: seq<byte>, es: seq<CacheEntry>, k: nat)
    requires Records(b, es) && k < |es|
    ensures var p, q := Total(es[..k]), Total(es[..k + 1]);
            && p + EntryLen(es[k]) == q <= |b| == Total(es)
            && Records(b[..p], es[..k]) && IsRecord(b[p..q], es[k]) && Records(b[q..], es[k + 1..])
  {
    hide IsRecord, EntryLen, Total, Records;
    var p, n := Total(es[..k]), EntryLen(es[k]);
    SplitAt(b, es, k);
    SplitAt(b, es, k + 1);
    TotalStep(es, k);
    RecordsLength(b, es);
    assert es[k..][0] == es[k];
    FirstRecord(b[p..], es[k..]);
    assert b[p..][..n] == b[p..p + n];
  }

  /** Records `es` with number `k` replaced by the record `c` of entry `e`. */
  lemma Replaced(b: seq<byte>, es: seq<CacheEntry>, k: nat, c: seq<byte>, e: CacheEntry)
    requires Records(b, es) && k < |es| && IsRecord(c, e)
    ensures Total(es[..k]) <= Total(es[..k + 1]) <= |b|
    ensures Records(b[..Total(es[..k])] + c + b[Total(es[..k + 1])..], es[k := e])
  {
    hide IsRecord;
    RecordAt(b, es, k);
    var p, q := Total(es[..k]), Total(es[..k + 1]);
    OneRecord(c, e);
    RecordsJoin(b[..p], es[..k], c, [e]);
    RecordsJoin(b[..p] + c, es[..k] + [e], b[q..], es[k + 1..]);
    assert es[k := e] == es[..k] + [e] + es[k + 1..];
  }

  /** Records `es` without number `k`. */
  lemma Removed(b: seq<byte>, es: seq<CacheEntry>, k: nat)
    requires Records(b, es) && k < |es|
    ensures Total(es[..k]) <= Total(es[..k + 1]) <= |b|
    ensures Records(b[..Total(es[..k])] + b[Total(es[..k + 1])..], es[..k] + es[k + 1..])
  {
    hide IsRecord;
    RecordAt(b, es, k);
    RecordsJoin(b[..Total(es[..k])], es[..k], b[Total(es[..k + 1])..], es[k + 1..]);
  }

  lemma Appended(b: seq<byte>, es: seq<CacheEntry>, c: seq<byte>, e: CacheEntry)
    requires Records(b, es) && IsRecord(c, e)
    ensures Records(b + c, es + [e])
  {
    hide IsRecord;
    OneRecord(c, e);
    RecordsJoin(b, es, c, [e]);
  }

  /** The bytes of a block determine the list of its entries. */
  lemma {:induction false} RecordsUnique(b: seq<byte>, c: seq<byte>, es: seq<CacheEntry>, fs: seq<CacheEntry>)
    requires Records(b, es) && Records(c, fs) && |es| == |fs| && (b <= c || c <= b)
    ensures es == fs
    decreases es
  {
    hide IsRecord;
    if es != [] {
      var n, m := EntryLen(es[0]), EntryLen(fs[0]);
      assert b[..n] <= c[..m] || c[..m] <= b[..n];
      RecordUnique(b[..n], c[..m], es[0], fs[0]);
      RecordsUnique(b[n..], c[n..], es[1..], fs[1..]);
    }
  }

  /* ---- reading a record ---- */

  /** Reading the record at `p` stays within the records of the block. */
  predicate StaysInside(b: seq<byte>, p: nat) {
    p <= 512 - 26 ==>
      && p + 24 <= |b|
      && var n := b[p + 23] as int;
         1 <= n <= MAX_NAME_LEN && p + 24 + n <= 512 ==>
           && p + 25 + n <= |b|
           && var c := b[p + 24 + n] as int;
              c <= MAX_COMMENT_LEN && p + 25 + n + c <= 512 ==> p + 25 + n + c <= |b|
  }

  datatype Got = Got(e: CacheEntry, next: nat)

  /** adfGetCacheEntry: the entry at `p` and where the next one begins. */
  function GetEntry(b: seq<byte>, p: nat): Option<Got>
    requires StaysInside(b, p)
  {
    if p > 512 - 26 then None
    else
      var n := b[p + 23] as int;
      if n < 1 || n > MAX_NAME_LEN || p + 24 + n > 512 then None
      else
        var c := b[p + 24 + n] as int;
        if c > MAX_COMMENT_LEN || p + 25 + n + c > 512 then None
        else
          Some(Got(CacheEntry(U32At(b, p), U32At(b, p + 4), U32At(b, p + 8), U16At(b, p + 16), U16At(b, p + 18), U16At(b, p + 20),
                              Signed(b[p + 22]), b[p + 24..p + 24 + n], b[p + 25 + n..p + 25 + n + c]),
                   Even(p + 25 + n + c)))
  }

  /** A block with a record at offset 460 whose name has ten bytes. */
  function OutsideBytes(): (b: seq<byte>)
    ensures |b| == RECORDS
  {
    seq(RECORDS, i => if i == 483 then 10 else 0)
  }

  /**
    The offsets are compared with the size of the whole block, 512, and not with that of its
    records, 488: here no check fails, and the last six bytes of the name, and the length of
    the comment, are those that happen to lie behind the records.
  */
  lemma ReadsBehindRecords(behind: seq<byte>)
    requires |behind| == 24 && behind[6] == 0
    ensures !StaysInside(OutsideBytes(), 460)
    ensures var b := OutsideBytes() + behind;
            && StaysInside(b, 460) && GetEntry(b, 460).Some?
            && GetEntry(b, 460).value.e.name == OutsideBytes()[484..] + behind[..6]
  {
    hide U32At, U16At, Signed;
    var b := OutsideBytes() + behind;
    assert b[483] == 10 && b[494] == behind[6];
    assert b[484..494] == OutsideBytes()[484..] + behind[..6];
  }

  lemma SliceOfSlice(b: seq<byte>, p: nat, q: nat, i: nat, j: nat)
    requires i <= j && p + j <= q <= |b|
    ensures b[p..q][i..j] == b[p + i..p + j]
  {
    var l, r := b[p..q][i..j], b[p + i..p + j];
    forall k | 0 <= k < j - i ensures l[k] == r[k] {
      assert l[k] == b[p..q][i + k] == b[p + (i + k)];
    }
  }

  lemma SliceNumbers(b: seq<byte>, p: nat, q: nat, i: nat)
    requires p + i + 4 <= q <= |b|
    ensures U32At(b[p..q], i) == U32At(b, p + i)
    ensures U16At(b[p..q], i) == U16At(b, p + i)
  {
  }

  /** What is written as a record is read back: the same entry, and the place behind its record. */
  lemma GetFindsRecord(b: seq<byte>, p: nat, e: CacheEntry)
    requires p % 2 == 0 && p + EntryLen(e) <= |b| <= RECORDS && IsRecord(b[p..p + EntryLen(e)], e)
    ensures StaysInside(b, p) && GetEntry(b, p) == Some(Got(e, p + EntryLen(e)))
  {
    hide U16At, U32At, Signed, IsRecord;
    var q := p + EntryLen(e);
    var r, n, c := b[p..q], |e.name|, |e.comm|;
    RecordFacts(r, e);
    forall i | i in {0, 4, 8, 16, 18, 20} ensures U32At(r, i) == U32At(b, p + i) && U16At(r, i) == U16At(b, p + i) {
      SliceNumbers(b, p, q, i);
    }
    assert r[22] == b[p + 22] && r[23] == b[p + 23] && r[24 + n] == b[p + 24 + n];
    SliceOfSlice(b, p, q, 24, 24 + n);
    SliceOfSlice(b, p, q, 25 + n, 25 + n + c);
  }

  lemma RecordFacts(b: seq<byte>, e: CacheEntry)
    requires IsRecord(b, e)
    ensures Fits(e) && |b| == EntryLen(e)
    ensures U32At(b, 0) == e.header && U32At(b, 4) == e.size && U32At(b, 8) == e.protect
    ensures U16At(b, 16) == e.days && U16At(b, 18) == e.mins && U16At(b, 20) == e.ticks
    ensures Signed(b[22]) == e.typ && b[23] == |e.name| && b[24..24 + |e.name|] == e.name
    ensures b[24 + |e.name|] == |e.comm| && b[25 + |e.name|..25 + |e.name| + |e.comm|] == e.comm
  {
  }

  /** What is read as an entry is a record, if it ends within the block. */
  lemma GetIsRecord(b: seq<byte>, p: nat)
    requires p % 2 == 0 && StaysInside(b, p) && GetEntry(b, p).Some?
    ensures var g := GetEntry(b, p).value;
            && g.next == p + EntryLen(g.e)
            && (g.next <= |b| ==> IsRecord(b[p..g.next], g.e))
  {
    hide U16At, U32At, Signed, IsRecord, GetEntry;
    GetFields(b, p);
    var g := GetEntry(b, p).value;
    if g.next <= |b| {
      SlicedFields(b, p, g.e);
    }
  }

  /** What adfGetCacheEntry takes from the bytes from `p` on. */
  ghost predicate FieldsAt(b: seq<byte>, p: nat, e: CacheEntry)
    requires p + 25 + |e.name| + |e.comm| <= |b|
  {
    && U32At(b, p) == e.header && U32At(b, p + 4) == e.size && U32At(b, p + 8) == e.protect
    && U16At(b, p + 16) == e.days && U16At(b, p + 18) == e.mins && U16At(b, p + 20) == e.ticks
    && Signed(b[p + 22]) == e.typ && b[p + 23] == |e.name| && b[p + 24 + |e.name|] == |e.comm|
    && b[p + 24..p + 24 + |e.name|] == e.name
    && b[p + 25 + |e.name|..p + 25 + |e.name| + |e.comm|] == e.comm
  }

  lemma GetFields(b: seq<byte>, p: nat)
    requires p % 2 == 0 && StaysInside(b, p) && GetEntry(b, p).Some?
    ensures var g := GetEntry(b, p).value;
            && 1 <= |g.e.name| <= MAX_NAME_LEN && |g.e.comm| <= MAX_COMMENT_LEN
            && p + 25 + |g.e.name| + |g.e.comm| <= |b|
            && FieldsAt(b, p, g.e) && g.next == p + EntryLen(g.e)
  {
    hide U16At, U32At, Signed;
  }

  /**
    An entry is read exactly if these are its fields, with a name of 1 to 30 bytes and a
    comment of no more than 79, and it ends within 512 bytes.
  */
  lemma GetExact(b: seq<byte>, p: nat, e: CacheEntry)
    requires p % 2 == 0 && StaysInside(b, p)
    ensures GetEntry(b, p).Some? && GetEntry(b, p).value.e == e <==>
              && 1 <= |e.name| <= 30 && |e.comm| <= 79
              && p + 25 + |e.name| + |e.comm| <= 512 && p + 25 + |e.name| + |e.comm| <= |b|
              && FieldsAt(b, p, e)
  {
    hide U16At, U32At, Signed;
    if GetEntry(b, p).Some? {
      GetFields(b, p);
    }
  }

  lemma SlicedFields(b: seq<byte>, p: nat, e: CacheEntry)
    requires 1 <= |e.name| <= MAX_NAME_LEN && |e.comm| <= MAX_COMMENT_LEN
    requires p + EntryLen(e) <= |b| && FieldsAt(b, p, e)
    ensures IsRecord(b[p..p + EntryLen(e)], e)
  {
    hide U16At, U32At, Signed, EntryLen;
    var n, c, q := |e.name|, |e.comm|, p + EntryLen(e);
    var r := b[p..q];
    forall i | i in {0, 4, 8, 16, 18, 20} ensures U32At(r, i) == U32At(b, p + i) && U16At(r, i) == U16At(b, p + i) {
      SliceNumbers(b, p, q, i);
    }
    assert r[22] == b[p + 22] && r[23] == b[p + 23] && r[24 + n] == b[p + 24 + n];
    SliceOfSlice(b, p, q, 24, 24 + n);
    SliceOfSlice(b, p, q, 25 + n, 25 + n + c);
    SignedInRange(b[p + 22]);
  }

  lemma SignedInRange(x: byte)
    ensures -128 <= Signed(x) < 128
  {
  }

  /* ---- an entry as a record ---- */

  /** The fields of a directory entry that its record holds. */
  datatype DirEntry = DirEntry(
    headerKey: nat,
    secType: int,
    byteSize: nat,
    access: nat,
    days: nat,
    mins: nat,
    ticks: nat,
    name: seq<byte>,
    comment: seq<byte>)

  const ST_FILE_TYPE := -3

  datatype Converted = Converted(e: CacheEntry, len: nat)

  /** adfEntry2CacheEntry: the record entry of a directory entry, and how long its record will be. */
  function Entry2CacheEntry(entry: DirEntry): Converted {
    var e := CacheEntry(entry.headerKey,
                        if entry.secType == ST_FILE_TYPE then entry.byteSize else 0,
                        entry.access,
                        entry.days % U16, entry.mins % U16, entry.ticks % U16,
                        entry.secType, entry.name, entry.comment);
    var entryLen := 24 + |entry.name| + 1 + |entry.comment|;
    Converted(e, if entryLen % 2 == 0 then entryLen else entryLen + 1)
  }

  /** The fields of an entry block are those of an entry of the volume. */
  predicate IsEntry(entry: DirEntry) {
    && entry.headerKey < U32 && entry.byteSize < U32 && entry.access < U32
    && -128 <= entry.secType < 128
    && 1 <= |entry.name| <= MAX_NAME_LEN && |entry.comment| <= MAX_COMMENT_LEN
  }

  /** What the cache should say of a directory entry: the size only of a file, the dates in 16 bits. */
  predicate Describes(e: CacheEntry, entry: DirEntry) {
    && e.header == entry.headerKey && e.protect == entry.access
    && (entry.secType == -3 ==> e.size == entry.byteSize) && (entry.secType != -3 ==> e.size == 0)
    && e.days == entry.days % 0x10000 && e.mins == entry.mins % 0x10000 && e.ticks == entry.ticks % 0x10000
    && e.typ == entry.secType && e.name == entry.name && e.comm == entry.comment
  }

  lemma ConvertedFits(entry: DirEntry)
    requires IsEntry(entry)
    ensures var c := Entry2CacheEntry(entry);
            Fits(c.e) && c.len == EntryLen(c.e) && Describes(c.e, entry) && c.e.header == entry.headerKey
  {
  }

  /** The record of an entry of the block at `p` describes the directory entry. */
  ghost predicate RecordDescribes(b: seq<byte>, p: nat, entry: DirEntry) {
    StaysInside(b, p) && GetEntry(b, p).Some? && Describes(GetEntry(b, p).value.e, entry)
  }

  /**
    From the record of a directory entry its fields are read, and the three ways to compute
    the length of the record agree.
  */
  lemma LengthsAgree(entry: DirEntry, b: seq<byte>, p: nat)
    requires var c := Entry2CacheEntry(entry);
             p % 2 == 0 && p + EntryLen(c.e) <= |b| <= RECORDS && IsRecord(b[p..p + EntryLen(c.e)], c.e)
    ensures var c := Entry2CacheEntry(entry);
            && c.len == EntryLen(c.e)
            && RecordDescribes(b, p, entry) && GetEntry(b, p).value.next == p + c.len
  {
    hide GetEntry, IsRecord, StaysInside;
    GetFindsRecord(b, p, Entry2CacheEntry(entry).e);
  }

  /* ---- the block ---- */

  lemma NumberBytes(x: nat)
    requires x < U32
    ensures var hi, lo := x / U16, x % U16;
            hi < U16 && lo < U16 && hi * U16 + lo == x
  {
  }

  /** A record depends on its own bytes only. */
  lemma RecordWritten(r: seq<byte>, e: CacheEntry)
    requires Fits(e) && |r| == EntryLen(e)
    requires U32At(r, 0) == e.header && U32At(r, 4) == e.size && U32At(r, 8) == e.protect
    requires U16At(r, 16) == e.days && U16At(r, 18) == e.mins && U16At(r, 20) == e.ticks
    requires Signed(r[22]) == e.typ && r[23] == |e.name| && r[24 + |e.name|] == |e.comm|
    requires forall i :: 0 <= i < |e.name| ==> r[24 + i] == e.name[i]
    requires forall i :: 0 <= i < |e.comm| ==> r[25 + |e.name| + i] == e.comm[i]
    ensures IsRecord(r, e)
  {
    assert r[24..24 + |e.name|] == e.name;
    assert r[25 + |e.name|..25 + |e.name| + |e.comm|] == e.comm;
  }

  lemma ShiftedIs(was: seq<byte>, now: seq<byte>, p: nat, len: nat)
    requires |was| == |now| && p + len <= |was|
    requires forall k :: 0 <= k < p ==> now[k] == was[k]
    requires forall k :: p <= k < |was| - len ==> now[k] == was[k + len]
    requires forall k :: |was| - len <= k < |was| ==> now[k] == 0
    ensures now == was[..p] + was[p + len..] + seq(len, _ => 0)
  {
  }

  /* ---- a block without room ---- */

  /** adfPutCacheEntry at offset `p` writes byte `i`. */
  predicate Writes(p: nat, e: CacheEntry, i: nat) {
    p <= i < p + 12 || p + 16 <= i < p + EntryLen(e)
  }

  /**
    When the record does not fit behind the others, adfAddInCache still puts it there, and
    not into the new block: all bytes it writes are records exactly if the record fits.
  */
  lemma PutStaysInside(es: seq<CacheEntry>, e: CacheEntry)
    requires Fits(e)
    ensures (forall i: nat :: Writes(Total(es), e, i) ==> i < RECORDS) <==> Total(es) + EntryLen(e) <= RECORDS
  {
    assert Writes(Total(es), e, Total(es) + EntryLen(e) - 1);
  }

  function NoRecords(): (b: seq<byte>)
    ensures |b| == RECORDS
  {
    seq(RECORDS, i => 0)
  }

  /** The new block counts one record and has none: no entry stands at its start, and reading it fails. */
  lemma NewBlockUnreadable()
    ensures StaysInside(NoRecords(), 0) && GetEntry(NoRecords(), 0) == None
    ensures forall es: seq<CacheEntry> :: |es| == 1 ==> !(Total(es) <= RECORDS && Records(NoRecords()[..Total(es)], es))
  {
  }

  /** The list of entries after record `k` was updated to `e`, in one block. */
  ghost predicate Updated(es: seq<CacheEntry>, k: nat, e: CacheEntry, full: bool, es': seq<CacheEntry>)
    requires k < |es|
  {
    var rest := es[..k] + es[k + 1..];
    if EntryLen(e) <= EntryLen(es[k]) then !full && es' == es[k := e]
    else
      && (full <==> Total(rest) + EntryLen(e) > RECORDS)
      && es' == if full then rest else rest + [e]
  }

  class DirCacheBlock {
    const records: array<byte>
    var recordsNb: int

    /** The entries that the records stand for. */
    ghost var entries: seq<CacheEntry>

    ghost predicate Valid()
      reads this, records
    {
      && records.Length == RECORDS
      && recordsNb == |entries| && Total(entries) <= RECORDS
      && Records(records[..Total(entries)], entries)
    }

    /** adfCreateEmptyCache: a block without records. */
    constructor ()
      ensures Valid() && entries == [] && fresh(records)
    {
      records := new byte[RECORDS](_ => 0);
      recordsNb, entries := 0, [];
    }

    /** adfGetCacheEntry */
    method GetCacheEntry(p: nat) returns (r: Option<Got>)
      requires records.Length == RECORDS && StaysInside(records[..], p)
      ensures r == GetEntry(records[..], p)
    {
      if p > 512 - 26 {
        return None;
      }
      var nLen := records[p + 23] as int;
      if nLen < 1 || nLen > MAX_NAME_LEN {
        return None;
      }
      if p + 24 + nLen > 512 {
        return None;
      }
      var cLen := records[p + 24 + nLen] as int;
      if cLen > MAX_COMMENT_LEN {
        return None;
      }
      if p + 24 + nLen + 1 + cLen > 512 {
        return None;
      }
      var b := records[..];
      var next := p + 24 + nLen + 1 + cLen;
      if next % 2 != 0 {
        next := next + 1;
      }
      r := Some(Got(CacheEntry(U32At(b, p), U32At(b, p + 4), U32At(b, p + 8), U16At(b, p + 16), U16At(b, p + 18), U16At(b, p + 20),
                               Signed(records[p + 22]), records[p + 24..p + 24 + nLen], records[p + 25 + nLen..p + 25 + nLen + cLen]),
                    next));
    }

    /** swapUint16ToPtr */
    method Put16(p: nat, x: nat)
      requires p + 2 <= records.Length && x < U16
      modifies records
      ensures U16At(records[..], p) == x
      ensures forall i :: 0 <= i < records.Length && !(p <= i < p + 2) ==> records[i] == old(records[i])
    {
      records[p], records[p + 1] := x / 256, x % 256;
    }

    /** swapUint32ToPtr */
    method Put32(p: nat, x: nat)
      requires p + 4 <= records.Length && x < U32
      modifies records
      ensures U32At(records[..], p) == x
      ensures forall i :: 0 <= i < records.Length && !(p <= i < p + 4) ==> records[i] == old(records[i])
    {
      NumberBytes(x);
      Put16(p, x / U16);
      Put16(p + 2, x % U16);
    }

    /** Copy a string into the records. */
    method PutString(p: nat, str: seq<byte>)
      requires p + |str| <= records.Length
      modifies records
      ensures forall i :: 0 <= i < |str| ==> records[p + i] == str[i]
      ensures forall i :: 0 <= i < records.Length && !(p <= i < p + |str|) ==> records[i] == old(records[i])
    {
      forall i | 0 <= i < |str| {
        records[p + i] := str[i];
      }
    }

    /** The numbers of a record. */
    method PutNumbers(p: nat, e: CacheEntry)
      requires p + 22 <= records.Length && Fits(e)
      modifies records
      ensures U32At(records[..], p) == e.header && U32At(records[..], p + 4) == e.size && U32At(records[..], p + 8) == e.protect
      ensures U16At(records[..], p + 16) == e.days && U16At(records[..], p + 18) == e.mins && U16At(records[..], p + 20) == e.ticks
      ensures forall i :: 0 <= i < records.Length && !(p <= i < p + 12 || p + 16 <= i < p + 22) ==> records[i] == old(records[i])
    {
      Put32(p, e.header);
      Put32(p + 4, e.size);
      Put32(p + 8, e.protect);
      Put16(p + 16, e.days);
      Put16(p + 18, e.mins);
      Put16(p + 20, e.ticks);
    }

    /** Type, name and comment of a record. */
    method PutText(p: nat, e: CacheEntry)
      requires Fits(e) && p + 25 + |e.name| + |e.comm| <= records.Length
      modifies records
      ensures Signed(records[p + 22]) == e.typ && records[p + 23] == |e.name| && records[p + 24 + |e.name|] == |e.comm|
      ensures forall i :: 0 <= i < |e.name| ==> records[p + 24 + i] == e.name[i]
      ensures forall i :: 0 <= i < |e.comm| ==> records[p + 25 + |e.name| + i] == e.comm[i]
      ensures forall i :: 0 <= i < records.Length && !(p + 22 <= i < p + 25 + |e.name| + |e.comm|) ==> records[i] == old(records[i])
    {
      hide Signed;
      var nLen, cLen := |e.name|, |e.comm|;
      records[p + 22] := Unsigned(e.typ);
      records[p + 23] := nLen;
      PutString(p + 24, e.name);
      records[p + 24 + nLen] := cLen;
      PutString(p + 25 + nLen, e.comm);
    }

    /**
      adfPutCacheEntry: the bytes from `p` on are the record of the entry; all bytes outside
      of it, and bytes 12 to 15 of it, are as they were.
    */
    method PutCacheEntry(p: nat, e: CacheEntry) returns (l: nat)
      requires records.Length == RECORDS && Fits(e) && p + EntryLen(e) <= RECORDS
      modifies records
      ensures l == EntryLen(e) && IsRecord(records[p..p + l], e)
      ensures forall i :: 0 <= i < RECORDS && !Writes(p, e, i) ==> records[i] == old(records[i])
    {
      hide IsRecord, U16At, U32At, Signed;
      PutNumbers(p, e);
      ghost var numbers := records[..];
      PutText(p, e);
      l := 25 + |e.name| + |e.comm|;
      if l % 2 != 0 {
        records[p + l] := 0;
        l := l + 1;
      }
      RecordComplete(numbers, records[..], p, e);
    }

    /* ---- edits of the list ---- */

    /** What a search for the record with a header key has found. */
    ghost predicate FoundAt(headerKey: nat, found: bool, n: nat, oldOffset: nat, offset: nat)
      reads this
    {
      if found then
        && n < |entries| && entries[n].header == headerKey
        && (forall i :: 0 <= i < n ==> entries[i].header != headerKey)
        && oldOffset == Total(entries[..n]) && offset == Total(entries[..n + 1])
      else forall i :: 0 <= i < |entries| ==> entries[i].header != headerKey
    }

    lemma RecordHere(n: nat)
      requires Valid() && n < |entries|
      ensures var p := Total(entries[..n]);
              && p + EntryLen(entries[n]) == Total(entries[..n + 1]) <= Total(entries) <= RECORDS
              && StaysInside(records[..], p)
              && GetEntry(records[..], p) == Some(Got(entries[n], Total(entries[..n + 1])))
    {
      hide IsRecord, GetEntry, StaysInside, Records;
      var t, p, q := Total(entries), Total(entries[..n]), Total(entries[..n + 1]);
      RecordAt(records[..t], entries, n);
      SliceOfPrefix(records[..], t, p, q);
      GetFindsRecord(records[..], p, entries[n]);
    }

    /** The search for a record by its header key, from the first record on. */
    method Find(headerKey: nat) returns (found: bool, n: nat, oldOffset: nat, offset: nat)
      requires Valid()
      ensures FoundAt(headerKey, found, n, oldOffset, offset)
    {
      hide IsRecord, GetEntry, StaysInside, Records;
      found, n, oldOffset, offset := false, 0, 0, 0;
      while n < recordsNb
        invariant 0 <= n <= |entries| && offset == Total(entries[..n])
        invariant forall i :: 0 <= i < n ==> entries[i].header != headerKey
      {
        oldOffset := offset;
        RecordHere(n);
        var r := GetCacheEntry(offset);
        offset := r.value.next;
        if r.value.e.header == headerKey {
          found := true;
          return;
        }
        n := n + 1;
      }
    }

    /** Move the bytes behind `d` down by `len` bytes from `p` on, and clear the bytes that become unused. */
    method ShiftDown(p: nat, len: nat)
      requires records.Length == RECORDS && p + len <= RECORDS
      modifies records
      ensures records[..] == old(records[..p] + records[p + len..]) + seq(len, _ => 0)
    {
      var i := p;
      while i < RECORDS - len
        invariant p <= i <= RECORDS - len
        invariant forall k :: 0 <= k < p ==> records[k] == old(records[k])
        invariant forall k :: p <= k < i ==> records[k] == old(records[k + len])
        invariant forall k :: i <= k < RECORDS ==> records[k] == old(records[k])
      {
        records[i] := records[i + len];
        i := i + 1;
      }
      while i < RECORDS
        invariant RECORDS - len <= i <= RECORDS
        invariant forall k :: 0 <= k < p ==> records[k] == old(records[k])
        invariant forall k :: p <= k < RECORDS - len ==> records[k] == old(records[k + len])
        invariant forall k :: RECORDS - len <= k < i ==> records[k] == 0
      {
        records[i] := 0;
        i := i + 1;
      }
      ShiftedIs(old(records[..]), records[..], p, len);
    }

    /**
      The edit in adfDelFromCache: the first record with the header key is removed from the
      block, when it is not the only one of a block behind another.
    */
    method DelFromBlock(headerKey: nat) returns (found: bool)
      requires Valid()
      modifies this, records
      ensures Valid()
      ensures found <==> exists k :: 0 <= k < |old(entries)| && old(entries)[k].header == headerKey
      ensures !found ==> entries == old(entries) && records[..] == old(records[..])
      ensures found ==>
                exists k :: 0 <= k < |old(entries)| && old(entries)[k].header == headerKey
                            && (forall i :: 0 <= i < k ==> old(entries)[i].header != headerKey)
                            && entries == old(entries)[..k] + old(entries)[k + 1..]
    {
      hide IsRecord, GetEntry, StaysInside, Records;
      var n, oldOffset, offset;
      found, n, oldOffset, offset := Find(headerKey);
      if found {
        DelRecord(n, oldOffset, offset);
      }
    }

    method Clear(p: nat, q: nat)
      requires p <= q <= records.Length
      modifies records
      ensures records[..p] == old(records[..p])
    {
      var i := p;
      while i < q
        invariant p <= i <= q && records[..p] == old(records[..p])
      {
        records[i] := 0;
        i := i + 1;
      }
    }

    /** The bytes between two offsets are removed from the first `t`; no others are behind the last record. */
    method Remove(p: nat, q: nat, last: bool, ghost t: nat)
      requires records.Length == RECORDS && p <= q <= t <= RECORDS && (last ==> q == t)
      modifies records
      ensures records[..t - (q - p)] == old(records[..t][..p] + records[..t][q..])
    {
      if last {
        Clear(p, q);
      } else {
        ShiftDown(p, q - p);
      }
      PrefixRemoved(old(records[..]), records[..], t, p, q);
    }

    /** Record `n`, which lies between two offsets, is removed. */
    method DelRecord(n: nat, oldOffset: nat, offset: nat)
      requires Valid() && n < |entries| && oldOffset == Total(entries[..n]) && offset == Total(entries[..n + 1])
      modifies this, records
      ensures Valid() && entries == old(entries)[..n] + old(entries)[n + 1..]
    {
      hide IsRecord, GetEntry, StaysInside, Records, EntryLen, Total;
      RecordHere(n);
      ghost var b, es, t := records[..], entries, Total(entries);
      Removed(b[..t], es, n);
      if n == recordsNb - 1 {
        LastTotal(es, n);
      }
      Remove(oldOffset, offset, n == recordsNb - 1, t);
      recordsNb, entries := recordsNb - 1, es[..n] + es[n + 1..];
      RecordsLength(b[..t][..oldOffset] + b[..t][offset..], entries);
    }

    /**
      adfUpdateCache, for a cache of one block: the first record with the header key of the
      entry is replaced; when the new record is longer, the old one is deleted and the new
      one is added behind the last one, if it fits in the block. The record is then read as
      the entry is.
    */
    method UpdateInBlock(entry: DirEntry, entryLenChg: bool) returns (found: bool, full: bool)
      requires Valid() && IsEntry(entry)
      requires !entryLenChg ==>
                 forall k :: 0 <= k < |entries| && entries[k].header == entry.headerKey ==>
                   EntryLen(entries[k]) == EntryLen(Entry2CacheEntry(entry).e)
      modifies this, records
      ensures Valid()
      ensures found <==> exists k :: 0 <= k < |old(entries)| && old(entries)[k].header == entry.headerKey
      ensures !found ==> !full && entries == old(entries)
      ensures found ==>
                exists k :: 0 <= k < |old(entries)| && old(entries)[k].header == entry.headerKey
                            && (forall i :: 0 <= i < k ==> old(entries)[i].header != entry.headerKey)
                            && Updated(old(entries), k, Entry2CacheEntry(entry).e, full, entries)
      ensures found && !full ==> exists n :: 0 <= n < |entries| && RecordDescribes(records[..], Total(entries[..n]), entry)
    {
      hide IsRecord, GetEntry, StaysInside, Records, EntryLen, Describes, RecordDescribes, IsEntry;
      ConvertedFits(entry);
      var Converted(e, nLen) := Entry2CacheEntry(entry);
      ghost var es := entries;
      var n, oldOffset, offset;
      found, n, oldOffset, offset := Find(e.header);
      full := false;
      if found {
        RecordHere(n);
        var oLen := offset - oldOffset;
        if !entryLenChg || oLen == nLen || oLen > nLen {
          PutRecord(n, oldOffset, offset, e);
          RecordReads(n, entry);
        } else {
          var deleted := DelFromBlock(e.header);
          assert entries == es[..n] + es[n + 1..];
          var fits := AddInBlock(entry);
          full := !fits;
          if fits {
            assert entries[..|entries| - 1] == es[..n] + es[n + 1..];
          }
        }
      }
    }

    /** A record whose entry is that of a directory entry is read as that one. */
    lemma RecordReads(n: nat, entry: DirEntry)
      requires Valid() && n < |entries| && IsEntry(entry) && entries[n] == Entry2CacheEntry(entry).e
      ensures RecordDescribes(records[..], Total(entries[..n]), entry)
    {
      hide IsRecord, GetEntry, StaysInside, Records, Describes, IsEntry;
      RecordHere(n);
      ConvertedFits(entry);
    }

    /** Record `n`, which lies between two offsets, is replaced by one that is not longer. */
    method PutRecord(n: nat, oldOffset: nat, offset: nat, e: CacheEntry)
      requires Valid() && n < |entries| && oldOffset == Total(entries[..n]) && offset == Total(entries[..n + 1])
      requires Fits(e) && EntryLen(e) <= EntryLen(entries[n])
      modifies this, records
      ensures Valid() && entries == old(entries)[n := e]
    {
      hide IsRecord, GetEntry, StaysInside, Records, EntryLen, Total;
      RecordHere(n);
      ghost var b, es, t := records[..], entries, Total(entries);
      var oLen := offset - oldOffset;
      var nLen := PutCacheEntry(oldOffset, e);
      ghost var c := records[oldOffset..oldOffset + nLen];
      Replaced(b[..t], es, n, c, e);
      PutShape(b, records[..], oldOffset, nLen);
      ghost var w := records[..];
      var sLen := oLen - nLen;
      if sLen > 0 {
        ShiftDown(oldOffset + nLen, sLen);
      }
      entries := es[n := e];
      PrefixReplaced(b, w, records[..], t, oldOffset, offset, nLen, c);
      RecordsLength(b[..t][..oldOffset] + c + b[..t][offset..], entries);
    }

    /**
      The edit in adfAddInCache: the record is added behind the last one, if it fits in the
      block, and is read as the entry is.
    */
    method AddInBlock(entry: DirEntry) returns (fits: bool)
      requires Valid() && IsEntry(entry)
      modifies this, records
      ensures Valid()
      ensures fits <==> Total(old(entries)) + EntryLen(Entry2CacheEntry(entry).e) <= RECORDS
      ensures entries == if fits then old(entries) + [Entry2CacheEntry(entry).e] else old(entries)
      ensures fits ==> RecordDescribes(records[..], Total(old(entries)), entry)
      ensures !fits ==> records[..] == old(records[..])
    {
      hide IsRecord, GetEntry, StaysInside, Records, EntryLen, Describes, RecordDescribes, IsEntry;
      ConvertedFits(entry);
      var Converted(e, entryLen) := Entry2CacheEntry(entry);
      var offset, n := 0, 0;
      while n < recordsNb
        invariant Valid() && entries == old(entries) && records[..] == old(records[..])
        invariant 0 <= n <= |entries| && offset == Total(entries[..n])
      {
        RecordHere(n);
        var r := GetCacheEntry(offset);
        offset := r.value.next;
        n := n + 1;
      }
      assert entries[..n] == entries;
      fits := offset + entryLen <= RECORDS;
      if fits {
        ghost var b, es := records[..], entries;
        var l := PutCacheEntry(offset, e);
        ghost var c := records[offset..offset + l];
        Appended(b[..offset], es, c, e);
        entries, recordsNb := es + [e], recordsNb + 1;
        assert records[..offset + l] == b[..offset] + c;
        RecordsLength(b[..offset] + c, entries);
        assert entries[..|es|] == es;
        RecordReads(|es|, entry);
      }
    }
  }

  lemma SliceOfPrefix(b: seq<byte>, t: nat, p: nat, q: nat)
    requires p <= q <= t <= |b|
    ensures b[..t][p..q] == b[p..q]
  {
  }

  lemma LastTotal(es: seq<CacheEntry>, n: nat)
    requires n + 1 == |es|
    ensures Total(es[..n + 1]) == Total(es) && es[n + 1..] == []
  {
    assert es[..n + 1] == es;
  }

  /** What is left of the used bytes when those between two offsets are gone. */
  lemma PrefixRemoved(b: seq<byte>, c: seq<byte>, t: nat, p: nat, q: nat)
    requires p <= q <= t <= |b| == |c|
    requires c == b[..p] + b[q..] + seq(q - p, _ => 0) || (q == t && c[..p] == b[..p])
    ensures t - (q - p) <= |c| && c[..t - (q - p)] == b[..t][..p] + b[..t][q..]
  {
  }

  /** The bytes around a record that has been put. */
  lemma PutShape(b: seq<byte>, w: seq<byte>, p: nat, l: nat)
    requires p + l <= |b| == |w| && forall i :: 0 <= i < |b| && !(p <= i < p + l) ==> w[i] == b[i]
    ensures w == b[..p] + w[p..p + l] + b[p + l..]
  {
  }

  /** The used bytes when those between two offsets are replaced by fewer. */
  lemma PrefixReplaced(b: seq<byte>, w: seq<byte>, x: seq<byte>, t: nat, p: nat, q: nat, l: nat, c: seq<byte>)
    requires p <= q <= t <= |b| == |w| == |x| && l <= q - p && |c| == l
    requires w == b[..p] + c + b[p + l..]
    requires if l == q - p then x == w else x == w[..p + l] + w[q..] + seq(q - (p + l), _ => 0)
    ensures t - (q - p) + l <= |x| && x[..t - (q - p) + l] == b[..t][..p] + c + b[..t][q..]
  {
  }

  /** Numbers and text of a record that has been written. */
  lemma RecordComplete(numbers: seq<byte>, c: seq<byte>, p: nat, e: CacheEntry)
    requires Fits(e) && |numbers| == |c| && p + EntryLen(e) <= |c|
    requires forall i :: p <= i < p + 22 ==> numbers[i] == c[i]
    requires U32At(numbers, p) == e.header && U32At(numbers, p + 4) == e.size && U32At(numbers, p + 8) == e.protect
    requires U16At(numbers, p + 16) == e.days && U16At(numbers, p + 18) == e.mins && U16At(numbers, p + 20) == e.ticks
    requires Signed(c[p + 22]) == e.typ && c[p + 23] == |e.name| && c[p + 24 + |e.name|] == |e.comm|
    requires forall i :: 0 <= i < |e.name| ==> c[p + 24 + i] == e.name[i]
    requires forall i :: 0 <= i < |e.comm| ==> c[p + 25 + |e.name| + i] == e.comm[i]
    ensures IsRecord(c[p..p + EntryLen(e)], e)
  {
    hide U16At, U32At, Signed, IsRecord;
    var q := p + EntryLen(e);
    var r := c[p..q];
    NumbersKept(numbers, c, p, EntryLen(e));
    assert r[22] == c[p + 22] && r[23] == c[p + 23] && r[24 + |e.name|] == c[p + 24 + |e.name|];
    forall i | 0 <= i < |e.name| ensures r[24 + i] == e.name[i] {
      assert r[24 + i] == c[p + (24 + i)];
      assert c[p + 24 + i] == e.name[i];
    }
    forall i | 0 <= i < |e.comm| ensures r[25 + |e.name| + i] == e.comm[i] {
      assert r[25 + |e.name| + i] == c[p + (25 + |e.name| + i)];
      assert c[p + 25 + |e.name| + i] == e.comm[i];
    }
    RecordWritten(r, e);
  }

  /** The numbers of a record are as they were written. */
  lemma NumbersKept(b: seq<byte>, c: seq<byte>, p: nat, l: nat)
    requires |b| == |c| && l >= 22 && p + l <= |b| && forall i :: p <= i < p + 22 ==> b[i] == c[i]
    ensures var r := c[p..p + l];
            && U32At(r, 0) == U32At(b, p) && U32At(r, 4) == U32At(b, p + 4) && U32At(r, 8) == U32At(b, p + 8)
            && U16At(r, 16) == U16At(b, p + 16) && U16At(r, 18) == U16At(b, p + 18) && U16At(r, 20) == U16At(b, p + 20)
  {
  }
}
