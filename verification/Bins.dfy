/** Sizes and bins of the allocator: `RequestToSize`, `BinIndex`, `BinIndex2`. */
module Bins {
  import opened Bits

  const HEADER := 32         // sizeof(AllocChunk), sizeof(AllocAreaHdr)
  const ALIGN := 64          // kAlign
  const MIN_ALLOC := 128     // kMinAllocSize
  const NUM_BINS := 128      // kNumAllocBins
  const NUM_SMALL_BINS := 64 // kNumSmallBins
  const INT31 := 0x8000_0000
  const INT32 := 0x1_0000_0000

  const SIZE_RANGE := 0x1_0000_0000_0000_0000

  /** size_t */
  type SizeT = n: nat | n < SIZE_RANGE

  /** The largest request whose rounding does not wrap around. */
  const MAX_REQUEST: nat := SIZE_RANGE - 96

  /** Chunk size for a request: header included, rounded up to the alignment, in size_t. There is room for
      the request exactly up to MAX_REQUEST; just above it the size is 0, and in the end 128 again. */
  function RequestToSize(request: SizeT): (r: nat)
    ensures r % ALIGN == 0 && r < SIZE_RANGE && (r == 0 || r >= MIN_ALLOC)
    ensures r - HEADER >= request <==> request <= MAX_REQUEST
    ensures request <= MAX_REQUEST ==> r - HEADER < request + ALIGN || r == MIN_ALLOC
    ensures r == 0 <==> MAX_REQUEST < request < SIZE_RANGE - HEADER
    ensures request >= SIZE_RANGE - HEADER ==> r == MIN_ALLOC
  {
    var sizePlusOverhead := (request + HEADER) % SIZE_RANGE;
    if sizePlusOverhead <= MIN_ALLOC then MIN_ALLOC
    else (sizePlusOverhead + 63) % SIZE_RANGE / ALIGN * ALIGN
  }

  /** Two requests near the end of the range. */
  lemma RequestWraps()
    ensures RequestToSize(SIZE_RANGE - 64) == 0 && RequestToSize(SIZE_RANGE - 1) == 128
  {
  }

  /** The ten-way table form. */
  function BinIndex2(size: nat): int {
    if size < 1024 then size / 16
    else if size < 2048 then 56 + size / 128
    else if size < 4096 then 64 + size / 256
    else if size < 8192 then 72 + size / 512
    else if size < 16384 then 80 + size / 1024
    else if size < 32768 then 88 + size / 2048
    else if size < 65536 then 96 + size / 4096
    else if size < 131072 then 104 + size / 8192
    else if size < 262144 then 112 + size / 16384
    else 127
  }

  /** The count-leading-zeroes form used by the pool; it agrees with the table. */
  function BinIndex(size: nat): (r: nat)
    ensures r == BinIndex2(size)
    ensures r < NUM_BINS
  {
    if size < 1024 then size / 16
    else if size >= 262144 then 127
    else
      TableRow(size);
      var bits := 28 - CLZ(size);
      bits * 8 + size / Pow2(bits)
  }

  lemma TableRow(size: nat)
    requires 1024 <= size < 262144
    ensures 0 <= 28 - CLZ(size)
    ensures (28 - CLZ(size)) * 8 + size / Pow2(28 - CLZ(size)) == BinIndex2(size)
  {
    PowersTo18();
    if size < 2048 { BitLengthIs(size, 10); }
    else if size < 4096 { BitLengthIs(size, 11); }
    else if size < 8192 { BitLengthIs(size, 12); }
    else if size < 16384 { BitLengthIs(size, 13); }
    else if size < 32768 { BitLengthIs(size, 14); }
    else if size < 65536 { BitLengthIs(size, 15); }
    else if size < 131072 { BitLengthIs(size, 16); }
    else { BitLengthIs(size, 17); }
  }

  lemma PowersTo18()
    ensures Pow2(7) == 128 && Pow2(8) == 256 && Pow2(9) == 512 && Pow2(10) == 1024 && Pow2(11) == 2048
    ensures Pow2(12) == 4096 && Pow2(13) == 8192 && Pow2(14) == 16384 && Pow2(15) == 32768
    ensures Pow2(16) == 65536 && Pow2(17) == 131072 && Pow2(18) == 262144
  {
    assert Pow2(4) == 16;
    assert Pow2(8) == 256;
    assert Pow2(12) == 4096;
    assert Pow2(16) == 65536;
  }

  /** The bin of a large size, by its highest bit k and the three bits below. */
  lemma BinOfBits(size: nat, k: nat)
    requires 10 <= k < 18 && Pow2(k) <= size < Pow2(k + 1)
    ensures BinIndex(size) == 64 + 8 * (k - 10) + (size - Pow2(k)) / Pow2(k - 3)
  {
    PowersTo18();
    hide BinIndex, Pow2;
    assert k == 10 || k == 11 || k == 12 || k == 13 || k == 14 || k == 15 || k == 16 || k == 17;
  }

  /** Larger chunks never sit in lower bins. */
  lemma BinIndexMonotone(x: nat, y: nat)
    requires x <= y
    ensures BinIndex(x) <= BinIndex(y)
  {
  }

  /** A small bin holds one size only, and large sizes live in the large bins. */
  lemma SmallBinExact(x: nat, y: nat)
    requires x % ALIGN == 0 && y % ALIGN == 0
    requires BinIndex(x) == BinIndex(y) < NUM_SMALL_BINS
    ensures x == y == BinIndex(x) * 16
  {
  }

  /** Conversion of a `size_t` difference to `int32`. */
  function ToInt32(d: int): (r: int)
    ensures -INT31 <= r < INT31
    ensures (r - d) % INT32 == 0
  {
    var m := d % INT32;
    if m < INT31 then m else m - INT32
  }

  lemma ToInt32Exact(d: int)
    requires -INT31 <= d < INT31
    ensures ToInt32(d) == d
  {
  }

  /** The `int32` fit test of Alloc gives the right verdict on every candidate size below 2^31
      exactly when the rounded request is below 2^31, or its low 32 bits fall in the small window
      [2^31, 2^31 + 128] where every such candidate tests negative. */
  lemma FitTestExact(size: nat)
    requires size % ALIGN == 0
    ensures (forall c: nat :: c % ALIGN == 0 && MIN_ALLOC <= c < INT31 ==> (ToInt32(c - size) >= 0 <==> c >= size))
       <==> size < INT31 || INT31 <= size % INT32 <= INT31 + MIN_ALLOC
  {
    hide ToInt32;
    if size < INT31 || INT31 <= size % INT32 <= INT31 + MIN_ALLOC {
      forall c: nat | c % ALIGN == 0 && MIN_ALLOC <= c < INT31
        ensures ToInt32(c - size) >= 0 <==> c >= size
      {
        FitTestReduced(c, size);
      }
    } else {
      var m := size % INT32;
      // A candidate congruent to the request, or the smallest one, passes although it is too small.
      var c := if MIN_ALLOC <= m < INT31 then m else MIN_ALLOC;
      FitTestReduced(c, size);
      LowBitsAligned(size);
      assert c % ALIGN == 0 && c < size && ToInt32(c - size) >= 0;
    }
  }

  lemma LowBitsAligned(size: nat)
    requires size % ALIGN == 0
    ensures size % INT32 % ALIGN == 0
  {
    assert INT32 % ALIGN == 0;
    assert size == size / INT32 * INT32 + size % INT32;
  }

  /** A 128-byte chunk passes for a request of 2^32 + 96 bytes. */
  lemma FitTestFails()
    ensures var size := RequestToSize(INT32 + 96); size == INT32 + 128 && 128 < size && ToInt32(128 - size) >= 0
  {
    assert (0 - INT32) % INT32 == 0;
  }

  lemma FitTestReduced(c: nat, size: nat)
    requires c < INT31
    ensures ToInt32(c - size) == ToInt32(c - size % INT32)
    ensures ToInt32(c - size) >= 0 <==> (c >= size % INT32 || size % INT32 > c + INT31)
  {
    var m := size % INT32;
    assert c - size == (c - m) - INT32 * (size / INT32);
    assert (c - size) % INT32 == (c - m) % INT32;
    if c >= m { assert (c - m) % INT32 == c - m; } else { assert (c - m) % INT32 == c - m + INT32; }
  }
}
