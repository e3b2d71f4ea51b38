/** Chunk sizes, the size-to-bin lookup and the width of the header's size field. */
module Sizes {

  const HEAP_BYTES: int := 0x10000
  const MMAP_THRESHOLD: int := 0x8000
  const HEADER: int := 24
  const TOP: nat := 10
  const TWO_POW_64: int := 0x1_0000_0000_0000_0000

  /** Bytes of a chunk of class `i`, that is, of every chunk in `bin[i]`. */
  function Size(i: nat): (s: int)
    ensures 32 <= s
  {
    if i == 0 then 32 else 2 * Size(i - 1)
  }

  /** The source's lookup table, indexed by the exponent; 0 outside the table. */
  function CorrespondBytes(index: int): int {
    match index
    case 5 => 32
    case 6 => 64
    case 7 => 128
    case 8 => 256
    case 9 => 512
    case 10 => 1024
    case 11 => 2048
    case 12 => 4096
    case 13 => 8192
    case 14 => 16384
    case 15 => 32768
    case _ => 0
  }

  /** The bin that serves a request of `bytes` bytes, header included; -1 for none. */
  function GetProperBin(bytes: int): int {
    if 24 < bytes <= 32 then 0
    else if 32 < bytes <= 64 then 1
    else if 64 < bytes <= 128 then 2
    else if 128 < bytes <= 256 then 3
    else if 256 < bytes <= 512 then 4
    else if 512 < bytes <= 1024 then 5
    else if 1024 < bytes <= 2048 then 6
    else if 2048 < bytes <= 4096 then 7
    else if 4096 < bytes <= 8192 then 8
    else if 8192 < bytes <= 16384 then 9
    else if 16384 < bytes <= 32768 then 10
    else -1
  }

  /** A byte count stored in a signed bit-field of 31 bits. */
  function Field31(x: int): int {
    var low := x % 0x8000_0000;
    if low >= 0x4000_0000 then low - 0x8000_0000 else low
  }

  lemma {:induction false} SizeMonotone(i: nat, j: nat)
    requires i < j
    ensures 2 * Size(i) <= Size(j)
  {
    if i + 1 < j {
      SizeMonotone(i, j - 1);
    }
  }

  lemma SizeDouble(i: nat)
    ensures Size(i + 1) == 2 * Size(i)
  {
  }

  lemma AlignedSum(x: int, y: int)
    requires x % 32 == 0 && y % 32 == 0
    ensures (x + y) % 32 == 0
  {
  }

  /** Chunk sizes are multiples of 32. */
  lemma {:induction false} SizeAligned(i: nat)
    ensures Size(i) % 32 == 0
  {
    if i > 0 {
      SizeAligned(i - 1);
    }
  }

  lemma SizeTable()
    ensures Size(0) == 32 && Size(1) == 64 && Size(2) == 128 && Size(3) == 256 && Size(4) == 512
    ensures Size(5) == 1024 && Size(6) == 2048 && Size(7) == 4096 && Size(8) == 8192
    ensures Size(9) == 16384 && Size(10) == 32768
  {
  }

  /** The lookup table holds the powers of two of the chunk classes. */
  lemma CorrespondIsSize(i: nat)
    ensures CorrespondBytes(i + 5) == if i <= TOP then Size(i) else 0
  {
    SizeTable();
  }

  lemma SizeBound(i: nat)
    requires i <= TOP
    ensures Size(i) <= 32768 && (i < TOP ==> Size(i) <= 16384)
  {
    SizeTable();
    if i < TOP {
      SizeMonotone(i, TOP);
    }
  }

  /** A request is served from the smallest class that holds it, and only requests that some class
      holds are served. */
  lemma ProperBinFits(bytes: int)
    ensures GetProperBin(bytes) == -1 <==> !(HEADER < bytes <= MMAP_THRESHOLD)
    ensures HEADER < bytes <= MMAP_THRESHOLD ==>
              var i := GetProperBin(bytes);
              0 <= i <= TOP && Size(i) < 2 * bytes <= 2 * Size(i)
  {
    SizeTable();
  }

  /** The size of a chunk leads back to the bin it came from. */
  lemma ProperBinRoundTrip(i: nat)
    requires i <= TOP
    ensures GetProperBin(Size(i)) == i && GetProperBin(CorrespondBytes(i + 5)) == i
  {
    SizeTable();
    CorrespondIsSize(i);
  }

  /** The 31-bit field has the one value of its range that is the byte count modulo 2^31. So it keeps the count
      exactly below 2^30, is less from there on, and reads 0 only on multiples of 2^31. */
  lemma Field31Faithful(x: int)
    requires 0 <= x
    ensures -0x4000_0000 <= Field31(x) < 0x4000_0000 && (x - Field31(x)) % 0x8000_0000 == 0
    ensures Field31(x) <= x
    ensures Field31(x) == x <==> x < 0x4000_0000
    ensures Field31(x) == 0 <==> x % 0x8000_0000 == 0
  {
    if x < 0x4000_0000 {
      assert x % 0x8000_0000 == x;
    }
  }
}
