/** The size rounding at the top of CreateVDisk: the requested disk size is
    rounded up to a whole number of sectors, then to a whole number of
    64 KiB blocks, in unsigned 64-bit arithmetic. */
module Vhdx {
  import opened Bytes

  /** The block size CreateVDisk rounds to. */
  const BLOCK_SIZE: nat := 65536

  /** The sizes for which neither rounding step wraps around 2^64. */
  predicate NoWrap(size: u64, sectorSize: u32) {
    size + sectorSize + 2 * BLOCK_SIZE < TWO_64
  }

  /** Rounding n, not a multiple of d, to (n / d + k) * d gives a multiple of
      d more than (k - 1) * d and less than k * d above n. */
  lemma RoundUp(n: nat, d: nat, k: nat)
    requires d > 0 && n % d != 0 && k >= 1
    ensures var r := (n / d + k) * d;
      r % d == 0 && n + (k - 1) * d < r < n + k * d
  {
    var q := n / d;
    assert n == q * d + n % d;
    assert (q + k) * d == q * d + k * d;
    assert (k - 1) * d == k * d - d;
    DivUnique((q + k) * d, d, q + k, 0);
  }

  /** The first step: a size that is not a whole number of sectors becomes
      the next whole number of sectors. */
  function SectorRounded(size: u64, sectorSize: u32): (r: u64)
    requires sectorSize > 0
    ensures size % sectorSize == 0 ==> r == size
    ensures size % sectorSize != 0 && size + sectorSize < TWO_64 ==>
      r % sectorSize == 0 && size < r < size + sectorSize
  {
    if size % sectorSize != 0 then
      RoundUp(size, sectorSize, 1);
      Wrap64((size / sectorSize + 1) * sectorSize)
    else size
  }

  /** The second step: a size that is not a whole number of blocks becomes
      the whole number of blocks two above its quotient. */
  function BlockRounded(size: u64): (r: u64)
    ensures size % BLOCK_SIZE == 0 ==> r == size
    ensures size % BLOCK_SIZE != 0 && size + 2 * BLOCK_SIZE < TWO_64 ==>
      r % BLOCK_SIZE == 0 && size + BLOCK_SIZE < r < size + 2 * BLOCK_SIZE
  {
    if size % BLOCK_SIZE != 0 then
      RoundUp(size, BLOCK_SIZE, 2);
      Wrap64((size / BLOCK_SIZE + 2) * BLOCK_SIZE)
    else size
  }

  /** CreateVDisk's rounding of size: the two conditional steps in order. */
  method RoundVDiskSize(size: u64, sectorSize: u32) returns (r: u64)
    requires sectorSize > 0
    ensures r == BlockRounded(SectorRounded(size, sectorSize))
    ensures NoWrap(size, sectorSize) ==> r % BLOCK_SIZE == 0 && r >= size
    ensures size % sectorSize == 0 && size % BLOCK_SIZE == 0 ==> r == size
    ensures NoWrap(size, sectorSize) && BLOCK_SIZE % sectorSize == 0 ==> r % sectorSize == 0
  {
    r := size;
    if r % sectorSize != 0 {
      r := Wrap64((r / sectorSize + 1) * sectorSize);
    }
    if r % BLOCK_SIZE != 0 {
      r := Wrap64((r / BLOCK_SIZE + 2) * BLOCK_SIZE);
    }
    RoundedBounds(size, sectorSize);
    if NoWrap(size, sectorSize) && BLOCK_SIZE % sectorSize == 0 {
      RoundedSectorMultiple(size, sectorSize);
    }
  }

  /** Without wrap-around the rounded size is a whole number of blocks, at
      least the requested size and less than 2 * BLOCK_SIZE + sectorSize above
      it; a size already a whole number of sectors and of blocks is kept. */
  lemma RoundedBounds(size: u64, sectorSize: u32)
    requires sectorSize > 0
    ensures var r := BlockRounded(SectorRounded(size, sectorSize));
      && (NoWrap(size, sectorSize) ==> r % BLOCK_SIZE == 0 && size <= r < size + sectorSize + 2 * BLOCK_SIZE)
      && (size % sectorSize == 0 && size % BLOCK_SIZE == 0 ==> r == size)
  {
    if NoWrap(size, sectorSize) {
      var s := SectorRounded(size, sectorSize);
      assert size <= s < size + sectorSize;
      var r := BlockRounded(s);
      assert s + 2 * BLOCK_SIZE < TWO_64;
      assert r % BLOCK_SIZE == 0 && s <= r < s + 2 * BLOCK_SIZE;
    }
  }

  /** When the sector size divides the block size, as 512 and 4096 do, and
      nothing wraps, the rounded size is a whole number of sectors as well as
      of blocks. */
  lemma RoundedSectorMultiple(size: u64, sectorSize: u32)
    requires sectorSize > 0 && BLOCK_SIZE % sectorSize == 0 && NoWrap(size, sectorSize)
    ensures BlockRounded(SectorRounded(size, sectorSize)) % sectorSize == 0
  {
    var s := SectorRounded(size, sectorSize);
    var r := BlockRounded(s);
    RoundedBounds(size, sectorSize);
    assert s % sectorSize == 0;
    if s % BLOCK_SIZE != 0 {
      var q := r / BLOCK_SIZE;
      var m := BLOCK_SIZE / sectorSize;
      assert r == q * BLOCK_SIZE;
      assert BLOCK_SIZE == m * sectorSize;
      assert r == (q * m) * sectorSize;
      DivUnique(r, sectorSize, q * m, 0);
    }
  }

  /** A sector size that does not divide the block size loses the first step's
      work: 1040 bytes are already two 520-byte sectors, but the second step
      makes them two blocks, 131072 bytes, which is not a whole number of
      520-byte sectors. */
  lemma RoundedNotSectorMultiple()
    ensures BlockRounded(SectorRounded(1040, 520)) == 131072
    ensures 131072 % 520 == 32
  {
    assert SectorRounded(1040, 520) == 1040;
  }

  /** With 512-byte sectors, one byte more than a block becomes three blocks:
      the second step adds two blocks, not one. */
  lemma RoundedExample()
    ensures BlockRounded(SectorRounded(65537, 512)) == 196608
  {
    assert SectorRounded(65537, 512) == 66048;
  }

  /** The largest size wraps around: rounding it up to whole sectors gives 2^64,
      kept in 64 bits as 0, which is then a whole number of blocks. */
  lemma RoundedWraps()
    ensures BlockRounded(SectorRounded(TWO_64 - 1, 512)) == 0
  {
    assert (TWO_64 - 1) / 512 + 1 == TWO_64 / 512;
    assert SectorRounded(TWO_64 - 1, 512) == 0;
  }
}
