/** The decoded layout of a backup file (File_Layout, Disk_Layout,
    Partition_Layout, restricted to the fields the restore pipeline reads) and
    the on-disk records of the data-block index. */
module Layout {
  import opened Bytes

  /** DataBlockIndexElement: where one block lies in its backup file.  A zero
      length marks a block with no data. */
  datatype DataBlock = DataBlock(file_position: u64, block_length: u32)

  /** DeltaDataBlockIndexElement: a block of an incremental file that replaces
      entry block_index of the full backup's index. */
  datatype DeltaBlock = DeltaBlock(block_index: u32, data_block: DataBlock)

  // On-disk sizes (packed): uint64 position then uint32 length; uint32 index then the element.
  const DATA_BLOCK_SIZE: nat := 12
  const DELTA_BLOCK_SIZE: nat := 16

  datatype FileHistory = FileHistory(file_name: string, file_number: int)

  /** reserved_sectors_byte_length is taken as 32 bits wide: the writer passes
      it to std::min beside a uint32_t block length. */
  datatype FileSystem = FileSystem(lcn0_offset: u64, start: u64, reserved_sectors_byte_length: u32)

  datatype PartitionGeometry = PartitionGeometry(start: u64, boot_sector_offset: u64)

  datatype PartitionHeader = PartitionHeader(block_size: u32, partition_number: int, file_history: seq<FileHistory>)

  datatype PartitionLayout = PartitionLayout(
    file_system: FileSystem,
    geometry: PartitionGeometry,
    header: PartitionHeader,
    reserved_sectors: seq<DataBlock>,
    data_block_index: seq<DataBlock>,
    delta_data_block_index: seq<DeltaBlock>)

  datatype DiskGeometry = DiskGeometry(bytes_per_sector: u32, disk_size: u64)

  datatype DiskLayout = DiskLayout(geometry: DiskGeometry, track0: seq<byte>, partitions: seq<PartitionLayout>)

  datatype FileHeader = FileHeader(delta_index: bool, file_number: nat, index_file_position: u64)

  datatype FileLayout = FileLayout(header: FileHeader, disks: seq<DiskLayout>)

  function ParseDataBlock(b: seq<byte>): DataBlock
    requires |b| == DATA_BLOCK_SIZE
  {
    DataBlock(U64(b[..8]), U32(b[8..]))
  }

  function EncodeDataBlock(d: DataBlock): (b: seq<byte>)
    ensures |b| == DATA_BLOCK_SIZE
  {
    ToLE(d.file_position, 8) + ToLE(d.block_length, 4)
  }

  function ParseDeltaBlock(b: seq<byte>): DeltaBlock
    requires |b| == DELTA_BLOCK_SIZE
  {
    DeltaBlock(U32(b[..4]), ParseDataBlock(b[4..]))
  }

  function EncodeDeltaBlock(d: DeltaBlock): (b: seq<byte>)
    ensures |b| == DELTA_BLOCK_SIZE
  {
    ToLE(d.block_index, 4) + EncodeDataBlock(d.data_block)
  }

  lemma ParseEncodeDataBlock(d: DataBlock)
    ensures ParseDataBlock(EncodeDataBlock(d)) == d
  {
    var b := EncodeDataBlock(d);
    assert b[..8] == ToLE(d.file_position, 8) && b[8..] == ToLE(d.block_length, 4);
    Pow256Widths();
    FromToLE(d.file_position, 8);
    FromToLE(d.block_length, 4);
  }

  lemma ParseEncodeDeltaBlock(d: DeltaBlock)
    ensures ParseDeltaBlock(EncodeDeltaBlock(d)) == d
  {
    var b := EncodeDeltaBlock(d);
    assert b[..4] == ToLE(d.block_index, 4) && b[4..] == EncodeDataBlock(d.data_block);
    Pow256Widths();
    FromToLE(d.block_index, 4);
    ParseEncodeDataBlock(d.data_block);
  }

  lemma DropSlice(b: seq<byte>, d: nat, i: nat, j: nat)
    requires d <= |b| && i <= j <= |b| - d
    ensures b[d..][i..j] == b[d + i..d + j]
  {
  }

  /** The elements a bulk readFile into a vector<DataBlockIndexElement> yields. */
  function ParseDataBlocks(b: seq<byte>): (r: seq<DataBlock>)
    requires |b| % DATA_BLOCK_SIZE == 0
    ensures |r| == |b| / DATA_BLOCK_SIZE
    decreases |b|
  {
    if b == [] then [] else [ParseDataBlock(b[..DATA_BLOCK_SIZE])] + ParseDataBlocks(b[DATA_BLOCK_SIZE..])
  }

  /** Element k of the vector comes from bytes k * size .. (k + 1) * size. */
  lemma {:induction false} ParseDataBlocksAt(b: seq<byte>, k: nat)
    requires |b| % DATA_BLOCK_SIZE == 0 && k < |b| / DATA_BLOCK_SIZE
    ensures ParseDataBlocks(b)[k] == ParseDataBlock(b[k * DATA_BLOCK_SIZE..(k + 1) * DATA_BLOCK_SIZE])
    decreases |b|
  {
    if k > 0 {
      ParseDataBlocksAt(b[DATA_BLOCK_SIZE..], k - 1);
      assert DATA_BLOCK_SIZE + (k - 1) * DATA_BLOCK_SIZE == k * DATA_BLOCK_SIZE;
      DropSlice(b, DATA_BLOCK_SIZE, (k - 1) * DATA_BLOCK_SIZE, k * DATA_BLOCK_SIZE);
    }
  }

  /** The elements a bulk readFile into a vector<DeltaDataBlockIndexElement> yields. */
  function ParseDeltaBlocks(b: seq<byte>): (r: seq<DeltaBlock>)
    requires |b| % DELTA_BLOCK_SIZE == 0
    ensures |r| == |b| / DELTA_BLOCK_SIZE
    decreases |b|
  {
    if b == [] then [] else [ParseDeltaBlock(b[..DELTA_BLOCK_SIZE])] + ParseDeltaBlocks(b[DELTA_BLOCK_SIZE..])
  }

  /** Element k of the vector comes from bytes k * size .. (k + 1) * size. */
  lemma {:induction false} ParseDeltaBlocksAt(b: seq<byte>, k: nat)
    requires |b| % DELTA_BLOCK_SIZE == 0 && k < |b| / DELTA_BLOCK_SIZE
    ensures ParseDeltaBlocks(b)[k] == ParseDeltaBlock(b[k * DELTA_BLOCK_SIZE..(k + 1) * DELTA_BLOCK_SIZE])
    decreases |b|
  {
    if k > 0 {
      ParseDeltaBlocksAt(b[DELTA_BLOCK_SIZE..], k - 1);
      assert DELTA_BLOCK_SIZE + (k - 1) * DELTA_BLOCK_SIZE == k * DELTA_BLOCK_SIZE;
      DropSlice(b, DELTA_BLOCK_SIZE, (k - 1) * DELTA_BLOCK_SIZE, k * DELTA_BLOCK_SIZE);
    }
  }

  function EncodeDataBlocks(ds: seq<DataBlock>): (b: seq<byte>)
    ensures |b| == |ds| * DATA_BLOCK_SIZE
  {
    if ds == [] then [] else EncodeDataBlock(ds[0]) + EncodeDataBlocks(ds[1..])
  }

  lemma {:induction false} ParseEncodeDataBlocks(ds: seq<DataBlock>)
    ensures ParseDataBlocks(EncodeDataBlocks(ds)) == ds
  {
    if ds != [] {
      var b := EncodeDataBlocks(ds);
      assert b[..DATA_BLOCK_SIZE] == EncodeDataBlock(ds[0]);
      assert b[DATA_BLOCK_SIZE..] == EncodeDataBlocks(ds[1..]);
      ParseEncodeDataBlock(ds[0]);
      ParseEncodeDataBlocks(ds[1..]);
    }
  }
}
