/** The backup-file parser of the restore tool: it locates the footer, scans the
    metadata block headers for the $JSON payload, and reads each disk's track 0
    and each partition's reserved-sector and data-block indexes. */
module ImgHandler {
  import opened Bytes
  import opened Results
  import opened FileStream
  import opened Metadata
  import opened Layout

  /** The footer starts this many bytes before the end of the file: an 8-byte
      header offset followed by the magic bytes. */
  function CalculateFooterOffset(): (r: int)
    ensures r == -20
  {
    -((MAGIC_BYTES_VX_SIZE as int) + 8)
  }

  /** readFooterData: the uint64 header offset, then MAGIC_BYTES_VX_SIZE magic
      bytes.  The magic bytes are returned but never compared. */
  function ReadFooterData(s: Stream): (r: Result<(u64, seq<byte>, Stream)>)
    ensures r.Ok? <==> s.pos + 20 <= |s.data|
    ensures r.Ok? ==> && r.value.0 == FromLE(s.data[s.pos..s.pos + 8])
                      && r.value.1 == s.data[s.pos + 8..s.pos + 20]
                      && r.value.2 == s.(pos := s.pos + 20)
  {
    var off :- Read(s, 8);
    var magic :- Read(off.1, MAGIC_BYTES_VX_SIZE);
    Ok((U64(off.0), magic.0, magic.1))
  }

  /** Seek to the footer, read it, and seek to the header offset it holds. */
  function LocateHeader(data: seq<byte>): (r: Result<Stream>)
    ensures |data| < 20 ==> r == Err(SeekFailed)
    ensures |data| >= 20 ==>
      var off := FromLE(data[|data| - 20..|data| - 12]);
      && (r.Ok? <==> off < TWO_63)
      && (r.Ok? ==> r.value == Stream(data, off))
  {
    var s :- SeekEnd(Open(data), CalculateFooterOffset());
    var footer :- ReadFooterData(s);
    SeekBeg(footer.2, ToStreamOff(footer.0))
  }

  /** One 32-byte metadata block header at the position. */
  function ReadHeader(s: Stream): (r: Result<(MetadataBlockHeader, Stream)>)
    ensures r.Ok? <==> s.pos + HEADER_SIZE <= |s.data|
    ensures r.Ok? ==> && r.value.0 == ParseHeader(s.data[s.pos..s.pos + HEADER_SIZE])
                      && r.value.1 == s.(pos := s.pos + HEADER_SIZE)
  {
    var b :- Read(s, HEADER_SIZE);
    Ok((ParseHeader(b.0), b.1))
  }

  /** readMetadataBlock: the BlockLength payload bytes that follow a header. */
  function ReadMetadataBlock(s: Stream, h: MetadataBlockHeader): (r: Result<(seq<byte>, Stream)>)
    ensures r.Ok? <==> h.blockLength == 0 || s.pos + h.blockLength <= |s.data|
    ensures r.Ok? ==> |r.value.0| == h.blockLength && r.value.1 == s.(pos := s.pos + h.blockLength)
    ensures r.Ok? && h.blockLength > 0 ==> r.value.0 == s.data[s.pos..s.pos + h.blockLength]
  {
    Read(s, h.blockLength)
  }

  /** Termination measure of the header scans: every header read consumes
      HEADER_SIZE bytes, and a read never succeeds past the end. */
  function Remaining(s: Stream): nat {
    if s.pos <= |s.data| then |s.data| - s.pos + 1 else 0
  }

  /** One pass of readJSON's loop: read a header, then capture its payload when
      it is tagged $JSON, or else seek BlockLength + HEADER_SIZE bytes past the
      end of the header.  Yields the header, the payload captured so far and the
      cursor. */
  function JsonStep(s: Stream, json: seq<byte>): (r: Result<(MetadataBlockHeader, seq<byte>, Stream)>)
    ensures r.Ok? ==> && s.pos + HEADER_SIZE <= |s.data|
                      && r.value.2.data == s.data && s.pos + HEADER_SIZE <= r.value.2.pos
  {
    var hr :- ReadHeader(s);
    var h := hr.0;
    if HasTag(h, JSON_HEADER) then
      var pr :- ReadMetadataBlock(hr.1, h);
      Ok((h, pr.0, pr.1))
    else
      var s2 :- SeekCur(hr.1, h.blockLength + HEADER_SIZE);
      Ok((h, json, s2))
  }

  /** What readJSON computes from the stream and the payload captured so far:
      passes are made until one reads a header with LastBlock set. */
  function JsonScan(s: Stream, json: seq<byte>): (r: Result<(seq<byte>, Stream)>)
    ensures r.Ok? ==> r.value.1.data == s.data && s.pos + HEADER_SIZE <= r.value.1.pos
    decreases Remaining(s)
  {
    var st :- JsonStep(s, json);
    if LastBlock(st.0) != 0 then Ok((st.1, st.2)) else JsonScan(st.2, st.1)
  }

  /** readJSON: the do/while loop over metadata block headers. */
  method ReadJSON(s: Stream) returns (r: Result<(seq<byte>, Stream)>)
    ensures r == JsonScan(s, [])
  {
    var cur, json := s, [];
    while true
      invariant JsonScan(cur, json) == JsonScan(s, [])
      decreases Remaining(cur)
    {
      var hr := ReadHeader(cur);
      if hr.Err? {
        return Err(hr.error);
      }
      var h := hr.value.0;
      if HasTag(h, JSON_HEADER) {
        var pr := ReadMetadataBlock(hr.value.1, h);
        if pr.Err? {
          return Err(pr.error);
        }
        json, cur := pr.value.0, pr.value.1;
      } else {
        cur := SeekCur(hr.value.1, h.blockLength + HEADER_SIZE).value;
      }
      if LastBlock(h) != 0 {
        return Ok((json, cur));
      }
    }
  }

  /** One pass of skipPartitionMetadata's loop: read a header and skip its
      payload only when it is tagged $BITMAP.  Yields the header and the cursor. */
  function SkipStep(s: Stream): (r: Result<(MetadataBlockHeader, Stream)>)
    ensures r.Ok? ==> && s.pos + HEADER_SIZE <= |s.data|
                      && r.value.1.data == s.data && s.pos + HEADER_SIZE <= r.value.1.pos
  {
    var hr :- ReadHeader(s);
    var h := hr.0;
    var s2 :- if HasTag(h, BITMAP_HEADER) then SeekCur(hr.1, h.blockLength) else Ok(hr.1);
    Ok((h, s2))
  }

  /** What skipPartitionMetadata computes: passes are made until one reads a
      header with LastBlock set. */
  function SkipScan(s: Stream): (r: Result<Stream>)
    ensures r.Ok? ==> r.value.data == s.data && s.pos + HEADER_SIZE <= r.value.pos
    decreases Remaining(s)
  {
    var st :- SkipStep(s);
    if LastBlock(st.0) != 0 then Ok(st.1) else SkipScan(st.1)
  }

  /** skipPartitionMetadata: the do/while loop that skips the bitmap block and
      the index header. */
  method SkipPartitionMetadata(s: Stream) returns (r: Result<Stream>)
    ensures r == SkipScan(s)
  {
    var cur := s;
    while true
      invariant SkipScan(cur) == SkipScan(s)
      decreases Remaining(cur)
    {
      var hr := ReadHeader(cur);
      if hr.Err? {
        return Err(hr.error);
      }
      var h := hr.value.0;
      cur := hr.value.1;
      if HasTag(h, BITMAP_HEADER) {
        cur := SeekCur(cur, h.blockLength).value;
      }
      if LastBlock(h) != 0 {
        return Ok(cur);
      }
    }
  }

  /** readDiskMetadata: the next header must be tagged $TRACK0; its payload
      becomes the disk's track 0 and nothing else of the disk changes. */
  function DiskMetadata(s: Stream, d: DiskLayout): (r: Result<(DiskLayout, Stream)>)
    ensures s.pos + HEADER_SIZE > |s.data| ==> r == Err(ReadFailed)
    ensures s.pos + HEADER_SIZE <= |s.data| ==>
      var h := ParseHeader(s.data[s.pos..s.pos + HEADER_SIZE]);
      var start := s.pos + HEADER_SIZE;
      && (!HasTag(h, TRACK_0) ==> r == Err(MissingTrack0))
      && (HasTag(h, TRACK_0) ==>
            && (r.Ok? <==> h.blockLength == 0 || start + h.blockLength <= |s.data|)
            && (r.Ok? ==> && r.value.0 == d.(track0 := s.data[start..start + h.blockLength])
                          && r.value.1 == s.(pos := start + h.blockLength)))
  {
    var hr :- ReadHeader(s);
    var h := hr.0;
    if !HasTag(h, TRACK_0) then Err(MissingTrack0)
    else
      var pr :- ReadMetadataBlock(hr.1, h);
      Ok((d.(track0 := pr.0), pr.1))
  }

  /** An int32 block count. */
  function ReadCount(s: Stream): (r: Result<(int, Stream)>)
    ensures r.Ok? <==> s.pos + 4 <= |s.data|
    ensures r.Ok? ==> r.value == (I32(s.data[s.pos..s.pos + 4]), s.(pos := s.pos + 4))
  {
    var b :- Read(s, 4);
    Ok((I32(b.0), b.1))
  }

  /** resize(count) and one readFile of count DataBlockIndexElements.  A
      negative count makes resize throw. */
  function ReadDataBlocks(s: Stream, count: int): (r: Result<(seq<DataBlock>, Stream)>)
    ensures count < 0 ==> r == Err(BadCount)
    ensures r.Ok? ==> && count >= 0 && |r.value.0| == count
                      && r.value.1 == s.(pos := s.pos + count * DATA_BLOCK_SIZE)
                      && (count > 0 ==> s.pos + count * DATA_BLOCK_SIZE <= |s.data|)
    ensures r.Ok? && count > 0 ==>
      r.value.0 == ParseDataBlocks(s.data[s.pos..s.pos + count * DATA_BLOCK_SIZE])
  {
    if count < 0 then Err(BadCount)
    else
      var b :- Read(s, count * DATA_BLOCK_SIZE);
      Ok((ParseDataBlocks(b.0), b.1))
  }

  /** resize(count) and one readFile of count DeltaDataBlockIndexElements. */
  function ReadDeltaBlocks(s: Stream, count: int): (r: Result<(seq<DeltaBlock>, Stream)>)
    ensures count < 0 ==> r == Err(BadCount)
    ensures r.Ok? ==> && count >= 0 && |r.value.0| == count
                      && r.value.1 == s.(pos := s.pos + count * DELTA_BLOCK_SIZE)
                      && (count > 0 ==> s.pos + count * DELTA_BLOCK_SIZE <= |s.data|)
    ensures r.Ok? && count > 0 ==>
      r.value.0 == ParseDeltaBlocks(s.data[s.pos..s.pos + count * DELTA_BLOCK_SIZE])
  {
    if count < 0 then Err(BadCount)
    else
      var b :- Read(s, count * DELTA_BLOCK_SIZE);
      Ok((ParseDeltaBlocks(b.0), b.1))
  }

  /** Two partition layouts that differ at most in their three index arrays. */
  ghost predicate SameExceptIndexes(p: PartitionLayout, q: PartitionLayout) {
    && q.file_system == p.file_system
    && q.geometry == p.geometry
    && q.header == p.header
  }

  /** The reserved-sector part of readDataBlockIndex's partition step: an int32
      count, and when it is nonzero the vector is resized and that many entries
      are read; a zero count leaves the vector as it was. */
  function ReservedIndex(s: Stream, reserved: seq<DataBlock>): (r: Result<(seq<DataBlock>, Stream)>)
    ensures s.pos + 4 > |s.data| ==> r == Err(ReadFailed)
    ensures s.pos + 4 <= |s.data| ==>
      var c := I32(s.data[s.pos..s.pos + 4]);
      var q := s.pos + 4;
      && (c < 0 ==> r == Err(BadCount))
      && (c == 0 ==> r == Ok((reserved, s.(pos := q))))
      && (c > 0 ==> && (r.Ok? <==> q + c * DATA_BLOCK_SIZE <= |s.data|)
                    && (r.Ok? ==> r.value == (ParseDataBlocks(s.data[q..q + c * DATA_BLOCK_SIZE]),
                                              s.(pos := q + c * DATA_BLOCK_SIZE))))
  {
    var c :- ReadCount(s);
    if c.0 != 0 then ReadDataBlocks(c.1, c.0) else Ok((reserved, c.1))
  }

  /** The block-index part of an incremental file's partition step: an int32
      count, then exactly that many delta entries; only the delta index is
      replaced. */
  function DeltaIndex(s: Stream, p: PartitionLayout): (r: Result<(PartitionLayout, Stream)>)
    ensures s.pos + 4 > |s.data| ==> r == Err(ReadFailed)
    ensures s.pos + 4 <= |s.data| ==>
      var c := I32(s.data[s.pos..s.pos + 4]);
      var q := s.pos + 4;
      && (c < 0 ==> r == Err(BadCount))
      && (c >= 0 ==> && (r.Ok? <==> c == 0 || q + c * DELTA_BLOCK_SIZE <= |s.data|)
                     && (r.Ok? ==> && r.value.1 == s.(pos := q + c * DELTA_BLOCK_SIZE)
                                   && |r.value.0.delta_data_block_index| == c
                                   && (c > 0 ==> r.value.0.delta_data_block_index
                                                 == ParseDeltaBlocks(s.data[q..q + c * DELTA_BLOCK_SIZE]))))
    ensures r.Ok? ==> r.value.0 == p.(delta_data_block_index := r.value.0.delta_data_block_index)
  {
    var c :- ReadCount(s);
    var d :- ReadDeltaBlocks(c.1, c.0);
    Ok((p.(delta_data_block_index := d.0), d.1))
  }

  /** The block-index part of a full file's partition step: an int32 count,
      then exactly that many entries; only the full index is replaced. */
  function FullIndex(s: Stream, p: PartitionLayout): (r: Result<(PartitionLayout, Stream)>)
    ensures s.pos + 4 > |s.data| ==> r == Err(ReadFailed)
    ensures s.pos + 4 <= |s.data| ==>
      var c := I32(s.data[s.pos..s.pos + 4]);
      var q := s.pos + 4;
      && (c < 0 ==> r == Err(BadCount))
      && (c >= 0 ==> && (r.Ok? <==> c == 0 || q + c * DATA_BLOCK_SIZE <= |s.data|)
                     && (r.Ok? ==> && r.value.1 == s.(pos := q + c * DATA_BLOCK_SIZE)
                                   && |r.value.0.data_block_index| == c
                                   && (c > 0 ==> r.value.0.data_block_index
                                                 == ParseDataBlocks(s.data[q..q + c * DATA_BLOCK_SIZE]))))
    ensures r.Ok? ==> r.value.0 == p.(data_block_index := r.value.0.data_block_index)
  {
    var c :- ReadCount(s);
    var b :- ReadDataBlocks(c.1, c.0);
    Ok((p.(data_block_index := b.0), b.1))
  }

  /** The per-partition body of readDataBlockIndex: skip the bitmap block and
      index header, then the reserved-sector index, then the block index. */
  function PartitionIndex(s: Stream, p: PartitionLayout, delta: bool): (r: Result<(PartitionLayout, Stream)>)
    ensures r.Ok? ==> SameExceptIndexes(p, r.value.0) && r.value.1.data == s.data
    ensures r.Ok? && delta ==> r.value.0.data_block_index == p.data_block_index
    ensures r.Ok? && !delta ==> r.value.0.delta_data_block_index == p.delta_data_block_index
  {
    var s1 :- SkipScan(s);
    var rs :- ReservedIndex(s1, p.reserved_sectors);
    var q := p.(reserved_sectors := rs.0);
    if delta then DeltaIndex(rs.1, q) else FullIndex(rs.1, q)
  }

  /** The per-partition step of readDataBlockIndex, as a sequence of reads. */
  method ReadPartitionIndex(s: Stream, p: PartitionLayout, delta: bool) returns (r: Result<(PartitionLayout, Stream)>)
    ensures r == PartitionIndex(s, p, delta)
  {
    var s1 := SkipPartitionMetadata(s);
    if s1.Err? {
      return Err(s1.error);
    }
    var c1 := ReadCount(s1.value);
    if c1.Err? {
      return Err(c1.error);
    }
    var reserved, cur := p.reserved_sectors, c1.value.1;
    if c1.value.0 != 0 {
      var rs := ReadDataBlocks(cur, c1.value.0);
      if rs.Err? {
        return Err(rs.error);
      }
      reserved, cur := rs.value.0, rs.value.1;
    }
    var c2 := ReadCount(cur);
    if c2.Err? {
      return Err(c2.error);
    }
    if delta {
      var d := ReadDeltaBlocks(c2.value.1, c2.value.0);
      if d.Err? {
        return Err(d.error);
      }
      r := Ok((p.(reserved_sectors := reserved, delta_data_block_index := d.value.0), d.value.1));
    } else {
      var b := ReadDataBlocks(c2.value.1, c2.value.0);
      if b.Err? {
        return Err(b.error);
      }
      r := Ok((p.(reserved_sectors := reserved, data_block_index := b.value.0), b.value.1));
    }
  }

  /** A per-partition index reader: the current and the earlier parser differ
      only in this step. */
  type PartitionReader = (Stream, PartitionLayout, bool) -> Result<(PartitionLayout, Stream)>

  /** Partitions i.. of one disk, read in layout order after those in acc. */
  function PartitionsFrom(read: PartitionReader, s: Stream, parts: seq<PartitionLayout>, delta: bool,
                          i: nat, acc: seq<PartitionLayout>): (r: Result<(seq<PartitionLayout>, Stream)>)
    ensures r.Ok? ==> |r.value.0| == |acc| + |parts| - i || i > |parts|
    decreases |parts| - i
  {
    if i >= |parts| then Ok((acc, s))
    else
      var pr :- read(s, parts[i], delta);
      PartitionsFrom(read, pr.1, parts, delta, i + 1, acc + [pr.0])
  }

  /** One disk: its track 0, then the indexes of its partitions. */
  function DiskIndex(read: PartitionReader, s: Stream, d: DiskLayout, delta: bool): Result<(DiskLayout, Stream)>
  {
    var dr :- DiskMetadata(s, d);
    var pr :- PartitionsFrom(read, dr.1, d.partitions, delta, 0, []);
    Ok((dr.0.(partitions := pr.0), pr.1))
  }

  /** Disks i.. of the layout, read in layout order after those in acc. */
  function DisksFrom(read: PartitionReader, s: Stream, disks: seq<DiskLayout>, delta: bool,
                     i: nat, acc: seq<DiskLayout>): Result<(seq<DiskLayout>, Stream)>
    decreases |disks| - i
  {
    if i >= |disks| then Ok((acc, s))
    else
      var dr :- DiskIndex(read, s, disks[i], delta);
      DisksFrom(read, dr.1, disks, delta, i + 1, acc + [dr.0])
  }

  /** readDataBlockIndex with a given per-partition step: seek to
      index_file_position, then disk by disk and partition by partition. */
  function IndexWalk(read: PartitionReader, s: Stream, layout: FileLayout): Result<(FileLayout, Stream)>
  {
    var s1 :- SeekBeg(s, ToStreamOff(layout.header.index_file_position));
    var dr :- DisksFrom(read, s1, layout.disks, layout.header.delta_index, 0, []);
    Ok((layout.(disks := dr.0), dr.1))
  }

  /** The inner loop of readDataBlockIndex: the partitions of one disk. */
  method ReadDiskPartitions(s: Stream, parts: seq<PartitionLayout>, delta: bool)
    returns (r: Result<(seq<PartitionLayout>, Stream)>)
    ensures r == PartitionsFrom(PartitionIndex, s, parts, delta, 0, [])
  {
    var cur, done, j := s, [], 0;
    while j < |parts|
      invariant j <= |parts|
      invariant PartitionsFrom(PartitionIndex, cur, parts, delta, j, done)
             == PartitionsFrom(PartitionIndex, s, parts, delta, 0, [])
    {
      var pr := ReadPartitionIndex(cur, parts[j], delta);
      match pr
      case Err(e) => return Err(e);
      case Ok(v) => done, cur := done + [v.0], v.1;
      j := j + 1;
    }
    return Ok((done, cur));
  }

  /** The body of readDataBlockIndex's disk loop. */
  method ReadDisk(s: Stream, d: DiskLayout, delta: bool) returns (r: Result<(DiskLayout, Stream)>)
    ensures r == DiskIndex(PartitionIndex, s, d, delta)
  {
    var dr := DiskMetadata(s, d);
    if dr.Err? {
      return Err(dr.error);
    }
    var pr := ReadDiskPartitions(dr.value.1, d.partitions, delta);
    if pr.Err? {
      return Err(pr.error);
    }
    return Ok((dr.value.0.(partitions := pr.value.0), pr.value.1));
  }

  /** readDataBlockIndex: seek to index_file_position, then per disk its track 0
      and its partitions' indexes. */
  method ReadDataBlockIndex(s: Stream, layout: FileLayout) returns (r: Result<(FileLayout, Stream)>)
    ensures r == IndexWalk(PartitionIndex, s, layout)
  {
    var sr := SeekBeg(s, ToStreamOff(layout.header.index_file_position));
    if sr.Err? {
      return Err(SeekFailed);
    }
    var delta := layout.header.delta_index;
    var cur, disks, i := sr.value, [], 0;
    while i < |layout.disks|
      invariant i <= |layout.disks|
      invariant DisksFrom(PartitionIndex, cur, layout.disks, delta, i, disks)
             == DisksFrom(PartitionIndex, sr.value, layout.disks, delta, 0, [])
    {
      var dr := ReadDisk(cur, layout.disks[i], delta);
      match dr
      case Err(e) => return Err(e);
      case Ok(v) => disks, cur := disks + [v.0], v.1;
      i := i + 1;
    }
    return Ok((layout.(disks := disks), cur));
  }

  /** readBackupFileLayout without opening the file: footer, header offset,
      JSON payload, the decoder's layout, then the block indexes. */
  function BackupFileLayout(data: seq<byte>, decode: seq<byte> -> Option<FileLayout>): Result<FileLayout>
  {
    var s :- LocateHeader(data);
    var jr :- JsonScan(s, []);
    match decode(jr.0)
    case None => Err(DecodeFailed)
    case Some(layout) =>
      var ir :- IndexWalk(PartitionIndex, jr.1, layout);
      Ok(ir.0)
  }

  /** readBackupFileLayout on an opened file's bytes; the JSON decoder is a
      parameter. */
  method ReadBackupFileLayout(data: seq<byte>, decode: seq<byte> -> Option<FileLayout>) returns (r: Result<FileLayout>)
    ensures r == BackupFileLayout(data, decode)
  {
    var s := SeekEnd(Open(data), CalculateFooterOffset());
    if s.Err? {
      return Err(s.error);
    }
    var footer := ReadFooterData(s.value);
    var hs := SeekBeg(footer.value.2, ToStreamOff(footer.value.0));
    if hs.Err? {
      return Err(hs.error);
    }
    var jr := ReadJSON(hs.value);
    if jr.Err? {
      return Err(jr.error);
    }
    var decoded := decode(jr.value.0);
    if decoded.None? {
      return Err(DecodeFailed);
    }
    var ir := ReadDataBlockIndex(jr.value.1, decoded.value);
    if ir.Err? {
      return Err(ir.error);
    }
    return Ok(ir.value.0);
  }
}
