/** The earlier backup-file parser.  Its footer, header scans and track 0
    reader are the same as the current parser's; its partition step differs:
    it seeks past the reserved-sector count without reading it, then reads a
    count and that many full entries, whatever the file's delta_index says. */
module LegacyImgHandler {
  import opened Bytes
  import opened Results
  import opened FileStream
  import opened Metadata
  import opened Layout
  import opened ImgHandler

  /** The per-partition body of the earlier readDataBlockIndex: skip the
      bitmap block and the index header, seek four bytes forward past the
      reserved-sector count, then read the full block index. */
  function PartitionIndex(s: Stream, p: PartitionLayout, delta: bool): (r: Result<(PartitionLayout, Stream)>)
    ensures r.Ok? ==> && r.value.0 == p.(data_block_index := r.value.0.data_block_index)
                      && r.value.1.data == s.data
    ensures SkipScan(s).Ok? ==> r == FullIndex(Stream(s.data, SkipScan(s).value.pos + 4), p)
    ensures SkipScan(s).Err? ==> r == Err(SkipScan(s).error)
  {
    var s1 :- SkipScan(s);
    var s2 :- SeekCur(s1, 4);
    FullIndex(s2, p)
  }

  /** The earlier reader ignores the file's delta_index. */
  lemma IgnoresDelta(s: Stream, p: PartitionLayout)
    ensures PartitionIndex(s, p, true) == PartitionIndex(s, p, false)
  {
  }

  /** Where the reserved-sector count at the cursor q after the skipped
      headers is zero, or missing, the current step for a full backup reads
      what the earlier one reads: its reserved-sector read either fails as the
      earlier count read does, or leaves the layout as it was and is followed
      by the full index four bytes on. */
  lemma AgreesWithoutReserved(data: seq<byte>, q: nat, p: PartitionLayout)
    requires q + 4 <= |data| ==> I32(data[q..q + 4]) == 0
    ensures match ReservedIndex(Stream(data, q), p.reserved_sectors)
      case Err(e) => FullIndex(Stream(data, q + 4), p) == Err(e)
      case Ok(rs) => FullIndex(Stream(data, q + 4), p) == FullIndex(rs.1, p.(reserved_sectors := rs.0))
  {
    var s1, s2 := Stream(data, q), Stream(data, q + 4);
    if q + 4 <= |data| {
      assert ReadCount(s1) == Ok((0, s2));
      assert ReservedIndex(s1, p.reserved_sectors) == Ok((p.reserved_sectors, s2));
      assert p.(reserved_sectors := p.reserved_sectors) == p;
    } else {
      assert ReadCount(s1) == Err(ReadFailed);
      assert ReadCount(s2) == Err(ReadFailed);
    }
  }

  /** One partition step of the earlier readDataBlockIndex, as a sequence of
      reads. */
  method ReadPartitionIndex(s: Stream, p: PartitionLayout) returns (r: Result<(PartitionLayout, Stream)>)
    ensures r == PartitionIndex(s, p, false)
  {
    var s1 := SkipPartitionMetadata(s);
    if s1.Err? {
      return Err(s1.error);
    }
    var s2 := SeekCur(s1.value, 4).value;
    var c := ReadCount(s2);
    if c.Err? {
      return Err(c.error);
    }
    var b := ReadDataBlocks(c.value.1, c.value.0);
    if b.Err? {
      return Err(b.error);
    }
    return Ok((p.(data_block_index := b.value.0), b.value.1));
  }

  /** The body of the earlier readDataBlockIndex's disk loop: track 0, then
      every partition in order. */
  method ReadDisk(s: Stream, d: DiskLayout) returns (r: Result<(DiskLayout, Stream)>)
    ensures r == DiskIndex(PartitionIndex, s, d, false)
  {
    var dr := DiskMetadata(s, d);
    if dr.Err? {
      return Err(dr.error);
    }
    var cur, done, j := dr.value.1, [], 0;
    while j < |d.partitions|
      invariant j <= |d.partitions|
      invariant PartitionsFrom(PartitionIndex, cur, d.partitions, false, j, done)
             == PartitionsFrom(PartitionIndex, dr.value.1, d.partitions, false, 0, [])
    {
      var pr := ReadPartitionIndex(cur, d.partitions[j]);
      if pr.Err? {
        return Err(pr.error);
      }
      done, cur := done + [pr.value.0], pr.value.1;
      j := j + 1;
    }
    return Ok((dr.value.0.(partitions := done), cur));
  }

  /** A walk with a reader that ignores the delta flag ignores it too. */
  lemma {:induction false} DisksIgnoreDelta(s: Stream, disks: seq<DiskLayout>, i: nat, acc: seq<DiskLayout>)
    ensures DisksFrom(PartitionIndex, s, disks, true, i, acc) == DisksFrom(PartitionIndex, s, disks, false, i, acc)
    decreases |disks| - i
  {
    if i < |disks| {
      var r := DiskIndex(PartitionIndex, s, disks[i], true);
      DiskIgnoresDelta(s, disks[i]);
      if r.Ok? {
        DisksIgnoreDelta(r.value.1, disks, i + 1, acc + [r.value.0]);
      }
    }
  }

  lemma DiskIgnoresDelta(s: Stream, d: DiskLayout)
    ensures DiskIndex(PartitionIndex, s, d, true) == DiskIndex(PartitionIndex, s, d, false)
  {
    var dr := DiskMetadata(s, d);
    if dr.Ok? {
      PartitionsIgnoreDelta(dr.value.1, d.partitions, 0, []);
    }
  }

  lemma {:induction false} PartitionsIgnoreDelta(s: Stream, parts: seq<PartitionLayout>, i: nat, acc: seq<PartitionLayout>)
    ensures PartitionsFrom(PartitionIndex, s, parts, true, i, acc) == PartitionsFrom(PartitionIndex, s, parts, false, i, acc)
    decreases |parts| - i
  {
    if i < |parts| {
      IgnoresDelta(s, parts[i]);
      var r := PartitionIndex(s, parts[i], false);
      if r.Ok? {
        PartitionsIgnoreDelta(r.value.1, parts, i + 1, acc + [r.value.0]);
      }
    }
  }

  /** The earlier readDataBlockIndex: seek to index_file_position, then disk by
      disk and partition by partition with the earlier partition step. */
  method ReadDataBlockIndex(s: Stream, layout: FileLayout) returns (r: Result<(FileLayout, Stream)>)
    ensures r == IndexWalk(PartitionIndex, s, layout)
  {
    var sr := SeekBeg(s, ToStreamOff(layout.header.index_file_position));
    if sr.Err? {
      return Err(SeekFailed);
    }
    DisksIgnoreDelta(sr.value, layout.disks, 0, []);
    var cur, disks, i := sr.value, [], 0;
    while i < |layout.disks|
      invariant i <= |layout.disks|
      invariant DisksFrom(PartitionIndex, cur, layout.disks, false, i, disks)
             == DisksFrom(PartitionIndex, sr.value, layout.disks, false, 0, [])
    {
      var dr := ReadDisk(cur, layout.disks[i]);
      if dr.Err? {
        return Err(dr.error);
      }
      disks, cur := disks + [dr.value.0], dr.value.1;
      i := i + 1;
    }
    return Ok((layout.(disks := disks), cur));
  }

  /** The earlier readBackupFileLayout without opening the file: footer,
      header offset, JSON payload, the decoder's layout, then the block indexes
      with the earlier partition step. */
  function BackupFileLayout(data: seq<byte>, decode: seq<byte> -> Option<FileLayout>): Result<FileLayout>
  {
    var s :- LocateHeader(data);
    var jr :- JsonScan(s, []);
    match decode(jr.0)
    case None => Err(DecodeFailed)
    case Some(layout) =>
      var ir :- IndexWalk(PartitionIndex, jr.1, layout);
      Ok(ir.0)
  }

  /** The earlier readBackupFileLayout on an opened file's bytes. */
  method ReadBackupFileLayout(data: seq<byte>, decode: seq<byte> -> Option<FileLayout>) returns (r: Result<FileLayout>)
    ensures r == BackupFileLayout(data, decode)
  {
    var s := LocateHeader(data);
    if s.Err? {
      return Err(s.error);
    }
    var jr := ReadJSON(s.value);
    if jr.Err? {
      return Err(jr.error);
    }
    var decoded := decode(jr.value.0);
    if decoded.None? {
      return Err(DecodeFailed);
    }
    var ir := ReadDataBlockIndex(jr.value.1, decoded.value);
    if ir.Err? {
      return Err(ir.error);
    }
    return Ok(ir.value.0);
  }
}
