/** What the backup-file parser promises about byte layouts it is given: the
    footer, the metadata block scans, track 0 and the per-partition indexes. */
module ImgHandlerProps {
  import opened Bytes
  import opened Results
  import opened FileStream
  import opened Metadata
  import opened Layout
  import opened ImgHandler

  /** The 32 bytes at p of data hold the header h. */
  ghost predicate HeaderAt(data: seq<byte>, p: nat, h: MetadataBlockHeader) {
    p + HEADER_SIZE <= |data| && ParseHeader(data[p..p + HEADER_SIZE]) == h
  }

  /** A header written with EncodeHeader at p is found there again. */
  lemma EncodedHeaderAt(data: seq<byte>, p: nat, h: MetadataBlockHeader)
    requires h.WellFormed() && p + HEADER_SIZE <= |data| && data[p..p + HEADER_SIZE] == EncodeHeader(h)
    ensures HeaderAt(data, p, h)
  {
    ParseEncodeHeader(h);
  }

  /** Reading the header at p yields h and leaves the cursor right after it. */
  lemma ReadHeaderAt(data: seq<byte>, p: nat, h: MetadataBlockHeader)
    requires HeaderAt(data, p, h)
    ensures ReadHeader(Stream(data, p)) == Ok((h, Stream(data, p + HEADER_SIZE)))
  {
  }

  /** The footer is the last 20 bytes: an 8-byte little-endian header offset,
      then 12 magic bytes whose content is never compared. */
  lemma LocateHeaderFooter(body: seq<byte>, off: nat, magic: seq<byte>)
    requires off < TWO_63 && |magic| == MAGIC_BYTES_VX_SIZE
    ensures LocateHeader(body + ToLE(off, 8) + magic) == Ok(Stream(body + ToLE(off, 8) + magic, off))
  {
    var data := body + ToLE(off, 8) + magic;
    assert data[|data| - 20..|data| - 12] == ToLE(off, 8);
    Pow256Widths();
    FromToLE(off, 8);
  }

  /** A header offset of 2^63 or more does not fit a streamoff, so the seek fails. */
  lemma LocateHeaderTooFar(body: seq<byte>, off: nat, magic: seq<byte>)
    requires TWO_63 <= off < TWO_64 && |magic| == MAGIC_BYTES_VX_SIZE
    ensures LocateHeader(body + ToLE(off, 8) + magic) == Err(SeekFailed)
  {
    var data := body + ToLE(off, 8) + magic;
    assert data[|data| - 20..|data| - 12] == ToLE(off, 8);
    Pow256Widths();
    FromToLE(off, 8);
  }

  /** One pass of readJSON over a header encoded at p: a $JSON payload is
      captured when it fits, any other block is skipped with its header size. */
  lemma JsonStepAt(data: seq<byte>, p: nat, h: MetadataBlockHeader, json: seq<byte>)
    requires HeaderAt(data, p, h)
    ensures var q := p + HEADER_SIZE;
      JsonStep(Stream(data, p), json) ==
        if !HasTag(h, JSON_HEADER) then Ok((h, json, Stream(data, q + h.blockLength + HEADER_SIZE)))
        else if q + h.blockLength <= |data| then Ok((h, data[q..q + h.blockLength], Stream(data, q + h.blockLength)))
        else Err(ReadFailed)
  {
    var q := p + HEADER_SIZE;
    ReadHeaderAt(data, p, h);
    if HasTag(h, JSON_HEADER) && q + h.blockLength <= |data| {
      assert ReadMetadataBlock(Stream(data, q), h) == Ok((data[q..q + h.blockLength], Stream(data, q + h.blockLength)));
    }
  }

  /** A $JSON block with LastBlock set ends the scan with exactly its payload. */
  lemma JsonLastBlock(data: seq<byte>, p: nat, h: MetadataBlockHeader, json: seq<byte>)
    requires HeaderAt(data, p, h) && HasTag(h, JSON_HEADER) && LastBlock(h) != 0
    requires p + HEADER_SIZE + h.blockLength <= |data|
    ensures var q := p + HEADER_SIZE;
      JsonScan(Stream(data, p), json) == Ok((data[q..q + h.blockLength], Stream(data, q + h.blockLength)))
  {
    JsonStepAt(data, p, h, json);
  }

  /** A $JSON block without LastBlock replaces the captured payload and the scan
      goes on right after that payload. */
  lemma JsonCapture(data: seq<byte>, p: nat, h: MetadataBlockHeader, json: seq<byte>)
    requires HeaderAt(data, p, h) && HasTag(h, JSON_HEADER) && LastBlock(h) == 0
    requires p + HEADER_SIZE + h.blockLength <= |data|
    ensures var q := p + HEADER_SIZE;
      JsonScan(Stream(data, p), json) == JsonScan(Stream(data, q + h.blockLength), data[q..q + h.blockLength])
  {
    JsonStepAt(data, p, h, json);
  }

  /** Any other block moves the cursor BlockLength + 32 bytes past the end of its
      header and keeps the captured payload. */
  lemma JsonSkip(data: seq<byte>, p: nat, h: MetadataBlockHeader, json: seq<byte>)
    requires HeaderAt(data, p, h) && !HasTag(h, JSON_HEADER)
    ensures var next := Stream(data, p + HEADER_SIZE + h.blockLength + HEADER_SIZE);
      JsonScan(Stream(data, p), json) == if LastBlock(h) != 0 then Ok((json, next)) else JsonScan(next, json)
  {
    JsonStepAt(data, p, h, json);
  }

  /** Of two $JSON blocks, the payload of the later one is returned. */
  lemma LastJsonWins(data: seq<byte>, p: nat, h1: MetadataBlockHeader, h2: MetadataBlockHeader, json: seq<byte>)
    requires HeaderAt(data, p, h1) && HasTag(h1, JSON_HEADER) && LastBlock(h1) == 0
    requires HeaderAt(data, p + HEADER_SIZE + h1.blockLength, h2) && HasTag(h2, JSON_HEADER) && LastBlock(h2) != 0
    requires p + HEADER_SIZE + h1.blockLength + HEADER_SIZE + h2.blockLength <= |data|
    ensures var q := p + HEADER_SIZE + h1.blockLength + HEADER_SIZE;
      JsonScan(Stream(data, p), json) == Ok((data[q..q + h2.blockLength], Stream(data, q + h2.blockLength)))
  {
    var p2 := p + HEADER_SIZE + h1.blockLength;
    JsonLastBlock(data, p2, h2, data[p + HEADER_SIZE..p2]);
    JsonCapture(data, p, h1, json);
  }

  /** A header that runs past the end of the file is fatal. */
  lemma JsonHeaderTruncated(data: seq<byte>, p: nat, json: seq<byte>)
    requires |data| < p + HEADER_SIZE
    ensures JsonScan(Stream(data, p), json) == Err(ReadFailed)
  {
  }

  /** A $JSON payload that runs past the end of the file is fatal, not a
      shorter payload. */
  lemma JsonPayloadTruncated(data: seq<byte>, p: nat, h: MetadataBlockHeader, json: seq<byte>)
    requires HeaderAt(data, p, h) && HasTag(h, JSON_HEADER)
    requires |data| < p + HEADER_SIZE + h.blockLength
    ensures JsonScan(Stream(data, p), json) == Err(ReadFailed)
  {
    JsonStepAt(data, p, h, json);
  }

  /** One step of skipPartitionMetadata: only a $BITMAP payload is skipped. */
  lemma SkipStepAt(data: seq<byte>, p: nat, h: MetadataBlockHeader)
    requires HeaderAt(data, p, h)
    ensures SkipStep(Stream(data, p))
         == Ok((h, Stream(data, p + HEADER_SIZE + if HasTag(h, BITMAP_HEADER) then h.blockLength else 0)))
  {
    ReadHeaderAt(data, p, h);
  }

  /** A header with LastBlock set ends skipPartitionMetadata, one without it
      does not. */
  lemma SkipScanAt(data: seq<byte>, p: nat, h: MetadataBlockHeader)
    requires HeaderAt(data, p, h)
    ensures var next := Stream(data, p + HEADER_SIZE + if HasTag(h, BITMAP_HEADER) then h.blockLength else 0);
      SkipScan(Stream(data, p)) == if LastBlock(h) != 0 then Ok(next) else SkipScan(next)
  {
    SkipStepAt(data, p, h);
  }

  /** The partition metadata as written: a $BITMAP block, then a final $INDEX
      header whose payload is not skipped. */
  lemma SkipBitmapThenIndex(data: seq<byte>, p: nat, b: MetadataBlockHeader, x: MetadataBlockHeader)
    requires HeaderAt(data, p, b) && HasTag(b, BITMAP_HEADER) && LastBlock(b) == 0
    requires HeaderAt(data, p + HEADER_SIZE + b.blockLength, x) && HasTag(x, IDX_HEADER) && LastBlock(x) != 0
    ensures SkipScan(Stream(data, p)) == Ok(Stream(data, p + HEADER_SIZE + b.blockLength + HEADER_SIZE))
  {
    var p2 := p + HEADER_SIZE + b.blockLength;
    IndexIsNotBitmap(x);
    SkipScanAt(data, p2, x);
    SkipScanAt(data, p, b);
  }

  /** readDiskMetadata: a header other than $TRACK0 is fatal; otherwise track 0
      is exactly the BlockLength bytes after the header. */
  lemma DiskMetadataAt(data: seq<byte>, p: nat, h: MetadataBlockHeader, d: DiskLayout)
    requires HeaderAt(data, p, h)
    ensures !HasTag(h, TRACK_0) ==> DiskMetadata(Stream(data, p), d) == Err(MissingTrack0)
    ensures HasTag(h, TRACK_0) && p + HEADER_SIZE + h.blockLength <= |data| ==>
      var q := p + HEADER_SIZE;
      DiskMetadata(Stream(data, p), d) == Ok((d.(track0 := data[q..q + h.blockLength]), Stream(data, q + h.blockLength)))
  {
    ReadHeaderAt(data, p, h);
  }

  /** An indexed partition keeps its fields other than the indexes, and only the
      one index array the file's kind selects is replaced. */
  ghost predicate IndexedFrom(p: PartitionLayout, q: PartitionLayout, delta: bool) {
    && SameExceptIndexes(p, q)
    && (delta ==> q.data_block_index == p.data_block_index)
    && (!delta ==> q.delta_data_block_index == p.delta_data_block_index)
  }

  /** An indexed disk: same geometry, same number of partitions, each indexed
      from its original. */
  ghost predicate DiskIndexedFrom(d: DiskLayout, e: DiskLayout, delta: bool) {
    && e.geometry == d.geometry
    && |e.partitions| == |d.partitions|
    && forall k :: 0 <= k < |d.partitions| ==> IndexedFrom(d.partitions[k], e.partitions[k], delta)
  }

  /** A per-partition reader that keeps every partition's shape and the file. */
  ghost predicate KeepsShape(read: PartitionReader, delta: bool) {
    forall s: Stream, p: PartitionLayout {:trigger read(s, p, delta)} :: read(s, p, delta).Ok? ==>
      && IndexedFrom(p, read(s, p, delta).value.0, delta)
      && read(s, p, delta).value.1.data == s.data
  }

  lemma PartitionIndexKeepsShape(delta: bool)
    ensures KeepsShape(PartitionIndex, delta)
  {
    forall s: Stream, p: PartitionLayout | PartitionIndex(s, p, delta).Ok?
      ensures IndexedFrom(p, PartitionIndex(s, p, delta).value.0, delta)
    {
    }
  }

  /** Partitions i.. of a disk, each indexed from its original, after acc. */
  lemma {:induction false} PartitionsShape(read: PartitionReader, s: Stream, parts: seq<PartitionLayout>, delta: bool,
                                           i: nat, acc: seq<PartitionLayout>)
    requires KeepsShape(read, delta)
    requires i <= |parts| && |acc| == i
    requires forall k :: 0 <= k < i ==> IndexedFrom(parts[k], acc[k], delta)
    requires PartitionsFrom(read, s, parts, delta, i, acc).Ok?
    ensures var r := PartitionsFrom(read, s, parts, delta, i, acc).value;
      && |r.0| == |parts| && r.1.data == s.data
      && forall k :: 0 <= k < |parts| ==> IndexedFrom(parts[k], r.0[k], delta)
    decreases |parts| - i
  {
    if i < |parts| {
      var pr := read(s, parts[i], delta).value;
      PartitionsShape(read, pr.1, parts, delta, i + 1, acc + [pr.0]);
    }
  }

  /** One disk: track 0 and each partition's indexes, nothing else changed. */
  lemma DiskIndexShape(read: PartitionReader, s: Stream, d: DiskLayout, delta: bool)
    requires KeepsShape(read, delta)
    requires DiskIndex(read, s, d, delta).Ok?
    ensures DiskIndexedFrom(d, DiskIndex(read, s, d, delta).value.0, delta)
  {
    var dr := DiskMetadata(s, d).value;
    PartitionsShape(read, dr.1, d.partitions, delta, 0, []);
  }

  /** The disks already read stay in front, and one disk is added per disk of
      the layout, whatever the per-partition reader. */
  lemma {:induction false} DisksFromPrefix(read: PartitionReader, s: Stream, disks: seq<DiskLayout>, delta: bool,
                                           i: nat, acc: seq<DiskLayout>)
    requires i <= |disks|
    requires DisksFrom(read, s, disks, delta, i, acc).Ok?
    ensures var r := DisksFrom(read, s, disks, delta, i, acc).value.0;
      |r| == |acc| + |disks| - i && r[..|acc|] == acc
    decreases |disks| - i
  {
    if i < |disks| {
      var di := DiskIndex(read, s, disks[i], delta).value;
      DisksFromPrefix(read, di.1, disks, delta, i + 1, acc + [di.0]);
      var r := DisksFrom(read, s, disks, delta, i, acc).value.0;
      assert r[..|acc|] == r[..|acc| + 1][..|acc|];
    }
  }

  lemma {:induction false} DisksShape(read: PartitionReader, s: Stream, disks: seq<DiskLayout>, delta: bool,
                                      i: nat, acc: seq<DiskLayout>)
    requires KeepsShape(read, delta)
    requires i <= |disks| && |acc| == i
    requires forall k :: 0 <= k < i ==> DiskIndexedFrom(disks[k], acc[k], delta)
    requires DisksFrom(read, s, disks, delta, i, acc).Ok?
    ensures var r := DisksFrom(read, s, disks, delta, i, acc).value.0;
      && |r| == |disks|
      && forall k :: 0 <= k < |disks| ==> DiskIndexedFrom(disks[k], r[k], delta)
    decreases |disks| - i
  {
    if i < |disks| {
      var di := DiskIndex(read, s, disks[i], delta).value;
      DiskIndexShape(read, s, disks[i], delta);
      DisksShape(read, di.1, disks, delta, i + 1, acc + [di.0]);
    }
  }

  /** Reading the indexes keeps the layout's shape: same file header, same
      disks and partitions in the same order, only track 0 and the index arrays
      filled in. */
  lemma IndexWalkShape(s: Stream, layout: FileLayout)
    requires IndexWalk(PartitionIndex, s, layout).Ok?
    ensures var r := IndexWalk(PartitionIndex, s, layout).value.0;
      && r.header == layout.header
      && |r.disks| == |layout.disks|
      && forall k :: 0 <= k < |layout.disks| ==> DiskIndexedFrom(layout.disks[k], r.disks[k], layout.header.delta_index)
  {
    var s1 := SeekBeg(s, ToStreamOff(layout.header.index_file_position)).value;
    PartitionIndexKeepsShape(layout.header.delta_index);
    DisksShape(PartitionIndex, s1, layout.disks, layout.header.delta_index, 0, []);
  }

  /** The first disk of a walk is the first disk read. */
  lemma DisksFromFirst(read: PartitionReader, s: Stream, disks: seq<DiskLayout>, delta: bool)
    requires |disks| > 0 && DisksFrom(read, s, disks, delta, 0, []).Ok?
    ensures DiskIndex(read, s, disks[0], delta).Ok?
    ensures var r := DisksFrom(read, s, disks, delta, 0, []).value.0;
      |r| > 0 && r[0] == DiskIndex(read, s, disks[0], delta).value.0
  {
    var di := DiskIndex(read, s, disks[0], delta).value;
    assert [] + [di.0] == [di.0];
    DisksFromPrefix(read, di.1, disks, delta, 1, [di.0]);
  }

  /** Index reading starts at index_file_position: the first disk's track 0 is
      the payload of the $TRACK0 block found there. */
  lemma IndexWalkFirstDisk(read: PartitionReader, s: Stream, layout: FileLayout, h: MetadataBlockHeader)
    requires |layout.disks| > 0
    requires layout.header.index_file_position < TWO_63
    requires HeaderAt(s.data, layout.header.index_file_position, h)
    requires IndexWalk(read, s, layout).Ok?
    ensures var q := layout.header.index_file_position + HEADER_SIZE;
      var r := IndexWalk(read, s, layout).value.0;
      && HasTag(h, TRACK_0)
      && q + h.blockLength <= |s.data|
      && |r.disks| > 0 && r.disks[0].track0 == s.data[q..q + h.blockLength]
  {
    var ifp := layout.header.index_file_position;
    var s1 := Stream(s.data, ifp);
    assert SeekBeg(s, ToStreamOff(ifp)) == Ok(s1);
    DisksFromFirst(read, s1, layout.disks, layout.header.delta_index);
    ReadHeaderAt(s.data, ifp, h);
  }

  /** A file too short to hold the footer is rejected before anything is decoded. */
  lemma BackupFileLayoutShort(data: seq<byte>, decode: seq<byte> -> Option<FileLayout>)
    requires |data| < 20
    ensures BackupFileLayout(data, decode) == Err(SeekFailed)
  {
  }

  /** A successful readBackupFileLayout returns the decoded layout with its
      shape intact. */
  lemma BackupFileLayoutShape(data: seq<byte>, decode: seq<byte> -> Option<FileLayout>)
    requires BackupFileLayout(data, decode).Ok?
    ensures LocateHeader(data).Ok? && JsonScan(LocateHeader(data).value, []).Ok?
    ensures var json := JsonScan(LocateHeader(data).value, []).value.0;
      && decode(json).Some?
      && var r := BackupFileLayout(data, decode).value;
      && r.header == decode(json).value.header
      && |r.disks| == |decode(json).value.disks|
  {
    var s := LocateHeader(data).value;
    var jr := JsonScan(s, []).value;
    IndexWalkShape(jr.1, decode(jr.0).value);
  }
}
