/** The earlier restore writer: one backup file and no chain.  Track 0 of the
    first disk, then for each of its partitions the reserved sectors and every
    block of the file's own index, the block of entry i at lcn0_offset +
    block_size * i. */
module LegacyRestore {
  import opened Bytes
  import opened Results
  import opened Layout
  import opened BackupSet
  import opened Restore

  /** The only file the earlier writer reads from, as the handle all its
      blocks come from. */
  function SourceHandle(path: string, src: seq<byte>): FileHandle {
    FileHandle(path, src, true)
  }

  /** The file's own block index as a block map: every entry comes from the
      single source file. */
  function SingleFileMap(blocks: seq<DataBlock>): (r: seq<MapEntry>)
    ensures |r| == |blocks| && FilesBelow(r, 1)
    ensures forall i :: 0 <= i < |r| ==> r[i] == MapEntry(blocks[i], 0)
  {
    if blocks == [] then [] else [MapEntry(blocks[0], 0)] + SingleFileMap(blocks[1..])
  }

  /** One partition: the same replay as the current writer's, with its
      reserved sectors and blocks all read from the single file and cluster 0
      taken to be lcn0_offset itself. */
  function PartitionSpec(path: string, src: seq<byte>, part: PartitionLayout, p: nat, t: Target): Result<Target>
  {
    Replay(src, [SourceHandle(path, src)], SingleFileMap(part.data_block_index),
           part.file_system.lcn0_offset, part, p, t)
  }

  /** The partition loop from partition p. */
  function LegacyPartitionLoop(path: string, src: seq<byte>, parts: seq<PartitionLayout>, p: nat, t: Target): Result<Target>
    decreases |parts| - p
  {
    if p >= |parts| then Ok(t)
    else
      var t1 :- PartitionSpec(path, src, parts[p], p, t);
      LegacyPartitionLoop(path, src, parts, p + 1, t1)
  }

  /** The earlier restoreDisk: open the backup file, then track 0 of disks[0]
      at offset 0 (its size taken as a uint32_t), then every partition of
      disks[0], all read from that one file. */
  function RestoreSpec(files: map<string, seq<byte>>, path: string, layout: FileLayout): Result<Target>
  {
    var h :- OpenHandle(files, path);
    if |layout.disks| == 0 then Err(UndefinedIndex)
    else
      var track0 := layout.disks[0].track0;
      var t := WriteAt(Target(0, []), track0[..|track0| % TWO_32], Track0);
      LegacyPartitionLoop(path, h.data, layout.disks[0].partitions, 0, t)
  }

  /** A backup file that cannot be opened fails the earlier restore before
      anything is written; otherwise no file but that one plays a part. */
  lemma RestoreNeedsFile(files: map<string, seq<byte>>, path: string, layout: FileLayout)
    ensures path !in files ==> RestoreSpec(files, path, layout) == Err(OpenFailed(path))
    ensures path in files ==> RestoreSpec(files, path, layout) == RestoreSpec(map[path := files[path]], path, layout)
  {
  }

  /** The earlier writer puts cluster 0 where the current one does exactly
      when the partition and its file system start at the same offset. */
  lemma Lcn0Agrees(g: PartitionGeometry, fs: FileSystem)
    ensures Lcn0Start(g, fs) == fs.lcn0_offset <==> g.start == fs.start
  {
    var x := fs.lcn0_offset - fs.start;
    var d := Wrap64(x);
    assert d == if x >= 0 then x else x + TWO_64;
    var y := g.start + d;
    assert Lcn0Start(g, fs) == if y < TWO_64 then y else y - TWO_64;
  }

  /** Where the partition and its file system start together, a partition of
      the earlier writer is the current writer's replay of a one-file chain. */
  lemma SingleFileReplay(path: string, src: seq<byte>, part: PartitionLayout, p: nat, t: Target)
    requires part.geometry.start == part.file_system.start
    ensures PartitionSpec(path, src, part, p, t)
         == ReplaySpec([SourceHandle(path, src)], SingleFileMap(part.data_block_index), part, p, t)
  {
    Lcn0Agrees(part.geometry, part.file_system);
  }

  /** The body of the earlier restoreDisk's partition loop. */
  method RestorePartition(disk: DiskImage, path: string, src: seq<byte>, part: PartitionLayout, p: nat)
    returns (r: Result<()>)
    modifies disk
    ensures r.Ok? <==> PartitionSpec(path, src, part, p, old(disk.State())).Ok?
    ensures r.Err? ==> r.error == PartitionSpec(path, src, part, p, old(disk.State())).error
    ensures r.Ok? ==> disk.State() == PartitionSpec(path, src, part, p, old(disk.State())).value
  {
    var s := disk.Seek(BootStart(part.geometry));
    if s.Err? {
      return Err(s.error);
    }
    var total := part.file_system.reserved_sectors_byte_length;
    if total > 0 {
      var w := WriteReservedSectors(disk, src, part.reserved_sectors, total, p);
      if w.Err? {
        return Err(w.error);
      }
    }
    r := WriteBlocks(disk, [SourceHandle(path, src)], SingleFileMap(part.data_block_index),
                     part.file_system.lcn0_offset, part.header.block_size, p);
  }

  /** The earlier restoreDisk into a freshly opened target. */
  method RestoreDisk(files: map<string, seq<byte>>, path: string, layout: FileLayout) returns (r: Result<()>, disk: DiskImage)
    ensures fresh(disk)
    ensures r.Ok? <==> RestoreSpec(files, path, layout).Ok?
    ensures r.Err? ==> r.error == RestoreSpec(files, path, layout).error
    ensures r.Ok? ==> disk.State() == RestoreSpec(files, path, layout).value
  {
    var backupFile := OpenHandle(files, path);
    disk := new DiskImage();
    if backupFile.Err? {
      return Err(backupFile.error), disk;
    }
    var src := backupFile.value.data;
    if |layout.disks| == 0 {
      return Err(UndefinedIndex), disk;
    }
    var track0 := layout.disks[0].track0;
    disk.Write(track0[..|track0| % TWO_32], Track0);
    var parts := layout.disks[0].partitions;
    ghost var t0 := disk.State();
    var p := 0;
    while p < |parts|
      invariant p <= |parts|
      invariant LegacyPartitionLoop(path, src, parts, p, disk.State()) == LegacyPartitionLoop(path, src, parts, 0, t0)
    {
      var w := RestorePartition(disk, path, src, parts[p], p);
      if w.Err? {
        return Err(w.error), disk;
      }
      p := p + 1;
    }
    return Ok(()), disk;
  }
}
