# Macrium Reflect restore pipeline

This project models the part of the Macrium Reflect extraction tool that turns a chain of backup files into a raw disk image, and proves properties of that model. It has four parts:

- **The container parser** (`ImgHandler`, `Metadata`, `Layout`, `FileStream`, `Bytes`):
  - locates the 20-byte footer at the end of a backup file;
  - follows the header offset the footer holds;
  - walks the 32-byte tagged metadata block headers until one has `LastBlock` set, capturing the `$JSON` payload;
  - then, from `index_file_position` and disk by disk, reads each disk's `$TRACK0` block and each partition's reserved-sector index and data-block index. A partition's block index is full or incremental ("delta"), as the file's `delta_index` says.
- **The backup-chain resolver and block-map builder** (`BackupSet`):
  - `FindBackupFiles` sorts the target partition's `file_history` newest first;
  - it walks that history back to the first full backup, putting each visited path, and the visited file's matching partition layout if it has one, in front of the chain;
  - `FillInitialBlockFileMap` seeds the block map from the oldest layout;
  - `AddDeltaToBlockFileMap` overlays every later file's delta entries in order;
  - `CloseBackupFiles` closes the handles. `PartitionBackupSet` is a class whose four vectors the methods update.
- **The restore writer** (`Restore`):
  - `restoreDisk` writes track 0 at offset 0;
  - then, for every partition of `disks[0]`, it builds a backup set, writes the reserved sectors at the boot sector, read from the last backup file the set opened (`backupFilePtrs.back()`, the newest file only when every visited file has the partition), and writes every non-empty block-map entry `i` at `lcn0Start + block_size * i`.
  - The target image is a class `DiskImage` that records a log of writes: where each write went, what it wrote and which part of the restore it belongs to.
- **VHDX size rounding** (`Vhdx`): the two rounding steps at the top of `CreateVDisk`, in unsigned 64-bit arithmetic.

The repository also has an earlier draft of the parser and of the writer under `libs/`. They are modelled as secondary variants in `LegacyImgHandler` and `LegacyRestore`, which reuse the current model where the code is the same and prove how the two differ:

- the earlier parser ignores `delta_index` and skips the reserved-sector count unread;
- the earlier writer reads one file, and places cluster 0 at `lcn0_offset` alone.

Each parser function is a pure specification over a byte cursor (`Stream(data, pos)`). A read fails when fewer bytes remain than requested, which makes it fatal as `readFile` is. Each loop of the source is a method with a `while` loop, proved equal to that specification. The resolver and the writer are methods on classes, proved against state functions (`FindSpec`, `FillSpec`, `AddFrom`, `BuildSpec`, `ReservedFrom`, `BlocksFrom`, `ReplaySpec`, `RestoreSpec`). The properties the source promises are lemmas about those functions.

Three things the source does through I/O or foreign code are parameters:

- the JSON decoder, `decode: seq<byte> -> Option<FileLayout>`;
- `readBackupFileLayout` of another backup file, `readLayout: string -> Result<FileLayout>`;
- the set of files `openFile` can open, `files: map<string, seq<byte>>`.

Indexing a vector out of range is undefined behaviour in the source. The composite operations report it as `Err(UndefinedIndex)` at the point where the source would index out of range.

## Model

| member | source | states |
|---|---|---|
| Metadata.LayoutSizes | contrib/extract-to-img/libs/img_handler/metadata.h:15-46 | the magic string without its terminator is 12 bytes; a block header is 32 bytes, with the length at byte 8, the hash at 12, the flags at 28 and the padding at 29 |
| Metadata.FlagBits | contrib/extract-to-img/libs/img_handler/metadata.h:25-31 | LastBlock, Compression and Encryption are single bits and Unused is 5 bits; together, as bits 0, 1, 2 and 3-7, they are exactly the flags byte |
| Metadata.ParseHeader | contrib/extract-to-img/libs/img_handler/metadata.h:39-46 | 32 bytes are read as name, little-endian length, hash, flags and padding, and the result has the field widths 8/4/16/1/3 |
| Metadata.EncodeHeader | contrib/extract-to-img/libs/img_handler/metadata.h:39-46 | a well-formed header is laid out as name, 4-byte little-endian length, hash, flags byte and padding, 32 bytes in all; ParseEncodeHeader and EncodeParseHeader make it the inverse of ParseHeader |
| Metadata.ParseEncodeHeader | contrib/extract-to-img/libs/img_handler/metadata.h:39-46 | parsing an encoded header gives the header back |
| Metadata.EncodeParseHeader | contrib/extract-to-img/libs/img_handler/metadata.h:39-46 | encoding a parsed 32-byte header gives the bytes back, so the layout loses nothing |
| Metadata.TagsSpacePadded | contrib/extract-to-img/libs/img_handler/metadata.h:54-66 | each of the eight tags is its '$' name padded with spaces to exactly BLOCK_NAME_LENGTH = 8 characters |
| Metadata.TagsExclusive | contrib/extract-to-img/libs/img_handler/metadata.h:54-61 | the eight tags differ within their 8 bytes, so comparing 8 bytes matches a header against at most one tag |
| Metadata.IndexIsNotBitmap | contrib/extract-to-img/libs/img_handler/metadata.h:55-60 | a header tagged $INDEX is never taken for $BITMAP |
| Metadata.Pad | contrib/extract-to-img/libs/img_handler/metadata.h:54-66 | a padded name is 8 characters, starts with the name and is spaces after it |
| Bytes.I32 | contrib/extract-to-img/libs/img_handler/img_handler.cpp:156-157 | four little-endian bytes read as an int32_t: non-negative exactly when the top bit is clear, and otherwise the unsigned value minus 2^32 |
| Bytes.ToStreamOff | contrib/extract-to-img/libs/restore/restore.cpp:29 | a uint64_t taken as a std::streamoff is itself below 2^63 and negative from 2^63 on |
| Bytes.Wrap64 | contrib/extract-to-img/libs/restore/restore.cpp:84 | unsigned 64-bit arithmetic: a value in range is kept, one 2^64 above or below is brought back by 2^64 |
| Bytes.FromToLE | contrib/extract-to-img/libs/img_handler/metadata.h:42 | decoding the n-byte little-endian encoding of x < 256^n gives x |
| Bytes.ToFromLE | contrib/extract-to-img/libs/img_handler/metadata.h:42 | encoding the value of a little-endian byte string gives the string back |
| FileStream.Read | contrib/extract-to-img/libs/file_handler/file_handler.cpp:25-33 | a read of n bytes succeeds exactly when n is 0 or n bytes remain; it returns exactly those n bytes and moves the cursor past them |
| FileStream.Seek | contrib/extract-to-img/libs/file_handler/file_handler.cpp:46-54 | a seek succeeds exactly when the target is not negative, and then only the position changes |
| FileStream.SeekBeg | contrib/extract-to-img/libs/file_handler/file_handler.cpp:46-54 | a seek from the beginning succeeds exactly when the offset is not negative, and then only the position changes, to the offset |
| FileStream.SeekCur | contrib/extract-to-img/libs/file_handler/file_handler.cpp:46-54 | a seek from the current position succeeds exactly when position + offset is not negative, and moves there |
| FileStream.SeekEnd | contrib/extract-to-img/libs/file_handler/file_handler.cpp:46-54 | a seek from the end succeeds exactly when size + offset is not negative, and moves there |
| FileStream.Open | contrib/extract-to-img/libs/file_handler/file_handler.cpp:66-76 | an opened file's cursor is at 0 over its bytes |
| Layout.ParseEncodeDataBlock | contrib/extract-to-img/libs/img_handler/img_handler.cpp:162 | a DataBlockIndexElement (u64 file_position, u32 block_length) round-trips through its 12-byte encoding |
| Layout.ParseEncodeDeltaBlock | contrib/extract-to-img/libs/img_handler/img_handler.cpp:169 | a DeltaDataBlockIndexElement (u32 block_index, then a DataBlockIndexElement) round-trips through its 16-byte encoding |
| Layout.ParseDataBlock | contrib/extract-to-img/libs/img_handler/img_handler.cpp:162 | a DataBlockIndexElement read as a little-endian u64 file_position then a u32 block_length; ParseEncodeDataBlock makes it the inverse of EncodeDataBlock |
| Layout.ParseDeltaBlock | contrib/extract-to-img/libs/img_handler/img_handler.cpp:169 | a DeltaDataBlockIndexElement read as a little-endian u32 block_index then a DataBlockIndexElement; ParseEncodeDeltaBlock makes it the inverse of EncodeDeltaBlock |
| Layout.ParseDataBlocks | contrib/extract-to-img/libs/img_handler/img_handler.cpp:162 | one readFile of count elements gives one element per 12 bytes |
| Layout.ParseDataBlocksAt | contrib/extract-to-img/libs/img_handler/img_handler.cpp:162 | element k of the read is the element encoded at bytes 12k to 12k+12 |
| Layout.ParseDeltaBlocks | contrib/extract-to-img/libs/img_handler/img_handler.cpp:169 | one readFile of count delta elements gives one element per 16 bytes |
| Layout.ParseDeltaBlocksAt | contrib/extract-to-img/libs/img_handler/img_handler.cpp:169 | delta element k of the read is the one encoded at bytes 16k to 16k+16 |
| Layout.EncodeDataBlocks | contrib/extract-to-img/libs/img_handler/img_handler.cpp:162 | count encoded elements take count * 12 bytes |
| Layout.ParseEncodeDataBlocks | contrib/extract-to-img/libs/img_handler/img_handler.cpp:162 | reading encoded elements back gives the same elements |
| ImgHandler.CalculateFooterOffset | contrib/extract-to-img/libs/img_handler/img_handler.cpp:37-44 | the footer offset is -(12 + 8) = -20 from the end of the file |
| ImgHandler.ReadFooterData | contrib/extract-to-img/libs/img_handler/img_handler.cpp:26-30 | the footer read succeeds exactly when 20 bytes remain; it yields the 8-byte little-endian header offset and the 12 magic bytes after it |
| ImgHandler.LocateHeader | contrib/extract-to-img/libs/img_handler/img_handler.cpp:193-199 | a file under 20 bytes fails the seek; otherwise the cursor lands at the offset held in the last 20 bytes exactly when that offset is below 2^63, and the magic bytes play no part |
| ImgHandler.ReadHeader | contrib/extract-to-img/libs/img_handler/img_handler.cpp:98 | a header read succeeds exactly when 32 bytes remain, parses those 32 bytes and moves past them |
| ImgHandler.ReadMetadataBlock | contrib/extract-to-img/libs/img_handler/img_handler.cpp:53-58 | the payload read succeeds exactly when BlockLength is 0 or BlockLength bytes remain; it returns exactly those bytes and moves past them |
| ImgHandler.JsonStep | contrib/extract-to-img/libs/img_handler/img_handler.cpp:96-108 | one pass of readJSON needs a whole header and moves the cursor at least past it, within the same file |
| ImgHandler.JsonScan | contrib/extract-to-img/libs/img_handler/img_handler.cpp:96-111 | the scan ends at or past the end of the first header, within the same file |
| ImgHandler.ReadJSON | contrib/extract-to-img/libs/img_handler/img_handler.cpp:91-112 | the do/while loop computes JsonScan from an empty payload |
| ImgHandler.SkipStep | contrib/extract-to-img/libs/img_handler/img_handler.cpp:72-79 | one pass of skipPartitionMetadata needs a whole header and moves the cursor at least past it |
| ImgHandler.SkipScan | contrib/extract-to-img/libs/img_handler/img_handler.cpp:72-80 | the skip ends at or past the end of the first header, within the same file |
| ImgHandler.SkipPartitionMetadata | contrib/extract-to-img/libs/img_handler/img_handler.cpp:68-80 | the do/while loop computes SkipScan |
| ImgHandler.DiskMetadata | contrib/extract-to-img/libs/img_handler/img_handler.cpp:123-134 | a missing header is a read failure; a header not tagged $TRACK0 is MissingTrack0; otherwise it succeeds exactly when the payload fits, and then track0 is exactly the BlockLength bytes after the header and nothing else of the disk changes |
| ImgHandler.ReadCount | contrib/extract-to-img/libs/img_handler/img_handler.cpp:156-165 | an int32 count is the four bytes at the cursor, read as I32 |
| ImgHandler.ReadDataBlocks | contrib/extract-to-img/libs/img_handler/img_handler.cpp:161-173 | a negative count makes resize fail; otherwise it reads exactly count elements from count * 12 bytes, or fails when they do not fit |
| ImgHandler.ReadDeltaBlocks | contrib/extract-to-img/libs/img_handler/img_handler.cpp:168-169 | a negative count makes resize fail; otherwise it reads exactly count delta elements from count * 16 bytes, or fails when they do not fit |
| ImgHandler.ReservedIndex | contrib/extract-to-img/libs/img_handler/img_handler.cpp:156-163 | it reads an int32 count; a zero count leaves reserved_sectors as it was, and a positive one replaces it with exactly that many elements read after the count |
| ImgHandler.DeltaIndex | contrib/extract-to-img/libs/img_handler/img_handler.cpp:165-170 | for an incremental file, exactly count delta elements replace delta_data_block_index and nothing else of the partition changes |
| ImgHandler.FullIndex | contrib/extract-to-img/libs/img_handler/img_handler.cpp:165-174 | for a full file, exactly count elements replace data_block_index and nothing else of the partition changes |
| ImgHandler.PartitionIndex | contrib/extract-to-img/libs/img_handler/img_handler.cpp:153-175 | a partition step keeps the file system, geometry and header, and fills only the one block index the file's kind selects |
| ImgHandler.ReadPartitionIndex | contrib/extract-to-img/libs/img_handler/img_handler.cpp:154-174 | the sequence of reads computes PartitionIndex |
| ImgHandler.PartitionsFrom | contrib/extract-to-img/libs/img_handler/img_handler.cpp:153-175 | a successful partition loop yields one partition per partition of the disk |
| ImgHandler.ReadDiskPartitions | contrib/extract-to-img/libs/img_handler/img_handler.cpp:153-175 | the partition loop computes PartitionsFrom in layout order |
| ImgHandler.DiskIndex | contrib/extract-to-img/libs/img_handler/img_handler.cpp:150-176 | one disk: its $TRACK0 block, then its partitions' indexes in layout order; DiskIndexShape states what is kept and what is filled in |
| ImgHandler.DisksFrom | contrib/extract-to-img/libs/img_handler/img_handler.cpp:150-176 | the disk loop from disk i, each disk read where the previous one ended; DisksFromPrefix, DisksShape and DisksFromFirst state its result |
| ImgHandler.IndexWalk | contrib/extract-to-img/libs/img_handler/img_handler.cpp:145-177 | readDataBlockIndex: seek to index_file_position, then the disk loop over the layout's disks; IndexWalkShape and IndexWalkFirstDisk state its result |
| ImgHandler.ReadDisk | contrib/extract-to-img/libs/img_handler/img_handler.cpp:150-176 | a disk's track 0, then its partitions, compute DiskIndex |
| ImgHandler.ReadDataBlockIndex | contrib/extract-to-img/libs/img_handler/img_handler.cpp:145-177 | seeking to index_file_position, then the disk loop, computes IndexWalk |
| ImgHandler.ReadBackupFileLayout | contrib/extract-to-img/libs/img_handler/img_handler.cpp:189-208 | footer, header seek, JSON scan, decode and index walk compute BackupFileLayout |
| ImgHandler.BackupFileLayout | contrib/extract-to-img/libs/img_handler/img_handler.cpp:189-208 | readBackupFileLayout on a file's bytes: footer, header seek, JSON scan, the decoder's layout, then the index walk; BackupFileLayoutShort and BackupFileLayoutShape state its result |
| ImgHandlerProps.EncodedHeaderAt | contrib/extract-to-img/libs/img_handler/metadata.h:39-46 | a header encoded at p is found at p |
| ImgHandlerProps.ReadHeaderAt | contrib/extract-to-img/libs/img_handler/img_handler.cpp:98 | reading the header at p gives it and leaves the cursor 32 bytes on |
| ImgHandlerProps.LocateHeaderFooter | contrib/extract-to-img/libs/img_handler/img_handler.cpp:193-199 | a file ending in an 8-byte offset below 2^63 and any 12 magic bytes is read from that offset, whatever the magic bytes are |
| ImgHandlerProps.LocateHeaderTooFar | contrib/extract-to-img/libs/img_handler/img_handler.cpp:193-199 | a header offset of 2^63 or more makes the seek fail |
| ImgHandlerProps.JsonStepAt | contrib/extract-to-img/libs/img_handler/img_handler.cpp:96-108 | one pass over a header at p: a $JSON payload is captured, and any other block moves the cursor BlockLength + 32 past the end of the header |
| ImgHandlerProps.JsonLastBlock | contrib/extract-to-img/libs/img_handler/img_handler.cpp:96-111 | a single $JSON block with LastBlock set yields exactly its BlockLength-byte payload after one pass |
| ImgHandlerProps.JsonCapture | contrib/extract-to-img/libs/img_handler/img_handler.cpp:100-110 | a $JSON block without LastBlock replaces the captured payload, and the scan goes on right after that payload |
| ImgHandlerProps.JsonSkip | contrib/extract-to-img/libs/img_handler/img_handler.cpp:105-110 | any other block keeps the payload and moves BlockLength + 32 past the end of its header, and the scan stops there when LastBlock is set |
| ImgHandlerProps.LastJsonWins | contrib/extract-to-img/libs/img_handler/img_handler.cpp:100-104 | of two $JSON blocks the later one's payload is returned |
| ImgHandlerProps.JsonHeaderTruncated | contrib/extract-to-img/libs/img_handler/img_handler.cpp:98 | a header running past the end of the file is fatal |
| ImgHandlerProps.JsonPayloadTruncated | contrib/extract-to-img/libs/img_handler/img_handler.cpp:102 | a $JSON payload running past the end of the file is fatal, not a shorter payload |
| ImgHandlerProps.SkipStepAt | contrib/extract-to-img/libs/img_handler/img_handler.cpp:73-77 | one pass skips the payload only of a $BITMAP block; after any other block the cursor is right after its header |
| ImgHandlerProps.SkipScanAt | contrib/extract-to-img/libs/img_handler/img_handler.cpp:72-79 | the skip stops after a header with LastBlock set and goes on after one without |
| ImgHandlerProps.SkipBitmapThenIndex | contrib/extract-to-img/libs/img_handler/img_handler.cpp:68-80 | a $BITMAP block followed by a last $INDEX header leaves the cursor right after the $INDEX header, its payload not skipped |
| ImgHandlerProps.DiskMetadataAt | contrib/extract-to-img/libs/img_handler/img_handler.cpp:123-134 | a header other than $TRACK0 is fatal; otherwise track0 is exactly the bytes after the header |
| ImgHandlerProps.PartitionIndexKeepsShape | contrib/extract-to-img/libs/img_handler/img_handler.cpp:153-175 | every partition step keeps the partition's other fields and its file |
| ImgHandlerProps.PartitionsShape | contrib/extract-to-img/libs/img_handler/img_handler.cpp:153-175 | the partition loop yields, position by position, each partition with only its indexes filled |
| ImgHandlerProps.DiskIndexShape | contrib/extract-to-img/libs/img_handler/img_handler.cpp:150-176 | a read disk keeps its geometry and its number of partitions, each indexed from its original |
| ImgHandlerProps.DisksFromPrefix | contrib/extract-to-img/libs/img_handler/img_handler.cpp:150-151 | the disks already read stay in front, and one disk is added per disk of the layout |
| ImgHandlerProps.DisksShape | contrib/extract-to-img/libs/img_handler/img_handler.cpp:150-176 | the disk loop yields, position by position, each disk indexed from its original |
| ImgHandlerProps.IndexWalkShape | contrib/extract-to-img/libs/img_handler/img_handler.cpp:145-177 | index reading keeps the file header and the disk and partition structure, filling only the indexes |
| ImgHandlerProps.DisksFromFirst | contrib/extract-to-img/libs/img_handler/img_handler.cpp:150-151 | the first disk of the loop is the first disk read |
| ImgHandlerProps.IndexWalkFirstDisk | contrib/extract-to-img/libs/img_handler/img_handler.cpp:147-151 | index reading starts at index_file_position: the header there is $TRACK0 and the first disk's track 0 is its payload |
| ImgHandlerProps.BackupFileLayoutShort | contrib/extract-to-img/libs/img_handler/img_handler.cpp:193 | a file too short for the footer fails before anything is decoded |
| ImgHandlerProps.BackupFileLayoutShape | contrib/extract-to-img/libs/img_handler/img_handler.cpp:199-206 | a successful read returns the decoded layout of the JSON payload, with its header and its number of disks kept |
| BackupSet.InsertDesc | contrib/extract-to-img/libs/restore/backup_set.cpp:22-41 | inserting into a newest-first history keeps it newest-first and adds exactly the new entry |
| BackupSet.SortByDescFileNumber | contrib/extract-to-img/libs/restore/backup_set.cpp:22-25 | the comparator: true exactly when the first entry's file_number is greater; SortedDesc and SortedHistory order by it |
| BackupSet.SortedHistory | contrib/extract-to-img/libs/restore/backup_set.cpp:22-41 | the sorted history is ordered by non-increasing file_number and is a permutation of the original |
| BackupSet.FirstMatch | contrib/extract-to-img/libs/restore/backup_set.cpp:48-53 | the partition found is the first with the target's partition_number, and there is none exactly when no partition has it |
| BackupSet.PartitionBackupSet.MatchingPartition | contrib/extract-to-img/libs/restore/backup_set.cpp:48-53 | the loop with its break computes FirstMatch |
| BackupSet.VisitFile | contrib/extract-to-img/libs/restore/backup_set.cpp:46-55 | a visit fails when the layout cannot be read or has no disks[diskIndex]; otherwise it reports whether the file is a full backup and its first matching partition |
| BackupSet.ChainFrom | contrib/extract-to-img/libs/restore/backup_set.cpp:43-56 | the history loop from entry i: each visited file's path, and its matching partition when it has one, put in front, stopping after the first full backup; ChainOk, ChainPaths, ChainLayouts, ChainSuffixes, ChainStopsAtFull and ChainAligned state its result |
| BackupSet.ChainEnd | contrib/extract-to-img/libs/restore/backup_set.cpp:43-56 | the loop from entry i visits at least that entry and ends inside the history |
| BackupSet.Names | contrib/extract-to-img/libs/restore/backup_set.cpp:44 | the file names of the history entries, position by position |
| BackupSet.Reversed | contrib/extract-to-img/libs/restore/backup_set.cpp:44 | putting names in front one by one reverses their order |
| BackupSet.ChainOk | contrib/extract-to-img/libs/restore/backup_set.cpp:43-56 | the loop succeeds exactly when every entry it visits can be read and has the disk |
| BackupSet.ChainPaths | contrib/extract-to-img/libs/restore/backup_set.cpp:44 | filePaths ends up oldest to newest: one name per visited entry, in reverse visiting order |
| BackupSet.Matched | contrib/extract-to-img/libs/restore/backup_set.cpp:46-53 | the first matching partition of each entry whose visit succeeds and finds one, in history order, and nothing for the others; at most one per entry |
| BackupSet.ChainLayouts | contrib/extract-to-img/libs/restore/backup_set.cpp:46-53 | partitionLayouts ends up oldest to newest: the visited files' first matching partitions in reverse visiting order, in front of the old layouts, a visited file without the partition adding nothing |
| BackupSet.ChainSuffixes | contrib/extract-to-img/libs/restore/backup_set.cpp:44-50 | the loop only puts entries in front, and adds no more layouts than paths |
| BackupSet.ChainStopsAtFull | contrib/extract-to-img/libs/restore/backup_set.cpp:55 | no entry older than the first full backup is visited: dropping them changes nothing |
| BackupSet.ChainEndPrefix | contrib/extract-to-img/libs/restore/backup_set.cpp:43-56 | cutting the history at or after the loop's end does not move the end |
| BackupSet.ChainAligned | contrib/extract-to-img/libs/restore/backup_set.cpp:44-53 | when every visited file has the partition, the layouts line up with the paths, each layout the matching partition of the file at the same position |
| BackupSet.InitialMap | contrib/extract-to-img/libs/restore/backup_set.cpp:71-76 | one map entry per element of the full index, entry k holding element k and the given file |
| BackupSet.Overlay | contrib/extract-to-img/libs/restore/backup_set.cpp:92-95 | overlaying deltas keeps the map's length |
| BackupSet.LastDelta | contrib/extract-to-img/libs/restore/backup_set.cpp:92-95 | the last delta naming an entry, or none exactly when no delta names it |
| BackupSet.OverlayAt | contrib/extract-to-img/libs/restore/backup_set.cpp:92-95 | after one file's deltas, an entry holds the last delta naming it with that file, and an unnamed entry is unchanged |
| BackupSet.DeltaLists | contrib/extract-to-img/libs/restore/backup_set.cpp:92 | the delta index of each layout, in order |
| BackupSet.ApplyDeltas | contrib/extract-to-img/libs/restore/backup_set.cpp:89-96 | applying every file's deltas keeps the map's length |
| BackupSet.ApplyDeltasAt | contrib/extract-to-img/libs/restore/backup_set.cpp:89-96 | later files win: an entry holds the newest delta naming it, and otherwise its initial block and file |
| BackupSet.NewestNone | contrib/extract-to-img/libs/restore/backup_set.cpp:89-96 | an entry no delta names has no newest delta |
| BackupSet.NewestFile | contrib/extract-to-img/libs/restore/backup_set.cpp:89-91 | a newest delta comes from one of the overlaid files |
| BackupSet.ApplyDeltasFiles | contrib/extract-to-img/libs/restore/backup_set.cpp:89-96 | after the overlay, every entry refers to an opened file |
| BackupSet.OverlayExample | contrib/extract-to-img/libs/restore/backup_set.cpp:71-95 | a full backup [A0..A4] and one delta {2: B} give [A0, A1, B, A3, A4] |
| BackupSet.OpenHandle | contrib/extract-to-img/libs/file_handler/file_handler.cpp:66-76 | opening a missing file fails with its path; otherwise the handle is open on that file's bytes |
| BackupSet.AddFromOk | contrib/extract-to-img/libs/restore/backup_set.cpp:89-96 | AddDeltaToBlockFileMap succeeds exactly when every later layout has a path that opens and deltas that name existing entries |
| BackupSet.AddFromValue | contrib/extract-to-img/libs/restore/backup_set.cpp:89-96 | paths and layouts are unchanged, one open handle is added per later layout on the path at its position, and the map is the ordered overlay of their deltas |
| BackupSet.PartitionBackupSet.constructor | contrib/extract-to-img/libs/restore/backup_set.h:49-55 | a new backup set has four empty vectors |
| BackupSet.FindSpec | contrib/extract-to-img/libs/restore/backup_set.cpp:38-57 | FindBackupFiles on the set's state: the chain loop over the sorted history, replacing filePaths and partitionLayouts and nothing else |
| BackupSet.FillSpec | contrib/extract-to-img/libs/restore/backup_set.cpp:67-77 | FillInitialBlockFileMap on the set's state: UndefinedIndex without a path or a layout, the path's open error, or one more handle and the initial map of the oldest layout |
| BackupSet.AddFrom | contrib/extract-to-img/libs/restore/backup_set.cpp:87-97 | AddDeltaToBlockFileMap from layout i: one handle opened per later layout, its deltas overlaid in order; AddFromOk and AddFromValue state its result |
| BackupSet.BuildSpec | contrib/extract-to-img/libs/restore/backup_set.cpp:123-128 | BuildPartitionBackupSet: FindSpec, FillSpec, then AddFrom from 1; BuildOk, BuildHandles and BuildBlockMap state its result |
| BackupSet.PartitionBackupSet.FindBackupFiles | contrib/extract-to-img/libs/restore/backup_set.cpp:38-57 | returns the history sorted newest first, and leaves the set as FindSpec says, or fails with its error |
| BackupSet.PartitionBackupSet.FillInitialBlockFileMap | contrib/extract-to-img/libs/restore/backup_set.cpp:67-77 | adds the handle of filePaths[0] and one entry per element of the oldest layout's full index, as FillSpec says |
| BackupSet.PartitionBackupSet.AddDeltaToBlockFileMap | contrib/extract-to-img/libs/restore/backup_set.cpp:87-97 | leaves the set as AddFrom says from layout 1, or fails with its error |
| BackupSet.PartitionBackupSet.CloseBackupFiles | contrib/extract-to-img/libs/restore/backup_set.cpp:104-109 | every handle is closed, none is dropped, and nothing else changes |
| BackupSet.PartitionBackupSet.BuildPartitionBackupSet | contrib/extract-to-img/libs/restore/backup_set.cpp:123-128 | the three steps in turn, as BuildSpec says |
| BackupSet.BuildOk | contrib/extract-to-img/libs/restore/backup_set.cpp:123-128 | building succeeds exactly when the chain is found, its oldest file opens and has the partition, and every later layout can be added |
| BackupSet.AddHandles | contrib/extract-to-img/libs/restore/backup_set.cpp:69-91 | starting from one handle on the first path, there is one handle per layout, each on the path at the same position |
| BackupSet.AddFiles | contrib/extract-to-img/libs/restore/backup_set.cpp:89-96 | the overlay keeps the map's length, and every entry refers to one of the handles |
| BackupSet.BuildHandles | contrib/extract-to-img/libs/restore/backup_set.cpp:67-97 | after a build there is exactly one open handle per partition layout, in chain order; the map has one entry per element of the oldest full index, each referring to a handle |
| BackupSet.BuildBlockMap | contrib/extract-to-img/libs/restore/backup_set.cpp:67-97 | after a build, block b comes from the newest file whose deltas name it, or from the full backup when none do |
| Restore.ReadDataBlock | contrib/extract-to-img/libs/restore/restore.cpp:26-32 | seeks to file_position, failing from 2^63 on, and returns exactly the block_length bytes there, or fails when they do not fit |
| Restore.SeekTo | contrib/extract-to-img/libs/file_handler/file_handler.cpp:46-54 | a target seek fails exactly on a negative offset and otherwise only moves the position |
| Restore.DiskImage.constructor | contrib/extract-to-img/libs/restore/restore.cpp:51 | the opened target is at position 0 with nothing written |
| Restore.DiskImage.Seek | contrib/extract-to-img/libs/file_handler/file_handler.cpp:46-54 | the seek on the target image, as SeekTo says |
| Restore.DiskImage.Write | contrib/extract-to-img/libs/file_handler/file_handler.cpp:109-118 | a write logs its bytes at the position and moves the position past them |
| Restore.ReservedOk | contrib/extract-to-img/libs/restore/restore.cpp:72-78 | the reserved-sector loop succeeds exactly when every reserved block can be read |
| Restore.ReservedPrefix | contrib/extract-to-img/libs/restore/restore.cpp:72-78 | the loop appends one write per reserved block, keeps earlier writes and advances by the bytes written |
| Restore.ReservedWriteAt | contrib/extract-to-img/libs/restore/restore.cpp:72-78 | each reserved write is block k's first min(block_length, total) bytes, right after the writes before it |
| Restore.ReservedFrom | contrib/extract-to-img/libs/restore/restore.cpp:72-78 | the reserved-sector loop from block k as written: each block read from the given file and its first min(block_length, total) bytes written; ReservedOk, ReservedPrefix, ReservedWriteAt and ReservedLog state its result |
| Restore.ReservedLog | contrib/extract-to-img/libs/restore/restore.cpp:68-78 | the reserved writes are contiguous: one per block, in order, each min(block_length, total) bytes of its block |
| Restore.ReservedOverrun | contrib/extract-to-img/libs/restore/restore.cpp:70-76 | as written, 600 reserved bytes in two 512-byte blocks are written as 1024 bytes |
| Restore.ReservedIntendedBound | contrib/extract-to-img/libs/restore/restore.cpp:69-77 | with bytesWritten increased by every write, the loop writes min(total, sum of block lengths) bytes and never more than total |
| Restore.ReservedIntendedFrom | contrib/extract-to-img/libs/restore/restore.cpp:69-77 | the reserved-sector loop with bytesWritten increased by every write, so that each write is bounded by total - bytesWritten |
| Restore.ReservedIntendedExample | contrib/extract-to-img/libs/restore/restore.cpp:69-77 | with bytesWritten increased, 600 reserved bytes in two 512-byte blocks are written as 512 + 88 = 600 bytes |
| Restore.BlockOffsetExample | contrib/extract-to-img/libs/restore/restore.cpp:84-91 | start 1048576, lcn0_offset 1050624, fs.start 1048576 and block_size 4096 put entry 3 at 1048576 + 2048 + 12288 = 1062912 |
| Restore.Lcn0Start | contrib/extract-to-img/libs/restore/restore.cpp:84 | lcn0Start in unsigned 64-bit arithmetic; where start + (lcn0_offset - fs.start) lies in 0..2^64 it is that value, even when cluster 0 lies before the file system's start |
| Restore.BlockOffset | contrib/extract-to-img/libs/restore/restore.cpp:91 | the streamoff of entry i; below 2^63 it is lcn0Start + block_size * i, and a non-negative offset agrees with that sum modulo 2^64 |
| Restore.BlockOffsetFormula | contrib/extract-to-img/libs/restore/restore.cpp:84-91 | without wrap-around, entry i goes to geometry.start + (lcn0_offset - fs.start) + block_size * i |
| Restore.BootStart | contrib/extract-to-img/libs/restore/restore.cpp:65 | the boot sector's streamoff; below 2^63 it is geometry.start + boot_sector_offset |
| Restore.NonSparseNonEmpty | contrib/extract-to-img/libs/restore/restore.cpp:89 | the entries written are map entries with a non-empty block |
| Restore.NonSparseAscending | contrib/extract-to-img/libs/restore/restore.cpp:85-96 | the entries written are in strictly ascending index order |
| Restore.NonSparseComplete | contrib/extract-to-img/libs/restore/restore.cpp:85-96 | every entry with a non-empty block is written |
| Restore.NonSparseEntries | contrib/extract-to-img/libs/restore/restore.cpp:85-96 | the entries written are exactly the non-empty ones, in ascending order |
| Restore.BlocksOk | contrib/extract-to-img/libs/restore/restore.cpp:85-96 | the block loop succeeds exactly when every block, empty ones included, can be read, and every non-empty one has a non-negative offset |
| Restore.BlocksPrefix | contrib/extract-to-img/libs/restore/restore.cpp:85-96 | the block loop appends one write per non-empty entry and keeps earlier writes |
| Restore.BlocksFirstWrite | contrib/extract-to-img/libs/restore/restore.cpp:87-93 | the first write from a non-empty entry is that entry's block, at its offset |
| Restore.BlocksWriteAt | contrib/extract-to-img/libs/restore/restore.cpp:85-96 | the k-th block write is that of the k-th non-empty entry: all of its block_length bytes from its own file, at lcn0Start + block_size * i |
| Restore.BlocksLog | contrib/extract-to-img/libs/restore/restore.cpp:84-96 | the block writes are exactly the non-empty entries in ascending order, each at its own offset with its own block's bytes; zero-length entries still advance the index |
| Restore.BlocksFrom | contrib/extract-to-img/libs/restore/restore.cpp:85-96 | the block loop from entry i: every entry's block read from its own file, a non-empty one written at BlockOffset(lcn0Start, block_size, i); BlocksOk, BlocksPrefix, BlocksWriteAt and BlocksLog state its result |
| Restore.ReservedPhasePrefix | contrib/extract-to-img/libs/restore/restore.cpp:65-80 | the first phase writes one block per reserved block when and only when reserved_sectors_byte_length > 0 |
| Restore.ReservedPhaseAt | contrib/extract-to-img/libs/restore/restore.cpp:65-78 | the reserved writes start at geometry.start + boot_sector_offset |
| Restore.ReservedPhaseLog | contrib/extract-to-img/libs/restore/restore.cpp:65-80 | the reserved writes are contiguous from the boot sector and made only when reserved_sectors_byte_length > 0 |
| Restore.ReservedPhase | contrib/extract-to-img/libs/restore/restore.cpp:65-80 | seek to BootStart, then the reserved-sector loop only when reserved_sectors_byte_length > 0; ReservedPhasePrefix, ReservedPhaseAt and ReservedPhaseLog state its result |
| Restore.Replay | contrib/extract-to-img/libs/restore/restore.cpp:65-96 | a partition's replay with the reserved sectors read from a given file and cluster 0 at a given lcn0Start; ReplayLog and ReplayGrows state its result |
| Restore.ReplaySpec | contrib/extract-to-img/libs/restore/restore.cpp:65-96 | the current writer's replay: the reserved sectors read from the last handle (backupFilePtrs.back()), the blocks at Lcn0Start of the partition |
| Restore.PartitionStep | contrib/extract-to-img/libs/restore/restore.cpp:61-97 | one partition of restoreDisk: a backup set built from an empty one, the build's error when it fails, otherwise ReplaySpec over its handles and map |
| Restore.PartitionLoop | contrib/extract-to-img/libs/restore/restore.cpp:59-98 | the partition loop from partition p, stopping at the first failing partition; PartitionsGrow states that it only appends |
| Restore.RestoreSpec | contrib/extract-to-img/libs/restore/restore.cpp:50-101 | restoreDisk: UndefinedIndex without disks[diskIndex], else track 0 of disks[diskIndex] at 0 and the partition loop over disks[0]; RestoreTrack0 states its first write |
| Restore.ReplayLog | contrib/extract-to-img/libs/restore/restore.cpp:65-96 | a partition's writes are its reserved writes, then one write per non-empty map entry, in ascending order |
| Restore.ReplayGrows | contrib/extract-to-img/libs/restore/restore.cpp:65-96 | replaying a partition only adds writes |
| Restore.PartitionsGrow | contrib/extract-to-img/libs/restore/restore.cpp:59-98 | the partition loop only adds writes |
| Restore.RestoreTrack0 | contrib/extract-to-img/libs/restore/restore.cpp:53-56 | the first write of a restore is track 0 of disks[diskIndex], its size as a uint32_t, at offset 0 |
| Restore.WriteReservedSectors | contrib/extract-to-img/libs/restore/restore.cpp:69-78 | the reserved-sector loop computes ReservedFrom |
| Restore.WriteBlocks | contrib/extract-to-img/libs/restore/restore.cpp:83-96 | the block loop with its blockIndex counter computes BlocksFrom |
| Restore.ReplayPartition | contrib/extract-to-img/libs/restore/restore.cpp:65-96 | seek, reserved sectors from backupFilePtrs.back(), then blocks at Lcn0Start compute ReplaySpec |
| Restore.RestorePartition | contrib/extract-to-img/libs/restore/restore.cpp:61-97 | a fresh backup set built and replayed computes PartitionStep; on success the returned set holds the build's handles, each closed |
| Restore.RestoreDisk | contrib/extract-to-img/libs/restore/restore.cpp:50-101 | track 0 of disks[diskIndex], then every partition of disks[0] whatever diskIndex is, computes RestoreSpec |
| Vhdx.SectorRounded | contrib/extract-to-img/libs/vhdx_handler/vhdx_handler.cpp:46-48 | a whole number of sectors is kept; otherwise, without wrap-around, the size becomes the next multiple of sectorSize |
| Vhdx.BlockRounded | contrib/extract-to-img/libs/vhdx_handler/vhdx_handler.cpp:50-53 | a whole number of blocks is kept; otherwise, without wrap-around, the size becomes (size / 65536 + 2) * 65536, strictly between 65536 and 131072 bytes above it |
| Vhdx.RoundVDiskSize | contrib/extract-to-img/libs/vhdx_handler/vhdx_handler.cpp:46-53 | the two steps in order; without wrap-around the result is a multiple of 65536 and at least the size, and also a multiple of the sector size when that divides 65536; a size that is a multiple of both is unchanged |
| Vhdx.RoundedBounds | contrib/extract-to-img/libs/vhdx_handler/vhdx_handler.cpp:46-53 | without wrap-around the result is a multiple of 65536, at least the size and less than sectorSize + 131072 above it; a multiple of both is kept |
| Vhdx.RoundedSectorMultiple | contrib/extract-to-img/libs/vhdx_handler/vhdx_handler.cpp:36-53 | when the sector size divides 65536 and nothing wraps, the rounded size is a multiple of the sector size as well as of the block size |
| Vhdx.RoundedNotSectorMultiple | contrib/extract-to-img/libs/vhdx_handler/vhdx_handler.cpp:36-53 | 1040 bytes with 520-byte sectors become 131072, which leaves 32 over a multiple of 520 |
| Vhdx.RoundedExample | contrib/extract-to-img/libs/vhdx_handler/vhdx_handler.cpp:46-53 | 65537 bytes with 512-byte sectors become 196608, three blocks |
| Vhdx.RoundedWraps | contrib/extract-to-img/libs/vhdx_handler/vhdx_handler.cpp:46-48 | the largest size wraps to 0 in 64 bits |
| LegacyImgHandler.PartitionIndex | libs/img_handler/img_handler.cpp:102-109 | the earlier partition step skips the metadata, seeks 4 bytes past the reserved count, then reads the full index; only data_block_index changes |
| LegacyImgHandler.IgnoresDelta | libs/img_handler/img_handler.cpp:102-109 | the earlier step reads a full index whatever delta_index says |
| LegacyImgHandler.AgreesWithoutReserved | libs/img_handler/img_handler.cpp:105-109 | where the reserved count is zero or missing, the current full-file step reads what the earlier one reads |
| LegacyImgHandler.ReadPartitionIndex | libs/img_handler/img_handler.cpp:103-109 | the earlier sequence of reads computes its PartitionIndex |
| LegacyImgHandler.ReadDisk | libs/img_handler/img_handler.cpp:99-112 | the earlier disk loop body computes DiskIndex with the earlier step |
| LegacyImgHandler.DisksIgnoreDelta | libs/img_handler/img_handler.cpp:99-113 | the earlier disk loop ignores delta_index |
| LegacyImgHandler.DiskIgnoresDelta | libs/img_handler/img_handler.cpp:99-112 | one earlier disk read ignores delta_index |
| LegacyImgHandler.PartitionsIgnoreDelta | libs/img_handler/img_handler.cpp:102-112 | the earlier partition loop ignores delta_index |
| LegacyImgHandler.ReadDataBlockIndex | libs/img_handler/img_handler.cpp:93-114 | seek to index_file_position, then the earlier disk loop, computes IndexWalk with the earlier step |
| LegacyImgHandler.ReadBackupFileLayout | libs/img_handler/img_handler.cpp:116-136 | footer at -20, header seek, getJSON, decode and the earlier index walk compute its BackupFileLayout |
| LegacyImgHandler.BackupFileLayout | libs/img_handler/img_handler.cpp:116-136 | the earlier readBackupFileLayout on a file's bytes: footer, header seek, JSON scan, decoder, then the index walk with the earlier partition step |
| LegacyRestore.SingleFileMap | libs/restore/restore.cpp:45-47 | every block of the file's own index comes from the single backup file |
| LegacyRestore.Lcn0Agrees | libs/restore/restore.cpp:50 | the earlier writer puts cluster 0 where the current one does exactly when the partition and its file system start at the same offset |
| LegacyRestore.SingleFileReplay | libs/restore/restore.cpp:24-56 | with equal starts, an earlier partition is the current replay of a one-file chain |
| LegacyRestore.PartitionSpec | libs/restore/restore.cpp:26-56 | one earlier partition: the replay with reserved sectors and blocks all from the single file, cluster 0 at lcn0_offset itself |
| LegacyRestore.LegacyPartitionLoop | libs/restore/restore.cpp:24-57 | the earlier partition loop from partition p, stopping at the first failure |
| LegacyRestore.RestoreSpec | libs/restore/restore.cpp:15-61 | the earlier restoreDisk: OpenFailed(path) when the backup file cannot be opened, then UndefinedIndex without disks[0], else its track 0 at 0 and each of its partitions from that file's bytes |
| LegacyRestore.RestoreNeedsFile | libs/restore/restore.cpp:15-16 | a backup file that cannot be opened ends the earlier restore with OpenFailed(path) before anything is written; otherwise no other file plays a part |
| LegacyRestore.RestorePartition | libs/restore/restore.cpp:26-56 | seek to the boot sector, reserved sectors and blocks, all from the single file, at lcn0_offset + block_size * i |
| LegacyRestore.RestoreDisk | libs/restore/restore.cpp:15-61 | opening the backup file, track 0 of disks[0] at offset 0, then every partition of disks[0] from that file, computes RestoreSpec |

## Left out

- The fstream wrappers of `file_handler.cpp` are modelled only through their outcome: a failed read, seek or open is fatal. A failed write or close is not modelled; every write and close succeeds.
- The JSON decoding by nlohmann (`nlohmann::json::parse`, `layout = json` and the `NLOHMANN_DEFINE_TYPE` macros) is a parameter `decode`. Its failures are one error, `DecodeFailed`.
- Opening a backup file by name inside `FindBackupFiles` (`readBackupFileLayout`) is a parameter `readLayout`. The files `openFile` can open are a parameter map `files`, for the backup files of both writers, and opening the target image never fails.
- Virtual-disk provisioning is left out: the Win32 and shell calls in `vhdx_handler.cpp` and `linux_virtdisk_handler.cpp`. They are OS services; only the size rounding is modelled.
- The command-line entry points are left out, as is console logging.
- Vhdx.RoundVDiskSize: the doc comment of CreateVDisk (vhdx_handler.cpp:36-37) promises a multiple of both the sector size and 65536; the contract promises the sector multiple only when the sector size divides 65536 (RoundedSectorMultiple), because for other sector sizes the code does not deliver it (RoundedNotSectorMultiple). The VHDX sector sizes 512 and 4096 both divide 65536.
- Vhdx.RoundedBounds: requires sectorSize > 0, as do RoundVDiskSize, SectorRounded and RoundedSectorMultiple, because a zero sector size divides by zero in the source.
- The block hash, the compression and encryption flags, and the compression and encryption settings are parsed into the header but never acted on.
- The magic bytes are read but never compared, as in the source.
- The layouts of `DataBlockIndexElement` and `DeltaDataBlockIndexElement` are defined in no file of the repository that is part of this model. They are taken as packed: 12 bytes (u64 file_position, u32 block_length) and 16 bytes (u32 block_index, then a DataBlockIndexElement). The earlier parser's `sizeof(data_block)` is taken to be the same 12 bytes.
- The contrib `file_struct.h`, which declares `reserved_sectors`, `data_block_index`, `delta_data_block_index` and `reserved_sectors_byte_length`, is not part of this model. Their types are inferred from use: `reserved_sectors_byte_length` is taken as a uint32_t to match `std::min` with `block_length`.
- BackupSet.SortedHistory: std::sort leaves the order of equal file numbers unspecified; the model fixes one order, a stable insertion. Its contract states only what every such order shares: sorted newest first, and a permutation of the history.
- FindBackupFiles sorts the caller's `file_history` in place. The model returns the sorted history instead of changing the caller's layout.
- Indexing `disks[diskIndex]`, `filePaths[i]`, `partitionLayouts[0]` or the block map out of range is undefined behaviour in the source; the model reports it as `UndefinedIndex`. A negative `diskIndex` cannot be expressed (it is a `nat`).
- The `int blockIndex` counter of the block loop (restore.cpp:83) and the `int i` counter of FillInitialBlockFileMap's loop (backup_set.cpp:71) are unbounded in the model; an index of more than 2^31 entries, where either would overflow, is not modelled.
- The `blockData != nullptr` checks always hold (`make_unique` never returns null), so they are not modelled.
- A failed restore leaves a partly written image in the source. The specification functions return only the error, and the methods' contracts say nothing about the target after a failure.
- The offset arithmetic is in unsigned 64-bit, and so are the conversions from `uint64_t` to `std::streamoff`. They are modelled explicitly (`Wrap64`, `ToStreamOff`). The product `block_size * blockIndex` is wrapped after being formed, which gives the same result as the source's 64-bit multiplication.

## Findings

| source | as written | input that shows it | evidently intended | confidence | as-written member | corrected member |
|---|---|---|---|---|---|---|
| contrib/extract-to-img/libs/restore/restore.cpp:70-76 | `bytesWritten` starts at 0 and is never increased, so each reserved block writes `min(block_length, total)` bytes and the loop can write past `reserved_sectors_byte_length` | reserved_sectors_byte_length = 600 held in two 512-byte blocks: 1024 bytes are written | `bytesWritten` grows by each write, so 512 + 88 = 600 bytes are written and never more than the total | not executed | Restore.ReservedOverrun | Restore.ReservedIntendedBound |
| libs/restore/restore.cpp:31-37 | the earlier writer has the same loop, with `bytesWritten` never increased | the same 600-byte, two-block input writes 1024 bytes | the same: at most the total reserved length | not executed | Restore.ReservedOverrun | Restore.ReservedIntendedBound |

The writer's own model follows the code as written (`Restore.ReservedFrom`), since that is what the program does. The intended loop is `Restore.ReservedIntendedFrom`, with its bound proved in `Restore.ReservedIntendedBound` and worked through for the 600-byte input in `Restore.ReservedIntendedExample`.
