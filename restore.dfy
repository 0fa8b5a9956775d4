/** The restore writer: track 0 of the chosen disk, then for every partition
    its reserved sectors and the blocks of its backup set's block map, written
    into the target image at offsets computed from the partition geometry. */
module Restore {
  import opened Bytes
  import opened Results
  import opened FileStream
  import opened Layout
  import opened BackupSet

  /** readDataBlock: seek to the block's file_position and read block_length
      bytes.  file_position is a uint64_t passed as a std::streamoff. */
  function ReadDataBlock(data: seq<byte>, block: DataBlock): (r: Result<seq<byte>>)
    ensures r.Ok? <==> block.file_position < TWO_63
                       && (block.block_length == 0 || block.file_position + block.block_length <= |data|)
    ensures r.Err? ==> r.error == (if block.file_position < TWO_63 then ReadFailed else SeekFailed)
    ensures r.Ok? ==> |r.value| == block.block_length
    ensures r.Ok? && block.block_length > 0 ==>
      r.value == data[block.file_position..block.file_position + block.block_length]
  {
    var s :- SeekBeg(Open(data), ToStreamOff(block.file_position));
    var read :- Read(s, block.block_length);
    Ok(read.0)
  }

  function Min(a: int, b: int): int { if a <= b then a else b }

  // ---------------------------------------------------------------------------
  // The target image

  /** Which part of the restore a write belongs to: track 0, reserved block k
      of partition p, or entry i of partition p's block map. */
  datatype Origin = Track0 | Reserved(p: nat, k: nat) | Block(p: nat, i: nat)

  /** One writeToFile call: where it wrote, what, and for which part. */
  datatype WriteEvent = WriteEvent(offset: nat, bytes: seq<byte>, origin: Origin)

  /** The target file: its position and every write made to it so far. */
  datatype Target = Target(pos: nat, log: seq<WriteEvent>)

  /** setFilePointer on the target: a negative offset fails. */
  function SeekTo(t: Target, off: int): (r: Result<Target>)
    ensures r.Ok? <==> off >= 0
    ensures r.Err? ==> r.error == SeekFailed
    ensures r.Ok? ==> r.value.pos == off && r.value.log == t.log
  {
    if off < 0 then Err(SeekFailed) else Ok(t.(pos := off))
  }

  /** writeToFile on the target: the bytes go at the position, which moves
      past them. */
  function WriteAt(t: Target, bytes: seq<byte>, origin: Origin): Target {
    Target(t.pos + |bytes|, t.log + [WriteEvent(t.pos, bytes, origin)])
  }

  /** The target image file, opened at position 0 with nothing written. */
  class DiskImage {
    var pos: nat
    var log: seq<WriteEvent>

    function State(): Target
      reads this
    {
      Target(pos, log)
    }

    constructor()
      ensures State() == Target(0, [])
    {
      pos, log := 0, [];
    }

    method Seek(off: int) returns (r: Result<()>)
      modifies this
      ensures r.Ok? <==> SeekTo(old(State()), off).Ok?
      ensures r.Err? ==> r.error == SeekTo(old(State()), off).error && State() == old(State())
      ensures r.Ok? ==> State() == SeekTo(old(State()), off).value
    {
      if off < 0 {
        return Err(SeekFailed);
      }
      pos := off;
      return Ok(());
    }

    method Write(bytes: seq<byte>, origin: Origin)
      modifies this
      ensures State() == WriteAt(old(State()), bytes, origin)
    {
      log := log + [WriteEvent(pos, bytes, origin)];
      pos := pos + |bytes|;
    }
  }

  // ---------------------------------------------------------------------------
  // Reserved sectors

  /** The reserved-sector loop from block k, as written: each block is read
      from src and min(block_length, total - bytesWritten) of its bytes are
      written, but bytesWritten is never increased, so every block writes
      min(block_length, total). */
  function ReservedFrom(src: seq<byte>, blocks: seq<DataBlock>, total: u32, p: nat, k: nat, t: Target): Result<Target>
    decreases |blocks| - k
  {
    if k >= |blocks| then Ok(t)
    else
      var data :- ReadDataBlock(src, blocks[k]);
      var n := Min(blocks[k].block_length, total);
      ReservedFrom(src, blocks, total, p, k + 1, WriteAt(t, data[..n], Reserved(p, k)))
  }

  /** The bytes the loop writes from block k on. */
  function WrittenFrom(blocks: seq<DataBlock>, total: u32, k: nat): (r: nat)
    decreases |blocks| - k
  {
    if k >= |blocks| then 0 else Min(blocks[k].block_length, total) + WrittenFrom(blocks, total, k + 1)
  }

  /** e is the write of reserved block j of partition p at offset off. */
  predicate ReservedWrite(src: seq<byte>, blocks: seq<DataBlock>, total: u32, p: nat, j: int, off: int, e: WriteEvent)
  {
    && 0 <= j < |blocks|
    && var data := ReadDataBlock(src, blocks[j]);
       && data.Ok?
       && e.offset == off
       && e.bytes == data.value[..Min(blocks[j].block_length, total)]
       && e.origin == Reserved(p, j)
  }

  /** The reserved-sector loop from block k succeeds exactly when every
      remaining block can be read. */
  lemma {:induction false} ReservedOk(src: seq<byte>, blocks: seq<DataBlock>, total: u32, p: nat, k: nat, t: Target)
    ensures ReservedFrom(src, blocks, total, p, k, t).Ok? <==>
      forall j :: k <= j < |blocks| ==> ReadDataBlock(src, blocks[j]).Ok?
    decreases |blocks| - k
  {
    if k < |blocks| && ReadDataBlock(src, blocks[k]).Ok? {
      var data := ReadDataBlock(src, blocks[k]).value;
      var n := Min(blocks[k].block_length, total);
      ReservedOk(src, blocks, total, p, k + 1, WriteAt(t, data[..n], Reserved(p, k)));
    }
  }

  /** The reserved-sector loop from block k appends one write per block to
      the log, keeps the earlier writes and moves the position past them. */
  lemma {:induction false} ReservedPrefix(src: seq<byte>, blocks: seq<DataBlock>, total: u32, p: nat, k: nat, t: Target)
    requires k <= |blocks|
    requires ReservedFrom(src, blocks, total, p, k, t).Ok?
    ensures var r := ReservedFrom(src, blocks, total, p, k, t).value;
      && |r.log| == |t.log| + |blocks| - k && r.log[..|t.log|] == t.log
      && r.pos == t.pos + WrittenFrom(blocks, total, k)
    decreases |blocks| - k
  {
    if k < |blocks| {
      var data := ReadDataBlock(src, blocks[k]).value;
      var t' := WriteAt(t, data[..Min(blocks[k].block_length, total)], Reserved(p, k));
      ReservedPrefix(src, blocks, total, p, k + 1, t');
      var r := ReservedFrom(src, blocks, total, p, k + 1, t').value;
      assert r.log[..|t.log|] == r.log[..|t'.log|][..|t.log|];
    }
  }

  /** Write q of the reserved-sector loop from block k, past the earlier
      writes, is the write of block q - |t.log| + k, placed right after the
      writes of the blocks before it. */
  lemma {:induction false} ReservedWriteAt(src: seq<byte>, blocks: seq<DataBlock>, total: u32, p: nat, k: nat,
                                           t: Target, q: nat)
    requires k <= |blocks|
    requires ReservedFrom(src, blocks, total, p, k, t).Ok?
    requires |t.log| <= q < |t.log| + |blocks| - k
    requires q < |ReservedFrom(src, blocks, total, p, k, t).value.log|
    ensures ReservedWrite(src, blocks, total, p, q - |t.log| + k,
                          t.pos + WrittenFrom(blocks, total, k) - WrittenFrom(blocks, total, q - |t.log| + k),
                          ReservedFrom(src, blocks, total, p, k, t).value.log[q])
    decreases |blocks| - k
  {
    var data := ReadDataBlock(src, blocks[k]).value;
    var t' := WriteAt(t, data[..Min(blocks[k].block_length, total)], Reserved(p, k));
    var r := ReservedFrom(src, blocks, total, p, k + 1, t').value;
    if q > |t.log| {
      ReservedWriteAt(src, blocks, total, p, k + 1, t', q);
      assert q - |t.log| + k == q - |t'.log| + (k + 1);
    } else {
      ReservedPrefix(src, blocks, total, p, k + 1, t');
      assert r.log[q] == r.log[..|t'.log|][q] == t'.log[q];
    }
  }

  /** The reserved writes are contiguous: one per block, in order, each right
      after the previous one, the first at the position the loop starts at. */
  lemma ReservedLog(src: seq<byte>, blocks: seq<DataBlock>, total: u32, p: nat, k: nat, t: Target)
    requires k <= |blocks|
    requires ReservedFrom(src, blocks, total, p, k, t).Ok?
    ensures var r := ReservedFrom(src, blocks, total, p, k, t).value;
      && |r.log| == |t.log| + |blocks| - k && r.log[..|t.log|] == t.log
      && r.pos == t.pos + WrittenFrom(blocks, total, k)
      && forall q :: |t.log| <= q < |r.log| ==>
           ReservedWrite(src, blocks, total, p, q - |t.log| + k,
                         t.pos + WrittenFrom(blocks, total, k) - WrittenFrom(blocks, total, q - |t.log| + k), r.log[q])
  {
    ReservedPrefix(src, blocks, total, p, k, t);
    var r := ReservedFrom(src, blocks, total, p, k, t).value;
    forall q | |t.log| <= q < |r.log|
      ensures ReservedWrite(src, blocks, total, p, q - |t.log| + k,
                            t.pos + WrittenFrom(blocks, total, k) - WrittenFrom(blocks, total, q - |t.log| + k), r.log[q])
    {
      ReservedWriteAt(src, blocks, total, p, k, t, q);
    }
  }

  /** The loop as written overruns the reserved area: with 600 reserved bytes
      held in two 512-byte blocks it writes 1024 bytes. */
  lemma ReservedOverrun(src: seq<byte>, t: Target)
    requires |src| == 1024
    ensures var blocks := [DataBlock(0, 512), DataBlock(512, 512)];
      && ReservedFrom(src, blocks, 600, 0, 0, t).Ok?
      && ReservedFrom(src, blocks, 600, 0, 0, t).value.pos == t.pos + 1024
  {
    var blocks := [DataBlock(0, 512), DataBlock(512, 512)];
    ReservedOk(src, blocks, 600, 0, 0, t);
    ReservedLog(src, blocks, 600, 0, 0, t);
    assert WrittenFrom(blocks, 600, 2) == 0;
    assert WrittenFrom(blocks, 600, 1) == 512;
  }

  /** The reserved-sector loop from block k as evidently intended: bytesWritten
      grows by every write, so no write runs past the total. */
  function ReservedIntendedFrom(src: seq<byte>, blocks: seq<DataBlock>, total: u32, written: nat,
                                p: nat, k: nat, t: Target): Result<Target>
    requires written <= total
    decreases |blocks| - k
  {
    if k >= |blocks| then Ok(t)
    else
      var data :- ReadDataBlock(src, blocks[k]);
      var n := Min(blocks[k].block_length, total - written);
      ReservedIntendedFrom(src, blocks, total, written + n, p, k + 1, WriteAt(t, data[..n], Reserved(p, k)))
  }

  /** The sum of the remaining blocks' lengths. */
  function LengthFrom(blocks: seq<DataBlock>, k: nat): nat
    decreases |blocks| - k
  {
    if k >= |blocks| then 0 else blocks[k].block_length + LengthFrom(blocks, k + 1)
  }

  /** As intended, the loop writes the first total bytes of the blocks, or all
      of them when they are shorter, and so never more than total. */
  lemma {:induction false} ReservedIntendedBound(src: seq<byte>, blocks: seq<DataBlock>, total: u32, written: nat,
                                                 p: nat, k: nat, t: Target)
    requires written <= total
    requires ReservedIntendedFrom(src, blocks, total, written, p, k, t).Ok?
    ensures ReservedIntendedFrom(src, blocks, total, written, p, k, t).value.pos
         == t.pos + Min(total - written, LengthFrom(blocks, k))
    decreases |blocks| - k
  {
    if k < |blocks| {
      var data := ReadDataBlock(src, blocks[k]).value;
      var n := Min(blocks[k].block_length, total - written);
      ReservedIntendedBound(src, blocks, total, written + n, p, k + 1, WriteAt(t, data[..n], Reserved(p, k)));
    }
  }

  /** As intended, 600 reserved bytes in two 512-byte blocks are written as
      600 bytes. */
  lemma ReservedIntendedExample(src: seq<byte>, t: Target)
    requires |src| == 1024
    ensures var blocks := [DataBlock(0, 512), DataBlock(512, 512)];
      && ReservedIntendedFrom(src, blocks, 600, 0, 0, 0, t).Ok?
      && ReservedIntendedFrom(src, blocks, 600, 0, 0, 0, t).value.pos == t.pos + 600
  {
    var blocks := [DataBlock(0, 512), DataBlock(512, 512)];
    assert LengthFrom(blocks, 2) == 0;
    assert LengthFrom(blocks, 1) == 512;
    var d0 := ReadDataBlock(src, blocks[0]).value;
    var t1 := WriteAt(t, d0[..512], Reserved(0, 0));
    var d1 := ReadDataBlock(src, blocks[1]).value;
    var t2 := WriteAt(t1, d1[..88], Reserved(0, 1));
    assert ReservedIntendedFrom(src, blocks, 600, 512, 0, 1, t1) == Ok(t2);
    ReservedIntendedBound(src, blocks, 600, 0, 0, 0, t);
  }

  // ---------------------------------------------------------------------------
  // Block replay

  /** lcn0Start: the partition start plus the distance of cluster 0 from the
      file system's start, in unsigned 64-bit arithmetic. */
  function Lcn0Start(g: PartitionGeometry, fs: FileSystem): (r: u64)
    ensures 0 <= g.start + (fs.lcn0_offset - fs.start) < TWO_64 ==> r == g.start + (fs.lcn0_offset - fs.start)
  {
    Wrap64(g.start + Wrap64(fs.lcn0_offset - fs.start))
  }

  /** The target offset of map entry i: lcn0Start + block_size * i in unsigned
      64-bit arithmetic, taken as a std::streamoff. */
  function BlockOffset(lcn0Start: u64, blockSize: u32, i: nat): (r: int)
    ensures lcn0Start + blockSize * i < TWO_63 ==> r == lcn0Start + blockSize * i
    ensures r >= 0 ==> r % TWO_64 == (lcn0Start + blockSize * i) % TWO_64
  {
    ToStreamOff(Wrap64(lcn0Start + Wrap64(blockSize * i)))
  }

  /** A partition starting at 1048576 whose cluster 0 lies 2048 bytes into its
      file system, with 4096-byte blocks, has entry 3 at 1062912. */
  lemma BlockOffsetExample()
    ensures BlockOffset(Lcn0Start(PartitionGeometry(1048576, 0), FileSystem(1050624, 1048576, 0)), 4096, 3) == 1062912
  {
  }

  /** Wherever the target offset lands at or above 0 and below 2^63, it is the
      partition start plus the distance of cluster 0 from the file system's
      start plus block_size * i: the unsigned wrap-around of a cluster 0 that
      lies before the file system's start cancels out. */
  lemma BlockOffsetFormula(g: PartitionGeometry, fs: FileSystem, blockSize: u32, i: nat)
    requires 0 <= g.start + (fs.lcn0_offset - fs.start)
    requires g.start + (fs.lcn0_offset - fs.start) + blockSize * i < TWO_63
    ensures BlockOffset(Lcn0Start(g, fs), blockSize, i) == g.start + (fs.lcn0_offset - fs.start) + blockSize * i
  {
    var x := fs.lcn0_offset - fs.start;
    assert Wrap64(x) == if x >= 0 then x else x + TWO_64;
    assert Lcn0Start(g, fs) == g.start + x;
    assert 0 <= blockSize * i;
    assert Wrap64(blockSize * i) == blockSize * i;
  }

  /** The block loop from entry i: read the entry's block from its own file;
      a non-empty block is written at the entry's offset. */
  function BlocksFrom(handles: seq<FileHandle>, m: seq<MapEntry>, lcn0Start: u64, blockSize: u32,
                      p: nat, i: nat, t: Target): Result<Target>
    requires FilesBelow(m, |handles|)
    decreases |m| - i
  {
    if i >= |m| then Ok(t)
    else
      var data :- ReadDataBlock(handles[m[i].file].data, m[i].block);
      if m[i].block.block_length == 0 then BlocksFrom(handles, m, lcn0Start, blockSize, p, i + 1, t)
      else
        var t1 :- SeekTo(t, BlockOffset(lcn0Start, blockSize, i));
        BlocksFrom(handles, m, lcn0Start, blockSize, p, i + 1, WriteAt(t1, data, Block(p, i)))
  }

  /** The entries from i on with a non-empty block, in ascending order. */
  function NonSparse(m: seq<MapEntry>, i: nat): seq<nat>
    decreases |m| - i
  {
    if i >= |m| then []
    else if m[i].block.block_length == 0 then NonSparse(m, i + 1)
    else [i] + NonSparse(m, i + 1)
  }

  /** Every entry NonSparse(m, i) lists is at least i and has a non-empty
      block. */
  lemma {:induction false} NonSparseNonEmpty(m: seq<MapEntry>, i: nat)
    ensures forall q :: 0 <= q < |NonSparse(m, i)| ==>
      i <= NonSparse(m, i)[q] < |m| && m[NonSparse(m, i)[q]].block.block_length != 0
    decreases |m| - i
  {
    if i < |m| {
      NonSparseNonEmpty(m, i + 1);
      var rest := NonSparse(m, i + 1);
      if m[i].block.block_length != 0 {
        var r := NonSparse(m, i);
        assert r == [i] + rest;
        forall q | 0 <= q < |r|
          ensures i <= r[q] < |m| && m[r[q]].block.block_length != 0
        {
          if q > 0 {
            assert r[q] == rest[q - 1];
          }
        }
      } else {
        assert NonSparse(m, i) == rest;
      }
    }
  }

  /** NonSparse(m, i) is strictly ascending. */
  lemma {:induction false} NonSparseAscending(m: seq<MapEntry>, i: nat)
    ensures forall q, q' :: 0 <= q < q' < |NonSparse(m, i)| ==> NonSparse(m, i)[q] < NonSparse(m, i)[q']
    decreases |m| - i
  {
    if i < |m| {
      NonSparseAscending(m, i + 1);
      var rest := NonSparse(m, i + 1);
      if m[i].block.block_length != 0 {
        NonSparseNonEmpty(m, i + 1);
        var r := NonSparse(m, i);
        assert r == [i] + rest;
        forall q, q' | 0 <= q < q' < |r|
          ensures r[q] < r[q']
        {
          assert r[q'] == rest[q' - 1];
          if q > 0 {
            assert r[q] == rest[q - 1];
          }
        }
      } else {
        assert NonSparse(m, i) == rest;
      }
    }
  }

  /** NonSparse(m, i) lists every entry from i on with a non-empty block. */
  lemma {:induction false} NonSparseComplete(m: seq<MapEntry>, i: nat)
    ensures forall j :: i <= j < |m| && m[j].block.block_length != 0 ==> j in NonSparse(m, i)
    decreases |m| - i
  {
    if i < |m| {
      NonSparseComplete(m, i + 1);
    }
  }

  /** NonSparse(m, i) lists, in ascending order, exactly the entries from i on
      whose block is not empty. */
  lemma NonSparseEntries(m: seq<MapEntry>, i: nat)
    ensures var r := NonSparse(m, i);
      && (forall q :: 0 <= q < |r| ==> i <= r[q] < |m| && m[r[q]].block.block_length != 0)
      && (forall q, q' :: 0 <= q < q' < |r| ==> r[q] < r[q'])
      && (forall j :: i <= j < |m| && m[j].block.block_length != 0 ==> j in r)
  {
    NonSparseNonEmpty(m, i);
    NonSparseAscending(m, i);
    NonSparseComplete(m, i);
  }

  /** e is the write of map entry j of partition p: exactly its block's bytes,
      read from its own file, at its offset. */
  predicate BlockWrite(handles: seq<FileHandle>, m: seq<MapEntry>, lcn0Start: u64, blockSize: u32,
                       p: nat, j: int, e: WriteEvent)
  {
    && 0 <= j < |m| && m[j].file < |handles|
    && var data := ReadDataBlock(handles[m[j].file].data, m[j].block);
       && data.Ok?
       && e.offset == BlockOffset(lcn0Start, blockSize, j)
       && e.bytes == data.value
       && e.origin == Block(p, j)
  }

  /** The block loop from entry i succeeds exactly when every remaining block
      can be read and every non-empty one has a non-negative offset. */
  lemma {:induction false} BlocksOk(handles: seq<FileHandle>, m: seq<MapEntry>, lcn0Start: u64, blockSize: u32,
                                    p: nat, i: nat, t: Target)
    requires FilesBelow(m, |handles|)
    ensures BlocksFrom(handles, m, lcn0Start, blockSize, p, i, t).Ok? <==>
      forall j :: i <= j < |m| ==>
        && ReadDataBlock(handles[m[j].file].data, m[j].block).Ok?
        && (m[j].block.block_length == 0 || BlockOffset(lcn0Start, blockSize, j) >= 0)
    decreases |m| - i
  {
    if i < |m| && ReadDataBlock(handles[m[i].file].data, m[i].block).Ok? {
      var data := ReadDataBlock(handles[m[i].file].data, m[i].block).value;
      if m[i].block.block_length == 0 {
        BlocksOk(handles, m, lcn0Start, blockSize, p, i + 1, t);
      } else if BlockOffset(lcn0Start, blockSize, i) >= 0 {
        var t1 := SeekTo(t, BlockOffset(lcn0Start, blockSize, i)).value;
        BlocksOk(handles, m, lcn0Start, blockSize, p, i + 1, WriteAt(t1, data, Block(p, i)));
      }
    }
  }

  /** The block loop from entry i appends one write per non-empty entry to
      the log and keeps the earlier writes. */
  lemma {:induction false} BlocksPrefix(handles: seq<FileHandle>, m: seq<MapEntry>, lcn0Start: u64, blockSize: u32,
                                        p: nat, i: nat, t: Target)
    requires FilesBelow(m, |handles|)
    requires BlocksFrom(handles, m, lcn0Start, blockSize, p, i, t).Ok?
    ensures var r := BlocksFrom(handles, m, lcn0Start, blockSize, p, i, t).value;
      |r.log| == |t.log| + |NonSparse(m, i)| && r.log[..|t.log|] == t.log
    decreases |m| - i
  {
    if i < |m| {
      var data := ReadDataBlock(handles[m[i].file].data, m[i].block).value;
      if m[i].block.block_length == 0 {
        BlocksPrefix(handles, m, lcn0Start, blockSize, p, i + 1, t);
      } else {
        var t1 := SeekTo(t, BlockOffset(lcn0Start, blockSize, i)).value;
        var t' := WriteAt(t1, data, Block(p, i));
        BlocksPrefix(handles, m, lcn0Start, blockSize, p, i + 1, t');
        var r := BlocksFrom(handles, m, lcn0Start, blockSize, p, i + 1, t').value;
        assert r.log[..|t.log|] == r.log[..|t'.log|][..|t.log|];
      }
    }
  }

  /** The first write of the block loop from a non-empty entry i is that
      entry's write. */
  lemma BlocksFirstWrite(handles: seq<FileHandle>, m: seq<MapEntry>, lcn0Start: u64, blockSize: u32,
                         p: nat, i: nat, t: Target)
    requires FilesBelow(m, |handles|)
    requires i < |m| && m[i].block.block_length != 0
    requires BlocksFrom(handles, m, lcn0Start, blockSize, p, i, t).Ok?
    ensures |t.log| < |BlocksFrom(handles, m, lcn0Start, blockSize, p, i, t).value.log|
    ensures BlockWrite(handles, m, lcn0Start, blockSize, p, i,
                       BlocksFrom(handles, m, lcn0Start, blockSize, p, i, t).value.log[|t.log|])
  {
    var data := ReadDataBlock(handles[m[i].file].data, m[i].block).value;
    var t1 := SeekTo(t, BlockOffset(lcn0Start, blockSize, i)).value;
    var t' := WriteAt(t1, data, Block(p, i));
    assert BlocksFrom(handles, m, lcn0Start, blockSize, p, i, t) == BlocksFrom(handles, m, lcn0Start, blockSize, p, i + 1, t');
    BlocksPrefix(handles, m, lcn0Start, blockSize, p, i + 1, t');
    var r := BlocksFrom(handles, m, lcn0Start, blockSize, p, i + 1, t').value;
    assert r.log[|t.log|] == r.log[..|t'.log|][|t.log|] == t'.log[|t.log|];
  }

  /** Write q of the block loop from entry i, past the earlier writes, is
      the write of the (q - |t.log|)-th non-empty entry from i on. */
  lemma {:induction false} BlocksWriteAt(handles: seq<FileHandle>, m: seq<MapEntry>, lcn0Start: u64, blockSize: u32,
                                         p: nat, i: nat, t: Target, q: nat)
    requires FilesBelow(m, |handles|)
    requires BlocksFrom(handles, m, lcn0Start, blockSize, p, i, t).Ok?
    requires |t.log| <= q < |t.log| + |NonSparse(m, i)|
    requires q < |BlocksFrom(handles, m, lcn0Start, blockSize, p, i, t).value.log|
    ensures BlockWrite(handles, m, lcn0Start, blockSize, p, NonSparse(m, i)[q - |t.log|],
                 BlocksFrom(handles, m, lcn0Start, blockSize, p, i, t).value.log[q])
    decreases |m| - i
  {
    if m[i].block.block_length == 0 {
      assert BlocksFrom(handles, m, lcn0Start, blockSize, p, i, t) == BlocksFrom(handles, m, lcn0Start, blockSize, p, i + 1, t);
      assert NonSparse(m, i) == NonSparse(m, i + 1);
      BlocksPrefix(handles, m, lcn0Start, blockSize, p, i + 1, t);
      BlocksWriteAt(handles, m, lcn0Start, blockSize, p, i + 1, t, q);
    } else if q == |t.log| {
      assert NonSparse(m, i)[0] == i;
      BlocksFirstWrite(handles, m, lcn0Start, blockSize, p, i, t);
    } else {
      var data := ReadDataBlock(handles[m[i].file].data, m[i].block).value;
      var t1 := SeekTo(t, BlockOffset(lcn0Start, blockSize, i)).value;
      var t' := WriteAt(t1, data, Block(p, i));
      assert BlocksFrom(handles, m, lcn0Start, blockSize, p, i, t) == BlocksFrom(handles, m, lcn0Start, blockSize, p, i + 1, t');
      assert NonSparse(m, i) == [i] + NonSparse(m, i + 1);
      BlocksPrefix(handles, m, lcn0Start, blockSize, p, i + 1, t');
      BlocksWriteAt(handles, m, lcn0Start, blockSize, p, i + 1, t', q);
      assert NonSparse(m, i)[q - |t.log|] == NonSparse(m, i + 1)[q - |t'.log|];
    }
  }

  /** The block writes are exactly the non-empty entries from i on, in
      ascending order, each at its own offset with its own block's bytes. */
  lemma BlocksLog(handles: seq<FileHandle>, m: seq<MapEntry>, lcn0Start: u64, blockSize: u32,
                  p: nat, i: nat, t: Target)
    requires FilesBelow(m, |handles|)
    requires BlocksFrom(handles, m, lcn0Start, blockSize, p, i, t).Ok?
    ensures var r := BlocksFrom(handles, m, lcn0Start, blockSize, p, i, t).value;
      && |r.log| == |t.log| + |NonSparse(m, i)| && r.log[..|t.log|] == t.log
      && forall q :: |t.log| <= q < |r.log| ==>
           BlockWrite(handles, m, lcn0Start, blockSize, p, NonSparse(m, i)[q - |t.log|], r.log[q])
  {
    BlocksPrefix(handles, m, lcn0Start, blockSize, p, i, t);
    var r := BlocksFrom(handles, m, lcn0Start, blockSize, p, i, t).value;
    forall q | |t.log| <= q < |r.log|
      ensures BlockWrite(handles, m, lcn0Start, blockSize, p, NonSparse(m, i)[q - |t.log|], r.log[q])
    {
      BlocksWriteAt(handles, m, lcn0Start, blockSize, p, i, t, q);
    }
  }

  // ---------------------------------------------------------------------------
  // restoreDisk

  /** One partition of disks[0]: build its backup set, then replay it. */
  function PartitionStep(readLayout: LayoutReader, files: map<string, seq<byte>>, part: PartitionLayout,
                         diskIndex: nat, p: nat, t: Target): Result<Target>
  {
    var c :- BuildSpec(readLayout, files, EMPTY, part, diskIndex);
    BuildHandles(readLayout, files, part, diskIndex);
    ReplaySpec(c.handles, c.blockIndex, part, p, t)
  }

  /** Where a partition's boot sector starts in the target: geometry.start +
      boot_sector_offset in unsigned 64-bit arithmetic, taken as a
      std::streamoff. */
  function BootStart(g: PartitionGeometry): (r: int)
    ensures g.start + g.boot_sector_offset < TWO_63 ==> r == g.start + g.boot_sector_offset
  {
    ToStreamOff(Wrap64(g.start + g.boot_sector_offset))
  }

  /** The first phase of a partition's replay: seek to its boot sector, then
      write its reserved sectors, read from src, when it has any. */
  function ReservedPhase(src: seq<byte>, part: PartitionLayout, p: nat, t: Target): Result<Target>
  {
    var t1 :- SeekTo(t, BootStart(part.geometry));
    var total := part.file_system.reserved_sectors_byte_length;
    if total > 0 then ReservedFrom(src, part.reserved_sectors, total, p, 0, t1) else Ok(t1)
  }

  /** A partition's replay: the first phase with the reserved sectors read
      from src, then the block map with cluster 0 at lcn0Start. */
  function Replay(src: seq<byte>, handles: seq<FileHandle>, m: seq<MapEntry>, lcn0Start: u64,
                  part: PartitionLayout, p: nat, t: Target): Result<Target>
    requires FilesBelow(m, |handles|)
  {
    var t2 :- ReservedPhase(src, part, p, t);
    BlocksFrom(handles, m, lcn0Start, part.header.block_size, p, 0, t2)
  }

  /** One partition with its backup set built: the reserved sectors from the
      newest file of the chain, then its block map, with cluster 0 at
      Lcn0Start. */
  function ReplaySpec(handles: seq<FileHandle>, m: seq<MapEntry>, part: PartitionLayout, p: nat, t: Target): Result<Target>
    requires |handles| > 0 && FilesBelow(m, |handles|)
  {
    Replay(handles[|handles| - 1].data, handles, m, Lcn0Start(part.geometry, part.file_system), part, p, t)
  }

  /** The partition loop from partition p. */
  function PartitionLoop(readLayout: LayoutReader, files: map<string, seq<byte>>, parts: seq<PartitionLayout>,
                          diskIndex: nat, p: nat, t: Target): Result<Target>
    decreases |parts| - p
  {
    if p >= |parts| then Ok(t)
    else
      var t1 :- PartitionStep(readLayout, files, parts[p], diskIndex, p, t);
      PartitionLoop(readLayout, files, parts, diskIndex, p + 1, t1)
  }

  /** restoreDisk: track 0 of disks[diskIndex] at offset 0 (its size taken as a
      uint32_t), then every partition of disks[0]. */
  function RestoreSpec(readLayout: LayoutReader, files: map<string, seq<byte>>, layout: FileLayout, diskIndex: nat): Result<Target>
  {
    if diskIndex >= |layout.disks| then Err(UndefinedIndex)
    else
      var track0 := layout.disks[diskIndex].track0;
      var t := WriteAt(Target(0, []), track0[..|track0| % TWO_32], Track0);
      PartitionLoop(readLayout, files, layout.disks[0].partitions, diskIndex, 0, t)
  }

  /** The first phase appends one write per reserved block when and only
      when the reserved area is non-empty, and keeps the earlier writes. */
  lemma ReservedPhasePrefix(src: seq<byte>, part: PartitionLayout, p: nat, t: Target)
    requires ReservedPhase(src, part, p, t).Ok?
    ensures var r := ReservedPhase(src, part, p, t).value;
      var nr := if part.file_system.reserved_sectors_byte_length > 0 then |part.reserved_sectors| else 0;
      |r.log| == |t.log| + nr && r.log[..|t.log|] == t.log
  {
    var t1 := SeekTo(t, BootStart(part.geometry)).value;
    var total := part.file_system.reserved_sectors_byte_length;
    if total > 0 {
      assert ReservedPhase(src, part, p, t) == ReservedFrom(src, part.reserved_sectors, total, p, 0, t1);
      ReservedPrefix(src, part.reserved_sectors, total, p, 0, t1);
    }
  }

  /** Write q of the first phase, past the earlier writes, is the write of
      reserved block q - |t.log|, right after the blocks before it. */
  lemma ReservedPhaseAt(src: seq<byte>, part: PartitionLayout, p: nat, t: Target, q: nat)
    requires ReservedPhase(src, part, p, t).Ok?
    requires part.file_system.reserved_sectors_byte_length > 0
    requires |t.log| <= q < |t.log| + |part.reserved_sectors|
    requires q < |ReservedPhase(src, part, p, t).value.log|
    ensures var blocks := part.reserved_sectors;
      var total := part.file_system.reserved_sectors_byte_length;
      ReservedWrite(src, blocks, total, p, q - |t.log|,
                    BootStart(part.geometry) + WrittenFrom(blocks, total, 0) - WrittenFrom(blocks, total, q - |t.log|),
                    ReservedPhase(src, part, p, t).value.log[q])
  {
    var t1 := SeekTo(t, BootStart(part.geometry)).value;
    var total := part.file_system.reserved_sectors_byte_length;
    assert ReservedPhase(src, part, p, t) == ReservedFrom(src, part.reserved_sectors, total, p, 0, t1);
    ReservedWriteAt(src, part.reserved_sectors, total, p, 0, t1, q);
  }

  /** The first phase appends one write per reserved block, contiguous from
      the boot sector, when and only when the reserved area is non-empty. */
  lemma ReservedPhaseLog(src: seq<byte>, part: PartitionLayout, p: nat, t: Target)
    requires ReservedPhase(src, part, p, t).Ok?
    ensures var r := ReservedPhase(src, part, p, t).value;
      var total := part.file_system.reserved_sectors_byte_length;
      var blocks := part.reserved_sectors;
      var nr := if total > 0 then |blocks| else 0;
      && |r.log| == |t.log| + nr && r.log[..|t.log|] == t.log
      && forall q :: |t.log| <= q < |r.log| ==>
           ReservedWrite(src, blocks, total, p, q - |t.log|,
                         BootStart(part.geometry) + WrittenFrom(blocks, total, 0) - WrittenFrom(blocks, total, q - |t.log|),
                         r.log[q])
  {
    ReservedPhasePrefix(src, part, p, t);
    var r := ReservedPhase(src, part, p, t).value;
    var total := part.file_system.reserved_sectors_byte_length;
    var blocks := part.reserved_sectors;
    forall q | |t.log| <= q < |r.log|
      ensures ReservedWrite(src, blocks, total, p, q - |t.log|,
                            BootStart(part.geometry) + WrittenFrom(blocks, total, 0) - WrittenFrom(blocks, total, q - |t.log|),
                            r.log[q])
    {
      ReservedPhaseAt(src, part, p, t, q);
    }
  }

  /** Replaying one partition appends, after the earlier writes, first the
      reserved-sector writes of its first phase and then one write per
      non-empty map entry in ascending order. */
  lemma ReplayLog(src: seq<byte>, handles: seq<FileHandle>, m: seq<MapEntry>, lcn0Start: u64,
                  part: PartitionLayout, p: nat, t: Target)
    requires FilesBelow(m, |handles|)
    requires Replay(src, handles, m, lcn0Start, part, p, t).Ok?
    ensures var t2 := ReservedPhase(src, part, p, t);
      var r := Replay(src, handles, m, lcn0Start, part, p, t).value;
      var ns := NonSparse(m, 0);
      && t2.Ok? && |r.log| == |t2.value.log| + |ns| && r.log[..|t2.value.log|] == t2.value.log
      && forall q :: |t2.value.log| <= q < |r.log| ==>
           BlockWrite(handles, m, lcn0Start, part.header.block_size, p, ns[q - |t2.value.log|], r.log[q])
  {
    var t2 := ReservedPhase(src, part, p, t).value;
    assert Replay(src, handles, m, lcn0Start, part, p, t) == BlocksFrom(handles, m, lcn0Start, part.header.block_size, p, 0, t2);
    BlocksLog(handles, m, lcn0Start, part.header.block_size, p, 0, t2);
  }

  /** Replaying one partition only adds writes to the log. */
  lemma ReplayGrows(handles: seq<FileHandle>, m: seq<MapEntry>, part: PartitionLayout, p: nat, t: Target)
    requires |handles| > 0 && FilesBelow(m, |handles|)
    requires ReplaySpec(handles, m, part, p, t).Ok?
    ensures var r := ReplaySpec(handles, m, part, p, t).value;
      |t.log| <= |r.log| && r.log[..|t.log|] == t.log
  {
    var src := handles[|handles| - 1].data;
    var lcn0Start := Lcn0Start(part.geometry, part.file_system);
    var t2 := ReservedPhase(src, part, p, t).value;
    ReservedPhaseLog(src, part, p, t);
    ReplayLog(src, handles, m, lcn0Start, part, p, t);
    var r := Replay(src, handles, m, lcn0Start, part, p, t).value;
    assert r.log[..|t.log|] == r.log[..|t2.log|][..|t.log|];
  }

  /** The partition loop only adds writes to the log. */
  lemma {:induction false} PartitionsGrow(readLayout: LayoutReader, files: map<string, seq<byte>>, parts: seq<PartitionLayout>,
                                          diskIndex: nat, p: nat, t: Target)
    requires PartitionLoop(readLayout, files, parts, diskIndex, p, t).Ok?
    ensures var r := PartitionLoop(readLayout, files, parts, diskIndex, p, t).value;
      |t.log| <= |r.log| && r.log[..|t.log|] == t.log
    decreases |parts| - p
  {
    if p < |parts| {
      var t1 := PartitionStep(readLayout, files, parts[p], diskIndex, p, t).value;
      var c := BuildSpec(readLayout, files, EMPTY, parts[p], diskIndex).value;
      BuildHandles(readLayout, files, parts[p], diskIndex);
      ReplayGrows(c.handles, c.blockIndex, parts[p], p, t);
      PartitionsGrow(readLayout, files, parts, diskIndex, p + 1, t1);
      var r := PartitionLoop(readLayout, files, parts, diskIndex, p, t).value;
      assert r.log[..|t.log|] == r.log[..|t1.log|][..|t.log|];
    }
  }

  /** The first write of a restore is track 0 of the chosen disk, at offset 0. */
  lemma RestoreTrack0(readLayout: LayoutReader, files: map<string, seq<byte>>, layout: FileLayout, diskIndex: nat)
    requires RestoreSpec(readLayout, files, layout, diskIndex).Ok?
    ensures diskIndex < |layout.disks|
    ensures var r := RestoreSpec(readLayout, files, layout, diskIndex).value;
      var track0 := layout.disks[diskIndex].track0;
      |r.log| > 0 && r.log[0] == WriteEvent(0, track0[..|track0| % TWO_32], Track0)
  {
    assert diskIndex < |layout.disks|;
    var track0 := layout.disks[diskIndex].track0;
    var t := WriteAt(Target(0, []), track0[..|track0| % TWO_32], Track0);
    var rs := PartitionLoop(readLayout, files, layout.disks[0].partitions, diskIndex, 0, t);
    assert RestoreSpec(readLayout, files, layout, diskIndex) == rs;
    PartitionsGrow(readLayout, files, layout.disks[0].partitions, diskIndex, 0, t);
    assert |t.log| == 1 && t.log[0] == WriteEvent(0, track0[..|track0| % TWO_32], Track0);
    assert rs.value.log[..1] == t.log;
  }

  /** The reserved-sector loop of restoreDisk. */
  method WriteReservedSectors(disk: DiskImage, src: seq<byte>, blocks: seq<DataBlock>, total: u32, p: nat)
    returns (r: Result<()>)
    modifies disk
    ensures r.Ok? <==> ReservedFrom(src, blocks, total, p, 0, old(disk.State())).Ok?
    ensures r.Err? ==> r.error == ReservedFrom(src, blocks, total, p, 0, old(disk.State())).error
    ensures r.Ok? ==> disk.State() == ReservedFrom(src, blocks, total, p, 0, old(disk.State())).value
  {
    ghost var start := disk.State();
    var bytesWritten: u32 := 0;
    var k := 0;
    while k < |blocks|
      invariant k <= |blocks|
      invariant ReservedFrom(src, blocks, total, p, k, disk.State()) == ReservedFrom(src, blocks, total, p, 0, start)
    {
      var data := ReadDataBlock(src, blocks[k]);
      if data.Err? {
        return Err(data.error);
      }
      var bytesToWrite := Min(blocks[k].block_length, total - bytesWritten);
      disk.Write(data.value[..bytesToWrite], Reserved(p, k));
      k := k + 1;
    }
    return Ok(());
  }

  /** The block loop of restoreDisk. */
  method WriteBlocks(disk: DiskImage, handles: seq<FileHandle>, m: seq<MapEntry>, lcn0Start: u64, blockSize: u32, p: nat)
    returns (r: Result<()>)
    requires FilesBelow(m, |handles|)
    modifies disk
    ensures r.Ok? <==> BlocksFrom(handles, m, lcn0Start, blockSize, p, 0, old(disk.State())).Ok?
    ensures r.Err? ==> r.error == BlocksFrom(handles, m, lcn0Start, blockSize, p, 0, old(disk.State())).error
    ensures r.Ok? ==> disk.State() == BlocksFrom(handles, m, lcn0Start, blockSize, p, 0, old(disk.State())).value
  {
    ghost var start := disk.State();
    var blockIndex := 0;
    while blockIndex < |m|
      invariant blockIndex <= |m|
      invariant BlocksFrom(handles, m, lcn0Start, blockSize, p, blockIndex, disk.State())
             == BlocksFrom(handles, m, lcn0Start, blockSize, p, 0, start)
    {
      var entry := m[blockIndex];
      var data := ReadDataBlock(handles[entry.file].data, entry.block);
      if data.Err? {
        return Err(data.error);
      }
      if entry.block.block_length != 0 {
        var s := disk.Seek(BlockOffset(lcn0Start, blockSize, blockIndex));
        if s.Err? {
          return Err(s.error);
        }
        disk.Write(data.value, Block(p, blockIndex));
      }
      blockIndex := blockIndex + 1;
    }
    return Ok(());
  }

  /** The body of restoreDisk's partition loop after the backup set is built. */
  method ReplayPartition(disk: DiskImage, handles: seq<FileHandle>, m: seq<MapEntry>, part: PartitionLayout, p: nat)
    returns (r: Result<()>)
    requires |handles| > 0 && FilesBelow(m, |handles|)
    modifies disk
    ensures r.Ok? <==> ReplaySpec(handles, m, part, p, old(disk.State())).Ok?
    ensures r.Err? ==> r.error == ReplaySpec(handles, m, part, p, old(disk.State())).error
    ensures r.Ok? ==> disk.State() == ReplaySpec(handles, m, part, p, old(disk.State())).value
  {
    var s := disk.Seek(BootStart(part.geometry));
    if s.Err? {
      return Err(s.error);
    }
    var total := part.file_system.reserved_sectors_byte_length;
    if total > 0 {
      var w := WriteReservedSectors(disk, handles[|handles| - 1].data, part.reserved_sectors, total, p);
      if w.Err? {
        return Err(w.error);
      }
    }
    var lcn0Start := Lcn0Start(part.geometry, part.file_system);
    r := WriteBlocks(disk, handles, m, lcn0Start, part.header.block_size, p);
  }

  /** One pass of restoreDisk's partition loop: a fresh backup set is built,
      replayed into the target and closed.  The set is returned so that its
      closed handles can be seen. */
  method RestorePartition(disk: DiskImage, readLayout: LayoutReader, files: map<string, seq<byte>>,
                          part: PartitionLayout, diskIndex: nat, p: nat)
    returns (r: Result<()>, backupSet: PartitionBackupSet)
    modifies disk
    ensures fresh(backupSet)
    ensures r.Ok? <==> PartitionStep(readLayout, files, part, diskIndex, p, old(disk.State())).Ok?
    ensures r.Err? ==> r.error == PartitionStep(readLayout, files, part, diskIndex, p, old(disk.State())).error
    ensures r.Ok? ==> disk.State() == PartitionStep(readLayout, files, part, diskIndex, p, old(disk.State())).value
    ensures r.Ok? ==> && BuildSpec(readLayout, files, EMPTY, part, diskIndex).Ok?
                      && var built := BuildSpec(readLayout, files, EMPTY, part, diskIndex).value;
                         && |backupSet.backupFilePtrs| == |built.handles|
                         && forall k :: 0 <= k < |built.handles| ==>
                              backupSet.backupFilePtrs[k] == built.handles[k].(isOpen := false)
  {
    backupSet := new PartitionBackupSet();
    var built := backupSet.BuildPartitionBackupSet(readLayout, files, part, diskIndex);
    if built.Err? {
      return Err(built.error), backupSet;
    }
    BuildHandles(readLayout, files, part, diskIndex);
    r := ReplayPartition(disk, backupSet.backupFilePtrs, backupSet.backupSetBlockIndex, part, p);
    if r.Ok? {
      backupSet.CloseBackupFiles();
    }
  }

  /** restoreDisk into a freshly opened target. */
  method RestoreDisk(readLayout: LayoutReader, files: map<string, seq<byte>>, layout: FileLayout, diskIndex: nat)
    returns (r: Result<()>, disk: DiskImage)
    ensures fresh(disk)
    ensures r.Ok? <==> RestoreSpec(readLayout, files, layout, diskIndex).Ok?
    ensures r.Err? ==> r.error == RestoreSpec(readLayout, files, layout, diskIndex).error
    ensures r.Ok? ==> disk.State() == RestoreSpec(readLayout, files, layout, diskIndex).value
  {
    disk := new DiskImage();
    if diskIndex >= |layout.disks| {
      return Err(UndefinedIndex), disk;
    }
    var track0 := layout.disks[diskIndex].track0;
    disk.Write(track0[..|track0| % TWO_32], Track0);
    var parts := layout.disks[0].partitions;
    ghost var t0 := disk.State();
    ghost var spec := RestoreSpec(readLayout, files, layout, diskIndex);
    assert t0 == WriteAt(Target(0, []), track0[..|track0| % TWO_32], Track0);
    assert spec == PartitionLoop(readLayout, files, parts, diskIndex, 0, t0);
    var p := 0;
    while p < |parts|
      invariant p <= |parts|
      invariant PartitionLoop(readLayout, files, parts, diskIndex, p, disk.State()) == spec
    {
      ghost var before := disk.State();
      var w, _ := RestorePartition(disk, readLayout, files, parts[p], diskIndex, p);
      if w.Err? {
        assert PartitionLoop(readLayout, files, parts, diskIndex, p, before) == Err(w.error);
        return Err(w.error), disk;
      }
      assert PartitionLoop(readLayout, files, parts, diskIndex, p, before)
          == PartitionLoop(readLayout, files, parts, diskIndex, p + 1, disk.State());
      p := p + 1;
    }
    return Ok(()), disk;
  }
}
