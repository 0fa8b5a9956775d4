/** The backup set of one partition: the chain of backup files from the last
    full backup to the newest incremental, and the block map that says, for
    every block of the partition, which file holds its newest copy. */
module BackupSet {
  import opened Bytes
  import opened Results
  import opened Layout

  // ---------------------------------------------------------------------------
  // Ordering of the file history

  /** SortByDescFileNumber: the comparator handed to std::sort. */
  predicate SortByDescFileNumber(a: FileHistory, b: FileHistory) {
    a.file_number > b.file_number
  }

  /** Newest first: no entry has a smaller file number than a later one. */
  ghost predicate SortedDesc(h: seq<FileHistory>) {
    forall i, j :: 0 <= i < j < |h| ==> !SortByDescFileNumber(h[j], h[i])
  }

  /** x placed in front of the first entry it does not sort after. */
  function InsertDesc(x: FileHistory, s: seq<FileHistory>): (r: seq<FileHistory>)
    requires SortedDesc(s)
    ensures SortedDesc(r) && multiset(r) == multiset(s) + multiset{x}
    ensures |r| > 0 && (r[0] == x || (|s| > 0 && r[0] == s[0]))
  {
    if s == [] || !SortByDescFileNumber(s[0], x) then [x] + s
    else
      var t := InsertDesc(x, s[1..]);
      assert s == [s[0]] + s[1..];
      [s[0]] + t
  }

  /** The history as std::sort leaves it.  std::sort may order entries with
      equal file numbers either way; this model keeps their original order. */
  function SortedHistory(h: seq<FileHistory>): (r: seq<FileHistory>)
    ensures SortedDesc(r) && multiset(r) == multiset(h)
  {
    if h == [] then []
    else
      assert h == [h[0]] + h[1..];
      InsertDesc(h[0], SortedHistory(h[1..]))
  }

  // ---------------------------------------------------------------------------
  // FindBackupFiles: the chain of files back to the last full backup

  /** readBackupFileLayout for a file name: the layout of that backup file, or
      the error that reading it raises. */
  type LayoutReader = string -> Result<FileLayout>

  /** The inner loop of FindBackupFiles: the first partition with the given
      partition_number. */
  function FirstMatch(parts: seq<PartitionLayout>, number: int): (r: Option<PartitionLayout>)
    ensures r.None? <==> forall k :: 0 <= k < |parts| ==> parts[k].header.partition_number != number
    ensures r.Some? ==> exists k :: 0 <= k < |parts| && parts[k] == r.value
                          && (forall j :: 0 <= j < k ==> parts[j].header.partition_number != number)
    ensures r.Some? ==> r.value.header.partition_number == number
  {
    if parts == [] then None
    else if parts[0].header.partition_number == number then Some(parts[0])
    else
      var r := FirstMatch(parts[1..], number);
      assert forall k :: 1 <= k < |parts| ==> parts[k] == parts[1..][k - 1];
      r
  }

  /** What one visited history entry contributes: whether it is a full backup
      (delta_index is 0) and its partition with the target's number, if any. */
  datatype Visit = Visit(full: bool, matched: Option<PartitionLayout>)

  /** One visited entry: read its layout, then look through disks[diskIndex]. */
  function VisitFile(readLayout: LayoutReader, name: string, diskIndex: nat, number: int): (r: Result<Visit>)
    ensures readLayout(name).Err? ==> r == Err(readLayout(name).error)
    ensures readLayout(name).Ok? && diskIndex >= |readLayout(name).value.disks| ==> r == Err(UndefinedIndex)
    ensures r.Ok? ==> && readLayout(name).Ok? && diskIndex < |readLayout(name).value.disks|
                      && r.value.full == !readLayout(name).value.header.delta_index
                      && r.value.matched == FirstMatch(readLayout(name).value.disks[diskIndex].partitions, number)
  {
    var layout :- readLayout(name);
    if diskIndex >= |layout.disks| then Err(UndefinedIndex)
    else Ok(Visit(!layout.header.delta_index, FirstMatch(layout.disks[diskIndex].partitions, number)))
  }

  /** The loop of FindBackupFiles from entry i of the sorted history: every
      visited name is put in front of paths and its matching partition, if
      any, in front of layouts; the loop ends after the first full backup. */
  function ChainFrom(readLayout: LayoutReader, hist: seq<FileHistory>, diskIndex: nat, number: int,
                     i: nat, paths: seq<string>, layouts: seq<PartitionLayout>): Result<(seq<string>, seq<PartitionLayout>)>
    decreases |hist| - i
  {
    if i >= |hist| then Ok((paths, layouts))
    else
      var name := hist[i].file_name;
      var v :- VisitFile(readLayout, name, diskIndex, number);
      var layouts' := if v.matched.Some? then [v.matched.value] + layouts else layouts;
      if v.full then Ok(([name] + paths, layouts'))
      else ChainFrom(readLayout, hist, diskIndex, number, i + 1, [name] + paths, layouts')
  }

  /** One past the last entry the loop visits from i: the first full backup,
      the first entry whose visit fails, or the end of the history. */
  function ChainEnd(readLayout: LayoutReader, hist: seq<FileHistory>, diskIndex: nat, number: int, i: nat): (e: nat)
    ensures i <= |hist| ==> i <= e <= |hist|
    ensures i < |hist| ==> i < e
    decreases |hist| - i
  {
    if i >= |hist| then i
    else match VisitFile(readLayout, hist[i].file_name, diskIndex, number)
      case Err(_) => i + 1
      case Ok(v) => if v.full then i + 1 else ChainEnd(readLayout, hist, diskIndex, number, i + 1)
  }

  function Names(h: seq<FileHistory>): (r: seq<string>)
    ensures |r| == |h| && forall k :: 0 <= k < |h| ==> r[k] == h[k].file_name
  {
    seq(|h|, k requires 0 <= k < |h| => h[k].file_name)
  }

  function Reversed<T>(s: seq<T>): (r: seq<T>)
    ensures |r| == |s| && forall k :: 0 <= k < |s| ==> r[k] == s[|s| - 1 - k]
  {
    if s == [] then [] else Reversed(s[1..]) + [s[0]]
  }

  /** The loop succeeds exactly when every entry it visits can be read and has
      the disk. */
  lemma {:induction false} ChainOk(readLayout: LayoutReader, hist: seq<FileHistory>, diskIndex: nat, number: int,
                                   i: nat, paths: seq<string>, layouts: seq<PartitionLayout>)
    requires i <= |hist|
    ensures var e := ChainEnd(readLayout, hist, diskIndex, number, i);
      (ChainFrom(readLayout, hist, diskIndex, number, i, paths, layouts).Ok?
       <==> forall j :: i <= j < e ==> VisitFile(readLayout, hist[j].file_name, diskIndex, number).Ok?)
    decreases |hist| - i
  {
    if i < |hist| {
      var v := VisitFile(readLayout, hist[i].file_name, diskIndex, number);
      if v.Ok? && !v.value.full {
        var layouts' := if v.value.matched.Some? then [v.value.matched.value] + layouts else layouts;
        ChainOk(readLayout, hist, diskIndex, number, i + 1, [hist[i].file_name] + paths, layouts');
      }
    }
  }

  /** filePaths ends up oldest to newest: the names of the visited entries in
      reverse visiting order, in front of what it held before. */
  lemma {:induction false} ChainPaths(readLayout: LayoutReader, hist: seq<FileHistory>, diskIndex: nat, number: int,
                                      i: nat, paths: seq<string>, layouts: seq<PartitionLayout>)
    requires i <= |hist|
    requires ChainFrom(readLayout, hist, diskIndex, number, i, paths, layouts).Ok?
    ensures var e := ChainEnd(readLayout, hist, diskIndex, number, i);
      ChainFrom(readLayout, hist, diskIndex, number, i, paths, layouts).value.0
        == Reversed(Names(hist[i..e])) + paths
    decreases |hist| - i
  {
    var e := ChainEnd(readLayout, hist, diskIndex, number, i);
    if i < |hist| {
      var name := hist[i].file_name;
      var v := VisitFile(readLayout, name, diskIndex, number).value;
      var layouts' := if v.matched.Some? then [v.matched.value] + layouts else layouts;
      if v.full {
        assert hist[i..e] == [hist[i]];
        assert Reversed(Names([hist[i]])) == [name];
      } else {
        ChainPaths(readLayout, hist, diskIndex, number, i + 1, [name] + paths, layouts');
        assert Names(hist[i..e]) == [name] + Names(hist[i + 1..e]);
        assert Reversed(Names(hist[i..e])) == Reversed(Names(hist[i + 1..e])) + [name];
      }
    } else {
      assert hist[i..e] == [];
    }
  }

  /** The loop only puts names and layouts in front: what paths and layouts
      held before stays at their ends, and at most one layout comes with each
      visited name. */
  lemma {:induction false} ChainSuffixes(readLayout: LayoutReader, hist: seq<FileHistory>, diskIndex: nat, number: int,
                                             i: nat, paths: seq<string>, layouts: seq<PartitionLayout>)
    requires ChainFrom(readLayout, hist, diskIndex, number, i, paths, layouts).Ok?
    ensures var r := ChainFrom(readLayout, hist, diskIndex, number, i, paths, layouts).value;
      && |paths| <= |r.0| && |layouts| <= |r.1| && |r.1| - |layouts| <= |r.0| - |paths|
      && r.0[|r.0| - |paths|..] == paths && r.1[|r.1| - |layouts|..] == layouts
    decreases |hist| - i
  {
    if i < |hist| {
      var name := hist[i].file_name;
      var v := VisitFile(readLayout, name, diskIndex, number).value;
      var layouts' := if v.matched.Some? then [v.matched.value] + layouts else layouts;
      if !v.full {
        ChainSuffixes(readLayout, hist, diskIndex, number, i + 1, [name] + paths, layouts');
        var r := ChainFrom(readLayout, hist, diskIndex, number, i, paths, layouts).value;
        assert r.0[|r.0| - |paths|..] == r.0[|r.0| - |paths| - 1..][1..];
        assert r.1[|r.1| - |layouts|..] == r.1[|r.1| - |layouts'|..][|layouts'| - |layouts|..];
      }
    }
  }

  /** No entry older than the first full backup is visited: the outcome is the
      same when those entries are dropped from the history. */
  lemma {:induction false} ChainStopsAtFull(readLayout: LayoutReader, hist: seq<FileHistory>, diskIndex: nat, number: int,
                                            i: nat, paths: seq<string>, layouts: seq<PartitionLayout>)
    requires i <= |hist|
    ensures var e := ChainEnd(readLayout, hist, diskIndex, number, i);
      ChainFrom(readLayout, hist, diskIndex, number, i, paths, layouts)
        == ChainFrom(readLayout, hist[..e], diskIndex, number, i, paths, layouts)
    decreases |hist| - i
  {
    var e := ChainEnd(readLayout, hist, diskIndex, number, i);
    if i < |hist| {
      var name := hist[i].file_name;
      assert hist[..e][i] == hist[i];
      var v := VisitFile(readLayout, name, diskIndex, number);
      if v.Ok? && !v.value.full {
        var layouts' := if v.value.matched.Some? then [v.value.matched.value] + layouts else layouts;
        ChainStopsAtFull(readLayout, hist, diskIndex, number, i + 1, [name] + paths, layouts');
        ChainEndPrefix(readLayout, hist, diskIndex, number, i + 1, e);
        assert hist[..e][..e] == hist[..e];
      }
    }
  }

  /** Cutting the history at or after the end of the loop does not move that end. */
  lemma {:induction false} ChainEndPrefix(readLayout: LayoutReader, hist: seq<FileHistory>, diskIndex: nat, number: int,
                                          i: nat, n: nat)
    requires i <= |hist| && ChainEnd(readLayout, hist, diskIndex, number, i) <= n <= |hist|
    ensures ChainEnd(readLayout, hist[..n], diskIndex, number, i) == ChainEnd(readLayout, hist, diskIndex, number, i)
    decreases |hist| - i
  {
    if i < |hist| {
      assert hist[..n][i] == hist[i];
      var v := VisitFile(readLayout, hist[i].file_name, diskIndex, number);
      if v.Ok? && !v.value.full {
        ChainEndPrefix(readLayout, hist, diskIndex, number, i + 1, n);
      }
    }
  }

  /** When every visited file has the partition, paths and layouts grow in
      step, and each layout comes from the file at the same position. */
  lemma {:induction false} ChainAligned(readLayout: LayoutReader, hist: seq<FileHistory>, diskIndex: nat, number: int,
                                        i: nat, paths: seq<string>, layouts: seq<PartitionLayout>)
    requires i <= |hist|
    requires ChainFrom(readLayout, hist, diskIndex, number, i, paths, layouts).Ok?
    requires forall j :: i <= j < ChainEnd(readLayout, hist, diskIndex, number, i) ==>
      VisitFile(readLayout, hist[j].file_name, diskIndex, number).Ok? &&
      VisitFile(readLayout, hist[j].file_name, diskIndex, number).value.matched.Some?
    ensures var r := ChainFrom(readLayout, hist, diskIndex, number, i, paths, layouts).value;
      && |r.1| - |layouts| == |r.0| - |paths| >= 0
      && forall k :: 0 <= k < |r.0| - |paths| ==>
           && VisitFile(readLayout, r.0[k], diskIndex, number).Ok?
           && VisitFile(readLayout, r.0[k], diskIndex, number).value.matched.Some?
           && r.1[k] == VisitFile(readLayout, r.0[k], diskIndex, number).value.matched.value
    decreases |hist| - i
  {
    if i < |hist| {
      var name := hist[i].file_name;
      var v := VisitFile(readLayout, name, diskIndex, number).value;
      var layouts' := [v.matched.value] + layouts;
      if !v.full {
        ChainAligned(readLayout, hist, diskIndex, number, i + 1, [name] + paths, layouts');
        ChainSuffixes(readLayout, hist, diskIndex, number, i + 1, [name] + paths, layouts');
      }
    }
  }

  /** The matching partitions of the given entries, in history order: one for
      each entry whose visit succeeds and finds the partition, none for the
      others. */
  function Matched(readLayout: LayoutReader, h: seq<FileHistory>, diskIndex: nat, number: int): (r: seq<PartitionLayout>)
    ensures |r| <= |h|
  {
    if h == [] then []
    else
      var v := VisitFile(readLayout, h[0].file_name, diskIndex, number);
      (if v.Ok? && v.value.matched.Some? then [v.value.matched.value] else [])
        + Matched(readLayout, h[1..], diskIndex, number)
  }

  /** Reversing the matches of a non-empty run of entries puts the first
      entry's match, if any, last. */
  lemma MatchedFirstLast(readLayout: LayoutReader, h: seq<FileHistory>, diskIndex: nat, number: int)
    requires |h| > 0
    ensures var v := VisitFile(readLayout, h[0].file_name, diskIndex, number);
      Reversed(Matched(readLayout, h, diskIndex, number))
        == Reversed(Matched(readLayout, h[1..], diskIndex, number))
           + (if v.Ok? && v.value.matched.Some? then [v.value.matched.value] else [])
  {
    var v := VisitFile(readLayout, h[0].file_name, diskIndex, number);
    var rest := Matched(readLayout, h[1..], diskIndex, number);
    if v.Ok? && v.value.matched.Some? {
      var m := [v.value.matched.value] + rest;
      assert m[0] == v.value.matched.value && m[1..] == rest;
    } else {
      assert Matched(readLayout, h, diskIndex, number) == rest;
    }
  }

  /** partitionLayouts ends up oldest to newest: the first matching partition
      of every visited file that has one, in reverse visiting order, in front
      of what it held before; a visited file without the partition adds
      nothing. */
  lemma {:induction false} ChainLayouts(readLayout: LayoutReader, hist: seq<FileHistory>, diskIndex: nat, number: int,
                                        i: nat, paths: seq<string>, layouts: seq<PartitionLayout>)
    requires i <= |hist|
    requires ChainFrom(readLayout, hist, diskIndex, number, i, paths, layouts).Ok?
    ensures var e := ChainEnd(readLayout, hist, diskIndex, number, i);
      ChainFrom(readLayout, hist, diskIndex, number, i, paths, layouts).value.1
        == Reversed(Matched(readLayout, hist[i..e], diskIndex, number)) + layouts
    decreases |hist| - i
  {
    var e := ChainEnd(readLayout, hist, diskIndex, number, i);
    if i < |hist| {
      var name := hist[i].file_name;
      var v := VisitFile(readLayout, name, diskIndex, number).value;
      var layouts' := if v.matched.Some? then [v.matched.value] + layouts else layouts;
      if v.full {
        assert e == i + 1;
        assert hist[i..e] == [hist[i]] && hist[i..e][1..] == [];
        MatchedFirstLast(readLayout, hist[i..e], diskIndex, number);
      } else {
        assert e == ChainEnd(readLayout, hist, diskIndex, number, i + 1);
        assert ChainFrom(readLayout, hist, diskIndex, number, i, paths, layouts)
            == ChainFrom(readLayout, hist, diskIndex, number, i + 1, [name] + paths, layouts');
        ChainLayouts(readLayout, hist, diskIndex, number, i + 1, [name] + paths, layouts');
        assert hist[i..e][0] == hist[i] && hist[i..e][1..] == hist[i + 1..e];
        MatchedFirstLast(readLayout, hist[i..e], diskIndex, number);
      }
    } else {
      assert hist[i..e] == [];
    }
  }

  // ---------------------------------------------------------------------------
  // The block map

  /** BackupSetBlockIndexElement: a block and the handle of the file it is in,
      as an index into backupFilePtrs. */
  datatype MapEntry = MapEntry(block: DataBlock, file: nat)

  /** FillInitialBlockFileMap's entries: one per element of the full backup's
      index, in order, all in the given file. */
  function InitialMap(blocks: seq<DataBlock>, file: nat): (r: seq<MapEntry>)
    ensures |r| == |blocks|
    ensures forall k :: 0 <= k < |blocks| ==> r[k] == MapEntry(blocks[k], file)
  {
    if blocks == [] then [] else InitialMap(blocks[..|blocks| - 1], file) + [MapEntry(blocks[|blocks| - 1], file)]
  }

  /** Every delta names an existing entry of a map of n entries. */
  predicate DeltasFit(ds: seq<DeltaBlock>, n: nat) {
    forall k :: 0 <= k < |ds| ==> ds[k].block_index < n
  }

  /** The inner loop of AddDeltaToBlockFileMap: each delta in turn overwrites
      the entry it names with its block in the given file. */
  function Overlay(m: seq<MapEntry>, ds: seq<DeltaBlock>, file: nat): (r: seq<MapEntry>)
    requires DeltasFit(ds, |m|)
    ensures |r| == |m|
  {
    if ds == [] then m
    else
      var d := ds[|ds| - 1];
      Overlay(m, ds[..|ds| - 1], file)[d.block_index := MapEntry(d.data_block, file)]
  }

  /** The block of the last delta in ds for the given entry, if any. */
  function LastDelta(ds: seq<DeltaBlock>, b: nat): (r: Option<DataBlock>)
    ensures r.None? <==> forall k :: 0 <= k < |ds| ==> ds[k].block_index != b
    ensures r.Some? ==> exists k :: 0 <= k < |ds| && ds[k].block_index == b && ds[k].data_block == r.value
                          && forall j :: k < j < |ds| ==> ds[j].block_index != b
  {
    if ds == [] then None
    else if ds[|ds| - 1].block_index == b then Some(ds[|ds| - 1].data_block)
    else LastDelta(ds[..|ds| - 1], b)
  }

  /** One file's deltas: the entries they name hold the last delta for them
      and the file; every other entry is unchanged. */
  lemma {:induction false} OverlayAt(m: seq<MapEntry>, ds: seq<DeltaBlock>, file: nat, b: nat)
    requires DeltasFit(ds, |m|) && b < |m|
    ensures Overlay(m, ds, file)[b] == match LastDelta(ds, b)
                                        case None => m[b]
                                        case Some(d) => MapEntry(d, file)
  {
    if ds != [] {
      OverlayAt(m, ds[..|ds| - 1], file, b);
    }
  }

  /** The delta lists of layouts in order. */
  function DeltaLists(layouts: seq<PartitionLayout>): (r: seq<seq<DeltaBlock>>)
    ensures |r| == |layouts| && forall k :: 0 <= k < |layouts| ==> r[k] == layouts[k].delta_data_block_index
  {
    seq(|layouts|, k requires 0 <= k < |layouts| => layouts[k].delta_data_block_index)
  }

  predicate AllFit(lists: seq<seq<DeltaBlock>>, n: nat) {
    forall k :: 0 <= k < |lists| ==> DeltasFit(lists[k], n)
  }

  /** The outer loop of AddDeltaToBlockFileMap: the delta lists applied in
      order, list k with file base + k. */
  function ApplyDeltas(m: seq<MapEntry>, lists: seq<seq<DeltaBlock>>, base: nat): (r: seq<MapEntry>)
    requires AllFit(lists, |m|)
    ensures |r| == |m|
    decreases |lists|
  {
    if lists == [] then m
    else
      assert forall k :: 0 <= k < |lists| - 1 ==> lists[1..][k] == lists[k + 1];
      ApplyDeltas(Overlay(m, lists[0], base), lists[1..], base + 1)
  }

  /** The entry the newest list that mentions block b gives it, if any. */
  function Newest(lists: seq<seq<DeltaBlock>>, b: nat, base: nat): Option<MapEntry> {
    if lists == [] then None
    else match Newest(lists[1..], b, base + 1)
      case Some(e) => Some(e)
      case None =>
        match LastDelta(lists[0], b)
        case Some(d) => Some(MapEntry(d, base))
        case None => None
  }

  /** Later files win: after all deltas, entry b holds the newest delta for it
      with that delta's file, or its initial entry when no file mentions it. */
  lemma {:induction false} ApplyDeltasAt(m: seq<MapEntry>, lists: seq<seq<DeltaBlock>>, base: nat, b: nat)
    requires AllFit(lists, |m|) && b < |m|
    ensures ApplyDeltas(m, lists, base)[b] == match Newest(lists, b, base)
                                               case None => m[b]
                                               case Some(e) => e
    decreases |lists|
  {
    if lists != [] {
      var m1 := Overlay(m, lists[0], base);
      assert forall k :: 0 <= k < |lists| - 1 ==> lists[1..][k] == lists[k + 1];
      ApplyDeltasAt(m1, lists[1..], base + 1, b);
      OverlayAt(m, lists[0], base, b);
    }
  }

  /** An entry no delta mentions keeps its initial block and file. */
  lemma {:induction false} NewestNone(lists: seq<seq<DeltaBlock>>, b: nat, base: nat)
    requires forall k, j :: 0 <= k < |lists| && 0 <= j < |lists[k]| ==> lists[k][j].block_index != b
    ensures Newest(lists, b, base).None?
  {
    if lists != [] {
      assert forall k :: 0 <= k < |lists| - 1 ==> lists[1..][k] == lists[k + 1];
      NewestNone(lists[1..], b, base + 1);
    }
  }

  /** The file the newest delta comes from is one of the lists' files. */
  lemma {:induction false} NewestFile(lists: seq<seq<DeltaBlock>>, b: nat, base: nat)
    ensures Newest(lists, b, base).Some? ==> base <= Newest(lists, b, base).value.file < base + |lists|
  {
    if lists != [] {
      NewestFile(lists[1..], b, base + 1);
    }
  }

  /** Every file a map entry refers to is below the given bound. */
  predicate FilesBelow(m: seq<MapEntry>, n: nat) {
    forall k :: 0 <= k < |m| ==> m[k].file < n
  }

  /** Overlaying lists of files base.. keeps every entry's file below
      base + |lists| when it was below base before. */
  lemma ApplyDeltasFiles(m: seq<MapEntry>, lists: seq<seq<DeltaBlock>>, base: nat)
    requires AllFit(lists, |m|) && FilesBelow(m, base)
    ensures FilesBelow(ApplyDeltas(m, lists, base), base + |lists|)
  {
    forall b | 0 <= b < |m|
      ensures ApplyDeltas(m, lists, base)[b].file < base + |lists|
    {
      ApplyDeltasAt(m, lists, base, b);
      NewestFile(lists, b, base);
    }
  }

  /** A full backup [A0..A4] and one incremental {2: B} give [A0, A1, B, A3, A4]. */
  lemma OverlayExample(a: seq<DataBlock>, bBlock: DataBlock)
    requires |a| == 5
    ensures ApplyDeltas(InitialMap(a, 0), [[DeltaBlock(2, bBlock)]], 1)
         == [MapEntry(a[0], 0), MapEntry(a[1], 0), MapEntry(bBlock, 1), MapEntry(a[3], 0), MapEntry(a[4], 0)]
  {
    var m := InitialMap(a, 0);
    var ds := [DeltaBlock(2, bBlock)];
    assert ds[..0] == [];
    assert Overlay(m, ds, 1) == m[2 := MapEntry(bBlock, 1)];
    var tail: seq<seq<DeltaBlock>> := [ds][1..];
    assert tail == [];
    assert ApplyDeltas(m, [ds], 1) == Overlay(m, ds, 1);
  }

  // ---------------------------------------------------------------------------
  // Backup file handles

  /** An open std::fstream on a backup file: its path, its bytes, and whether
      it is still open. */
  datatype FileHandle = FileHandle(path: string, data: seq<byte>, isOpen: bool)

  /** openFile on a backup file: it fails when there is no such file. */
  function OpenHandle(files: map<string, seq<byte>>, path: string): (r: Result<FileHandle>)
    ensures path !in files ==> r == Err(OpenFailed(path))
    ensures path in files ==> r == Ok(FileHandle(path, files[path], true))
  {
    if path in files then Ok(FileHandle(path, files[path], true)) else Err(OpenFailed(path))
  }

  // ---------------------------------------------------------------------------
  // PartitionBackupSet

  /** The four vectors of a PartitionBackupSet. */
  datatype State = State(
    filePaths: seq<string>,
    partitionLayouts: seq<PartitionLayout>,
    blockIndex: seq<MapEntry>,
    handles: seq<FileHandle>)

  const EMPTY: State := State([], [], [], [])

  /** FindBackupFiles on the given contents. */
  function FindSpec(readLayout: LayoutReader, c: State, target: PartitionLayout, diskIndex: nat): Result<State> {
    var r :- ChainFrom(readLayout, SortedHistory(target.header.file_history), diskIndex,
                       target.header.partition_number, 0, c.filePaths, c.partitionLayouts);
    Ok(c.(filePaths := r.0, partitionLayouts := r.1))
  }

  /** FillInitialBlockFileMap: open filePaths[0], then one entry per element of
      the oldest layout's full index, all in that file.  An empty filePaths or
      partitionLayouts is an index out of range. */
  function FillSpec(files: map<string, seq<byte>>, c: State): Result<State> {
    if |c.filePaths| == 0 then Err(UndefinedIndex)
    else
      var h :- OpenHandle(files, c.filePaths[0]);
      if |c.partitionLayouts| == 0 then Err(UndefinedIndex)
      else Ok(c.(handles := c.handles + [h],
                 blockIndex := c.blockIndex + InitialMap(c.partitionLayouts[0].data_block_index, |c.handles|)))
  }

  /** The loop of AddDeltaToBlockFileMap from layout i: open filePaths[i], then
      overlay that layout's deltas with the new handle.  A missing path or a
      delta past the end of the map is an index out of range. */
  function AddFrom(files: map<string, seq<byte>>, c: State, i: nat): Result<State>
    decreases |c.partitionLayouts| - i
  {
    if i >= |c.partitionLayouts| then Ok(c)
    else if i >= |c.filePaths| then Err(UndefinedIndex)
    else
      var h :- OpenHandle(files, c.filePaths[i]);
      var ds := c.partitionLayouts[i].delta_data_block_index;
      if !DeltasFit(ds, |c.blockIndex|) then Err(UndefinedIndex)
      else AddFrom(files, c.(handles := c.handles + [h], blockIndex := Overlay(c.blockIndex, ds, |c.handles|)), i + 1)
  }

  /** h is the open handle on filePaths[k]. */
  predicate HandleOn(files: map<string, seq<byte>>, paths: seq<string>, k: int, h: FileHandle) {
    0 <= k < |paths| && paths[k] in files && h == FileHandle(paths[k], files[paths[k]], true)
  }

  /** Layout k can be added to a map of n entries: it has a path, that file
      exists, and its deltas name existing entries. */
  predicate Addable(files: map<string, seq<byte>>, paths: seq<string>, layouts: seq<PartitionLayout>, n: nat, k: nat)
    requires k < |layouts|
  {
    k < |paths| && paths[k] in files && DeltasFit(layouts[k].delta_data_block_index, n)
  }

  /** AddDeltaToBlockFileMap from layout i succeeds exactly when every later
      layout can be added. */
  lemma {:induction false} AddFromOk(files: map<string, seq<byte>>, c: State, i: nat)
    requires i <= |c.partitionLayouts|
    ensures AddFrom(files, c, i).Ok? <==>
      forall k :: i <= k < |c.partitionLayouts| ==> Addable(files, c.filePaths, c.partitionLayouts, |c.blockIndex|, k)
    decreases |c.partitionLayouts| - i
  {
    var layouts := c.partitionLayouts;
    if i < |layouts| {
      if i < |c.filePaths| && c.filePaths[i] in files && DeltasFit(layouts[i].delta_data_block_index, |c.blockIndex|) {
        var h := OpenHandle(files, c.filePaths[i]).value;
        var ds := layouts[i].delta_data_block_index;
        var c' := c.(handles := c.handles + [h], blockIndex := Overlay(c.blockIndex, ds, |c.handles|));
        AddFromOk(files, c', i + 1);
      } else {
        assert !Addable(files, c.filePaths, layouts, |c.blockIndex|, i);
      }
    }
  }

  /** When AddDeltaToBlockFileMap from layout i succeeds, one open handle is
      appended per layout, in order, and the map is the old one with their
      deltas applied in order. */
  lemma {:induction false} AddFromValue(files: map<string, seq<byte>>, c: State, i: nat)
    requires i <= |c.partitionLayouts| && AddFrom(files, c, i).Ok?
    ensures var r := AddFrom(files, c, i).value;
      && r.filePaths == c.filePaths && r.partitionLayouts == c.partitionLayouts
      && |r.handles| == |c.handles| + |c.partitionLayouts| - i
      && r.handles[..|c.handles|] == c.handles
    ensures var r := AddFrom(files, c, i).value;
      forall j :: |c.handles| <= j < |r.handles| ==> HandleOn(files, c.filePaths, j - |c.handles| + i, r.handles[j])
    ensures && AllFit(DeltaLists(c.partitionLayouts[i..]), |c.blockIndex|)
            && AddFrom(files, c, i).value.blockIndex
               == ApplyDeltas(c.blockIndex, DeltaLists(c.partitionLayouts[i..]), |c.handles|)
    decreases |c.partitionLayouts| - i
  {
    var layouts := c.partitionLayouts;
    var lists := DeltaLists(layouts[i..]);
    if i == |layouts| {
      assert lists == [];
    } else {
      var h := OpenHandle(files, c.filePaths[i]).value;
      var ds := layouts[i].delta_data_block_index;
      var c' := c.(handles := c.handles + [h], blockIndex := Overlay(c.blockIndex, ds, |c.handles|));
      assert AddFrom(files, c, i) == AddFrom(files, c', i + 1);
      AddFromValue(files, c', i + 1);
      assert lists[0] == ds;
      assert lists[1..] == DeltaLists(layouts[i + 1..]);
      var r := AddFrom(files, c, i).value;
      assert r.handles[..|c'.handles|] == c'.handles;
      assert r.handles[..|c.handles|] == c'.handles[..|c.handles|];
      forall j | |c.handles| <= j < |r.handles|
        ensures HandleOn(files, c.filePaths, j - |c.handles| + i, r.handles[j])
      {
        if j > |c.handles| {
          assert j - |c.handles| + i == j - |c'.handles| + (i + 1);
        } else {
          assert r.handles[j] == c'.handles[|c.handles|];
        }
      }
    }
  }

  /** BuildPartitionBackupSet: FindBackupFiles, FillInitialBlockFileMap and
      AddDeltaToBlockFileMap in turn, the first failure ending it. */
  function BuildSpec(readLayout: LayoutReader, files: map<string, seq<byte>>, c: State,
                     target: PartitionLayout, diskIndex: nat): Result<State>
  {
    var c1 :- FindSpec(readLayout, c, target, diskIndex);
    var c2 :- FillSpec(files, c1);
    AddFrom(files, c2, 1)
  }

  class PartitionBackupSet {
    var filePaths: seq<string>
    var partitionLayouts: seq<PartitionLayout>
    var backupSetBlockIndex: seq<MapEntry>
    var backupFilePtrs: seq<FileHandle>

    function Contents(): State
      reads this
    {
      State(filePaths, partitionLayouts, backupSetBlockIndex, backupFilePtrs)
    }

    constructor()
      ensures Contents() == EMPTY
    {
      filePaths, partitionLayouts, backupSetBlockIndex, backupFilePtrs := [], [], [], [];
    }

    /** The source's loop over one disk's partitions, stopping at the first
        with the target's partition_number. */
    static method MatchingPartition(parts: seq<PartitionLayout>, number: int) returns (r: Option<PartitionLayout>)
      ensures r == FirstMatch(parts, number)
    {
      var k := 0;
      while k < |parts|
        invariant k <= |parts|
        invariant FirstMatch(parts[k..], number) == FirstMatch(parts, number)
      {
        if parts[k].header.partition_number == number {
          return Some(parts[k]);
        }
        assert parts[k..][1..] == parts[k + 1..];
        k := k + 1;
      }
      return None;
    }

    /** FindBackupFiles: sort the target's history newest first (returned, as
        the source sorts the caller's vector in place), then walk it. */
    method FindBackupFiles(readLayout: LayoutReader, target: PartitionLayout, diskIndex: nat)
      returns (r: Result<seq<FileHistory>>)
      modifies this
      ensures r.Ok? <==> FindSpec(readLayout, old(Contents()), target, diskIndex).Ok?
      ensures r.Err? ==> r.error == FindSpec(readLayout, old(Contents()), target, diskIndex).error
      ensures r.Ok? ==> && r.value == SortedHistory(target.header.file_history)
                        && Contents() == FindSpec(readLayout, old(Contents()), target, diskIndex).value
    {
      var hist := SortedHistory(target.header.file_history);
      var number := target.header.partition_number;
      ghost var start := Contents();
      var i := 0;
      while i < |hist|
        invariant i <= |hist|
        invariant backupSetBlockIndex == start.blockIndex && backupFilePtrs == start.handles
        invariant ChainFrom(readLayout, hist, diskIndex, number, i, filePaths, partitionLayouts)
               == ChainFrom(readLayout, hist, diskIndex, number, 0, start.filePaths, start.partitionLayouts)
      {
        var name := hist[i].file_name;
        ghost var paths, layouts := filePaths, partitionLayouts;
        filePaths := [name] + filePaths;
        var layout := readLayout(name);
        if layout.Err? {
          return Err(layout.error);
        }
        if diskIndex >= |layout.value.disks| {
          return Err(UndefinedIndex);
        }
        var m := MatchingPartition(layout.value.disks[diskIndex].partitions, number);
        if m.Some? {
          partitionLayouts := [m.value] + partitionLayouts;
        }
        if !layout.value.header.delta_index {
          return Ok(hist);
        }
        assert ChainFrom(readLayout, hist, diskIndex, number, i, paths, layouts)
            == ChainFrom(readLayout, hist, diskIndex, number, i + 1, filePaths, partitionLayouts);
        i := i + 1;
      }
      return Ok(hist);
    }

    /** FillInitialBlockFileMap. */
    method FillInitialBlockFileMap(files: map<string, seq<byte>>) returns (r: Result<()>)
      modifies this
      ensures r.Ok? <==> FillSpec(files, old(Contents())).Ok?
      ensures r.Err? ==> r.error == FillSpec(files, old(Contents())).error
      ensures r.Ok? ==> Contents() == FillSpec(files, old(Contents())).value
    {
      if |filePaths| == 0 {
        return Err(UndefinedIndex);
      }
      var h := OpenHandle(files, filePaths[0]);
      if h.Err? {
        return Err(h.error);
      }
      var file := |backupFilePtrs|;
      backupFilePtrs := backupFilePtrs + [h.value];
      if |partitionLayouts| == 0 {
        return Err(UndefinedIndex);
      }
      var blocks := partitionLayouts[0].data_block_index;
      ghost var start := backupSetBlockIndex;
      var i := 0;
      while i < |blocks|
        invariant i <= |blocks|
        invariant filePaths == old(filePaths) && partitionLayouts == old(partitionLayouts)
        invariant backupFilePtrs == old(backupFilePtrs) + [h.value]
        invariant backupSetBlockIndex == start + InitialMap(blocks[..i], file)
      {
        assert blocks[..i + 1][..i] == blocks[..i];
        assert InitialMap(blocks[..i + 1], file) == InitialMap(blocks[..i], file) + [MapEntry(blocks[i], file)];
        backupSetBlockIndex := backupSetBlockIndex + [MapEntry(blocks[i], file)];
        i := i + 1;
      }
      assert blocks[..i] == blocks;
      return Ok(());
    }

    /** AddDeltaToBlockFileMap.  Indexing filePaths or the block map out of
        range is reported as UndefinedIndex. */
    method AddDeltaToBlockFileMap(files: map<string, seq<byte>>) returns (r: Result<()>)
      modifies this
      ensures r.Ok? <==> AddFrom(files, old(Contents()), 1).Ok?
      ensures r.Err? ==> r.error == AddFrom(files, old(Contents()), 1).error
      ensures r.Ok? ==> Contents() == AddFrom(files, old(Contents()), 1).value
    {
      ghost var start := Contents();
      var i := 1;
      while i < |partitionLayouts|
        invariant filePaths == start.filePaths && partitionLayouts == start.partitionLayouts
        invariant AddFrom(files, Contents(), i) == AddFrom(files, start, 1)
        decreases |partitionLayouts| - i
      {
        ghost var cur := Contents();
        if i >= |filePaths| {
          return Err(UndefinedIndex);
        }
        var h := OpenHandle(files, filePaths[i]);
        if h.Err? {
          return Err(h.error);
        }
        var file := |backupFilePtrs|;
        backupFilePtrs := backupFilePtrs + [h.value];
        var ds := partitionLayouts[i].delta_data_block_index;
        var j := 0;
        while j < |ds|
          invariant j <= |ds| && DeltasFit(ds[..j], |cur.blockIndex|)
          invariant backupSetBlockIndex == Overlay(cur.blockIndex, ds[..j], file)
          invariant filePaths == start.filePaths && partitionLayouts == start.partitionLayouts
          invariant backupFilePtrs == cur.handles + [h.value]
        {
          var d := ds[j];
          if d.block_index >= |backupSetBlockIndex| {
            assert !DeltasFit(ds, |cur.blockIndex|);
            return Err(UndefinedIndex);
          }
          assert ds[..j + 1][..j] == ds[..j];
          backupSetBlockIndex := backupSetBlockIndex[d.block_index := MapEntry(d.data_block, file)];
          j := j + 1;
        }
        assert ds[..j] == ds;
        i := i + 1;
      }
      return Ok(());
    }

    /** CloseBackupFiles: every handle is closed, none is dropped. */
    method CloseBackupFiles()
      modifies this
      ensures filePaths == old(filePaths) && partitionLayouts == old(partitionLayouts)
      ensures backupSetBlockIndex == old(backupSetBlockIndex)
      ensures |backupFilePtrs| == |old(backupFilePtrs)|
      ensures forall k :: 0 <= k < |backupFilePtrs| ==> backupFilePtrs[k] == old(backupFilePtrs[k]).(isOpen := false)
    {
      var i := 0;
      while i < |backupFilePtrs|
        invariant i <= |backupFilePtrs| == |old(backupFilePtrs)|
        invariant filePaths == old(filePaths) && partitionLayouts == old(partitionLayouts)
        invariant backupSetBlockIndex == old(backupSetBlockIndex)
        invariant forall k :: 0 <= k < i ==> backupFilePtrs[k] == old(backupFilePtrs[k]).(isOpen := false)
        invariant forall k :: i <= k < |backupFilePtrs| ==> backupFilePtrs[k] == old(backupFilePtrs[k])
      {
        backupFilePtrs := backupFilePtrs[i := backupFilePtrs[i].(isOpen := false)];
        i := i + 1;
      }
    }

    /** BuildPartitionBackupSet. */
    method BuildPartitionBackupSet(readLayout: LayoutReader, files: map<string, seq<byte>>,
                                   target: PartitionLayout, diskIndex: nat)
      returns (r: Result<seq<FileHistory>>)
      modifies this
      ensures r.Ok? <==> BuildSpec(readLayout, files, old(Contents()), target, diskIndex).Ok?
      ensures r.Err? ==> r.error == BuildSpec(readLayout, files, old(Contents()), target, diskIndex).error
      ensures r.Ok? ==> && r.value == SortedHistory(target.header.file_history)
                        && Contents() == BuildSpec(readLayout, files, old(Contents()), target, diskIndex).value
    {
      r := FindBackupFiles(readLayout, target, diskIndex);
      if r.Err? {
        return;
      }
      var fr := FillInitialBlockFileMap(files);
      if fr.Err? {
        return Err(fr.error);
      }
      var ar := AddDeltaToBlockFileMap(files);
      if ar.Err? {
        return Err(ar.error);
      }
    }
  }

  /** BuildPartitionBackupSet on a fresh set succeeds exactly when the chain is
      found, its oldest file opens and has the partition, and every later
      layout can be added to the oldest one's map. */
  lemma BuildOk(readLayout: LayoutReader, files: map<string, seq<byte>>, target: PartitionLayout, diskIndex: nat)
    ensures BuildSpec(readLayout, files, EMPTY, target, diskIndex).Ok? <==>
      && FindSpec(readLayout, EMPTY, target, diskIndex).Ok?
      && var c := FindSpec(readLayout, EMPTY, target, diskIndex).value;
         && |c.filePaths| > 0 && c.filePaths[0] in files && |c.partitionLayouts| > 0
         && forall k :: 1 <= k < |c.partitionLayouts| ==>
              Addable(files, c.filePaths, c.partitionLayouts, |c.partitionLayouts[0].data_block_index|, k)
  {
    var f := FindSpec(readLayout, EMPTY, target, diskIndex);
    if f.Ok? {
      var c2 := FillSpec(files, f.value);
      if c2.Ok? {
        AddFromOk(files, c2.value, 1);
      }
    }
  }

  /** Adding the later layouts to a set holding one handle, on the first path,
      gives one handle per layout, each on the path at the same position. */
  lemma AddHandles(files: map<string, seq<byte>>, c: State)
    requires |c.partitionLayouts| > 0 && |c.handles| == 1 && HandleOn(files, c.filePaths, 0, c.handles[0])
    requires AddFrom(files, c, 1).Ok?
    ensures var r := AddFrom(files, c, 1).value;
      && 0 < |r.partitionLayouts| <= |r.filePaths|
      && |r.handles| == |r.partitionLayouts|
      && forall k :: 0 <= k < |r.handles| ==> HandleOn(files, r.filePaths, k, r.handles[k])
  {
    AddFromValue(files, c, 1);
    var r := AddFrom(files, c, 1).value;
    var n := |c.partitionLayouts|;
    if n > 1 {
      AddFromOk(files, c, 1);
      assert Addable(files, c.filePaths, c.partitionLayouts, |c.blockIndex|, n - 1);
    }
    forall k | 0 <= k < |r.handles|
      ensures HandleOn(files, r.filePaths, k, r.handles[k])
    {
      if k == 0 {
        assert r.handles[0] == r.handles[..1][0];
      } else {
        assert HandleOn(files, c.filePaths, k - |c.handles| + 1, r.handles[k]);
      }
    }
  }

  /** Adding the later layouts to a map whose entries all refer to the first
      file keeps its length and leaves every entry referring to a handle. */
  lemma AddFiles(files: map<string, seq<byte>>, c: State)
    requires |c.partitionLayouts| > 0 && |c.handles| == 1 && FilesBelow(c.blockIndex, 1)
    requires AddFrom(files, c, 1).Ok?
    ensures var r := AddFrom(files, c, 1).value;
      |r.blockIndex| == |c.blockIndex| && FilesBelow(r.blockIndex, |r.handles|)
  {
    AddFromValue(files, c, 1);
    ApplyDeltasFiles(c.blockIndex, DeltaLists(c.partitionLayouts[1..]), 1);
  }

  /** After BuildPartitionBackupSet on a fresh set there is exactly one open
      handle per partition layout, each on the path at the same position, and
      every entry of the block map refers to one of them. */
  lemma BuildHandles(readLayout: LayoutReader, files: map<string, seq<byte>>, target: PartitionLayout, diskIndex: nat)
    requires BuildSpec(readLayout, files, EMPTY, target, diskIndex).Ok?
    ensures var c := BuildSpec(readLayout, files, EMPTY, target, diskIndex).value;
      && 0 < |c.partitionLayouts| <= |c.filePaths|
      && |c.handles| == |c.partitionLayouts|
      && (forall k :: 0 <= k < |c.handles| ==> HandleOn(files, c.filePaths, k, c.handles[k]))
      && |c.blockIndex| == |c.partitionLayouts[0].data_block_index|
      && FilesBelow(c.blockIndex, |c.handles|)
  {
    var c1 := FindSpec(readLayout, EMPTY, target, diskIndex).value;
    var c2 := FillSpec(files, c1).value;
    assert AddFrom(files, c2, 1) == BuildSpec(readLayout, files, EMPTY, target, diskIndex);
    assert c2.handles == [FileHandle(c1.filePaths[0], files[c1.filePaths[0]], true)];
    assert c2.blockIndex == InitialMap(c1.partitionLayouts[0].data_block_index, 0);
    AddHandles(files, c2);
    AddFiles(files, c2);
    AddFromValue(files, c2, 1);
  }

  /** After BuildPartitionBackupSet on a fresh set, block b comes from the
      newest file whose deltas mention it, or from the full backup when none do. */
  lemma BuildBlockMap(readLayout: LayoutReader, files: map<string, seq<byte>>, target: PartitionLayout, diskIndex: nat, b: nat)
    requires BuildSpec(readLayout, files, EMPTY, target, diskIndex).Ok?
    requires b < |BuildSpec(readLayout, files, EMPTY, target, diskIndex).value.blockIndex|
    ensures var c := BuildSpec(readLayout, files, EMPTY, target, diskIndex).value;
      && |c.partitionLayouts| > 0 && b < |c.partitionLayouts[0].data_block_index|
      && c.blockIndex[b] == match Newest(DeltaLists(c.partitionLayouts[1..]), b, 1)
                            case None => MapEntry(c.partitionLayouts[0].data_block_index[b], 0)
                            case Some(e) => e
  {
    var c2 := FillSpec(files, FindSpec(readLayout, EMPTY, target, diskIndex).value).value;
    AddFromValue(files, c2, 1);
    assert AddFrom(files, c2, 1) == BuildSpec(readLayout, files, EMPTY, target, diskIndex);
    assert AddFrom(files, c2, 1).value.blockIndex == ApplyDeltas(c2.blockIndex, DeltaLists(c2.partitionLayouts[1..]), |c2.handles|);
    ApplyDeltasAt(c2.blockIndex, DeltaLists(c2.partitionLayouts[1..]), 1, b);
  }
}
