/**
 * FileSorter: sort one record file in memory, and sort a file too large for
 * memory by splitting it into chunks, sorting each chunk and merging the
 * sorted chunks level by level.
 */
module Sorter {
  import opened Records
  import opened Runs
  import opened Merger
  import opened Splitter

  /** Array.Sort on the records: an in-place insertion sort. */
  method SortArray(a: array<int>)
    modifies a
    ensures Sorted(a[..])
    ensures multiset(a[..]) == multiset(old(a[..]))
  {
    var i := 0;
    while i < a.Length
      invariant 0 <= i <= a.Length
      invariant Sorted(a[..i])
      invariant multiset(a[..]) == multiset(old(a[..]))
    {
      InsertAt(a, i);
      i := i + 1;
    }
    assert a[..a.Length] == a[..];
  }

  /** Move a[i] left past every larger record before it, so a[..i + 1] is sorted. */
  method InsertAt(a: array<int>, i: nat)
    requires i < a.Length && Sorted(a[..i])
    modifies a
    ensures Sorted(a[..i + 1])
    ensures multiset(a[..i + 1]) == multiset(old(a[..i + 1]))
    ensures a[i + 1..] == old(a[i + 1..])
    ensures multiset(a[..]) == multiset(old(a[..]))
  {
    var j: nat := i;
    ghost var s0 := a[..];
    InsertingStart(a[..], i);
    while j > 0 && a[j - 1] > a[j]
      invariant Inserting(a[..], i, j)
      invariant SameOutside(s0, a[..], i)
    {
      ghost var s := a[..];
      a[j - 1], a[j] := a[j], a[j - 1];
      assert a[..] == s[j - 1 := s[j]][j := s[j - 1]];
      SwapInside(s0, s, a[..], i, j);
      j := j - 1;
    }
    InsertedAll(s0, a[..], i, j);
  }

  /** The loop's exit: the prefix is sorted, and only it was permuted. */
  lemma InsertedAll(s0: seq<int>, t: seq<int>, i: nat, j: nat)
    requires Inserting(t, i, j) && SameOutside(s0, t, i) && (j == 0 || t[j - 1] <= t[j])
    ensures Sorted(t[..i + 1])
    ensures multiset(t[..i + 1]) == multiset(s0[..i + 1])
    ensures t[i + 1..] == s0[i + 1..]
    ensures multiset(t) == multiset(s0)
  {
    InsertingDone(t, i, j);
    PrefixMultiset(s0, t, i + 1);
  }

  /** t is a permutation of s that leaves everything after index i alone. */
  ghost predicate SameOutside(s: seq<int>, t: seq<int>, i: nat) {
    i < |s| == |t| && multiset(t) == multiset(s) && t[i + 1..] == s[i + 1..]
  }

  /** Swapping s[j - 1] > s[j] moves the record one place left and keeps everything after i alone. */
  lemma SwapInside(s0: seq<int>, s: seq<int>, t: seq<int>, i: nat, j: nat)
    requires Inserting(s, i, j) && SameOutside(s0, s, i) && 0 < j && s[j - 1] > s[j]
    requires t == s[j - 1 := s[j]][j := s[j - 1]]
    ensures Inserting(t, i, j - 1) && SameOutside(s0, t, i)
  {
    InsertingSwap(s, i, j);
    assert t[i + 1..] == s[i + 1..];
  }

  /** Two sequences with the same elements and the same suffix from k on have the same elements before k. */
  lemma PrefixMultiset(s: seq<int>, t: seq<int>, k: nat)
    requires k <= |s| == |t| && multiset(s) == multiset(t) && s[k..] == t[k..]
    ensures multiset(s[..k]) == multiset(t[..k])
  {
    assert s == s[..k] + s[k..] && t == t[..k] + t[k..];
    calc {
      multiset(s[..k]);
      multiset(s) - multiset(s[k..]);
      multiset(t) - multiset(t[k..]);
      multiset(t[..k]);
    }
  }

  /**
   * The state of one insertion: s[j] is the record being moved left; leaving
   * it out, s[..i + 1] is sorted, and s[j] is no larger than anything after it.
   */
  ghost predicate Inserting(s: seq<int>, i: nat, j: nat) {
    j <= i < |s| &&
    (forall p, q :: 0 <= p < q <= i && p != j && q != j ==> s[p] <= s[q]) &&
    (forall q :: j < q <= i ==> s[j] <= s[q])
  }

  lemma InsertingStart(s: seq<int>, i: nat)
    requires i < |s| && Sorted(s[..i])
    ensures Inserting(s, i, i)
  {
    forall p, q | 0 <= p < q <= i && p != i && q != i ensures s[p] <= s[q] {
      assert s[p] == s[..i][p] && s[q] == s[..i][q];
    }
  }

  lemma InsertingSwap(s: seq<int>, i: nat, j: nat)
    requires Inserting(s, i, j) && 0 < j && s[j - 1] > s[j]
    ensures Inserting(s[j - 1 := s[j]][j := s[j - 1]], i, j - 1)
    ensures multiset(s[j - 1 := s[j]][j := s[j - 1]]) == multiset(s)
  {
    var t := s[j - 1 := s[j]][j := s[j - 1]];
    forall p, q | 0 <= p < q <= i && p != j - 1 && q != j - 1 ensures t[p] <= t[q] {
      if q == j {
        assert t[q] == s[j - 1];
        if p < j - 1 {
          assert s[p] <= s[j - 1];
        }
      } else if p == j {
        assert t[p] == s[j - 1] && s[j - 1] <= s[q];
      }
    }
    forall q | j - 1 < q <= i ensures t[j - 1] <= t[q] {
      if q > j {
        assert t[q] == s[q];
      }
    }
  }

  lemma InsertingDone(s: seq<int>, i: nat, j: nat)
    requires Inserting(s, i, j) && (j == 0 || s[j - 1] <= s[j])
    ensures Sorted(s[..i + 1])
  {
    var t := s[..i + 1];
    forall p, q | 0 <= p < q < |t| ensures t[p] <= t[q] {
      if q == j && p < j - 1 {
        assert s[p] <= s[j - 1];
      }
    }
  }

  lemma AllInt32ByMultiset(s: seq<int>, t: seq<int>)
    requires AllInt32(t) && multiset(s) == multiset(t)
    ensures AllInt32(s)
  {
    forall i | 0 <= i < |s| ensures IsInt32(s[i]) {
      assert s[i] in multiset(t);
    }
  }

  /** The record file holding `values` in sorted order. */
  function EncodeSorted(values: seq<int>): (bytes: seq<byte>)
    requires AllInt32(values)
    ensures |bytes| == |values| * Size
    ensures Decode(bytes) == SortSpec(values)
  {
    AllInt32ByMultiset(SortSpec(values), values);
    SortSpecLength(values);
    Encode(SortSpec(values))
  }

  lemma SortSpecLength(values: seq<int>)
    ensures |SortSpec(values)| == |values|
  {
    assert |multiset(SortSpec(values))| == |multiset(values)|;
  }

  /** What SortFile leaves in a file: its whole records, sorted. */
  function SortedFile(file: seq<byte>): (sorted: seq<byte>)
    ensures |sorted| == |file| / Size * Size
    ensures Decode(sorted) == SortSpec(Decode(file))
  {
    EncodeSorted(Decode(file))
  }

  /**
   * FileSorter.SortFile(filePath): read the whole records of the file, sort
   * them and overwrite the file with them; a trailing partial record is
   * dropped.
   */
  method SortFile(file: seq<byte>) returns (newFile: seq<byte>)
    requires |file| <= IntMax
    ensures newFile == SortedFile(file)
  {
    var fileSize := |file|;
    var numberToRead := fileSize / Size;
    var records := Decode(file);
    var values := new int[numberToRead](k requires 0 <= k < numberToRead => records[k]);
    assert values[..] == records;
    SortArray(values);
    SortedPermutationUnique(values[..], SortSpec(records));
    AllInt32ByMultiset(values[..], records);
    newFile := Encode(values[..]);
  }

  /** The sorted records of a file form a sorted permutation of its whole records. */
  lemma SortedFilePermutes(file: seq<byte>)
    ensures Sorted(Decode(SortedFile(file)))
    ensures multiset(Decode(SortedFile(file))) == multiset(Decode(file))
  {
  }

  /** Sorting a file whose records are already in order leaves its record sequence unchanged. */
  lemma SortedFileOfSorted(file: seq<byte>)
    requires Sorted(Decode(file))
    ensures Decode(SortedFile(file)) == Decode(file)
  {
    SortSpecIdempotent(Decode(file));
  }

  /** Sorting twice is sorting once. */
  lemma SortedFileIdempotent(file: seq<byte>)
    ensures SortedFile(SortedFile(file)) == SortedFile(file)
  {
    SortSpecIdempotent(SortSpec(Decode(file)));
  }

  /** The spurious record the preload contributes when the last of two or more runs is empty. */
  ghost function PadTail(runs: seq<seq<int>>): (extra: multiset<int>) {
    if |runs| >= 2 && runs[|runs| - 1] == [] then multiset{0} else multiset{}
  }

  /** Only the last run may be empty. */
  ghost predicate EmptyOnlyLast(runs: seq<seq<int>>) {
    forall i :: 0 <= i < |runs| - 1 ==> runs[i] != []
  }

  /**
   * The level loop of SortReallyBigFile: merge levels while more than two
   * runs remain. It ends with one or two sorted runs holding every record of
   * the input runs, plus the one 0 record an empty last run brings in.
   */
  method MergeLevels(runs: seq<seq<int>>) returns (splitFiles: seq<seq<int>>)
    requires |runs| >= 1 && AllSorted(runs) && EmptyOnlyLast(runs)
    ensures 1 <= |splitFiles| <= 2 && AllSorted(splitFiles) && EmptyOnlyLast(splitFiles)
    ensures Bag(splitFiles) + PadTail(splitFiles) == Bag(runs) + PadTail(runs)
    ensures |runs| <= 2 ==> splitFiles == runs
    ensures PadTail(runs) == multiset{} ==> PadTail(splitFiles) == multiset{}
  {
    splitFiles := runs;
    while |splitFiles| > 2
      invariant |splitFiles| >= 1 && AllSorted(splitFiles) && EmptyOnlyLast(splitFiles)
      invariant Bag(splitFiles) + PadTail(splitFiles) == Bag(runs) + PadTail(runs)
      invariant |runs| <= 2 ==> splitFiles == runs
      invariant PadTail(runs) == multiset{} ==> PadTail(splitFiles) == multiset{}
      decreases |splitFiles|
    {
      ghost var consumed;
      var level;
      level, consumed := MergeLevel(splitFiles);
      LevelStep(splitFiles, level);
      splitFiles := level;
    }
  }

  /** A level over more than two runs keeps the loop's invariant and has fewer runs. */
  lemma LevelStep(runs: seq<seq<int>>, level: seq<seq<int>>)
    requires |runs| > 2 && AllSorted(runs) && EmptyOnlyLast(runs) && IsLevel(runs, level)
    ensures 1 <= |level| < |runs| && AllSorted(level) && EmptyOnlyLast(level)
    ensures Bag(level) + PadTail(level) == Bag(runs) + PadTail(runs)
    ensures PadTail(level) == multiset{}
  {
    LevelBag(runs, level);
    PadAllBag(runs);
    LevelSorted(runs, level);
    LevelNonEmpty(runs, level);
  }

  /** Two-run and one-run Bag, and what merging the two as written holds. */
  lemma FinalBag(runs: seq<seq<int>>)
    requires 1 <= |runs| <= 2 && EmptyOnlyLast(runs)
    ensures |runs| == 1 ==> Bag(runs) + PadTail(runs) == multiset(runs[0])
    ensures |runs| == 2 ==> Bag(runs) == multiset(runs[0]) + multiset(runs[1])
    ensures |runs| == 2 ==> Bag(runs) + PadTail(runs) == multiset(MergeWritten(runs[0], runs[1]))
  {
    if |runs| == 1 {
      OneRunBag(runs);
    } else {
      TwoRunBag(runs);
    }
  }

  lemma OneRunBag(runs: seq<seq<int>>)
    requires |runs| == 1
    ensures Bag(runs) + PadTail(runs) == multiset(runs[0])
  {
    assert BagRange(runs, 0, 1) == multiset(runs[0]);
  }

  lemma TwoRunBag(runs: seq<seq<int>>)
    requires |runs| == 2 && runs[0] != []
    ensures Bag(runs) == multiset(runs[0]) + multiset(runs[1])
    ensures Bag(runs) + PadTail(runs) == multiset(MergeWritten(runs[0], runs[1]))
  {
    var r0, r1 := runs[0], runs[1];
    assert BagRange(runs, 0, 1) == multiset(r0);
    assert Bag(runs) == BagRange(runs, 0, 1) + multiset(r1);
    MergeWrittenMultiset(r0, r1);
    assert multiset(Padded(r1)) == multiset(r1) + PadTail(runs);
  }

  /** A chunk file after SortFile: the same path, its whole records sorted. */
  function SortedChunk(file: FileImage): (sorted: FileImage)
    ensures sorted.path == file.path
  {
    FileImage(file.path, SortedFile(file.bytes))
  }

  /** The chunk files while the foreach runs: the first j sorted, the rest as split. */
  ghost predicate SortedUpTo(files: seq<FileImage>, unsorted: seq<FileImage>, j: nat) {
    |files| == |unsorted| && j <= |files| &&
    (forall k :: 0 <= k < j ==> files[k] == SortedChunk(unsorted[k])) &&
    (forall k :: j <= k < |files| ==> files[k] == unsorted[k])
  }

  lemma SortedUpToStep(files: seq<FileImage>, unsorted: seq<FileImage>, j: nat)
    requires SortedUpTo(files, unsorted, j) && j < |files|
    ensures SortedUpTo(files[j := SortedChunk(files[j])], unsorted, j + 1)
  {
  }

  /** The foreach of SortReallyBigFile: every chunk file is overwritten with its sorted records. */
  method SortChunks(splitFiles: array<FileImage>)
    requires forall j :: 0 <= j < splitFiles.Length ==> |splitFiles[j].bytes| <= IntMax
    modifies splitFiles
    ensures SortedUpTo(splitFiles[..], old(splitFiles[..]), splitFiles.Length)
  {
    ghost var unsorted := splitFiles[..];
    for j := 0 to splitFiles.Length
      invariant SortedUpTo(splitFiles[..], unsorted, j)
    {
      ghost var before := splitFiles[..];
      SortedUpToStep(before, unsorted, j);
      var sorted := SortFile(splitFiles[j].bytes);
      splitFiles[j] := FileImage(splitFiles[j].path, sorted);
      assert splitFiles[..] == before[j := SortedChunk(before[j])];
    }
  }

  /** The records of each file, as the merges read them. */
  function RecordsOf(files: seq<FileImage>): (runs: seq<seq<int>>)
    ensures |runs| == |files|
    ensures forall j :: 0 <= j < |files| ==> runs[j] == Decode(files[j].bytes)
  {
    seq(|files|, j requires 0 <= j < |files| => Decode(files[j].bytes))
  }

  /**
   * The records the as-written pipeline adds: one 0 record when there are at
   * least two chunks and the last holds less than one whole record.
   */
  function Injected(length: nat, chunkSize: nat): (extra: seq<int>)
    requires chunkSize > 0
    ensures |extra| <= 1
  {
    if ChunkCount(length, chunkSize) >= 2 && 0 < length % chunkSize < Size then [0] else []
  }

  /** A source of whole records gets nothing injected. */
  lemma WholeRecordsInjectNothing(length: nat, chunkSize: nat)
    requires chunkSize > 0 && chunkSize % Size == 0 && length % Size == 0
    ensures Injected(length, chunkSize) == []
  {
    ModOfMultiple(length, chunkSize);
  }

  lemma ModOfMultiple(length: nat, chunkSize: nat)
    requires chunkSize > 0 && chunkSize % Size == 0
    ensures (length % chunkSize) % Size == length % Size
  {
    var q, m := length / chunkSize, chunkSize / Size;
    assert length == q * chunkSize + length % chunkSize;
    assert q * chunkSize == Size * (q * m);
  }

  /**
   * A 1 MB chunk size and a source one byte longer than a chunk: a 0 record
   * is injected, so the pipeline sorts one record more than the source holds.
   */
  lemma PartialTailInjects(bytes: seq<byte>)
    requires |bytes| == OneMB + 1
    ensures Injected(|bytes|, OneMB) == [0]
    ensures |WithInjected(bytes, OneMB)| == |Decode(bytes)| + 1 == 262145
  {
  }

  lemma MulOfSize(i: nat, chunkSize: nat)
    requires chunkSize % Size == 0
    ensures (i * chunkSize) % Size == 0
  {
    var m := chunkSize / Size;
    assert i * chunkSize == Size * (i * m);
  }

  /** The runs of the first k chunks hold the records of the source up to the end of chunk k - 1. */
  lemma {:induction false} ChunksBag(bytes: seq<byte>, chunkSize: nat, runs: seq<seq<int>>, k: nat)
    requires chunkSize > 0 && chunkSize % Size == 0 && |runs| == ChunkCount(|bytes|, chunkSize) && k <= |runs|
    requires forall j :: 0 <= j < |runs| ==> runs[j] == SortSpec(Decode(ChunkOf(bytes, chunkSize, j)))
    ensures BagRange(runs, 0, k) == multiset(Decode(bytes[..Min(k * chunkSize, |bytes|)]))
    decreases k
  {
    if k == 0 {
      assert bytes[..0] == [];
    } else {
      ChunksBag(bytes, chunkSize, runs, k - 1);
      var lo, hi := ChunkBounds(bytes, chunkSize, k - 1);
      SliceSplit(bytes, lo, hi);
      MulOfSize(k - 1, chunkSize);
      DecodeAppend(bytes[..lo], bytes[lo..hi]);
    }
  }

  /** The chunk runs hold exactly the whole records of the source. */
  lemma SourceBag(bytes: seq<byte>, chunkSize: nat, runs: seq<seq<int>>)
    requires chunkSize > 0 && chunkSize % Size == 0 && |runs| == ChunkCount(|bytes|, chunkSize)
    requires forall j :: 0 <= j < |runs| ==> runs[j] == SortSpec(Decode(ChunkOf(bytes, chunkSize, j)))
    ensures Bag(runs) == multiset(Decode(bytes))
  {
    ChunksBag(bytes, chunkSize, runs, |runs|);
    assert |bytes| <= |runs| * chunkSize;
    assert Min(|runs| * chunkSize, |bytes|) == |bytes|;
    assert bytes[..|bytes|] == bytes;
  }

  /** The size of the last chunk: the remainder, or a full chunk when there is none. */
  lemma LastChunkSize(bytes: seq<byte>, chunkSize: nat)
    requires chunkSize > 0 && |bytes| > 0
    ensures |ChunkOf(bytes, chunkSize, ChunkCount(|bytes|, chunkSize) - 1)| ==
      if |bytes| % chunkSize == 0 then chunkSize else |bytes| % chunkSize
  {
    var n, q, rem := |bytes|, |bytes| / chunkSize, |bytes| % chunkSize;
    var count := ChunkCount(n, chunkSize);
    assert n == q * chunkSize + rem;
    var lo, hi := ChunkBounds(bytes, chunkSize, count - 1);
    if rem == 0 {
      assert count - 1 == q - 1;
      assert lo == q * chunkSize - chunkSize;
    } else {
      assert count - 1 == q;
      assert (count - 1 + 1) * chunkSize == q * chunkSize + chunkSize;
    }
  }

  /** A chunk before the last is a full chunk, so it holds at least one record. */
  lemma InnerChunkHasRecords(bytes: seq<byte>, chunkSize: nat, j: nat)
    requires chunkSize >= Size && j + 1 < ChunkCount(|bytes|, chunkSize)
    ensures Decode(ChunkOf(bytes, chunkSize, j)) != []
  {
    ChunkSizes(bytes, chunkSize, j);
  }

  /** The last chunk holds no whole record exactly when the source ends in a remainder shorter than a record. */
  lemma LastChunkRecords(bytes: seq<byte>, chunkSize: nat)
    requires chunkSize >= Size && |bytes| > 0
    ensures Decode(ChunkOf(bytes, chunkSize, ChunkCount(|bytes|, chunkSize) - 1)) == [] <==>
      0 < |bytes| % chunkSize < Size
  {
    LastChunkSize(bytes, chunkSize);
  }

  /** Only the last chunk's run can be empty. */
  lemma ChunkRunsNonEmpty(bytes: seq<byte>, chunkSize: nat, runs: seq<seq<int>>)
    requires chunkSize >= Size && |runs| == ChunkCount(|bytes|, chunkSize)
    requires forall j :: 0 <= j < |runs| ==> runs[j] == SortSpec(Decode(ChunkOf(bytes, chunkSize, j)))
    ensures EmptyOnlyLast(runs)
  {
    forall j | 0 <= j < |runs| - 1 ensures runs[j] != [] {
      InnerChunkHasRecords(bytes, chunkSize, j);
      SortSpecLength(Decode(ChunkOf(bytes, chunkSize, j)));
    }
  }

  /** The last run is empty, and the preload injects a 0 record, exactly as Injected says. */
  lemma ChunkRunsPad(bytes: seq<byte>, chunkSize: nat, runs: seq<seq<int>>)
    requires chunkSize >= Size && |runs| == ChunkCount(|bytes|, chunkSize) && |runs| > 0
    requires runs[|runs| - 1] == SortSpec(Decode(ChunkOf(bytes, chunkSize, |runs| - 1)))
    ensures PadTail(runs) == multiset(Injected(|bytes|, chunkSize))
  {
    var lastRecords := Decode(ChunkOf(bytes, chunkSize, |runs| - 1));
    LastChunkRecords(bytes, chunkSize);
    SortSpecLength(lastRecords);
    assert runs[|runs| - 1] == [] <==> lastRecords == [];
  }

  /** A sorted run with the multiset of xs is the reference sort of xs. */
  lemma IsSortSpec(out: seq<int>, xs: seq<int>)
    requires Sorted(out) && multiset(out) == multiset(xs)
    ensures out == SortSpec(xs)
  {
    SortedPermutationUnique(out, SortSpec(xs));
  }

  /** The path of the result: `Sorted{Name}` in the source's directory. */
  function SortedPath(source: SourceFile): (path: string) {
    source.directoryName + "\\Sorted" + source.name
  }

  /** The records the as-written pipeline sorts: the source's whole records and the injected ones. */
  function WithInjected(bytes: seq<byte>, chunkSize: nat): (values: seq<int>)
    requires chunkSize > 0
    ensures AllInt32(values)
    ensures multiset(values) == multiset(Decode(bytes)) + multiset(Injected(|bytes|, chunkSize))
  {
    Decode(bytes) + Injected(|bytes|, chunkSize)
  }

  /**
   * Split the source and sort every chunk: the runs are sorted, only the
   * last may be empty, and together they hold the source's whole records.
   * Split's errors propagate.
   */
  method SplitRuns(source: SourceFile, chunkSizeInMB: int, splitsFolder: string) returns (r: Result<seq<seq<int>>>)
    requires HasExtension(source) && IsInt32(chunkSizeInMB) && |source.bytes| <= LongMax
    ensures ChunkSize(chunkSizeInMB) == 0 ==> r == Err(DivideByZero)
    ensures ChunkSize(chunkSizeInMB) < 0 ==> r == Err(Overflow)
    ensures ChunkSize(chunkSizeInMB) > 0 && ChunkCount(|source.bytes|, ChunkSize(chunkSizeInMB)) > IntMax ==> r == Err(TooManyChunks)
    ensures r.Ok? <==> ChunkSize(chunkSizeInMB) > 0 && ChunkCount(|source.bytes|, ChunkSize(chunkSizeInMB)) <= IntMax
    ensures r.Ok? ==>
      (|r.value| == 0 <==> source.bytes == []) &&
      AllSorted(r.value) && EmptyOnlyLast(r.value) &&
      Bag(r.value) == multiset(Decode(source.bytes)) &&
      PadTail(r.value) == multiset(Injected(|source.bytes|, ChunkSize(chunkSizeInMB)))
  {
    var split := Split(source, chunkSizeInMB, splitsFolder);
    if split.Err? {
      return Err(split.error);
    }
    var splitFiles := split.value;
    var chunkSize := ChunkSize(chunkSizeInMB);
    ChunkFilesFit(source.bytes, chunkSize, splitFiles);
    var files := new FileImage[|splitFiles|](j requires 0 <= j < |splitFiles| => splitFiles[j]);
    SortChunks(files);
    ghost var sortedFiles := files[..];
    var runs := RecordsOf(files[..]);
    if |runs| > 0 {
      PipelineStart(source.bytes, chunkSize, splitFiles, sortedFiles, runs);
    } else {
      assert Bag(runs) == multiset{} && Decode(source.bytes) == [];
    }
    r := Ok(runs);
  }

  /** A sorted permutation of the target, written as a record file, is the target's sorted file. */
  lemma Finish(output: seq<int>, target: seq<int>)
    requires Sorted(output) && multiset(output) == multiset(target) && AllInt32(target)
    ensures AllInt32(output) && Encode(output) == EncodeSorted(target)
  {
    IsSortSpec(output, target);
    AllInt32ByMultiset(output, target);
  }

  /**
   * FileSorter.SortReallyBigFile(filePath, chunkSizeInMB) as written. Split
   * errors propagate; a source with no chunks fails at splitFiles[0];
   * otherwise the result is the sorted permutation of the source's whole
   * records, plus the one 0 record that a last chunk shorter than a record
   * brings in through the merge's preload. `splitsFolder` is the folder
   * "Splits" resolves to.
   */
  method SortReallyBigFile(source: SourceFile, chunkSizeInMB: int, splitsFolder: string) returns (r: Result<FileImage>)
    requires HasExtension(source) && IsInt32(chunkSizeInMB) && |source.bytes| <= LongMax
    ensures ChunkSize(chunkSizeInMB) == 0 ==> r == Err(DivideByZero)
    ensures ChunkSize(chunkSizeInMB) < 0 ==> r == Err(Overflow)
    ensures ChunkSize(chunkSizeInMB) > 0 && ChunkCount(|source.bytes|, ChunkSize(chunkSizeInMB)) > IntMax ==> r == Err(TooManyChunks)
    ensures ChunkSize(chunkSizeInMB) > 0 && source.bytes == [] ==> r == Err(IndexOutOfRange)
    ensures r.Ok? <==> ChunkSize(chunkSizeInMB) > 0 && source.bytes != [] && ChunkCount(|source.bytes|, ChunkSize(chunkSizeInMB)) <= IntMax
    ensures r.Ok? ==> r.value.path == SortedPath(source)
    ensures r.Ok? ==> r.value.bytes == EncodeSorted(WithInjected(source.bytes, ChunkSize(chunkSizeInMB)))
  {
    var newFile := SortedPath(source);
    var split := SplitRuns(source, chunkSizeInMB, splitsFolder);
    if split.Err? {
      return Err(split.error);
    }
    var runs := split.value;
    if |runs| == 0 {
      return Err(IndexOutOfRange);
    }
    ghost var target := WithInjected(source.bytes, ChunkSize(chunkSizeInMB));
    var merged := MergeLevels(runs);
    var output: seq<int>;
    if |merged| > 1 {
      output := MergeFiles(merged[0], merged[1]);
      MergeWrittenSorted(merged[0], merged[1]);
    } else {
      output := merged[0];
    }
    FinalBag(merged);
    Finish(output, target);
    r := Ok(FileImage(newFile, Encode(output)));
  }

  /**
   * SortReallyBigFile with the merge preload's empty inputs kept out: an
   * empty last run is dropped before merging, and the final two runs are
   * merged with MergeRuns. The result is the sorted permutation of the
   * source's whole records.
   */
  method SortReallyBigFileChecked(source: SourceFile, chunkSizeInMB: int, splitsFolder: string) returns (r: Result<FileImage>)
    requires HasExtension(source) && IsInt32(chunkSizeInMB) && |source.bytes| <= LongMax
    ensures r.Ok? <==> ChunkSize(chunkSizeInMB) > 0 && source.bytes != [] && ChunkCount(|source.bytes|, ChunkSize(chunkSizeInMB)) <= IntMax
    ensures r.Ok? ==> r.value.path == SortedPath(source)
    ensures r.Ok? ==> r.value.bytes == EncodeSorted(Decode(source.bytes))
  {
    var newFile := SortedPath(source);
    var split := SplitRuns(source, chunkSizeInMB, splitsFolder);
    if split.Err? {
      return Err(split.error);
    }
    var runs := split.value;
    if |runs| == 0 {
      return Err(IndexOutOfRange);
    }
    ghost var target := Decode(source.bytes);
    if |runs| > 1 && runs[|runs| - 1] == [] {
      DropEmptyLast(runs);
      runs := runs[..|runs| - 1];
    }
    var merged := MergeLevels(runs);
    var output: seq<int>;
    if |merged| > 1 {
      output := MergeRuns(merged[0], merged[1]);
    } else {
      output := merged[0];
    }
    FinalBag(merged);
    Finish(output, target);
    r := Ok(FileImage(newFile, Encode(output)));
  }

  /** Every chunk fits the int-sized view SortFile reads it through. */
  lemma ChunkFilesFit(bytes: seq<byte>, chunkSize: int, files: seq<FileImage>)
    requires 0 < chunkSize <= IntMax && |files| == ChunkCount(|bytes|, chunkSize)
    requires forall j :: 0 <= j < |files| ==> files[j].bytes == ChunkOf(bytes, chunkSize, j)
    ensures forall j :: 0 <= j < |files| ==> |files[j].bytes| <= IntMax
  {
    forall j | 0 <= j < |files| ensures |files[j].bytes| <= IntMax {
      ChunkSizes(bytes, chunkSize, j);
    }
  }

  /** The runs the foreach produces: sorted, only the last possibly empty, holding the source's records and the injected ones. */
  lemma PipelineStart(bytes: seq<byte>, chunkSize: int, files: seq<FileImage>, sortedFiles: seq<FileImage>, runs: seq<seq<int>>)
    requires chunkSize > 0 && chunkSize % OneMB == 0 && |files| == ChunkCount(|bytes|, chunkSize)
    requires forall j :: 0 <= j < |files| ==> files[j].bytes == ChunkOf(bytes, chunkSize, j)
    requires |sortedFiles| == |files| > 0
    requires forall j :: 0 <= j < |sortedFiles| ==> sortedFiles[j] == SortedChunk(files[j])
    requires runs == RecordsOf(sortedFiles)
    ensures AllSorted(runs) && EmptyOnlyLast(runs)
    ensures Bag(runs) == multiset(Decode(bytes))
    ensures PadTail(runs) == multiset(Injected(|bytes|, chunkSize))
  {
    WholeRecordChunks(chunkSize);
    forall j | 0 <= j < |runs| ensures runs[j] == SortSpec(Decode(ChunkOf(bytes, chunkSize, j))) {
      assert runs[j] == Decode(SortedChunk(files[j]).bytes);
    }
    SourceBag(bytes, chunkSize, runs);
    ChunkRunsNonEmpty(bytes, chunkSize, runs);
    ChunkRunsPad(bytes, chunkSize, runs);
  }

  /** A chunk size of whole megabytes holds whole records. */
  lemma WholeRecordChunks(chunkSize: int)
    requires chunkSize > 0 && chunkSize % OneMB == 0
    ensures chunkSize % Size == 0 && chunkSize >= Size
  {
    var q := chunkSize / OneMB;
    assert chunkSize == q * OneMB;
    assert chunkSize == Size * (q * 0x4_0000);
  }

  /** Dropping an empty last run loses no record and leaves no empty run. */
  lemma DropEmptyLast(runs: seq<seq<int>>)
    requires |runs| > 1 && runs[|runs| - 1] == [] && AllSorted(runs) && EmptyOnlyLast(runs)
    ensures AllSorted(runs[..|runs| - 1]) && EmptyOnlyLast(runs[..|runs| - 1])
    ensures Bag(runs[..|runs| - 1]) == Bag(runs)
    ensures PadTail(runs[..|runs| - 1]) == multiset{}
  {
    var n, prefix := |runs|, runs[..|runs| - 1];
    BagRangeSame(prefix, runs, 0, n - 1, 0);
    assert Bag(runs) == BagRange(runs, 0, n - 1) + multiset(runs[n - 1]);
  }
}
