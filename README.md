# TreitFileParser core, modelled in Dafny

TreitFileParser works on binary record files. A record file is a raw
concatenation of fixed-width values; the program instantiates the value type
with C# `int`, so a record is 4 bytes, little-endian, two's complement. The
core has four parts:

- **FileSplitter.Split** cuts a file into numbered chunk files of at most
  `splitSizeInMB` MB each, read through one reused buffer.
- **FileSorter.SortFile** sorts one file's records in memory.
  **FileSorter.SortReallyBigFile** sorts a file too large for memory: it
  splits it, sorts every chunk, merges the chunks level by level while more
  than two remain, and merges (or copies) the last one or two into
  `Sorted{Name}`.
- **FileZipperMerger.MergeFiles** merges two sorted record files with one
  lookahead value per stream. Its overload runs one merge level: pair `i`
  with file `i + n/2`, and fold an odd spare into the last pair.
  MergeAndDeleteFiles merges two files and deletes both.
- **FileComparer.GetDistinctValues** walks two sorted record files and
  collects the values they have in common into a hash set.

The Dafny modules follow those files:

| module | file | what it holds |
|---|---|---|
| `Records` | records.dfy | the 4-byte little-endian codec (`Decode`, `Encode`), 32-bit wrap-around, the error kinds, file images |
| `Runs` | runs.dfy | reference definitions: sortedness, the left-biased `Merge`, the reference sort `SortSpec`, the multiset union `Bag` of a list of runs |
| `Merger` | merger.dfy | `RecordReader` (an open FileStream as a class with a position), `MergeFiles` with its three loops, the merge level |
| `Comparer` | comparer.dfy | `GetDistinctValues` with its three loops and final check |
| `Splitter` | splitter.dfy | chunk arithmetic, chunk paths, `Split` with its buffer loop |
| `Sorter` | sorter.dfy | in-place `SortArray`, `SortFile`, the level loop and `SortReallyBigFile` |

Each loop in the source is a `while` or `for` loop in the model, built on a
`RecordReader` or an `array`. Each loop is proved against a ghost
specification:

- `MergeFiles`: what has been written, followed by the `Merge` of what is
  still pending, is the final output (`Merger.Merging`).
- `GetDistinctValues`: the set found so far, together with what the unread
  suffixes share, is the common set (`Comparer.Joining`, `Comparer.Complete`).

The properties are then proved about those specification functions:

- The textbook merge writes every record exactly once and keeps runs
  sorted. `MergeFiles` as written does the same for its inputs as the
  preload sees them: an empty input adds one 0 record.
- A merge level as written keeps the union of the records of its input
  runs as the preload sees them. When only the last run may be empty, this
  is the union of the input records plus one 0 record if that run is empty.
- `SortReallyBigFile` as written returns the sorted permutation of the
  source's whole records, plus one 0 record when there are at least two
  chunks and the last chunk is shorter than a record (1 to 3 bytes).
  `SortReallyBigFileChecked` returns exactly the sorted permutation of the
  source's whole records.

Both `MergeFiles` and `GetDistinctValues` preload each stream's first value
without checking that a record was read. So an empty file behaves like a
file holding one `0`. In `SortReallyBigFile` this is what injects the 0
record: a last chunk of 1 to 3 bytes sorts to an empty file, which a merge
then reads. The model keeps this behaviour as written, through
`Merger.Padded`. Corrected variants that deal with empty inputs first are
given beside it (see Findings).

## Model

| member | source | states |
|---|---|---|
| `Records.Wrap32` | TreitFileParser/FileSplitter.cs:17 | a C# `int` result is the mathematical value reduced into the 32-bit range, congruent modulo 2^32, and unchanged when already in range |
| `Records.DecodeAt` | TreitFileParser/FileZipperMerger.cs:28 | `MemoryMarshal.Cast` of 4 buffer bytes yields a value in the `int` range |
| `Records.EncodeValue` | TreitFileParser/FileSorter.cs:22 | writing one value produces 4 bytes that read back as that value |
| `Records.Decode` | TreitFileParser/FileSorter.cs:14-18 | a file holds `length / 4` values, all in `int` range; a trailing partial record is no value, with the view's capacity taken to be the file's length (see Left out) |
| `Records.Encode` | TreitFileParser/FileSorter.cs:21-22 | writing values produces `4 * count` bytes that decode back to exactly those values |
| `Records.DecodeIndex` | TreitFileParser/FileSorter.cs:18 | the i-th value read is the record at byte offset `4 * i` |
| `Records.DecodeAppend` | TreitFileParser/FileSplitter.cs:30-36 | cutting a file at a record boundary splits its values at that point |
| `Records.DecodeWholeRecords` | TreitFileParser/FileSorter.cs:15 | dropping the trailing partial record leaves the values read unchanged |
| `Runs.MergeMultiset` | TreitFileParser/FileZipperMerger.cs:14-117 | the textbook merge outputs every record of both inputs exactly once (as multisets), with length the sum of the lengths |
| `Runs.MergeSorted` | TreitFileParser/FileZipperMerger.cs:14-117 | merging two sorted runs yields a sorted run |
| `Runs.Insert` | TreitFileParser/FileSorter.cs:20 | inserting into a sorted sequence keeps it sorted and adds exactly that element |
| `Runs.SortSpec` | TreitFileParser/FileSorter.cs:20 | the reference sort returns a sorted permutation of its input |
| `Runs.SortedPermutationUnique` | TreitFileParser/FileSorter.cs:20 | two sorted permutations of the same values are equal, so any correct sort gives the same file |
| `Runs.SortSpecIdempotent` | TreitFileParser/FileSorter.cs:20 | sorting an already sorted sequence leaves it unchanged |
| `Runs.BagSplit` | TreitFileParser/FileZipperMerger.cs:119-142 | the union of the records of adjacent ranges of runs adds up |
| `Merger.RecordReader.Open` | TreitFileParser/FileZipperMerger.cs:16-17 | an opened stream is valid and positioned at the start of its file |
| `Merger.RecordReader.Position` | TreitFileParser/FileZipperMerger.cs:33 | `Position < Length` holds exactly when an unread record remains |
| `Merger.RecordReader.Read` | TreitFileParser/FileZipperMerger.cs:39-44 | with a record left it returns 4 bytes and that record and moves on one record; at the end it returns 0 bytes and leaves the buffer and the position as they were; the position never passes the end |
| `Merger.Padded` | TreitFileParser/FileZipperMerger.cs:25-30 | the unchecked preload sees a non-empty file unchanged and an empty file as the single value 0 |
| `Merger.TakeFirst` | TreitFileParser/FileZipperMerger.cs:35-45 | writing file1's value when it is not greater than file2's (or file2 is done) keeps "written + merge of pending == final output" |
| `Merger.TakeSecond` | TreitFileParser/FileZipperMerger.cs:46-55 | writing file2's value when it is strictly smaller (or file1 is done) keeps the same invariant |
| `Merger.MergingDone` | TreitFileParser/FileZipperMerger.cs:112-116 | once both streams are finished, the output written is the whole merge |
| `Merger.MergeFiles` | TreitFileParser/FileZipperMerger.cs:14-117 | the output file is the left-biased merge of the two inputs as the preload sees them |
| `Merger.WriteFirst` | TreitFileParser/FileZipperMerger.cs:37-44 | writing val1 and reading on keeps the merge invariant; the stream is finished exactly when the read found no record, and otherwise advances one record |
| `Merger.WriteSecond` | TreitFileParser/FileZipperMerger.cs:48-54 | the same for file2 |
| `Merger.MergeWhileBoth` | TreitFileParser/FileZipperMerger.cs:33-56 | the first loop keeps the merge invariant and ends with at least one stream at its end |
| `Merger.DrainFirst` | TreitFileParser/FileZipperMerger.cs:60-77 | the second loop keeps the merge invariant and ends with file1 at its end |
| `Merger.DrainSecond` | TreitFileParser/FileZipperMerger.cs:78-95 | the third loop keeps the merge invariant and ends with both streams at their end |
| `Merger.WriteLast` | TreitFileParser/FileZipperMerger.cs:97-116 | the final writes complete the merge: the output equals the whole merge |
| `Merger.EmptyInputInjectsDefault` | TreitFileParser/FileZipperMerger.cs:25-30 | merging an empty file with a non-empty one writes one extra 0 record besides every record of the other file |
| `Merger.EmptyInputExample` | TreitFileParser/FileZipperMerger.cs:25-30 | merging an empty file with `[5]` writes `[0, 5]`, where the textbook merge gives `[5]` |
| `Merger.MergeWritten` | TreitFileParser/FileZipperMerger.cs:14-117 | what MergeFiles writes is never empty, and is the textbook merge when both inputs are non-empty |
| `Merger.MergeWrittenMultiset` | TreitFileParser/FileZipperMerger.cs:14-117 | MergeFiles writes every record of both preloaded inputs exactly once |
| `Merger.MergeWrittenSorted` | TreitFileParser/FileZipperMerger.cs:14-117 | MergeFiles of two sorted files is sorted |
| `Merger.PaddedSorted` | TreitFileParser/FileZipperMerger.cs:25-30 | the preload keeps a sorted file sorted |
| `Merger.MergeAndDeleteFiles` | TreitFileParser/FileZipperMerger.cs:144-152 | the file it returns holds what MergeFiles writes for the two inputs |
| `Merger.MergeRuns` | TreitFileParser/FileZipperMerger.cs:14-117 | with empty inputs passed through, the output is the textbook merge: a permutation of both inputs, sorted when they are |
| `Merger.MergeLevelBag` | TreitFileParser/FileZipperMerger.cs:119-142 | a level of textbook merges holds exactly the records of its input runs |
| `Merger.MergeLevelSorted` | TreitFileParser/FileZipperMerger.cs:119-142 | a level over sorted runs consists of sorted runs |
| `Merger.MergeLevelNonEmpty` | TreitFileParser/FileZipperMerger.cs:119-142 | a level over non-empty runs has no empty run |
| `Merger.LevelOfPadded` | TreitFileParser/FileZipperMerger.cs:119-142 | the level as written is the textbook level over the preloaded runs |
| `Merger.LevelBag` | TreitFileParser/FileZipperMerger.cs:119-142 | the level as written holds exactly the records of the preloaded runs |
| `Merger.LevelSorted` | TreitFileParser/FileZipperMerger.cs:119-142 | the level as written over sorted runs consists of sorted runs |
| `Merger.LevelNonEmpty` | TreitFileParser/FileZipperMerger.cs:119-142 | no entry of the level as written is empty |
| `Merger.PadAllBag` | TreitFileParser/FileZipperMerger.cs:25-30 | when only the last run may be empty, preloading adds exactly one 0 record if it is empty and nothing otherwise |
| `Merger.ConsumedOnce` | TreitFileParser/FileZipperMerger.cs:127-138 | in the level's consumption order every input is merged and deleted, and none twice |
| `Merger.MergeLevel` | TreitFileParser/FileZipperMerger.cs:119-142 | `n/2` entries, entry `i` merging inputs `i` and `i + n/2`, an odd spare merged into the last entry, no entries for fewer than two inputs; inputs consumed pair by pair, then the spare |
| `Merger.LevelOfPairs` | TreitFileParser/FileZipperMerger.cs:127-138 | the pair merges, with the spare folded into the last one when the count is odd, form the level |
| `Merger.MergePairs` | TreitFileParser/FileZipperMerger.cs:127-132 | entry `i` of the result array is MergeAndDeleteFiles of inputs `i` and `i + half`, consumed in that order |
| `Comparer.MatchStep` | TreitFileParser/FileComparer.cs:34-47 | on equal values, adding the value and reading on in both files keeps soundness and completeness |
| `Comparer.AdvanceFirst` | TreitFileParser/FileComparer.cs:48-56 | skipping a smaller file1 value loses no common value |
| `Comparer.AdvanceSecond` | TreitFileParser/FileComparer.cs:57-64 | skipping a smaller file2 value loses no common value |
| `Comparer.MatchLast` | TreitFileParser/FileComparer.cs:71-75 | a match while one file is at its last value completes the common set |
| `Comparer.Tie` | TreitFileParser/FileComparer.cs:103-104 | the values two last values have in common |
| `Comparer.BothLast` | TreitFileParser/FileComparer.cs:102-104 | with both files at their last value, the final check is all that is left to find |
| `Comparer.AtMostOneMore` | TreitFileParser/FileComparer.cs:67-68 | after the main loop at most one value is added |
| `Comparer.GetDistinctValues` | TreitFileParser/FileComparer.cs:14-107 | every value returned occurs in both preloaded files; for sorted files they are exactly the values common to both |
| `Comparer.CheckLast` | TreitFileParser/FileComparer.cs:103-104 | the final check adds the last value exactly when both last values are equal, appending it to the log of additions, and stays sound |
| `Comparer.JoinWhileBoth` | TreitFileParser/FileComparer.cs:32-65 | the main loop keeps soundness and completeness, only appends to the log of additions, and ends with one file at its last value |
| `Comparer.JoinStep` | TreitFileParser/FileComparer.cs:34-64 | one step keeps both invariants and consumes at least one record; on equal values it adds exactly that value to the set and appends it to the log of additions, otherwise it adds nothing |
| `Comparer.ScanFirst` | TreitFileParser/FileComparer.cs:69-84 | the first trailing loop either records the one remaining match, which completes the set and is appended to the log, or reaches file1's last value having added and lost nothing |
| `Comparer.ScanSecond` | TreitFileParser/FileComparer.cs:85-100 | after the second trailing loop the set is the main loop's set plus at most the tie of the last two values, the log has at most one value appended, and the common set is what was found plus that tie |
| `Comparer.EmptyInputSharesZero` | TreitFileParser/FileComparer.cs:24-29 | against a file holding 0, an empty file is reported to share `{0}` although it shares nothing |
| `Comparer.GetDistinctValuesChecked` | TreitFileParser/FileComparer.cs:14-107 | with empty inputs answered up front, every value returned occurs in both files, and for sorted files they are exactly the common values |
| `Splitter.ChunkCount` | TreitFileParser/FileSplitter.cs:20-21 | the chunk count is the length divided by the chunk size rounded up: the chunks cover the file, the last one starts inside it, and there are none for an empty file |
| `Splitter.StartInside` | TreitFileParser/FileSplitter.cs:30-32 | every chunk starts inside the source |
| `Splitter.ChunkSizes` | TreitFileParser/FileSplitter.cs:32-35 | every chunk but the last holds a whole chunk size; the last holds 1 up to a chunk size |
| `Splitter.ConcatChunks` | TreitFileParser/FileSplitter.cs:30-36 | the first k chunk files, concatenated, are the source up to the end of chunk k - 1 |
| `Splitter.ChunkBounds` | TreitFileParser/FileSplitter.cs:32-35 | chunk i is the slice of the source from `i * chunkSize` up to the next chunk or the end |
| `Splitter.SplitJoins` | TreitFileParser/FileSplitter.cs:30-36 | the chunk files, concatenated in index order, are the source |
| `Splitter.IndexOfFrom` | TreitFileParser/FileSplitter.cs:19 | the first occurrence of the extension at or after a start index |
| `Splitter.IndexOf` | TreitFileParser/FileSplitter.cs:19 | `IndexOf` returns an index where the extension occurs, and it occurs at no smaller index |
| `Splitter.BaseName` | TreitFileParser/FileSplitter.cs:19 | the base name followed by the extension is a prefix of the file name |
| `Splitter.NatToString` | TreitFileParser/FileSplitter.cs:33 | a chunk number is printed with at least one digit |
| `Splitter.ParseNatToString` | TreitFileParser/FileSplitter.cs:33 | a printed chunk number reads back as that number |
| `Splitter.ChunkPathsDistinct` | TreitFileParser/FileSplitter.cs:33 | distinct chunks get distinct file paths, so no chunk file overwrites another |
| `Splitter.ChunkSize` | TreitFileParser/FileSplitter.cs:17 | `splitSizeInMB * OneMB` in `int` arithmetic: always a multiple of 1 MB in `int` range, and equal to the true product for sizes from 1 to 2047 MB |
| `Splitter.ReadInto` | TreitFileParser/FileSplitter.cs:32 | a read fills the front of the buffer with the next `min(buffer, remaining)` source bytes and leaves the rest of the buffer alone |
| `Splitter.Split` | TreitFileParser/FileSplitter.cs:15-38 | a zero chunk size throws DivideByZero; a negative one (after wrap-around) throws Overflow; more than `int.MaxValue` chunks throws; otherwise chunk j is named `{folder}/{name}.{j+1}{ext}` and holds the j-th slice of the source |
| `Splitter.WriteChunks` | TreitFileParser/FileSplitter.cs:30-36 | the loop writes every chunk, each under its path with its slice of the source |
| `Splitter.ReadStep` | TreitFileParser/FileSplitter.cs:32-35 | a read at the start of chunk i yields exactly chunk i and moves to the start of chunk i + 1 |
| `Sorter.SortArray` | TreitFileParser/FileSorter.cs:20 | `Array.Sort` leaves the array sorted and a permutation of what it held |
| `Sorter.InsertAt` | TreitFileParser/FileSorter.cs:20 | one insertion leaves `a[..i + 1]` sorted and a permutation of what it held, and leaves everything after `i` unchanged |
| `Sorter.EncodeSorted` | TreitFileParser/FileSorter.cs:20-22 | the file written holds 4 bytes per value and decodes to the sorted values |
| `Sorter.SortedFile` | TreitFileParser/FileSorter.cs:8-23 | a sorted file keeps the whole records only, and its values are the reference sort of the file's values |
| `Sorter.SortFile` | TreitFileParser/FileSorter.cs:8-23 | the file is overwritten with the encoding of the array `Array.Sort` sorted in place, which is the file of its whole records in sorted order, with the view's capacity taken to be the file's length (see Left out) |
| `Sorter.SortedFilePermutes` | TreitFileParser/FileSorter.cs:8-23 | the records after SortFile are sorted and a permutation of the records before |
| `Sorter.SortedFileOfSorted` | TreitFileParser/FileSorter.cs:8-23 | sorting a file whose records are in order keeps its records |
| `Sorter.SortedFileIdempotent` | TreitFileParser/FileSorter.cs:8-23 | sorting a file twice gives the same file as sorting it once |
| `Sorter.MergeLevels` | TreitFileParser/FileSorter.cs:35-36 | the level loop ends with one or two sorted runs holding every input record, plus the one 0 record an empty last run brings in, and with at most two inputs changes nothing |
| `Sorter.LevelStep` | TreitFileParser/FileSorter.cs:35-36 | a level over more than two runs has fewer runs, keeps them sorted, keeps the records and absorbs the empty last run's 0 record |
| `Sorter.FinalBag` | TreitFileParser/FileSorter.cs:38-46 | the final merge of two runs, or the copy of one, holds all the records left by the level loop |
| `Sorter.SortChunks` | TreitFileParser/FileSorter.cs:30-33 | the foreach sorts every chunk file in place, in order, and changes nothing else |
| `Sorter.Injected` | TreitFileParser/FileSorter.cs:38-42 | at most one record is injected by the pipeline, exactly when at least two chunks exist and the last is shorter than a record |
| `Sorter.WholeRecordsInjectNothing` | TreitFileParser/FileSorter.cs:25-49 | a source of whole records gets nothing injected |
| `Sorter.PartialTailInjects` | TreitFileParser/FileSorter.cs:38-42 | for any 1 MB + 1 byte source with 1 MB chunks a 0 record is injected: the as-written pipeline sorts 262145 records where the source holds 262144 |
| `Sorter.ChunksBag` | TreitFileParser/FileSorter.cs:29-33 | the sorted runs of the first k chunks hold the records of the source up to the end of chunk k - 1 |
| `Sorter.SourceBag` | TreitFileParser/FileSorter.cs:29-33 | the sorted chunk runs together hold exactly the whole records of the source |
| `Sorter.LastChunkSize` | TreitFileParser/FileSplitter.cs:20-21 | the last chunk holds the remainder, or a whole chunk when the size divides the length |
| `Sorter.InnerChunkHasRecords` | TreitFileParser/FileSplitter.cs:30-36 | every chunk before the last holds at least one record |
| `Sorter.LastChunkRecords` | TreitFileParser/FileSplitter.cs:30-36 | the last chunk holds no record exactly when the source ends in a remainder of 1 to 3 bytes |
| `Sorter.ChunkRunsNonEmpty` | TreitFileParser/FileSorter.cs:29-33 | only the last sorted chunk run can be empty |
| `Sorter.ChunkRunsPad` | TreitFileParser/FileSorter.cs:29-33 | the last chunk run is empty exactly when Injected says a record is injected |
| `Sorter.WithInjected` | TreitFileParser/FileSorter.cs:25-49 | the records the as-written pipeline sorts: the source's whole records plus the injected ones |
| `Sorter.SplitRuns` | TreitFileParser/FileSorter.cs:29-33 | Split's errors propagate; otherwise the runs are sorted, only the last may be empty, there are none exactly for an empty source, and together they hold the source's whole records |
| `Sorter.SortReallyBigFile` | TreitFileParser/FileSorter.cs:25-49 | Split's errors propagate and an empty source fails at `splitFiles[0]`; otherwise the result `{dir}\Sorted{name}` holds the sorted permutation of the source's whole records, plus the injected record |
| `Sorter.SortReallyBigFileChecked` | TreitFileParser/FileSorter.cs:25-49 | with an empty last run dropped before merging, the result holds exactly the sorted whole records of the source |
| `Sorter.ChunkFilesFit` | TreitFileParser/FileSorter.cs:14 | every chunk file fits the `int`-sized view SortFile reads it through |
| `Sorter.PipelineStart` | TreitFileParser/FileSorter.cs:29-33 | after split and foreach the runs are sorted, only the last may be empty, they hold the source's records, and the empty last run matches Injected |
| `Sorter.WholeRecordChunks` | TreitFileParser/FileSplitter.cs:17 | a chunk size of whole megabytes holds whole records |
| `Sorter.DropEmptyLast` | TreitFileParser/FileSorter.cs:35-42 | dropping an empty last run loses no record and leaves no empty run |

## Left out

- The value type `T` is taken to be `int`, as in the program's driver: records are 4 bytes, little-endian, two's complement. Other instantiations are not modelled.
- Files are values: a path and its bytes, or a run of decoded records. The file system, file handles, exceptions from I/O and the `using` disposal are not modelled.
- MergeAndDeleteFiles: the temporary file name (`GetHashCode` of the two names, FileZipperMerger.cs:146-147) is not modelled, since string hashing is randomised per process. The deletes at FileZipperMerger.cs:149-150 show up only as the ghost order `consumed` in which inputs are merged and then deleted.
- SortReallyBigFile: `File.Delete` and `File.Copy` (FileSorter.cs:41, 45, 47) are modelled only by the value that ends up in the result file.
- CheckAndCreateOutputFolder (FileSplitter.cs:40-55) and `Path.Combine` are not modelled: `Split` takes the resolved output folder as `outputFolder`, and `SortReallyBigFile` takes the resolved "Splits" folder as `splitsFolder`.
- `FileStream.Read` is taken to fill the buffer as far as the file allows. A short read before the end of the file is not modelled.
- Merger.MergeFiles: its inputs are modelled as whole-record files. A file that ends in 1 to 3 stray bytes, on which the `< Size` branches would trigger with unread bytes left, is not covered. Within SortReallyBigFile every merge input comes out of SortFile and so holds whole records.
- Comparer.GetDistinctValues: the order in which values are added and the bound of at most one value after the main loop are stated on its ghost outputs `log` and `mainFound`, which the method itself supplies. The facts behind them are in the contracts of `JoinStep`, `JoinWhileBoth`, `ScanFirst`, `ScanSecond` and `CheckLast`, which say exactly what each step adds and appends.
- Comparer.GetDistinctValues: its inputs are likewise whole-record files. The returned array is modelled as the set of its elements, because `HashSet<T>.ToArray` order is unspecified. The ghost `log` gives the order in which values were added.
- The culture-sensitive `string.IndexOf(string)` (FileSplitter.cs:19) is modelled as ordinal first occurrence. FileInfo guarantees that the extension ends the name (`HasExtension`).
- `Array.Sort` (an introspective sort) is modelled by an in-place insertion sort. Sorted permutations are unique (`Runs.SortedPermutationUnique`), so the resulting file is the same.
- Sorter.SortFile: requires the file to be at most `int.MaxValue` bytes. The truncating `(int)` cast of a larger view capacity (FileSorter.cs:14) is not modelled. The view's capacity is taken to be the file's length, so a trailing partial record is dropped. With a capacity rounded up to a whole page of 4096 bytes, `ReadArray` (FileSorter.cs:14-18) would read `capacity / 4` values instead: the 1 to 3 trailing bytes, padded with zero bytes, would be read as one value, and the rest of the page as zero records. That is not modelled. An empty file is not modelled as the error it is: `CreateFromFile` with capacity 0 (FileSorter.cs:11) throws `ArgumentException` on an empty file, while SortFile returns an empty file; SortReallyBigFile never passes it one (`Splitter.ChunkSizes`). All of SortReallyBigFile's chunk files meet the bound (`Sorter.ChunkFilesFit`).
- FileComparer.AreIdentical, OldSolutions.cs, and both Program.cs files are not part of this model.

## Findings

| source | as written | input that shows it | evidently intended | confidence | as-written member | corrected member |
|---|---|---|---|---|---|---|
| TreitFileParser/FileZipperMerger.cs:25-30 | the preload casts the buffer without checking that a record was read, so an empty input is merged as the value 0 | `MergeFiles` of an empty file and a file holding `[5]` writes `[0, 5]` | the merge of the records present: `[5]` | not executed | `Merger.EmptyInputExample` | `Merger.MergeRuns` |
| TreitFileParser/FileComparer.cs:24-29 | the same unchecked preload, so an empty file looks like a file holding 0 | `GetDistinctValues` of an empty file and a file holding `[0]` returns `{0}` | no common values: `{}` | not executed | `Comparer.EmptyInputSharesZero` | `Comparer.GetDistinctValuesChecked` |
| TreitFileParser/FileSorter.cs:38-42 | a source ending in a chunk of 1 to 3 bytes gives an empty sorted chunk. The merge that reads it adds a 0 record: the final merge (FileSorter.cs:40) when there are two chunks, a level merge (FileZipperMerger.cs:148) when there are more | `SortReallyBigFile` with `chunkSizeInMB = 1` on a source of 1 MB + 1 bytes: the result holds one record more than the source's 262144 whole records. This takes the view capacity in SortFile to be the file length; with a capacity rounded up to a 4096-byte page the 1-byte chunk would instead read as 1024 values, the zero-padded byte and 1023 zeros, and sort to those | the sorted whole records of the source, nothing added | not executed | `Sorter.PartialTailInjects` | `Sorter.SortReallyBigFileChecked` |
