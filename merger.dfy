/**
 * FileZipperMerger: the two-way merge of two record files and one level of
 * pairwise merging over a list of sorted runs. A record file is modelled by
 * its sequence of values; a FileStream opened for reading is a RecordReader,
 * a cursor into that sequence; the output stream is the sequence of values
 * written so far.
 */
module Merger {
  import opened Records
  import opened Runs

  /** A FileStream opened for reading over a file of whole records. */
  class RecordReader {
    const records: seq<int>
    var pos: nat  // records consumed; the byte position is pos * Size

    /** The position never passes the end of the file. */
    ghost predicate Valid()
      reads this
    {
      pos <= |records|
    }

    constructor Open(records: seq<int>)
      ensures this.records == records && pos == 0 && Valid()
    {
      this.records := records;
      pos := 0;
    }

    function Position(): (p: int)
      reads this
      ensures p < Length() <==> pos < |records|
    {
      pos * Size
    }

    function Length(): int {
      |records| * Size
    }

    /**
     * Read one record into the buffer. Returns the number of bytes read, Size
     * when a record was left and 0 at the end of the file; in the latter case
     * the buffer keeps what it held.
     */
    method Read(buffer: int) returns (count: nat, value: int)
      requires Valid()
      modifies this
      ensures Valid()
      ensures old(pos) < |records| ==> count == Size && value == records[old(pos)] && pos == old(pos) + 1
      ensures old(pos) == |records| ==> count == 0 && value == buffer && pos == old(pos)
    {
      if pos < |records| {
        count, value := Size, records[pos];
        pos := pos + 1;
      } else {
        count, value := 0, buffer;
      }
    }
  }

  /**
   * What the unchecked preload makes of a file: an empty file leaves the
   * zero-initialised buffer in place, which is then taken as its one value.
   */
  function Padded(file: seq<int>): (p: seq<int>)
    ensures p != []
    ensures file != [] ==> p == file
  {
    if file == [] then [0] else file
  }

  /** What is still to be written from one input: its lookahead value, unless finished, then the unread records. */
  ghost function Pending(records: seq<int>, pos: nat, val: int, finished: bool): (pending: seq<int>)
    requires pos <= |records|
  {
    if finished then [] else [val] + records[pos..]
  }

  lemma AppendAssociative(x: seq<int>, y: seq<int>, z: seq<int>)
    ensures (x + y) + z == x + (y + z)
  {
  }

  /**
   * The state of MergeFiles between statements: a finished stream is at its
   * end, and what has been written followed by the merge of what is still
   * pending on each side is the final output.
   */
  ghost predicate Merging(records1: seq<int>, pos1: nat, val1: int, finished1: bool,
                          records2: seq<int>, pos2: nat, val2: int, finished2: bool,
                          output: seq<int>, goal: seq<int>)
  {
    pos1 <= |records1| && pos2 <= |records2| &&
    (finished1 ==> pos1 == |records1|) && (finished2 ==> pos2 == |records2|) &&
    output + Merge(Pending(records1, pos1, val1, finished1), Pending(records2, pos2, val2, finished2)) == goal
  }

  /** Writing file1's lookahead value, which is not greater than file2's (or file2 is finished). */
  lemma TakeFirst(records1: seq<int>, pos1: nat, val1: int,
                  records2: seq<int>, pos2: nat, val2: int, finished2: bool,
                  output: seq<int>, goal: seq<int>)
    requires Merging(records1, pos1, val1, false, records2, pos2, val2, finished2, output, goal)
    requires finished2 || val1 <= val2
    ensures pos1 < |records1| ==>
      Merging(records1, pos1 + 1, records1[pos1], false, records2, pos2, val2, finished2, output + [val1], goal)
    ensures pos1 == |records1| ==>
      Merging(records1, pos1, val1, true, records2, pos2, val2, finished2, output + [val1], goal)
  {
    var a, b := Pending(records1, pos1, val1, false), Pending(records2, pos2, val2, finished2);
    var m := Merge(a[1..], b);
    assert Merge(a, b) == [val1] + m by {
      if b == [] {
        assert a == [a[0]] + a[1..];
      }
    }
    AppendAssociative(output, [val1], m);
    if pos1 < |records1| {
      assert a[1..] == Pending(records1, pos1 + 1, records1[pos1], false);
    } else {
      assert a[1..] == [];
    }
  }

  /** Writing file2's lookahead value, which is smaller than file1's (or file1 is finished). */
  lemma TakeSecond(records1: seq<int>, pos1: nat, val1: int, finished1: bool,
                   records2: seq<int>, pos2: nat, val2: int,
                   output: seq<int>, goal: seq<int>)
    requires Merging(records1, pos1, val1, finished1, records2, pos2, val2, false, output, goal)
    requires finished1 || val2 < val1
    ensures pos2 < |records2| ==>
      Merging(records1, pos1, val1, finished1, records2, pos2 + 1, records2[pos2], false, output + [val2], goal)
    ensures pos2 == |records2| ==>
      Merging(records1, pos1, val1, finished1, records2, pos2, val2, true, output + [val2], goal)
  {
    var a, b := Pending(records1, pos1, val1, finished1), Pending(records2, pos2, val2, false);
    var m := Merge(a, b[1..]);
    assert Merge(a, b) == [val2] + m by {
      if a == [] {
        assert b == [b[0]] + b[1..];
      }
    }
    AppendAssociative(output, [val2], m);
    if pos2 < |records2| {
      assert b[1..] == Pending(records2, pos2 + 1, records2[pos2], false);
    } else {
      assert b[1..] == [];
    }
  }

  /** Once both inputs are finished, everything has been written. */
  lemma MergingDone(records1: seq<int>, pos1: nat, val1: int, records2: seq<int>, pos2: nat, val2: int,
                    output: seq<int>, goal: seq<int>)
    requires Merging(records1, pos1, val1, true, records2, pos2, val2, true, output, goal)
    ensures output == goal
  {
    assert output + [] == output;
  }

  /**
   * MergeFiles(file1Path, file2Path, outputPath) as written: the output is the
   * left-biased merge of the two inputs, every record of each written once,
   * ties taking file1's record first. The preload does not check that a
   * record was read, so an empty input contributes the default value 0.
   * The three loops and the final writes are the methods below, in order.
   */
  method MergeFiles(file1: seq<int>, file2: seq<int>) returns (output: seq<int>)
    ensures output == Merge(Padded(file1), Padded(file2))
  {
    var file1Stream := new RecordReader.Open(file1);
    var file2Stream := new RecordReader.Open(file2);
    var count: nat, val1: int, val2: int;
    count, val1 := file1Stream.Read(0);
    count, val2 := file2Stream.Read(0);
    ghost var goal := Merge(Padded(file1), Padded(file2));
    assert Pending(file1, file1Stream.pos, val1, false) == Padded(file1);
    assert Pending(file2, file2Stream.pos, val2, false) == Padded(file2);
    assert [] + goal == goal;
    var stream1Finished, stream2Finished;
    val1, val2, stream1Finished, stream2Finished, output :=
      MergeWhileBoth(file1Stream, file2Stream, val1, val2, [], goal);
    val1, val2, stream1Finished, stream2Finished, output :=
      DrainFirst(file1Stream, file2Stream, val1, val2, stream1Finished, stream2Finished, output, goal);
    val1, val2, stream1Finished, stream2Finished, output :=
      DrainSecond(file1Stream, file2Stream, val1, val2, stream1Finished, stream2Finished, output, goal);
    output := WriteLast(file1Stream, file2Stream, val1, val2, stream1Finished, stream2Finished, output, goal);
  }

  /**
   * One step of a loop taking file1's value: write val1 and read the next
   * record into it; the stream is finished when the read returns fewer than
   * Size bytes.
   */
  method WriteFirst(file1Stream: RecordReader, file2Stream: RecordReader, val1: int, val2: int,
                    finished2: bool, output: seq<int>, ghost goal: seq<int>)
    returns (val1': int, finished1: bool, output': seq<int>)
    requires file1Stream != file2Stream
    requires Merging(file1Stream.records, file1Stream.pos, val1, false,
                     file2Stream.records, file2Stream.pos, val2, finished2, output, goal)
    requires finished2 || val1 <= val2
    modifies file1Stream
    ensures Merging(file1Stream.records, file1Stream.pos, val1', finished1,
                    file2Stream.records, file2Stream.pos, val2, finished2, output', goal)
    ensures finished1 <==> old(file1Stream.pos) == |file1Stream.records|
    ensures file1Stream.pos == if finished1 then old(file1Stream.pos) else old(file1Stream.pos) + 1
  {
    TakeFirst(file1Stream.records, file1Stream.pos, val1, file2Stream.records, file2Stream.pos, val2, finished2, output, goal);
    output' := output + [val1];
    var count;
    count, val1' := file1Stream.Read(val1);
    finished1 := count < Size;
  }

  /** One step of a loop taking file2's value: write val2 and read the next record into it. */
  method WriteSecond(file1Stream: RecordReader, file2Stream: RecordReader, val1: int, finished1: bool,
                     val2: int, output: seq<int>, ghost goal: seq<int>)
    returns (val2': int, finished2: bool, output': seq<int>)
    requires file1Stream != file2Stream
    requires Merging(file1Stream.records, file1Stream.pos, val1, finished1,
                     file2Stream.records, file2Stream.pos, val2, false, output, goal)
    requires finished1 || val2 < val1
    modifies file2Stream
    ensures Merging(file1Stream.records, file1Stream.pos, val1, finished1,
                    file2Stream.records, file2Stream.pos, val2', finished2, output', goal)
    ensures finished2 <==> old(file2Stream.pos) == |file2Stream.records|
    ensures file2Stream.pos == if finished2 then old(file2Stream.pos) else old(file2Stream.pos) + 1
  {
    TakeSecond(file1Stream.records, file1Stream.pos, val1, finished1, file2Stream.records, file2Stream.pos, val2, output, goal);
    output' := output + [val2];
    var count;
    count, val2' := file2Stream.Read(val2);
    finished2 := count < Size;
  }

  /** The first loop: take the smaller lookahead value (file1's on a tie) while both streams have unread records. */
  method MergeWhileBoth(file1Stream: RecordReader, file2Stream: RecordReader, val1: int, val2: int,
                        output: seq<int>, ghost goal: seq<int>)
    returns (val1': int, val2': int, stream1Finished: bool, stream2Finished: bool, output': seq<int>)
    requires file1Stream != file2Stream
    requires Merging(file1Stream.records, file1Stream.pos, val1, false,
                     file2Stream.records, file2Stream.pos, val2, false, output, goal)
    modifies file1Stream, file2Stream
    ensures Merging(file1Stream.records, file1Stream.pos, val1', stream1Finished,
                    file2Stream.records, file2Stream.pos, val2', stream2Finished, output', goal)
    ensures file1Stream.pos == |file1Stream.records| || file2Stream.pos == |file2Stream.records|
  {
    val1', val2', output' := val1, val2, output;
    stream1Finished, stream2Finished := false, false;
    while file1Stream.Position() < file1Stream.Length() && file2Stream.Position() < file2Stream.Length()
      invariant Merging(file1Stream.records, file1Stream.pos, val1', stream1Finished,
                        file2Stream.records, file2Stream.pos, val2', stream2Finished, output', goal)
      invariant !stream1Finished && !stream2Finished
      decreases |file1Stream.records| - file1Stream.pos + |file2Stream.records| - file2Stream.pos
    {
      if val1' <= val2' {
        val1', stream1Finished, output' := WriteFirst(file1Stream, file2Stream, val1', val2', false, output', goal);
        if stream1Finished {
          break;
        }
      } else {
        val2', stream2Finished, output' := WriteSecond(file1Stream, file2Stream, val1', false, val2', output', goal);
        if stream2Finished {
          break;
        }
      }
    }
  }

  /** The second loop: drain file1, writing file2's last value once where it belongs. */
  method DrainFirst(file1Stream: RecordReader, file2Stream: RecordReader, val1: int, val2: int,
                    stream1Finished: bool, stream2Finished: bool, output: seq<int>, ghost goal: seq<int>)
    returns (val1': int, val2': int, stream1Finished': bool, stream2Finished': bool, output': seq<int>)
    requires file1Stream != file2Stream
    requires Merging(file1Stream.records, file1Stream.pos, val1, stream1Finished,
                     file2Stream.records, file2Stream.pos, val2, stream2Finished, output, goal)
    requires file1Stream.pos == |file1Stream.records| || file2Stream.pos == |file2Stream.records|
    modifies file1Stream
    ensures Merging(file1Stream.records, file1Stream.pos, val1', stream1Finished',
                    file2Stream.records, file2Stream.pos, val2', stream2Finished', output', goal)
    ensures file1Stream.pos == |file1Stream.records|
  {
    val1', val2', output' := val1, val2, output;
    stream1Finished', stream2Finished' := stream1Finished, stream2Finished;
    while file1Stream.Position() < file1Stream.Length()
      invariant Merging(file1Stream.records, file1Stream.pos, val1', stream1Finished',
                        file2Stream.records, file2Stream.pos, val2', stream2Finished', output', goal)
      invariant file1Stream.pos < |file1Stream.records| ==> file2Stream.pos == |file2Stream.records|
      decreases |file1Stream.records| - file1Stream.pos, if stream2Finished' then 0 else 1
    {
      if stream2Finished' || val1' <= val2' {
        val1', stream1Finished', output' := WriteFirst(file1Stream, file2Stream, val1', val2', stream2Finished', output', goal);
        if stream1Finished' {
          break;
        }
      } else {
        TakeSecond(file1Stream.records, file1Stream.pos, val1', false, file2Stream.records, file2Stream.pos, val2', output', goal);
        output' := output' + [val2'];
        stream2Finished' := true;
      }
    }
  }

  /** The third loop: drain file2, writing file1's last value once where it belongs (file1 first on a tie). */
  method DrainSecond(file1Stream: RecordReader, file2Stream: RecordReader, val1: int, val2: int,
                     stream1Finished: bool, stream2Finished: bool, output: seq<int>, ghost goal: seq<int>)
    returns (val1': int, val2': int, stream1Finished': bool, stream2Finished': bool, output': seq<int>)
    requires file1Stream != file2Stream
    requires Merging(file1Stream.records, file1Stream.pos, val1, stream1Finished,
                     file2Stream.records, file2Stream.pos, val2, stream2Finished, output, goal)
    requires file1Stream.pos == |file1Stream.records|
    modifies file2Stream
    ensures Merging(file1Stream.records, file1Stream.pos, val1', stream1Finished',
                    file2Stream.records, file2Stream.pos, val2', stream2Finished', output', goal)
    ensures file1Stream.pos == |file1Stream.records| && file2Stream.pos == |file2Stream.records|
  {
    val1', val2', output' := val1, val2, output;
    stream1Finished', stream2Finished' := stream1Finished, stream2Finished;
    while file2Stream.Position() < file2Stream.Length()
      invariant Merging(file1Stream.records, file1Stream.pos, val1', stream1Finished',
                        file2Stream.records, file2Stream.pos, val2', stream2Finished', output', goal)
      invariant file1Stream.pos == |file1Stream.records|
      decreases |file2Stream.records| - file2Stream.pos, if stream1Finished' then 0 else 1
    {
      if stream1Finished' || val2' < val1' {
        val2', stream2Finished', output' := WriteSecond(file1Stream, file2Stream, val1', stream1Finished', val2', output', goal);
        if stream2Finished' {
          break;
        }
      } else {
        TakeFirst(file1Stream.records, file1Stream.pos, val1', file2Stream.records, file2Stream.pos, val2', false, output', goal);
        output' := output' + [val1'];
        stream1Finished' := true;
      }
    }
  }

  /** Both streams are at their end: write each lookahead value that is still waiting, the smaller first. */
  method WriteLast(file1Stream: RecordReader, file2Stream: RecordReader, val1: int, val2: int,
                   stream1Finished: bool, stream2Finished: bool, output: seq<int>, ghost goal: seq<int>)
    returns (output': seq<int>)
    requires Merging(file1Stream.records, file1Stream.pos, val1, stream1Finished,
                     file2Stream.records, file2Stream.pos, val2, stream2Finished, output, goal)
    requires file1Stream.pos == |file1Stream.records| && file2Stream.pos == |file2Stream.records|
    ensures output' == goal
  {
    var records1, records2 := file1Stream.records, file2Stream.records;
    var pos1, pos2 := file1Stream.pos, file2Stream.pos;
    output' := output;
    var finished1, finished2 := stream1Finished, stream2Finished;
    if !finished1 && !finished2 {
      if val1 <= val2 {
        TakeFirst(records1, pos1, val1, records2, pos2, val2, finished2, output', goal);
        output' := output' + [val1];
        finished1 := true;
      } else {
        TakeSecond(records1, pos1, val1, finished1, records2, pos2, val2, output', goal);
        output' := output' + [val2];
        finished2 := true;
      }
    }
    if !finished1 {
      TakeFirst(records1, pos1, val1, records2, pos2, val2, finished2, output', goal);
      output' := output' + [val1];
      finished1 := true;
    }
    if !finished2 {
      TakeSecond(records1, pos1, val1, finished1, records2, pos2, val2, output', goal);
      output' := output' + [val2];
      finished2 := true;
    }
    MergingDone(records1, pos1, val1, records2, pos2, val2, output', goal);
  }

  /** The unchecked preload: an empty first input contributes one spurious default record to the output. */
  lemma EmptyInputInjectsDefault(file2: seq<int>)
    requires file2 != []
    ensures multiset(Merge(Padded([]), Padded(file2))) == multiset(file2) + multiset{0}
    ensures |Merge(Padded([]), Padded(file2))| == |file2| + 1
  {
    MergeMultiset([0], file2);
  }

  /** A concrete instance: merging an empty file with [5] writes [0, 5] where [5] is meant. */
  lemma EmptyInputExample()
    ensures Merge(Padded([]), Padded([5])) == [0, 5]
    ensures Merge([], [5]) == [5]
  {
    assert Merge([0][1..], [5]) == [5];
  }

  /**
   * What MergeFiles makes of two record files: the left-biased merge of the
   * inputs as the preload sees them. Every record of each input is written
   * once, and an empty input adds one 0 record; two non-empty inputs are
   * merged exactly.
   */
  function MergeWritten(file1: seq<int>, file2: seq<int>): (merged: seq<int>)
    ensures merged != []
    ensures file1 != [] && file2 != [] ==> merged == Merge(file1, file2)
  {
    MergeMultiset(Padded(file1), Padded(file2));
    Merge(Padded(file1), Padded(file2))
  }

  lemma MergeWrittenMultiset(file1: seq<int>, file2: seq<int>)
    ensures multiset(MergeWritten(file1, file2)) == multiset(Padded(file1)) + multiset(Padded(file2))
    ensures |MergeWritten(file1, file2)| == |Padded(file1)| + |Padded(file2)|
  {
    MergeMultiset(Padded(file1), Padded(file2));
  }

  lemma MergeWrittenSorted(file1: seq<int>, file2: seq<int>)
    requires Sorted(file1) && Sorted(file2)
    ensures Sorted(MergeWritten(file1, file2))
  {
    PaddedSorted(file1);
    PaddedSorted(file2);
    MergeSorted(Padded(file1), Padded(file2));
  }

  lemma PaddedSorted(file: seq<int>)
    ensures Sorted(file) ==> Sorted(Padded(file))
  {
  }

  /**
   * MergeAndDeleteFiles(file1, file2, outputFolder): merge two runs into a
   * fresh file with MergeFiles and consume both.
   */
  method MergeAndDeleteFiles(file1: seq<int>, file2: seq<int>) returns (merged: seq<int>)
    ensures merged == MergeWritten(file1, file2)
  {
    merged := MergeFiles(file1, file2);
  }

  /**
   * MergeFiles with the empty inputs the preload mishandles answered up
   * front: an empty run is passed through unchanged, so the result is the
   * left-biased merge for every pair of runs.
   */
  method MergeRuns(file1: seq<int>, file2: seq<int>) returns (merged: seq<int>)
    ensures merged == Merge(file1, file2)
    ensures multiset(merged) == multiset(file1) + multiset(file2)
    ensures Sorted(file1) && Sorted(file2) ==> Sorted(merged)
  {
    if file1 == [] {
      merged := file2;
    } else if file2 == [] {
      merged := file1;
    } else {
      merged := MergeFiles(file1, file2);
    }
    MergeMultiset(file1, file2);
    if Sorted(file1) && Sorted(file2) {
      MergeSorted(file1, file2);
    }
  }

  /**
   * A level of textbook merges: with n = |runs| > 1 and half = n / 2 there
   * are half entries; entry i merges run i with run i + half, and with n odd
   * the last entry is then merged with the last run as its second input.
   * Fewer than two runs give no entries.
   */
  ghost predicate IsMergeLevel(runs: seq<seq<int>>, level: seq<seq<int>>) {
    var n, half := |runs|, |runs| / 2;
    |level| == (if n <= 1 then 0 else half) &&
    (forall i :: 0 <= i < |level| && !(n % 2 == 1 && i == half - 1) ==> level[i] == Merge(runs[i], runs[i + half])) &&
    (n > 1 && n % 2 == 1 ==> level[half - 1] == Merge(Merge(runs[half - 1], runs[n - 2]), runs[n - 1]))
  }

  lemma MultisetRearrange(w: multiset<int>, x: multiset<int>, y: multiset<int>, z: multiset<int>, l: multiset<int>)
    ensures (w + x) + ((y + z) + l) == (w + y) + (x + z + l)
  {
  }

  /** A level neither loses nor invents records: the union of its runs is the union of the input runs. */
  lemma MergeLevelBag(runs: seq<seq<int>>, level: seq<seq<int>>)
    requires |runs| > 1 && IsMergeLevel(runs, level)
    ensures Bag(level) == Bag(runs)
  {
    LevelMultisets(runs, level);
    LevelBagOfMultisets(runs, level);
  }

  /** Entry by entry, what a level holds as multisets of records. */
  ghost predicate LevelHolds(runs: seq<seq<int>>, level: seq<seq<int>>) {
    var n, half := |runs|, |runs| / 2;
    n > 1 && |level| == half &&
    (forall i :: 0 <= i < half && !(n % 2 == 1 && i == half - 1) ==>
      multiset(level[i]) == multiset(runs[i]) + multiset(runs[i + half])) &&
    (n % 2 == 1 ==> multiset(level[half - 1]) == multiset(runs[half - 1]) + multiset(runs[n - 2]) + multiset(runs[n - 1]))
  }

  lemma MergeHolds(merged: seq<int>, a: seq<int>, b: seq<int>)
    requires merged == Merge(a, b)
    ensures multiset(merged) == multiset(a) + multiset(b)
  {
    MergeMultiset(a, b);
  }

  lemma LevelMultisets(runs: seq<seq<int>>, level: seq<seq<int>>)
    requires |runs| > 1 && IsMergeLevel(runs, level)
    ensures LevelHolds(runs, level)
  {
    PairsHold(runs, level);
    if |runs| % 2 == 1 {
      SpareHolds(runs, level);
    }
  }

  lemma PairsHold(runs: seq<seq<int>>, level: seq<seq<int>>)
    requires |runs| > 1 && IsMergeLevel(runs, level)
    ensures forall i :: 0 <= i < |runs| / 2 && !(|runs| % 2 == 1 && i == |runs| / 2 - 1) ==>
      multiset(level[i]) == multiset(runs[i]) + multiset(runs[i + |runs| / 2])
  {
    var n, half := |runs|, |runs| / 2;
    forall i | 0 <= i < half && !(n % 2 == 1 && i == half - 1)
      ensures multiset(level[i]) == multiset(runs[i]) + multiset(runs[i + half])
    {
      MergeHolds(level[i], runs[i], runs[i + half]);
    }
  }

  lemma SpareHolds(runs: seq<seq<int>>, level: seq<seq<int>>)
    requires |runs| > 1 && |runs| % 2 == 1 && IsMergeLevel(runs, level)
    ensures multiset(level[|runs| / 2 - 1]) ==
      multiset(runs[|runs| / 2 - 1]) + multiset(runs[|runs| - 2]) + multiset(runs[|runs| - 1])
  {
    var n, half := |runs|, |runs| / 2;
    var inner := Merge(runs[half - 1], runs[n - 2]);
    MergeHolds(inner, runs[half - 1], runs[n - 2]);
    MergeHolds(level[half - 1], inner, runs[n - 1]);
  }

  lemma LevelBagOfMultisets(runs: seq<seq<int>>, level: seq<seq<int>>)
    requires LevelHolds(runs, level)
    ensures Bag(level) == Bag(runs)
  {
    var n, half := |runs|, |runs| / 2;
    BagSplit(runs, 0, half, n);
    if n % 2 == 1 {
      PairsBag(runs, level, half, half - 1);
      SpareBag(runs, level);
    } else {
      PairsBag(runs, level, half, half);
      assert half + half == n;
    }
  }

  /** With n odd, the last entry adds runs half - 1, n - 2 and n - 1 to the full pairs before it. */
  lemma SpareBag(runs: seq<seq<int>>, level: seq<seq<int>>)
    requires LevelHolds(runs, level) && |runs| % 2 == 1
    requires BagRange(level, 0, |runs| / 2 - 1) == BagRange(runs, 0, |runs| / 2 - 1) + BagRange(runs, |runs| / 2, |runs| - 2)
    ensures BagRange(level, 0, |level|) == BagRange(runs, 0, |runs| / 2) + BagRange(runs, |runs| / 2, |runs|)
  {
    var n, half := |runs|, |runs| / 2;
    var a, b, c := runs[half - 1], runs[n - 2], runs[n - 1];
    assert BagRange(level, 0, half) == BagRange(level, 0, half - 1) + multiset(level[half - 1]);
    assert BagRange(runs, 0, half) == BagRange(runs, 0, half - 1) + multiset(a);
    assert BagRange(runs, half, n) == BagRange(runs, half, n - 2) + multiset(b) + multiset(c);
    MultisetRearrange(BagRange(runs, 0, half - 1), BagRange(runs, half, n - 2), multiset(a), multiset(b), multiset(c));
  }

  /** The first k entries of a level hold exactly runs 0..k and runs half..half + k. */
  lemma {:induction false} PairsBag(runs: seq<seq<int>>, level: seq<seq<int>>, half: nat, k: nat)
    requires k <= half && half + k <= |runs| && k <= |level|
    requires forall i :: 0 <= i < k ==> multiset(level[i]) == multiset(runs[i]) + multiset(runs[i + half])
    ensures BagRange(level, 0, k) == BagRange(runs, 0, k) + BagRange(runs, half, half + k)
    decreases k
  {
    if k > 0 {
      PairsBag(runs, level, half, k - 1);
      MultisetSwap(BagRange(runs, 0, k - 1), BagRange(runs, half, half + k - 1), multiset(runs[k - 1]), multiset(runs[half + k - 1]));
    }
  }

  lemma MultisetSwap(w: multiset<int>, x: multiset<int>, y: multiset<int>, z: multiset<int>)
    ensures (w + x) + (y + z) == (w + y) + (x + z)
  {
  }

  /** Merging sorted runs gives sorted runs. */
  lemma MergeLevelSorted(runs: seq<seq<int>>, level: seq<seq<int>>)
    requires AllSorted(runs) && IsMergeLevel(runs, level)
    ensures AllSorted(level)
  {
    var n, half := |runs|, |runs| / 2;
    forall i | 0 <= i < |level| ensures Sorted(level[i]) {
      MergeSorted(runs[i], runs[i + half]);
      if n % 2 == 1 && i == half - 1 {
        MergeSorted(Merge(runs[i], runs[n - 2]), runs[n - 1]);
      }
    }
  }

  /** Merging non-empty runs gives non-empty runs. */
  lemma MergeLevelNonEmpty(runs: seq<seq<int>>, level: seq<seq<int>>)
    requires AllNonEmpty(runs) && IsMergeLevel(runs, level)
    ensures AllNonEmpty(level)
  {
    var n, half := |runs|, |runs| / 2;
    forall i | 0 <= i < |level| ensures level[i] != [] {
      if n % 2 == 1 && i == half - 1 {
        MergeNonEmpty(runs[i], runs[n - 2]);
        MergeNonEmpty(Merge(runs[i], runs[n - 2]), runs[n - 1]);
      } else {
        MergeNonEmpty(runs[i], runs[i + half]);
      }
    }
  }

  lemma MergeNonEmpty(a: seq<int>, b: seq<int>)
    requires a != []
    ensures Merge(a, b) != []
  {
  }

  /**
   * One merge level as MergeLevel builds it: the shape of IsMergeLevel, with
   * every merge done by MergeFiles as written.
   */
  ghost predicate IsLevel(runs: seq<seq<int>>, level: seq<seq<int>>) {
    var n, half := |runs|, |runs| / 2;
    |level| == (if n <= 1 then 0 else half) &&
    (forall i :: 0 <= i < |level| && !(n % 2 == 1 && i == half - 1) ==> level[i] == MergeWritten(runs[i], runs[i + half])) &&
    (n > 1 && n % 2 == 1 ==> level[half - 1] == MergeWritten(MergeWritten(runs[half - 1], runs[n - 2]), runs[n - 1]))
  }

  /** The runs as the preload sees them. */
  ghost function PadAll(runs: seq<seq<int>>): (padded: seq<seq<int>>)
    ensures |padded| == |runs|
    ensures forall i :: 0 <= i < |runs| ==> padded[i] == Padded(runs[i])
  {
    seq(|runs|, i requires 0 <= i < |runs| => Padded(runs[i]))
  }

  /** A level as written is the textbook level over the padded runs. */
  lemma LevelOfPadded(runs: seq<seq<int>>, level: seq<seq<int>>)
    requires IsLevel(runs, level)
    ensures IsMergeLevel(PadAll(runs), level)
  {
    var p := PadAll(runs);
    PaddedPairs(runs, p, level);
    if |runs| > 1 && |runs| % 2 == 1 {
      PaddedSpare(runs, p, level);
    }
  }

  lemma PaddedPairs(runs: seq<seq<int>>, p: seq<seq<int>>, level: seq<seq<int>>)
    requires IsLevel(runs, level) && p == PadAll(runs)
    ensures |level| == (if |p| <= 1 then 0 else |p| / 2)
    ensures forall i :: 0 <= i < |level| && !(|p| % 2 == 1 && i == |p| / 2 - 1) ==>
      level[i] == Merge(p[i], p[i + |p| / 2])
  {
    var n, half := |runs|, |runs| / 2;
    forall i | 0 <= i < |level| && !(n % 2 == 1 && i == half - 1) ensures level[i] == Merge(p[i], p[i + half]) {
      assert level[i] == MergeWritten(runs[i], runs[i + half]);
    }
  }

  lemma PaddedSpare(runs: seq<seq<int>>, p: seq<seq<int>>, level: seq<seq<int>>)
    requires IsLevel(runs, level) && p == PadAll(runs) && |runs| > 1 && |runs| % 2 == 1
    ensures level[|p| / 2 - 1] == Merge(Merge(p[|p| / 2 - 1], p[|p| - 2]), p[|p| - 1])
  {
    var n, half := |runs|, |runs| / 2;
    var inner := MergeWritten(runs[half - 1], runs[n - 2]);
    assert Padded(inner) == inner == Merge(p[half - 1], p[n - 2]);
    assert level[half - 1] == MergeWritten(inner, runs[n - 1]);
  }

  /** A level neither loses records nor invents any beyond the one 0 each empty run contributes. */
  lemma LevelBag(runs: seq<seq<int>>, level: seq<seq<int>>)
    requires |runs| > 1 && IsLevel(runs, level)
    ensures Bag(level) == Bag(PadAll(runs))
  {
    LevelOfPadded(runs, level);
    MergeLevelBag(PadAll(runs), level);
  }

  /** Merging sorted runs gives sorted runs. */
  lemma LevelSorted(runs: seq<seq<int>>, level: seq<seq<int>>)
    requires AllSorted(runs) && IsLevel(runs, level)
    ensures AllSorted(level)
  {
    LevelOfPadded(runs, level);
    var p := PadAll(runs);
    forall i | 0 <= i < |p| ensures Sorted(p[i]) {
      PaddedSorted(runs[i]);
    }
    MergeLevelSorted(p, level);
  }

  /** Every run of a level holds at least one record. */
  lemma LevelNonEmpty(runs: seq<seq<int>>, level: seq<seq<int>>)
    requires IsLevel(runs, level)
    ensures AllNonEmpty(level)
  {
    LevelOfPadded(runs, level);
    MergeLevelNonEmpty(PadAll(runs), level);
  }

  /** With only the last run possibly empty, padding adds at most that one 0 record. */
  lemma PadAllBag(runs: seq<seq<int>>)
    requires |runs| >= 1 && forall i :: 0 <= i < |runs| - 1 ==> runs[i] != []
    ensures Bag(PadAll(runs)) == Bag(runs) + (if runs[|runs| - 1] == [] then multiset{0} else multiset{})
  {
    var n, p := |runs|, PadAll(runs);
    PadAllPrefix(runs);
    assert Bag(p) == BagRange(p, 0, n - 1) + multiset(p[n - 1]);
    assert Bag(runs) == BagRange(runs, 0, n - 1) + multiset(runs[n - 1]);
    if runs[n - 1] == [] {
      assert p[n - 1] == [0];
    } else {
      assert p[n - 1] == runs[n - 1];
    }
  }

  /** Padding changes none of the runs before the last. */
  lemma PadAllPrefix(runs: seq<seq<int>>)
    requires |runs| >= 1 && forall i :: 0 <= i < |runs| - 1 ==> runs[i] != []
    ensures BagRange(PadAll(runs), 0, |runs| - 1) == BagRange(runs, 0, |runs| - 1)
  {
    PadAllRange(runs, |runs| - 1);
  }

  lemma {:induction false} PadAllRange(runs: seq<seq<int>>, k: nat)
    requires k < |runs| && forall i :: 0 <= i < |runs| - 1 ==> runs[i] != []
    ensures BagRange(PadAll(runs), 0, k) == BagRange(runs, 0, k)
  {
    if k > 0 {
      PadAllRange(runs, k - 1);
      assert PadAll(runs)[k - 1] == runs[k - 1];
    }
  }

  /**
   * The order in which MergeLevel consumes its inputs: pair i consumes input
   * i, then input i + half; an odd spare comes last.
   */
  ghost predicate ConsumeOrder(consumed: seq<nat>, n: nat) {
    |consumed| == n &&
    (forall p :: 0 <= p < n - n % 2 ==> consumed[p] == if p % 2 == 0 then p / 2 else p / 2 + n / 2) &&
    (n % 2 == 1 ==> consumed[n - 1] == n - 1)
  }

  /** In that order every input is consumed, and none twice. */
  lemma ConsumedOnce(consumed: seq<nat>, n: nat)
    requires ConsumeOrder(consumed, n)
    ensures forall p, q :: 0 <= p < q < |consumed| ==> consumed[p] != consumed[q]
    ensures forall k :: 0 <= k < n ==> k in consumed
  {
    var half := n / 2;
    forall k | 0 <= k < n ensures k in consumed {
      var p := if k < half then 2 * k else if k < 2 * half then 2 * (k - half) + 1 else n - 1;
      assert consumed[p] == k;
    }
  }

  /** The first k entries of the pair order: inputs i and i + half for each pair i < k / 2. */
  ghost predicate PairOrder(consumed: seq<nat>, half: nat, k: nat) {
    |consumed| == k &&
    forall p :: 0 <= p < k ==> consumed[p] == if p % 2 == 0 then p / 2 else p / 2 + half
  }

  lemma PairOrderStep(consumed: seq<nat>, half: nat, i: nat)
    requires PairOrder(consumed, half, 2 * i)
    ensures PairOrder(consumed + [i, i + half], half, 2 * i + 2)
  {
    var c := consumed + [i, i + half];
    forall p | 0 <= p < 2 * i + 2 ensures c[p] == if p % 2 == 0 then p / 2 else p / 2 + half {
      if p == 2 * i {
        assert p / 2 == i;
      } else if p == 2 * i + 1 {
        assert p / 2 == i && p % 2 == 1;
      }
    }
  }

  lemma ConsumeOrderDone(consumed: seq<nat>, n: nat)
    requires n > 1 && PairOrder(consumed, n / 2, n - n % 2)
    ensures n % 2 == 0 ==> ConsumeOrder(consumed, n)
    ensures n % 2 == 1 ==> ConsumeOrder(consumed + [n - 1], n)
  {
  }

  /**
   * MergeFiles(filePathsToMerge, outputFolder): one merge level, filling the
   * result in pair order and then overwriting the last entry with the merge
   * of it and the spare. `consumed` lists the inputs in the order they are
   * merged and deleted.
   */
  method MergeLevel(filePathsToMerge: seq<seq<int>>) returns (mergeFiles: seq<seq<int>>, ghost consumed: seq<nat>)
    ensures IsLevel(filePathsToMerge, mergeFiles)
    ensures |filePathsToMerge| > 1 ==> ConsumeOrder(consumed, |filePathsToMerge|)
    ensures |filePathsToMerge| <= 1 ==> consumed == []
  {
    var n := |filePathsToMerge|;
    var mergePairs := n / 2;
    var spareSplitFile := n % 2 == 1;
    var files := new seq<int>[mergePairs];
    consumed := [];
    if n > 1 {
      consumed := MergePairs(filePathsToMerge, files);
      ConsumeOrderDone(consumed, n);
      ghost var pairs := files[..];
      if spareSplitFile {
        files[mergePairs - 1] := MergeAndDeleteFiles(files[mergePairs - 1], filePathsToMerge[n - 1]);
        consumed := consumed + [n - 1];
      }
      mergeFiles := files[..];
      LevelOfPairs(filePathsToMerge, pairs, mergeFiles);
    } else {
      mergeFiles := files[..];
    }
  }

  /** The pairs of a level, with the spare run merged into the last pair when the count is odd, form the level. */
  lemma LevelOfPairs(runs: seq<seq<int>>, pairs: seq<seq<int>>, level: seq<seq<int>>)
    requires |runs| > 1 && |pairs| == |runs| / 2
    requires forall j :: 0 <= j < |pairs| ==> pairs[j] == MergeWritten(runs[j], runs[j + |pairs|])
    requires |runs| % 2 == 0 ==> level == pairs
    requires |runs| % 2 == 1 ==> level == pairs[|pairs| - 1 := MergeWritten(pairs[|pairs| - 1], runs[|runs| - 1])]
    ensures IsLevel(runs, level)
  {
    var n, half := |runs|, |pairs|;
    forall i | 0 <= i < |level| && !(n % 2 == 1 && i == half - 1)
      ensures level[i] == MergeWritten(runs[i], runs[i + half])
    {
      assert level[i] == pairs[i];
    }
    if n % 2 == 1 {
      assert half - 1 + half == n - 2;
    }
  }

  /** The pair loop of a merge level: entry i of `files` becomes the merge of inputs i and i + half. */
  method MergePairs(filePathsToMerge: seq<seq<int>>, files: array<seq<int>>) returns (ghost consumed: seq<nat>)
    requires files.Length == |filePathsToMerge| / 2
    modifies files
    ensures forall j :: 0 <= j < files.Length ==>
      files[j] == MergeWritten(filePathsToMerge[j], filePathsToMerge[j + files.Length])
    ensures PairOrder(consumed, files.Length, 2 * files.Length)
  {
    var mergePairs := files.Length;
    consumed := [];
    for i := 0 to mergePairs
      invariant forall j :: 0 <= j < i ==> files[j] == MergeWritten(filePathsToMerge[j], filePathsToMerge[j + mergePairs])
      invariant PairOrder(consumed, mergePairs, 2 * i)
    {
      files[i] := MergeAndDeleteFiles(filePathsToMerge[i], filePathsToMerge[i + mergePairs]);
      PairOrderStep(consumed, mergePairs, i);
      consumed := consumed + [i, i + mergePairs];
    }
  }
}
