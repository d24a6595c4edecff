/**
 * FileComparer: the distinct merge-join of two record files. Both streams are
 * walked with one lookahead value each; equal values are collected into a
 * set, which for sorted inputs ends up as exactly the values the two files
 * have in common.
 */
module Comparer {
  import opened Records
  import opened Runs
  import opened Merger

  /** The values occurring in both a and b. */
  ghost function Common(a: seq<int>, b: seq<int>): (common: set<int>) {
    set x | x in a && x in b
  }

  /**
   * A reader over `records` seen through the unchecked preload: its
   * lookahead value is element i of Padded(records). An empty file has read
   * nothing (and its lookahead is the zeroed buffer's 0); otherwise the
   * lookahead is the last record read.
   */
  ghost predicate Tracks(records: seq<int>, pos: nat, padded: seq<int>, i: nat) {
    padded == Padded(records) && i < |padded| && (if records == [] then pos == 0 else pos == i + 1)
  }

  lemma TracksMore(records: seq<int>, pos: nat, padded: seq<int>, i: nat)
    requires Tracks(records, pos, padded, i)
    ensures pos <= |records|
    ensures pos < |records| <==> i + 1 < |padded|
  {
  }

  /** Reading one more record moves the lookahead to the next element. */
  lemma TracksNext(records: seq<int>, pos: nat, padded: seq<int>, i: nat)
    requires Tracks(records, pos, padded, i) && pos < |records|
    ensures Tracks(records, pos + 1, padded, i + 1) && records[pos] == padded[i + 1]
  {
  }

  /** A head that the other side cannot hold can be dropped. */
  lemma CommonSkipFirst(a: seq<int>, b: seq<int>)
    requires a != [] && a[0] !in b
    ensures Common(a, b) == Common(a[1..], b)
  {
    assert a == [a[0]] + a[1..];
  }

  lemma CommonSkipSecond(a: seq<int>, b: seq<int>)
    requires b != [] && b[0] !in a
    ensures Common(a, b) == Common(a, b[1..])
  {
    assert b == [b[0]] + b[1..];
  }

  /** In sorted runs, a head smaller than the other's head occurs nowhere in the other. */
  lemma SmallerAbsent(x: int, b: seq<int>)
    requires Sorted(b) && b != [] && x < b[0]
    ensures x !in b
  {
  }

  /** Equal heads of sorted runs: that value is common, and the rest is common to both tails. */
  lemma CommonMatch(a: seq<int>, b: seq<int>)
    requires Sorted(a) && Sorted(b) && a != [] && b != [] && a[0] == b[0]
    ensures Common(a, b) == {a[0]} + Common(a[1..], b[1..])
  {
    assert a == [a[0]] + a[1..] && b == [b[0]] + b[1..];
    forall x | x in Common(a, b) && x != a[0] ensures x in Common(a[1..], b[1..]) {
    }
  }

  /** Against a one-value run, Common is that value or nothing. */
  lemma CommonSingle(a: seq<int>, v: int)
    ensures Common(a, [v]) == if v in a then {v} else {}
    ensures Common([v], a) == if v in a then {v} else {}
  {
  }

  lemma SuffixSorted(a: seq<int>, i: nat)
    requires Sorted(a) && i <= |a|
    ensures Sorted(a[i..])
  {
  }

  lemma SuffixNext(a: seq<int>, i: nat)
    requires i < |a|
    ensures a[i..] != [] && a[i..][0] == a[i] && a[i..][1..] == a[i + 1..]
    ensures i + 1 == |a| ==> a[i..] == [a[i]]
  {
  }

  /** The values of a log of additions. */
  function Elements(log: seq<int>): (values: set<int>) {
    if log == [] then {} else Elements(log[..|log| - 1]) + {log[|log| - 1]}
  }

  lemma {:induction false} ElementsAreValues(log: seq<int>)
    ensures forall x :: x in Elements(log) <==> x in log
    decreases |log|
  {
    if log != [] {
      ElementsAreValues(log[..|log| - 1]);
      assert log == log[..|log| - 1] + [log[|log| - 1]];
    }
  }

  function Last(log: seq<int>): (last: int)
    requires log != []
  {
    log[|log| - 1]
  }

  lemma LogAdd(log: seq<int>, v: int)
    ensures Elements(log + [v]) == Elements(log) + {v}
    ensures Last(log + [v]) == v
  {
    assert (log + [v])[..|log|] == log;
  }

  lemma SortedSnoc(log: seq<int>, v: int)
    requires Sorted(log) && (log == [] || Last(log) <= v)
    ensures Sorted(log + [v])
  {
  }

  /**
   * The state between statements of GetDistinctValues, over the padded
   * inputs a and b with lookahead indices i1 and i2: every value found
   * occurs in both, `log` lists the additions, and for sorted inputs the log
   * is sorted and bounded by both lookahead values.
   */
  ghost predicate Joining(a: seq<int>, i1: nat, val1: int, b: seq<int>, i2: nat, val2: int,
                          found: set<int>, log: seq<int>)
  {
    i1 < |a| && i2 < |b| && val1 == a[i1] && val2 == b[i2] &&
    found <= Common(a, b) &&
    found == Elements(log) &&
    (Sorted(a) && Sorted(b) ==> Sorted(log) && (log == [] || (Last(log) <= val1 && Last(log) <= val2)))
  }

  /** For sorted inputs, what is still to be found is what the unread parts have in common. */
  ghost predicate Complete(a: seq<int>, i1: nat, b: seq<int>, i2: nat, found: set<int>)
    requires i1 < |a| && i2 < |b|
  {
    Sorted(a) && Sorted(b) ==> Common(a, b) == found + Common(a[i1..], b[i2..])
  }

  /** Adding the common lookahead value keeps the log sound. */
  lemma AddMatch(a: seq<int>, i1: nat, val1: int, b: seq<int>, i2: nat, val2: int, found: set<int>, log: seq<int>)
    requires Joining(a, i1, val1, b, i2, val2, found, log) && val1 == val2
    ensures Joining(a, i1, val1, b, i2, val2, found + {val1}, log + [val1])
  {
    LogAdd(log, val1);
    if Sorted(a) && Sorted(b) {
      SortedSnoc(log, val1);
    }
  }

  /** The main loop's step on equal values: add the value and read on in both files. */
  lemma MatchStep(a: seq<int>, i1: nat, val1: int, b: seq<int>, i2: nat, val2: int, found: set<int>, log: seq<int>)
    requires Joining(a, i1, val1, b, i2, val2, found, log) && Complete(a, i1, b, i2, found)
    requires val1 == val2 && i1 + 1 < |a| && i2 + 1 < |b|
    ensures Joining(a, i1 + 1, a[i1 + 1], b, i2 + 1, b[i2 + 1], found + {val1}, log + [val1])
    ensures Complete(a, i1 + 1, b, i2 + 1, found + {val1})
  {
    AddMatch(a, i1, val1, b, i2, val2, found, log);
    if Sorted(a) && Sorted(b) {
      SuffixSorted(a, i1);
      SuffixSorted(b, i2);
      SuffixNext(a, i1);
      SuffixNext(b, i2);
      CommonMatch(a[i1..], b[i2..]);
    }
  }

  /** Read on in file1 past a value file2 cannot match: below file2's lookahead, or unequal to file2's last value. */
  lemma AdvanceFirst(a: seq<int>, i1: nat, val1: int, b: seq<int>, i2: nat, val2: int, found: set<int>, log: seq<int>)
    requires Joining(a, i1, val1, b, i2, val2, found, log) && Complete(a, i1, b, i2, found)
    requires i1 + 1 < |a|
    requires val1 < val2 || (i2 + 1 == |b| && val1 != val2)
    ensures Joining(a, i1 + 1, a[i1 + 1], b, i2, val2, found, log)
    ensures Complete(a, i1 + 1, b, i2, found)
  {
    if Sorted(a) && Sorted(b) {
      SuffixNext(a, i1);
      SuffixNext(b, i2);
      if val1 < val2 {
        SuffixSorted(b, i2);
        SmallerAbsent(val1, b[i2..]);
      }
      CommonSkipFirst(a[i1..], b[i2..]);
    }
  }

  /** Read on in file2 past a value file1 cannot match. */
  lemma AdvanceSecond(a: seq<int>, i1: nat, val1: int, b: seq<int>, i2: nat, val2: int, found: set<int>, log: seq<int>)
    requires Joining(a, i1, val1, b, i2, val2, found, log) && Complete(a, i1, b, i2, found)
    requires i2 + 1 < |b|
    requires val2 < val1 || (i1 + 1 == |a| && val1 != val2)
    ensures Joining(a, i1, val1, b, i2 + 1, b[i2 + 1], found, log)
    ensures Complete(a, i1, b, i2 + 1, found)
  {
    if Sorted(a) && Sorted(b) {
      SuffixNext(a, i1);
      SuffixNext(b, i2);
      if val2 < val1 {
        SuffixSorted(a, i1);
        SmallerAbsent(val2, a[i1..]);
      }
      CommonSkipSecond(a[i1..], b[i2..]);
    }
  }

  /** A match while one file is at its last value: after adding it, nothing more is to be found. */
  lemma MatchLast(a: seq<int>, i1: nat, val1: int, b: seq<int>, i2: nat, val2: int, found: set<int>, log: seq<int>)
    requires Joining(a, i1, val1, b, i2, val2, found, log) && Complete(a, i1, b, i2, found)
    requires val1 == val2 && (i1 + 1 == |a| || i2 + 1 == |b|)
    ensures Joining(a, i1, val1, b, i2, val2, found + {val1}, log + [val1])
    ensures Sorted(a) && Sorted(b) ==> Common(a, b) == found + {val1}
  {
    AddMatch(a, i1, val1, b, i2, val2, found, log);
    SuffixNext(a, i1);
    SuffixNext(b, i2);
    if i1 + 1 == |a| {
      CommonSingle(b[i2..], val1);
      assert val1 in b[i2..];
    } else {
      CommonSingle(a[i1..], val2);
      assert val2 in a[i1..];
    }
  }

  /** The values two lookahead values have in common. */
  function Tie(val1: int, val2: int): (t: set<int>)
    ensures t == Common([val1], [val2])
  {
    if val1 == val2 then {val1} else {}
  }

  /** Both files at their last value: what is left to be found is their tie. */
  lemma BothLast(a: seq<int>, i1: nat, val1: int, b: seq<int>, i2: nat, val2: int, found: set<int>)
    requires i1 + 1 == |a| && i2 + 1 == |b| && val1 == a[i1] && val2 == b[i2]
    requires Complete(a, i1, b, i2, found)
    ensures Sorted(a) && Sorted(b) ==> Common(a, b) == found + Tie(val1, val2)
  {
    SuffixNext(a, i1);
    SuffixNext(b, i2);
  }

  lemma AtMostOneMore(r: set<int>, m: set<int>, val1: int, val2: int)
    requires r <= m + Tie(val1, val2)
    ensures |r - m| <= 1
  {
    if val1 == val2 && val1 in r - m {
      assert r - m == {val1};
    } else {
      assert r - m == {};
    }
  }

  /**
   * FileComparer.GetDistinctValues(file1Path, file2Path) as written. The
   * returned array is modelled by the set of its elements. Every value
   * returned occurs in both inputs; for sorted inputs these are exactly the
   * values common to both. Values are added in `log` order, which is
   * non-decreasing for sorted inputs, and after the main loop (`mainFound`)
   * at most one new value is added. The unchecked preload makes an empty file
   * look like a file holding the single value 0.
   */
  method GetDistinctValues(file1: seq<int>, file2: seq<int>)
    returns (r: set<int>, ghost log: seq<int>, ghost mainFound: set<int>)
    ensures r <= Common(Padded(file1), Padded(file2))
    ensures Sorted(file1) && Sorted(file2) ==> r == Common(Padded(file1), Padded(file2))
    ensures Elements(log) == r
    ensures Sorted(file1) && Sorted(file2) ==> Sorted(log)
    ensures mainFound <= r && |r - mainFound| <= 1
  {
    var hashSet: set<int> := {};
    log := [];
    var file1Stream := new RecordReader.Open(file1);
    var file2Stream := new RecordReader.Open(file2);
    var count: nat, val1: int, val2: int;
    count, val1 := file1Stream.Read(0);
    count, val2 := file2Stream.Read(0);
    ghost var a, b := Padded(file1), Padded(file2);
    ghost var i1: nat, i2: nat := 0, 0;
    if Sorted(file1) && Sorted(file2) {
      assert a[0..] == a && b[0..] == b;
    }
    val1, val2, hashSet, log, i1, i2 := JoinWhileBoth(file1Stream, file2Stream, val1, val2, hashSet, log, a, b, i1, i2);
    mainFound := hashSet;
    ghost var matched;
    val1, val2, hashSet, log, i1, matched := ScanFirst(file1Stream, file2Stream, val1, val2, hashSet, log, a, b, i1, i2, mainFound);
    val1, val2, hashSet, log, i2 := ScanSecond(file1Stream, file2Stream, val1, val2, hashSet, log, a, b, i1, i2, mainFound, matched);
    hashSet, log := CheckLast(val1, val2, hashSet, log, a, i1, b, i2);
    r := hashSet;
    AtMostOneMore(r, mainFound, val1, val2);
    PaddedSorted(file1);
    PaddedSorted(file2);
  }

  /** The check after the loops: the two last values, when equal, are a common value. */
  method CheckLast(val1: int, val2: int, found: set<int>, ghost log: seq<int>,
                   ghost a: seq<int>, ghost i1: nat, ghost b: seq<int>, ghost i2: nat)
    returns (found': set<int>, ghost log': seq<int>)
    requires Joining(a, i1, val1, b, i2, val2, found, log)
    ensures found' == found + Tie(val1, val2)
    ensures log' == if val1 == val2 then log + [val1] else log
    ensures Joining(a, i1, val1, b, i2, val2, found', log')
  {
    found', log' := found, log;
    // The final check of the two last values
    if val1 == val2 {
      AddMatch(a, i1, val1, b, i2, val2, found, log);
      found', log' := found + {val1}, log + [val1];
    }
  }

  /** The main loop: a two-pointer walk while both streams have unread records. */
  method JoinWhileBoth(file1Stream: RecordReader, file2Stream: RecordReader, val1: int, val2: int,
                       found: set<int>, ghost log: seq<int>, ghost a: seq<int>, ghost b: seq<int>, ghost i1: nat, ghost i2: nat)
    returns (val1': int, val2': int, found': set<int>, ghost log': seq<int>, ghost i1': nat, ghost i2': nat)
    requires file1Stream != file2Stream
    requires Tracks(file1Stream.records, file1Stream.pos, a, i1) && Tracks(file2Stream.records, file2Stream.pos, b, i2)
    requires Joining(a, i1, val1, b, i2, val2, found, log) && Complete(a, i1, b, i2, found)
    modifies file1Stream, file2Stream
    ensures Tracks(file1Stream.records, file1Stream.pos, a, i1') && Tracks(file2Stream.records, file2Stream.pos, b, i2')
    ensures Joining(a, i1', val1', b, i2', val2', found', log') && Complete(a, i1', b, i2', found')
    ensures i1' + 1 == |a| || i2' + 1 == |b|
    ensures log <= log'
  {
    val1', val2', found', log', i1', i2' := val1, val2, found, log, i1, i2;
    TracksMore(file1Stream.records, file1Stream.pos, a, i1');
    TracksMore(file2Stream.records, file2Stream.pos, b, i2');
    while file1Stream.Position() < file1Stream.Length() && file2Stream.Position() < file2Stream.Length()
      invariant Tracks(file1Stream.records, file1Stream.pos, a, i1') && Tracks(file2Stream.records, file2Stream.pos, b, i2')
      invariant Joining(a, i1', val1', b, i2', val2', found', log') && Complete(a, i1', b, i2', found')
      invariant log <= log'
      decreases |a| - i1' + |b| - i2'
    {
      var stop;
      val1', val2', found', log', i1', i2', stop := JoinStep(file1Stream, file2Stream, val1', val2', found', log', a, b, i1', i2');
      if stop {
        break;
      }
      TracksMore(file1Stream.records, file1Stream.pos, a, i1');
      TracksMore(file2Stream.records, file2Stream.pos, b, i2');
    }
  }

  /**
   * One pass of the main loop: on equal values record the match and read
   * both streams, otherwise read the stream with the smaller value. A read
   * returning fewer than Size bytes stops the loop; with both streams having
   * unread records none does.
   */
  method JoinStep(file1Stream: RecordReader, file2Stream: RecordReader, val1: int, val2: int,
                  found: set<int>, ghost log: seq<int>, ghost a: seq<int>, ghost b: seq<int>, ghost i1: nat, ghost i2: nat)
    returns (val1': int, val2': int, found': set<int>, ghost log': seq<int>, ghost i1': nat, ghost i2': nat, stop: bool)
    requires file1Stream != file2Stream
    requires Tracks(file1Stream.records, file1Stream.pos, a, i1) && Tracks(file2Stream.records, file2Stream.pos, b, i2)
    requires Joining(a, i1, val1, b, i2, val2, found, log) && Complete(a, i1, b, i2, found)
    requires file1Stream.pos < |file1Stream.records| && file2Stream.pos < |file2Stream.records|
    modifies file1Stream, file2Stream
    ensures Tracks(file1Stream.records, file1Stream.pos, a, i1') && Tracks(file2Stream.records, file2Stream.pos, b, i2')
    ensures Joining(a, i1', val1', b, i2', val2', found', log') && Complete(a, i1', b, i2', found')
    ensures |a| - i1' + |b| - i2' < |a| - i1 + |b| - i2
    ensures val1 == val2 ==> found' == found + {val1} && log' == log + [val1]
    ensures val1 != val2 ==> found' == found && log' == log
    ensures !stop
  {
    var count: nat;
    TracksNext(file1Stream.records, file1Stream.pos, a, i1);
    TracksNext(file2Stream.records, file2Stream.pos, b, i2);
    val1', val2', found', log', i1', i2', stop := val1, val2, found, log, i1, i2, false;
    if val1 == val2 {
      MatchStep(a, i1, val1, b, i2, val2, found, log);
      found', log' := found + {val1}, log + [val1];
      count, val1' := file1Stream.Read(val1);
      if count < Size {
        stop := true;
        return;
      }
      count, val2' := file2Stream.Read(val2);
      if count < Size {
        stop := true;
        return;
      }
      i1', i2' := i1 + 1, i2 + 1;
    } else if val1 < val2 {
      AdvanceFirst(a, i1, val1, b, i2, val2, found, log);
      count, val1' := file1Stream.Read(val1);
      if count < Size {
        stop := true;
        return;
      }
      i1' := i1 + 1;
    } else {
      AdvanceSecond(a, i1, val1, b, i2, val2, found, log);
      count, val2' := file2Stream.Read(val2);
      if count < Size {
        stop := true;
        return;
      }
      i2' := i2 + 1;
    }
  }

  /**
   * The second loop: file2 is at its last value; scan the rest of file1 for
   * it and stop at the first match (`matched`), after which nothing more is
   * to be found.
   */
  method ScanFirst(file1Stream: RecordReader, file2Stream: RecordReader, val1: int, val2: int,
                   found: set<int>, ghost log: seq<int>, ghost a: seq<int>, ghost b: seq<int>, ghost i1: nat, ghost i2: nat,
                   ghost mainFound: set<int>)
    returns (val1': int, val2': int, found': set<int>, ghost log': seq<int>, ghost i1': nat, ghost matched: bool)
    requires file1Stream != file2Stream
    requires Tracks(file1Stream.records, file1Stream.pos, a, i1) && Tracks(file2Stream.records, file2Stream.pos, b, i2)
    requires Joining(a, i1, val1, b, i2, val2, found, log) && Complete(a, i1, b, i2, found)
    requires i1 + 1 == |a| || i2 + 1 == |b|
    requires found == mainFound
    modifies file1Stream
    ensures Tracks(file1Stream.records, file1Stream.pos, a, i1')
    ensures Joining(a, i1', val1', b, i2, val2', found', log')
    ensures val2' == val2
    ensures matched ==> val1' == val2' && i2 + 1 == |b| && found' == mainFound + {val1'}
    ensures matched && Sorted(a) && Sorted(b) ==> Common(a, b) == found'
    ensures !matched ==> found' == mainFound && i1' + 1 == |a| && Complete(a, i1', b, i2, found')
    ensures log' == if matched then log + [val1'] else log
  {
    val1', val2', found', log', i1' := val1, val2, found, log, i1;
    matched := false;
    var count: nat;
    TracksMore(file1Stream.records, file1Stream.pos, a, i1');
    while file1Stream.Position() < file1Stream.Length()
      invariant Tracks(file1Stream.records, file1Stream.pos, a, i1')
      invariant Joining(a, i1', val1', b, i2, val2', found', log') && Complete(a, i1', b, i2, found')
      invariant val2' == val2 && found' == mainFound && log' == log
      invariant i1' + 1 < |a| ==> i2 + 1 == |b|
      decreases |a| - i1'
    {
      if val1' == val2' {
        MatchLast(a, i1', val1', b, i2, val2', found', log');
        found', log' := found' + {val1'}, log' + [val1'];
        matched := true;
        break;
      } else {
        TracksNext(file1Stream.records, file1Stream.pos, a, i1');
        AdvanceFirst(a, i1', val1', b, i2, val2', found', log');
        count, val1' := file1Stream.Read(val1');
        if count < Size {
          break;
        }
        i1' := i1' + 1;
      }
      TracksMore(file1Stream.records, file1Stream.pos, a, i1');
    }
  }

  /**
   * The third loop: file1 is at its last value; scan the rest of file2 for
   * it and stop at the first match. It does nothing after a match in the
   * second loop, as file2 is then at its end. Afterwards what is left to be
   * found is the tie of the two lookahead values, which the final check adds.
   */
  method ScanSecond(file1Stream: RecordReader, file2Stream: RecordReader, val1: int, val2: int,
                    found: set<int>, ghost log: seq<int>, ghost a: seq<int>, ghost b: seq<int>, ghost i1: nat, ghost i2: nat,
                    ghost mainFound: set<int>, ghost matched: bool)
    returns (val1': int, val2': int, found': set<int>, ghost log': seq<int>, ghost i2': nat)
    requires file1Stream != file2Stream
    requires Tracks(file2Stream.records, file2Stream.pos, b, i2)
    requires Joining(a, i1, val1, b, i2, val2, found, log)
    requires matched ==> val1 == val2 && i2 + 1 == |b| && found == mainFound + {val1}
    requires matched && Sorted(a) && Sorted(b) ==> Common(a, b) == found
    requires !matched ==> found == mainFound && i1 + 1 == |a| && Complete(a, i1, b, i2, found)
    modifies file2Stream
    ensures Joining(a, i1, val1', b, i2', val2', found', log')
    ensures val1' == val1
    ensures found' <= mainFound + Tie(val1', val2') && mainFound <= found'
    ensures Sorted(a) && Sorted(b) ==> Common(a, b) == found' + Tie(val1', val2')
    ensures log' == log || (log' == log + [val1] && found' == found + {val1} && val2' == val1)
  {
    val1', val2', found', log', i2' := val1, val2, found, log, i2;
    ghost var matched' := matched;
    var count: nat;
    TracksMore(file2Stream.records, file2Stream.pos, b, i2');
    while file2Stream.Position() < file2Stream.Length()
      invariant Tracks(file2Stream.records, file2Stream.pos, b, i2')
      invariant Joining(a, i1, val1', b, i2', val2', found', log') && val1' == val1
      invariant log' == log && found' == found
      invariant matched' ==> val1' == val2' && i2' + 1 == |b| && found' == mainFound + {val1'}
      invariant matched' && Sorted(a) && Sorted(b) ==> Common(a, b) == found'
      invariant !matched' ==> found' == mainFound && i1 + 1 == |a| && Complete(a, i1, b, i2', found')
      decreases |b| - i2'
    {
      if val1' == val2' {
        MatchLast(a, i1, val1', b, i2', val2', found', log');
        found', log' := found' + {val1'}, log' + [val1'];
        matched' := true;
        break;
      } else {
        TracksNext(file2Stream.records, file2Stream.pos, b, i2');
        AdvanceSecond(a, i1, val1', b, i2', val2', found', log');
        count, val2' := file2Stream.Read(val2');
        if count < Size {
          break;
        }
        i2' := i2' + 1;
      }
      TracksMore(file2Stream.records, file2Stream.pos, b, i2');
    }
    if !matched' {
      BothLast(a, i1, val1', b, i2', val2', found');
    }
  }

  /**
   * The unchecked preload: against a sorted file holding 0, an empty file is
   * reported as sharing the value 0 although it shares nothing.
   */
  lemma EmptyInputSharesZero(file2: seq<int>)
    requires 0 in file2
    ensures Common(Padded([]), Padded(file2)) == {0}
    ensures Common([], file2) == {}
  {
    CommonSingle(file2, 0);
  }

  /**
   * GetDistinctValues with the empty inputs the preload mishandles answered
   * up front. Every value returned occurs in both files; for sorted inputs
   * these are exactly the values the two files have in common.
   */
  method GetDistinctValuesChecked(file1: seq<int>, file2: seq<int>) returns (r: set<int>)
    ensures r <= Common(file1, file2)
    ensures Sorted(file1) && Sorted(file2) ==> r == Common(file1, file2)
  {
    if file1 == [] || file2 == [] {
      r := {};
    } else {
      ghost var log, mainFound;
      r, log, mainFound := GetDistinctValues(file1, file2);
    }
  }
}
