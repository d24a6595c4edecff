/**
 * FileSplitter: cut a file into numbered chunk files of at most
 * splitSizeInMB MB each, read through one reused buffer.
 */
module Splitter {
  import opened Records

  const OneMB: int := 1024 * 1024

  function Min(a: int, b: int): (m: int) {
    if a <= b then a else b
  }

  /** The number of chunks: the length divided by the chunk size, rounded up. */
  function ChunkCount(length: nat, chunkSize: nat): (count: nat)
    requires chunkSize > 0
    ensures length <= count * chunkSize
    ensures count > 0 ==> (count - 1) * chunkSize < length
    ensures count == 0 <==> length == 0
  {
    var spareChunk := length % chunkSize > 0;
    length / chunkSize + (if spareChunk then 1 else 0)
  }

  /** Chunk i: the bytes from offset i * chunkSize up to the next chunk or the end. */
  function ChunkOf(bytes: seq<byte>, chunkSize: nat, i: nat): (chunk: seq<byte>)
    requires chunkSize > 0 && i < ChunkCount(|bytes|, chunkSize)
  {
    StartInside(|bytes|, chunkSize, i);
    bytes[i * chunkSize..Min((i + 1) * chunkSize, |bytes|)]
  }

  /** Every chunk starts inside the source. */
  lemma StartInside(length: nat, chunkSize: nat, i: nat)
    requires chunkSize > 0 && i < ChunkCount(length, chunkSize)
    ensures i * chunkSize < length
  {
    MulMonotone(i, ChunkCount(length, chunkSize) - 1, chunkSize);
  }

  /** Every chunk but the last holds exactly chunkSize bytes; the last holds 1 to chunkSize. */
  lemma ChunkSizes(bytes: seq<byte>, chunkSize: nat, i: nat)
    requires chunkSize > 0 && i < ChunkCount(|bytes|, chunkSize)
    ensures i + 1 < ChunkCount(|bytes|, chunkSize) ==> |ChunkOf(bytes, chunkSize, i)| == chunkSize
    ensures i + 1 == ChunkCount(|bytes|, chunkSize) ==> 1 <= |ChunkOf(bytes, chunkSize, i)| <= chunkSize
  {
    var count := ChunkCount(|bytes|, chunkSize);
    StartInside(|bytes|, chunkSize, i);
    if i + 1 < count {
      MulMonotone(i + 1, count - 1, chunkSize);
    }
  }

  lemma MulMonotone(a: nat, b: nat, c: nat)
    requires a <= b
    ensures a * c <= b * c
  {
  }

  /** The contents of a list of files, concatenated in list order. */
  function Concat(files: seq<FileImage>): (bytes: seq<byte>) {
    if files == [] then [] else Concat(files[..|files| - 1]) + files[|files| - 1].bytes
  }

  /** Files holding chunks 0 up to k, in order, hold the source up to the end of chunk k - 1. */
  lemma {:induction false} ConcatChunks(bytes: seq<byte>, chunkSize: nat, files: seq<FileImage>, k: nat)
    requires chunkSize > 0 && k <= |files| == ChunkCount(|bytes|, chunkSize)
    requires forall j :: 0 <= j < |files| ==> files[j].bytes == ChunkOf(bytes, chunkSize, j)
    ensures Concat(files[..k]) == bytes[..Min(k * chunkSize, |bytes|)]
    decreases k
  {
    if k == 0 {
      assert files[..0] == [];
    } else {
      ConcatChunks(bytes, chunkSize, files, k - 1);
      var lo, hi := ChunkBounds(bytes, chunkSize, k - 1);
      assert files[..k][..k - 1] == files[..k - 1];
      assert Concat(files[..k]) == Concat(files[..k - 1]) + files[k - 1].bytes;
      SliceSplit(bytes, lo, hi);
    }
  }

  /** Chunk i as a slice between two offsets: it starts where chunk i - 1 ends. */
  lemma ChunkBounds(bytes: seq<byte>, chunkSize: nat, i: nat) returns (lo: nat, hi: nat)
    requires chunkSize > 0 && i < ChunkCount(|bytes|, chunkSize)
    ensures lo == i * chunkSize && hi == Min((i + 1) * chunkSize, |bytes|)
    ensures lo <= hi <= |bytes| && ChunkOf(bytes, chunkSize, i) == bytes[lo..hi]
  {
    StartInside(|bytes|, chunkSize, i);
    lo, hi := i * chunkSize, Min((i + 1) * chunkSize, |bytes|);
  }

  lemma SliceSplit(s: seq<byte>, lo: nat, hi: nat)
    requires lo <= hi <= |s|
    ensures s[..hi] == s[..lo] + s[lo..hi]
  {
  }

  /** The chunks, concatenated in index order, are the source. */
  lemma SplitJoins(bytes: seq<byte>, chunkSize: nat, files: seq<FileImage>)
    requires chunkSize > 0 && |files| == ChunkCount(|bytes|, chunkSize)
    requires forall j :: 0 <= j < |files| ==> files[j].bytes == ChunkOf(bytes, chunkSize, j)
    ensures Concat(files) == bytes
  {
    ConcatChunks(bytes, chunkSize, files, |files|);
    assert files[..|files|] == files;
  }

  /** t occurs in s at index j. */
  predicate OccursAt(s: string, t: string, j: nat) {
    j + |t| <= |s| && s[j..j + |t|] == t
  }

  /** The first index at or after k where t occurs in s; t is known to end s. */
  function IndexOfFrom(s: string, t: string, k: nat): (r: nat)
    requires |t| <= |s| && OccursAt(s, t, |s| - |t|) && k <= |s| - |t|
    ensures k <= r <= |s| - |t| && OccursAt(s, t, r)
    ensures forall j :: k <= j < r ==> !OccursAt(s, t, j)
    decreases |s| - |t| - k
  {
    if OccursAt(s, t, k) then k else IndexOfFrom(s, t, k + 1)
  }

  /** string.IndexOf: the first occurrence of t in s. */
  function IndexOf(s: string, t: string): (r: nat)
    requires |t| <= |s| && OccursAt(s, t, |s| - |t|)
    ensures r <= |s| - |t| && OccursAt(s, t, r)
    ensures forall j :: 0 <= j < r ==> !OccursAt(s, t, j)
  {
    IndexOfFrom(s, t, 0)
  }

  /** The chunk files' base name: the name cut at the first occurrence of the extension. */
  function BaseName(f: SourceFile): (base: string)
    requires HasExtension(f)
    ensures |base| <= |f.name| - |f.extension|
    ensures base + f.extension <= f.name
  {
    assert OccursAt(f.name, f.extension, |f.name| - |f.extension|);
    var i := IndexOf(f.name, f.extension);
    PrefixBefore(f.name, f.extension, i);
    f.name[..i]
  }

  /** What precedes an occurrence of t, followed by t, is a prefix of s. */
  lemma PrefixBefore(s: string, t: string, j: nat)
    requires OccursAt(s, t, j)
    ensures s[..j] + t <= s
  {
    assert s[..j] + t == s[..j + |t|];
  }

  function Digit(d: nat): (c: char)
    requires d < 10
  {
    ('0' as int + d) as char
  }

  /** The decimal digits of n, most significant first. */
  function NatToString(n: nat): (s: string)
    ensures |s| >= 1
    decreases n
  {
    if n < 10 then [Digit(n)] else NatToString(n / 10) + [Digit(n % 10)]
  }

  /** The value of a string of decimal digits. */
  function ParseNat(s: string): (n: int)
    decreases |s|
  {
    if s == [] then 0 else 10 * ParseNat(s[..|s| - 1]) + (s[|s| - 1] as int - '0' as int)
  }

  /** Printing a number and reading it back gives the number. */
  lemma {:induction false} ParseNatToString(n: nat)
    ensures ParseNat(NatToString(n)) == n
    decreases n
  {
    if n < 10 {
      assert NatToString(n)[..0] == [];
    } else {
      ParseNatToString(n / 10);
      assert (NatToString(n / 10) + [Digit(n % 10)])[..|NatToString(n)| - 1] == NatToString(n / 10);
    }
  }

  /** The path of chunk i: `{folder}/{fileName}.{i + 1}{extension}`. */
  function ChunkPath(folder: string, fileName: string, i: nat, extension: string): (path: string) {
    folder + "/" + fileName + "." + NatToString(i + 1) + extension
  }

  /** Distinct chunks get distinct paths. */
  lemma ChunkPathsDistinct(folder: string, fileName: string, i: nat, j: nat, extension: string)
    requires i != j
    ensures ChunkPath(folder, fileName, i, extension) != ChunkPath(folder, fileName, j, extension)
  {
    var prefix := folder + "/" + fileName + ".";
    var di, dj := NatToString(i + 1), NatToString(j + 1);
    ParseNatToString(i + 1);
    ParseNatToString(j + 1);
    assert ChunkPath(folder, fileName, i, extension) == prefix + di + extension;
    assert ChunkPath(folder, fileName, j, extension) == prefix + dj + extension;
    if |di| == |dj| {
      assert (prefix + di + extension)[|prefix|..|prefix| + |di|] == di;
      assert (prefix + dj + extension)[|prefix|..|prefix| + |dj|] == dj;
    } else {
      assert |prefix + di + extension| != |prefix + dj + extension|;
    }
  }

  /** The chunk size Split computes: splitSizeInMB * OneMB in C# int arithmetic. */
  function ChunkSize(splitSizeInMB: int): (chunkSize: int)
    ensures IsInt32(chunkSize)
    ensures chunkSize % OneMB == 0
    ensures 0 < splitSizeInMB < 2048 ==> chunkSize == splitSizeInMB * OneMB
  {
    var x := splitSizeInMB * OneMB;
    var q := (x + 0x8000_0000) / 0x1_0000_0000;
    assert Wrap32(x) == OneMB * (splitSizeInMB - 4096 * q);
    Wrap32(x)
  }

  /**
   * FileStream.Read into a buffer: the next Min(buffer.Length, remaining)
   * bytes of the source land at the front of the buffer; the rest of the
   * buffer keeps what it held.
   */
  method ReadInto(buffer: array<byte>, source: seq<byte>, position: nat) returns (bytesRead: nat)
    requires position <= |source|
    modifies buffer
    ensures bytesRead == Min(buffer.Length, |source| - position)
    ensures buffer[..bytesRead] == source[position..position + bytesRead]
    ensures buffer[bytesRead..] == old(buffer[bytesRead..])
  {
    bytesRead := Min(buffer.Length, |source| - position);
    for k := 0 to bytesRead
      invariant forall j :: 0 <= j < k ==> buffer[j] == source[position + j]
      invariant forall j :: bytesRead <= j < buffer.Length ==> buffer[j] == old(buffer[j])
    {
      buffer[k] := source[position + k];
    }
  }

  /**
   * FileSplitter.Split(fileToSplitPath, splitSizeInMB, outputFilesFolder):
   * the chunk files it writes, in index order, each with its path. With a
   * chunk size that is not positive it throws; with more than int.MaxValue
   * chunks it throws TooManyChunks before writing anything; otherwise chunk i
   * holds the source bytes from i * chunkSize on, up to the next chunk.
   * `outputFolder` is the folder CheckAndCreateOutputFolder resolves
   * outputFilesFolder to.
   */
  method Split(source: SourceFile, splitSizeInMB: int, outputFolder: string) returns (r: Result<seq<FileImage>>)
    requires HasExtension(source) && IsInt32(splitSizeInMB) && |source.bytes| <= LongMax
    ensures ChunkSize(splitSizeInMB) == 0 <==> r == Err(DivideByZero)
    ensures ChunkSize(splitSizeInMB) < 0 <==> r == Err(Overflow)
    ensures ChunkSize(splitSizeInMB) > 0 ==>
      (r == Err(TooManyChunks) <==> ChunkCount(|source.bytes|, ChunkSize(splitSizeInMB)) > IntMax)
    ensures r.Ok? <==> ChunkSize(splitSizeInMB) > 0 && ChunkCount(|source.bytes|, ChunkSize(splitSizeInMB)) <= IntMax
    ensures r.Ok? ==>
      |r.value| == ChunkCount(|source.bytes|, ChunkSize(splitSizeInMB)) &&
      forall j :: 0 <= j < |r.value| ==>
        r.value[j] == FileImage(ChunkPath(outputFolder, BaseName(source), j, source.extension),
                                ChunkOf(source.bytes, ChunkSize(splitSizeInMB), j))
  {
    var chunkSize := ChunkSize(splitSizeInMB);
    var fileName := BaseName(source);
    if chunkSize == 0 {
      return Err(DivideByZero);
    } else if chunkSize < 0 {
      return Err(Overflow);
    }
    var chunkCount := ChunkCount(|source.bytes|, chunkSize);
    if chunkCount > IntMax {
      return Err(TooManyChunks);
    }
    var outputFiles := new FileImage[chunkCount](_ => FileImage("", []));
    var buffer := new byte[chunkSize];
    var files := WriteChunks(source, chunkSize, fileName, outputFolder, outputFiles, buffer);
    r := Ok(files);
  }

  /** The loop of Split: chunk i is read into the buffer and written under its path. */
  method WriteChunks(source: SourceFile, chunkSize: nat, fileName: string, outputFolder: string,
                     outputFiles: array<FileImage>, buffer: array<byte>) returns (files: seq<FileImage>)
    requires chunkSize > 0 && buffer.Length == chunkSize && outputFiles.Length == ChunkCount(|source.bytes|, chunkSize)
    modifies outputFiles, buffer
    ensures |files| == ChunkCount(|source.bytes|, chunkSize)
    ensures forall j :: 0 <= j < |files| ==>
      files[j] == FileImage(ChunkPath(outputFolder, fileName, j, source.extension), ChunkOf(source.bytes, chunkSize, j))
  {
    var chunkCount := outputFiles.Length;
    var position := 0;
    for i := 0 to chunkCount
      invariant position == Min(i * chunkSize, |source.bytes|)
      invariant forall j :: 0 <= j < i ==>
        outputFiles[j] == FileImage(ChunkPath(outputFolder, fileName, j, source.extension), ChunkOf(source.bytes, chunkSize, j))
    {
      ReadStep(source.bytes, chunkSize, i);
      var bytesRead := ReadInto(buffer, source.bytes, position);
      var path := outputFolder + "/" + fileName + "." + NatToString(i + 1) + source.extension;
      outputFiles[i] := FileImage(path, buffer[..bytesRead]);
      position := position + bytesRead;
    }
    files := outputFiles[..];
  }

  /** Reading a full buffer at the start of chunk i yields chunk i and moves to the start of chunk i + 1. */
  lemma ReadStep(bytes: seq<byte>, chunkSize: nat, i: nat)
    requires chunkSize > 0 && i < ChunkCount(|bytes|, chunkSize)
    ensures Min(i * chunkSize, |bytes|) == i * chunkSize
    ensures var n := Min(chunkSize, |bytes| - i * chunkSize);
      bytes[i * chunkSize..i * chunkSize + n] == ChunkOf(bytes, chunkSize, i) &&
      i * chunkSize + n == Min((i + 1) * chunkSize, |bytes|)
  {
    StartInside(|bytes|, chunkSize, i);
  }
}
