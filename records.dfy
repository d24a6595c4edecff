/**
 * Record codec: a record file is a raw concatenation of fixed-width records.
 * The value type used by the driver is a 32-bit signed integer, read and
 * written in the platform's native (little-endian) byte order, so a record
 * is Size = 4 bytes. A trailing partial record is not a value.
 */
module Records {

  newtype byte = x: int | 0 <= x < 256

  /** Marshal.SizeOf<int>() */
  const Size: nat := 4

  const IntMax: int := 0x7FFF_FFFF
  const LongMax: int := 0x7FFF_FFFF_FFFF_FFFF

  predicate IsInt32(v: int) {
    -0x8000_0000 <= v <= IntMax
  }

  predicate AllInt32(values: seq<int>) {
    forall i :: 0 <= i < |values| ==> IsInt32(values[i])
  }

  /** A C# int computation: the mathematical value wrapped into the 32-bit two's-complement range. */
  function Wrap32(x: int): (w: int)
    ensures IsInt32(w)
    ensures (w - x) % 0x1_0000_0000 == 0
    ensures IsInt32(x) ==> w == x
  {
    (x + 0x8000_0000) % 0x1_0000_0000 - 0x8000_0000
  }

  /** Errors the core reports by throwing. */
  datatype Error =
    | TooManyChunks    // FileSplitter.Split: chunk count exceeds int.MaxValue
    | DivideByZero     // FileSplitter.Split: a chunk size of 0 in `Length % chunkSize`
    | Overflow         // FileSplitter.Split: a negative chunk size allocates a negative-size buffer
    | IndexOutOfRange  // FileSorter.SortReallyBigFile: splitFiles[0] of an empty split

  datatype Result<T> = Ok(value: T) | Err(error: Error)

  /** A file as its path and its byte contents. */
  datatype FileImage = FileImage(path: string, bytes: seq<byte>)

  /**
   * A file given by the parts of its FileInfo the core uses: the directory
   * name, the file name, its extension (a suffix of the name: empty, or from
   * the last '.') and its contents.
   */
  datatype SourceFile = SourceFile(directoryName: string, name: string, extension: string, bytes: seq<byte>)

  predicate HasExtension(f: SourceFile) {
    |f.extension| <= |f.name| && f.name[|f.name| - |f.extension|..] == f.extension
  }

  /** Decode the 4 bytes at `offset` as one little-endian two's-complement value. */
  function DecodeAt(bytes: seq<byte>, offset: nat): (v: int)
    requires offset + Size <= |bytes|
    ensures IsInt32(v)
  {
    var u := bytes[offset] as int + 0x100 * bytes[offset + 1] as int
             + 0x1_0000 * bytes[offset + 2] as int + 0x100_0000 * bytes[offset + 3] as int;
    if u <= IntMax then u else u - 0x1_0000_0000
  }

  /** Encode one value as its 4 little-endian bytes. */
  function EncodeValue(v: int): (bs: seq<byte>)
    requires IsInt32(v)
    ensures |bs| == Size && DecodeAt(bs, 0) == v
  {
    var u := if v < 0 then v + 0x1_0000_0000 else v;
    var q1 := u / 0x100;
    var q2 := q1 / 0x100;
    var q3 := q2 / 0x100;
    assert u == 0x100 * q1 + u % 0x100;
    assert q1 == 0x100 * q2 + q1 % 0x100;
    assert q2 == 0x100 * q3 + q2 % 0x100;
    assert q3 < 0x100;
    [(u % 0x100) as byte, (q1 % 0x100) as byte, (q2 % 0x100) as byte, q3 as byte]
  }

  /** The values of a record file: every whole record, in file order; a trailing partial record is dropped. */
  function Decode(bytes: seq<byte>): (values: seq<int>)
    ensures |values| == |bytes| / Size
    ensures AllInt32(values)
    decreases |bytes|
  {
    if |bytes| < Size then [] else [DecodeAt(bytes, 0)] + Decode(bytes[Size..])
  }

  /** The bytes of a record file holding `values`. */
  function Encode(values: seq<int>): (bytes: seq<byte>)
    requires AllInt32(values)
    ensures |bytes| == |values| * Size
    ensures Decode(bytes) == values
  {
    if values == [] then []
    else
      var bs := EncodeValue(values[0]);
      assert bs[..] + Encode(values[1..]) == bs + Encode(values[1..]);
      assert (bs + Encode(values[1..]))[Size..] == Encode(values[1..]);
      DecodeAtPrefix(bs, Encode(values[1..]), 0);
      bs + Encode(values[1..])
  }

  lemma DecodeAtPrefix(a: seq<byte>, b: seq<byte>, offset: nat)
    requires offset + Size <= |a|
    ensures DecodeAt(a + b, offset) == DecodeAt(a, offset)
  {
    assert (a + b)[offset] == a[offset] && (a + b)[offset + 1] == a[offset + 1];
    assert (a + b)[offset + 2] == a[offset + 2] && (a + b)[offset + 3] == a[offset + 3];
  }

  /** The i-th decoded value is the record at byte offset i * Size. */
  lemma {:induction false} DecodeIndex(bytes: seq<byte>, i: nat)
    requires i < |bytes| / Size
    ensures (i + 1) * Size <= |bytes|
    ensures Decode(bytes)[i] == DecodeAt(bytes, i * Size)
    decreases i
  {
    if i > 0 {
      var rest := bytes[Size..];
      DecodeIndex(rest, i - 1);
      assert rest[(i - 1) * Size..] == bytes[i * Size..];
      var o := (i - 1) * Size;
      assert rest[o] == bytes[o + Size] && rest[o + 1] == bytes[o + Size + 1];
      assert rest[o + 2] == bytes[o + Size + 2] && rest[o + 3] == bytes[o + Size + 3];
    }
  }

  /** Record boundaries survive concatenation when the first part holds whole records only. */
  lemma {:induction false} DecodeAppend(a: seq<byte>, b: seq<byte>)
    requires |a| % Size == 0
    ensures Decode(a + b) == Decode(a) + Decode(b)
    decreases |a|
  {
    if |a| > 0 {
      DecodeAtPrefix(a, b, 0);
      assert (a + b)[Size..] == a[Size..] + b;
      DecodeAppend(a[Size..], b);
    } else {
      assert a + b == b;
    }
  }

  /** Dropping the trailing partial record does not change the decoded values. */
  lemma {:induction false} DecodeWholeRecords(bytes: seq<byte>)
    ensures Decode(bytes[..|bytes| / Size * Size]) == Decode(bytes)
    decreases |bytes|
  {
    if |bytes| >= Size {
      var rest := bytes[Size..];
      DecodeWholeRecords(rest);
      var w := bytes[..|bytes| / Size * Size];
      assert w[Size..] == rest[..|rest| / Size * Size];
      assert DecodeAt(w, 0) == DecodeAt(bytes, 0);
    }
  }
}
