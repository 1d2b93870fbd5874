/**
  The layout of model.bin and what reading it yields, with size_t products taken modulo `sizeMod`:
  2^32 on the 32-bit targets, 2^64 elsewhere. A float is its four stored bytes.
 */
module ModelFile {
  import opened Bytes
  import opened Mlp

  type Word = s: seq<byte> | |s| == 4 witness [0, 0, 0, 0]

  /** Fields are numbered in file order: the two scaler arrays, then W1, b1, W2, b2, W3, b3. */
  datatype Error = CannotOpen | NoHeader | BadDimensions | TooLong(field: nat) | ShortRead(field: nat) | TrailingBytes

  datatype Result<+T> = Ok(value: T) | Failed(error: Error) {
    predicate IsFailure() { Failed? }

    function PropagateFailure<U>(): Result<U>
      requires IsFailure()
    {
      Failed(error)
    }

    function Extract(): T
      requires !IsFailure()
    {
      value
    }
  }

  predicate IsSizeMod(sizeMod: nat) {
    sizeMod == 0x1_0000_0000 || sizeMod == 0x1_0000_0000_0000_0000
  }

  /** The longest float vector the C++ library will make. */
  function MaxCount(sizeMod: nat): int {
    sizeMod / 8 - 1
  }

  // ---- little-endian 32-bit integers ----

  predicate IsInt32(n: int) {
    -0x8000_0000 <= n < 0x8000_0000
  }

  function ReadInt32(w: Word): (n: int)
    ensures IsInt32(n)
  {
    var high: int := if w[3] >= 128 then w[3] as int - 256 else w[3] as int;
    w[0] as int + 0x100 * w[1] as int + 0x1_0000 * w[2] as int + 0x100_0000 * high
  }

  function WriteInt32(n: int): Word
    requires IsInt32(n)
  {
    [n % 0x100, n / 0x100 % 0x100, n / 0x1_0000 % 0x100, n / 0x100_0000 % 0x100]
  }

  lemma Int32RoundTrip(n: int)
    requires IsInt32(n)
    ensures ReadInt32(WriteInt32(n)) == n
  {
    var n1, n2, n3 := n / 0x100, n / 0x1_0000, n / 0x100_0000;
    assert n == 0x100 * n1 + n % 0x100;
    assert n2 == n1 / 0x100 && n1 == 0x100 * n2 + n1 % 0x100;
    assert n3 == n2 / 0x100 && n2 == 0x100 * n3 + n2 % 0x100;
    assert -128 <= n3 < 128;
  }

  lemma Int32Inverse(w: Word)
    ensures WriteInt32(ReadInt32(w)) == w
  {
    var n := ReadInt32(w);
    var high: int := if w[3] >= 128 then w[3] as int - 256 else w[3] as int;
    assert n / 0x100 == w[1] as int + 0x100 * w[2] as int + 0x1_0000 * high;
    assert n / 0x1_0000 == w[2] as int + 0x100 * high;
    assert n / 0x100_0000 == high;
  }

  // ---- arrays of words ----

  function ToBytes(ws: seq<Word>): (b: seq<byte>)
    ensures |b| == 4 * |ws|
  {
    if ws == [] then [] else ws[0] + ToBytes(ws[1..])
  }

  function ToWords(b: seq<byte>): (ws: seq<Word>)
    requires |b| % 4 == 0
    ensures |b| == 4 * |ws|
    decreases |b|
  {
    if b == [] then [] else [b[..4]] + ToWords(b[4..])
  }

  lemma {:induction false} WordsRoundTrip(ws: seq<Word>)
    ensures ToWords(ToBytes(ws)) == ws
  {
    if ws != [] {
      WordsRoundTrip(ws[1..]);
      assert ToBytes(ws)[..4] == ws[0] && ToBytes(ws)[4..] == ToBytes(ws[1..]);
    }
  }

  lemma {:induction false} WordsInverse(b: seq<byte>)
    requires |b| % 4 == 0
    ensures ToBytes(ToWords(b)) == b
    decreases |b|
  {
    if b != [] {
      WordsInverse(b[4..]);
      assert ToWords(b)[1..] == ToWords(b[4..]);
      assert b == b[..4] + b[4..];
    }
  }

  // ---- the writer ----

  function Fields<T>(p: Params<T>): seq<seq<T>> {
    [p.featureMin, p.featureMax, p.W1, p.b1, p.W2, p.b2, p.W3, p.b3]
  }

  function Flatten(fs: seq<seq<Word>>): seq<byte> {
    if fs == [] then [] else ToBytes(fs[0]) + Flatten(fs[1..])
  }

  predicate DimensionsFit<T>(p: Params<T>) {
    IsInt32(p.nIn) && IsInt32(p.h1) && IsInt32(p.h2) && IsInt32(p.nOut)
  }

  function Header<T>(p: Params<T>): (h: seq<byte>)
    requires DimensionsFit(p)
    ensures |h| == 16
  {
    WriteInt32(p.nIn) + WriteInt32(p.h1) + WriteInt32(p.h2) + WriteInt32(p.nOut)
  }

  /** The bytes the exporter writes for a model. */
  function Layout(p: Params<Word>): seq<byte>
    requires DimensionsFit(p)
  {
    Header(p) + Flatten(Fields(p))
  }

  // ---- the reader ----

  /** The numbers of floats that load asks for, field by field. */
  function Counts(nIn: nat, h1: nat, h2: nat, nOut: nat, sizeMod: nat): (c: seq<nat>)
    requires sizeMod > 0
    ensures |c| == 8
  {
    [nIn, nIn, h1 * nIn % sizeMod, h1, h2 * h1 % sizeMod, h2, nOut * h2 % sizeMod, nOut]
  }

  function ReadField(data: seq<byte>, count: nat, field: nat, sizeMod: nat): Result<seq<Word>> {
    if count > MaxCount(sizeMod) then Failed(TooLong(field))
    else if |data| < 4 * count then Failed(ShortRead(field))
    else Ok(ToWords(data[..4 * count]))
  }

  function ReadFields(data: seq<byte>, counts: seq<nat>, field: nat, sizeMod: nat): (r: Result<seq<seq<Word>>>)
    ensures r.Ok? ==> |r.value| == |counts| && forall i :: 0 <= i < |counts| ==> |r.value[i]| == counts[i]
    decreases |counts|
  {
    if counts == [] then
      if data == [] then Ok([]) else Failed(TrailingBytes)
    else
      var first :- ReadField(data, counts[0], field, sizeMod);
      var rest :- ReadFields(data[4 * counts[0]..], counts[1..], field + 1, sizeMod);
      Ok([first] + rest)
  }

  function Dimension(file: seq<byte>, i: nat): (n: int)
    requires |file| >= 16 && i < 4
    ensures IsInt32(n)
  {
    ReadInt32(file[4 * i..4 * i + 4])
  }

  predicate PositiveDimensions(file: seq<byte>)
    requires |file| >= 16
  {
    Dimension(file, 0) > 0 && Dimension(file, 1) > 0 && Dimension(file, 2) > 0 && Dimension(file, 3) > 0
  }

  function FileCounts(file: seq<byte>, sizeMod: nat): (c: seq<nat>)
    requires |file| >= 16 && PositiveDimensions(file) && sizeMod > 0
    ensures |c| == 8
  {
    Counts(Dimension(file, 0), Dimension(file, 1), Dimension(file, 2), Dimension(file, 3), sizeMod)
  }

  /** What loading a file yields: the parameters as stored words, or the first error. */
  function Parse(file: seq<byte>, sizeMod: nat): Result<Params<Word>>
    requires sizeMod > 0
  {
    if |file| < 16 then Failed(NoHeader)
    else if !PositiveDimensions(file) then Failed(BadDimensions)
    else
      var fs :- ReadFields(file[16..], FileCounts(file, sizeMod), 0, sizeMod);
      Ok(Params(Dimension(file, 0), Dimension(file, 1), Dimension(file, 2), Dimension(file, 3),
                fs[0], fs[1], fs[2], fs[3], fs[4], fs[5], fs[6], fs[7]))
  }
}
