/** Loading a model field by field from an open file. */
module ModelLoader {
  import opened Bytes
  import opened Mlp
  import opened ModelFile
  import opened ModelFileValues
  import opened Model

  class InputFile {
    const data: seq<byte>
    var pos: nat

    ghost predicate Valid()
      reads this
    {
      pos <= |data|
    }

    ghost function Rest(): seq<byte>
      requires Valid()
      reads this
    {
      data[pos..]
    }

    constructor (data: seq<byte>)
      ensures Valid() && Rest() == data
    {
      this.data := data;
      pos := 0;
    }

    /** Reads exactly n bytes, or fails and leaves nothing to read. */
    method Read(n: nat) returns (bytes: Option<seq<byte>>)
      requires Valid()
      modifies this
      ensures Valid()
      ensures |old(Rest())| >= n ==> bytes == Some(old(Rest())[..n]) && Rest() == old(Rest())[n..]
      ensures |old(Rest())| < n ==> bytes == None && Rest() == []
    {
      if |data| - pos < n {
        pos := |data|;
        return None;
      }
      assert Rest()[..n] == data[pos..pos + n];
      bytes := Some(data[pos..pos + n]);
      pos := pos + n;
    }

    method AtEnd() returns (end: bool)
      requires Valid()
      ensures end <==> Rest() == []
    {
      end := pos == |data|;
    }
  }

  method ReadFloats(f: InputFile, n: nat, field: nat, sizeMod: nat, val: Word -> real) returns (r: Result<seq<real>>)
    requires f.Valid()
    modifies f
    ensures f.Valid()
    ensures var read := ReadField(old(f.Rest()), n, field, sizeMod);
            if read.Failed? then r == Failed(read.error)
            else r == Ok(Values(read.value, val)) && f.Rest() == old(f.Rest())[4 * n..]
  {
    if n > MaxCount(sizeMod) {
      return Failed(TooLong(field));
    }
    var bytes := f.Read(4 * n);
    if bytes.None? {
      return Failed(ShortRead(field));
    }
    r := Ok(Values(ToWords(bytes.value), val));
  }

  /** The state of a load after some fields: what the whole read comes to, given the rest. */
  function Resume(done: seq<seq<Word>>, r: Result<seq<seq<Word>>>): Result<seq<seq<Word>>> {
    if r.Failed? then r else Ok(done + r.value)
  }

  lemma ReadStep(done: seq<seq<Word>>, data: seq<byte>, counts: seq<nat>, k: nat, sizeMod: nat)
    requires k < |counts|
    ensures var read := ReadField(data, counts[k], k, sizeMod);
            Resume(done, ReadFields(data, counts[k..], k, sizeMod))
              == if read.Failed? then Failed(read.error)
                 else Resume(done + [read.value], ReadFields(data[4 * counts[k]..], counts[k + 1..], k + 1, sizeMod))
  {
    assert counts[k..][0] == counts[k] && counts[k..][1..] == counts[k + 1..];
    var read := ReadField(data, counts[k], k, sizeMod);
    if read.Ok? {
      var rest := ReadFields(data[4 * counts[k]..], counts[k + 1..], k + 1, sizeMod);
      if rest.Ok? {
        assert done + ([read.value] + rest.value) == done + [read.value] + rest.value;
      }
    }
  }

  /** Where a load stands: k fields have been read as `done`, and the whole read comes to `want`. */
  ghost predicate Standing(f: InputFile, counts: seq<nat>, k: nat, sizeMod: nat, done: seq<seq<Word>>, want: Result<seq<seq<Word>>>)
    reads f
  {
    f.Valid() && k <= |counts| && |done| == k && want == Resume(done, ReadFields(f.Rest(), counts[k..], k, sizeMod))
  }

  method ReadNext(f: InputFile, n: nat, field: nat, sizeMod: nat, val: Word -> real,
                  ghost counts: seq<nat>, ghost done: seq<seq<Word>>, ghost want: Result<seq<seq<Word>>>)
    returns (r: Result<seq<real>>, ghost now: seq<seq<Word>>)
    requires Standing(f, counts, field, sizeMod, done, want) && field < |counts| && counts[field] == n
    modifies f
    ensures r.Failed? ==> want == Failed(r.error)
    ensures r.Ok? ==>
              && Standing(f, counts, field + 1, sizeMod, now, want)
              && r.value == Values(now[field], val)
              && forall i :: 0 <= i < field ==> now[i] == done[i]
  {
    ReadStep(done, f.Rest(), counts, field, sizeMod);
    ghost var read := ReadField(f.Rest(), n, field, sizeMod);
    now := done;
    r := ReadFloats(f, n, field, sizeMod, val);
    if r.Ok? {
      now := done + [read.value];
    }
  }

  /** Two fields in a row: the two scaler arrays, or a layer's weights and biases. */
  method ReadPair(f: InputFile, field: nat, sizeMod: nat, val: Word -> real,
                  counts: seq<nat>, ghost done: seq<seq<Word>>, ghost want: Result<seq<seq<Word>>>)
    returns (a: seq<real>, b: seq<real>, failure: Option<Error>, ghost now: seq<seq<Word>>)
    requires Standing(f, counts, field, sizeMod, done, want) && field + 1 < |counts|
    modifies f
    ensures failure.Some? ==> want == Failed(failure.value)
    ensures failure.None? ==>
              && Standing(f, counts, field + 2, sizeMod, now, want)
              && a == Values(now[field], val) && b == Values(now[field + 1], val)
              && forall i :: 0 <= i < field ==> now[i] == done[i]
  {
    a, b, failure := [], [], None;
    var first, second;
    first, now := ReadNext(f, counts[field], field, sizeMod, val, counts, done, want);
    if first.Failed? {
      failure := Some(first.error);
      return;
    }
    second, now := ReadNext(f, counts[field + 1], field + 1, sizeMod, val, counts, now, want);
    if second.Failed? {
      failure := Some(second.error);
      return;
    }
    a, b := first.value, second.value;
  }

  lemma AllRead(f: InputFile, counts: seq<nat>, sizeMod: nat, done: seq<seq<Word>>, want: Result<seq<seq<Word>>>)
    requires Standing(f, counts, |counts|, sizeMod, done, want)
    ensures want == if f.Rest() == [] then Ok(done) else Failed(TrailingBytes)
  {
    assert counts[|counts|..] == [] && done + [] == done;
  }

  /** Four fields in a row: the scaler and the first layer, or the second and third layers. */
  method ReadFour(f: InputFile, field: nat, sizeMod: nat, val: Word -> real,
                  counts: seq<nat>, ghost done: seq<seq<Word>>, ghost want: Result<seq<seq<Word>>>)
    returns (a: seq<real>, b: seq<real>, c: seq<real>, d: seq<real>, failure: Option<Error>, ghost now: seq<seq<Word>>)
    requires Standing(f, counts, field, sizeMod, done, want) && field + 3 < |counts|
    modifies f
    ensures failure.Some? ==> want == Failed(failure.value)
    ensures failure.None? ==>
              && Standing(f, counts, field + 4, sizeMod, now, want)
              && a == Values(now[field], val) && b == Values(now[field + 1], val)
              && c == Values(now[field + 2], val) && d == Values(now[field + 3], val)
              && forall i :: 0 <= i < field ==> now[i] == done[i]
  {
    c, d := [], [];
    a, b, failure, now := ReadPair(f, field, sizeMod, val, counts, done, want);
    if failure.None? {
      c, d, failure, now := ReadPair(f, field + 2, sizeMod, val, counts, now, want);
    }
  }

  /** The eight arrays that the fields are read as. */
  predicate AreValues(fs: seq<seq<real>>, words: seq<seq<Word>>, val: Word -> real) {
    |fs| == |words| == 8 && forall i :: 0 <= i < 8 ==> fs[i] == Values(words[i], val)
  }

  lemma EightValues(a: seq<real>, b: seq<real>, c: seq<real>, d: seq<real>, e: seq<real>, f: seq<real>, g: seq<real>, h: seq<real>,
                    words: seq<seq<Word>>, first: seq<seq<Word>>, val: Word -> real)
    requires |words| == 8 && |first| == 4 && forall i :: 0 <= i < 4 ==> words[i] == first[i]
    requires a == Values(first[0], val) && b == Values(first[1], val) && c == Values(first[2], val) && d == Values(first[3], val)
    requires e == Values(words[4], val) && f == Values(words[5], val) && g == Values(words[6], val) && h == Values(words[7], val)
    ensures AreValues([a, b, c, d, e, f, g, h], words, val)
  {
  }

  /** All eight arrays, after which the file must end. */
  method ReadArrays(f: InputFile, sizeMod: nat, val: Word -> real, counts: seq<nat>, ghost want: Result<seq<seq<Word>>>)
    returns (fs: seq<seq<real>>, failure: Option<Error>)
    requires f.Valid() && |counts| == 8 && want == ReadFields(f.Rest(), counts, 0, sizeMod)
    modifies f
    ensures failure.Some? ==> want == Failed(failure.value)
    ensures failure.None? ==> want.Ok? && AreValues(fs, want.value, val)
  {
    fs := [];
    assert counts[0..] == counts && (want.Ok? ==> [] + want.value == want.value);
    var low, high, W1, b1; ghost var first;
    low, high, W1, b1, failure, first := ReadFour(f, 0, sizeMod, val, counts, [], want);
    if failure.Some? {
      return;
    }
    var W2, b2, W3, b3; ghost var done;
    W2, b2, W3, b3, failure, done := ReadFour(f, 4, sizeMod, val, counts, first, want);
    if failure.Some? {
      return;
    }
    AllRead(f, counts, sizeMod, done, want);
    var end := f.AtEnd();
    if !end {
      return [], Some(TrailingBytes);
    }
    fs := [low, high, W1, b1, W2, b2, W3, b3];
    EightValues(low, high, W1, b1, W2, b2, W3, b3, done, first, val);
  }

  lemma HeaderDimensions(file: seq<byte>)
    requires |file| >= 16
    ensures var hdr := file[..16];
            && Dimension(file, 0) == ReadInt32(hdr[0..4]) && Dimension(file, 1) == ReadInt32(hdr[4..8])
            && Dimension(file, 2) == ReadInt32(hdr[8..12]) && Dimension(file, 3) == ReadInt32(hdr[12..16])
  {
    var hdr := file[..16];
    assert hdr[0..4] == file[0..4] && hdr[4..8] == file[4..8] && hdr[8..12] == file[8..12] && hdr[12..16] == file[12..16];
  }

  /** What the header and the fields behind it are parsed as. */
  lemma ParsedFields(data: seq<byte>, sizeMod: nat, counts: seq<nat>, want: Result<seq<seq<Word>>>)
    requires sizeMod > 0 && |data| >= 16 && PositiveDimensions(data)
    requires counts == FileCounts(data, sizeMod) && want == ReadFields(data[16..], counts, 0, sizeMod)
    ensures want.Failed? ==> Parse(data, sizeMod) == Failed(want.error)
    ensures want.Ok? ==>
              && |want.value| == 8
              && Parse(data, sizeMod) == Ok(Params(Dimension(data, 0), Dimension(data, 1), Dimension(data, 2), Dimension(data, 3),
                                                   want.value[0], want.value[1], want.value[2], want.value[3],
                                                   want.value[4], want.value[5], want.value[6], want.value[7]))
  {
  }

  /** Fills a model from the bytes of an open file. */
  method LoadOpened(data: seq<byte>, sizeMod: nat, val: Word -> real) returns (r: Result<Model>)
    requires IsSizeMod(sizeMod)
    ensures var parsed := Parse(data, sizeMod);
            if parsed.Failed? then r == Failed(parsed.error)
            else r.Ok? && fresh(r.value) && r.value.Content() == ParamValues(parsed.value, val)
  {
    var f := new InputFile(data);
    var hdr := f.Read(16);
    if hdr.None? {
      return Failed(NoHeader);
    }
    var nIn, h1, h2, nOut :=
      ReadInt32(hdr.value[0..4]), ReadInt32(hdr.value[4..8]), ReadInt32(hdr.value[8..12]), ReadInt32(hdr.value[12..16]);
    HeaderDimensions(data);
    if nIn <= 0 || h1 <= 0 || h2 <= 0 || nOut <= 0 {
      return Failed(BadDimensions);
    }
    var counts: seq<nat> := [nIn, nIn, h1 * nIn % sizeMod, h1, h2 * h1 % sizeMod, h2, nOut * h2 % sizeMod, nOut];
    ghost var want := ReadFields(data[16..], counts, 0, sizeMod);
    ParsedFields(data, sizeMod, counts, want);
    var fs, failure := ReadArrays(f, sizeMod, val, counts, want);
    if failure.Some? {
      return Failed(failure.value);
    }
    var m := new Model(Params(nIn, h1, h2, nOut, fs[0], fs[1], fs[2], fs[3], fs[4], fs[5], fs[6], fs[7]));
    return Ok(m);
  }

  /** Fills a model from a file; `None` is a file that cannot be opened. */
  method Load(file: Option<seq<byte>>, sizeMod: nat, val: Word -> real) returns (r: Result<Model>)
    requires IsSizeMod(sizeMod)
    ensures file.None? ==> r == Failed(CannotOpen)
    ensures file.Some? ==>
              var parsed := Parse(file.value, sizeMod);
              if parsed.Failed? then r == Failed(parsed.error)
              else r.Ok? && fresh(r.value) && r.value.Content() == ParamValues(parsed.value, val)
    ensures file.Some? && r.Ok? ==> LoadedFrom(r.value.Content(), file.value, sizeMod, val)
  {
    if file.None? {
      return Failed(CannotOpen);
    }
    r := LoadOpened(file.value, sizeMod, val);
    if r.Ok? {
      ParsedFrom(file.value, sizeMod, val);
    }
  }

  /** The exporter: header, scaler arrays and layers, one write after another. */
  method WriteModel(p: Params<Word>) returns (file: seq<byte>)
    requires DimensionsFit(p)
    ensures file == Layout(p)
  {
    file := WriteInt32(p.nIn) + WriteInt32(p.h1) + WriteInt32(p.h2) + WriteInt32(p.nOut);
    var fields := Fields(p);
    ghost var header := file;
    var i := 0;
    while i < |fields|
      invariant 0 <= i <= |fields|
      invariant file + Flatten(fields[i..]) == header + Flatten(fields)
    {
      assert fields[i..][0] == fields[i] && fields[i..][1..] == fields[i + 1..];
      assert file + Flatten(fields[i..]) == file + ToBytes(fields[i]) + Flatten(fields[i + 1..]);
      file := file + ToBytes(fields[i]);
      i := i + 1;
    }
    assert fields[|fields|..] == [] && file + [] == file;
  }
}
