/** model.bin: exactly which files load, and that writing and reading are inverse. */
module ModelFileProofs {
  import opened Bytes
  import opened Mlp
  import opened ModelFile

  function Total(counts: seq<nat>): nat {
    if counts == [] then 0 else counts[0] + Total(counts[1..])
  }

  predicate Allowed(counts: seq<nat>, sizeMod: nat) {
    forall i :: 0 <= i < |counts| ==> counts[i] <= MaxCount(sizeMod)
  }

  function Sizes(fs: seq<seq<Word>>): seq<nat> {
    seq(|fs|, i requires 0 <= i < |fs| => |fs[i]|)
  }

  lemma {:induction false} FieldsAccepted(data: seq<byte>, counts: seq<nat>, field: nat, sizeMod: nat)
    ensures ReadFields(data, counts, field, sizeMod).Ok? <==> Allowed(counts, sizeMod) && |data| == 4 * Total(counts)
    decreases |counts|
  {
    if counts != [] {
      var tail := counts[1..];
      assert Allowed(counts, sizeMod) <==> counts[0] <= MaxCount(sizeMod) && Allowed(tail, sizeMod) by {
        assert forall i :: 1 <= i < |counts| ==> counts[i] == tail[i - 1];
        assert forall i :: 0 <= i < |tail| ==> tail[i] == counts[i + 1];
      }
      if |data| >= 4 * counts[0] {
        FieldsAccepted(data[4 * counts[0]..], tail, field + 1, sizeMod);
      }
    }
  }

  lemma {:induction false} FieldsRoundTrip(fs: seq<seq<Word>>, field: nat, sizeMod: nat)
    requires Allowed(Sizes(fs), sizeMod)
    ensures ReadFields(Flatten(fs), Sizes(fs), field, sizeMod) == Ok(fs)
    decreases |fs|
  {
    if fs != [] {
      var data, n := Flatten(fs), 4 * |fs[0]|;
      assert Sizes(fs)[1..] == Sizes(fs[1..]);
      assert Sizes(fs)[0] <= MaxCount(sizeMod);
      assert Allowed(Sizes(fs[1..]), sizeMod) by {
        assert forall i :: 0 <= i < |fs| - 1 ==> Sizes(fs[1..])[i] == Sizes(fs)[i + 1];
      }
      FieldsRoundTrip(fs[1..], field + 1, sizeMod);
      assert data[..n] == ToBytes(fs[0]) && data[n..] == Flatten(fs[1..]);
      WordsRoundTrip(fs[0]);
      assert [fs[0]] + fs[1..] == fs;
    }
  }

  lemma FlattenFirst(f: seq<Word>, fs: seq<seq<Word>>)
    ensures Flatten([f] + fs) == ToBytes(f) + Flatten(fs)
  {
  }

  lemma {:induction false} FieldsInverse(data: seq<byte>, counts: seq<nat>, field: nat, sizeMod: nat)
    requires ReadFields(data, counts, field, sizeMod).Ok?
    ensures Flatten(ReadFields(data, counts, field, sizeMod).value) == data
    decreases |counts|
  {
    if counts != [] {
      var n := 4 * counts[0];
      var rest := ReadFields(data[n..], counts[1..], field + 1, sizeMod);
      FieldsInverse(data[n..], counts[1..], field + 1, sizeMod);
      WordsInverse(data[..n]);
      FlattenFirst(ToWords(data[..n]), rest.value);
      assert data == data[..n] + data[n..];
    }
  }

  // ---- sizes ----

  /** The number of floats the dimensions call for. */
  function FloatCount(nIn: nat, h1: nat, h2: nat, nOut: nat): nat {
    2 * nIn + h1 * nIn + h1 + h2 * h1 + h2 + nOut * h2 + nOut
  }

  /** No weight matrix has more entries than size_t can count. */
  predicate NoWrap(nIn: nat, h1: nat, h2: nat, nOut: nat, sizeMod: nat) {
    h1 * nIn < sizeMod && h2 * h1 < sizeMod && nOut * h2 < sizeMod
  }

  lemma TotalOfEight(c: seq<nat>)
    requires |c| == 8
    ensures Total(c) == c[0] + c[1] + c[2] + c[3] + c[4] + c[5] + c[6] + c[7]
  {
    assert Total(c[7..]) == c[7];
    assert forall i :: 0 <= i < 7 ==> c[i..] == [c[i]] + c[i + 1..];
    assert c[0..] == c;
    assert Total(c[6..]) == c[6] + c[7];
    assert Total(c[5..]) == c[5] + Total(c[6..]);
    assert Total(c[4..]) == c[4] + Total(c[5..]);
    assert Total(c[3..]) == c[3] + Total(c[4..]);
    assert Total(c[2..]) == c[2] + Total(c[3..]);
    assert Total(c[1..]) == c[1] + Total(c[2..]);
  }

  lemma Wrapped(n: nat, sizeMod: nat)
    requires sizeMod > 0
    ensures n % sizeMod <= n && (n % sizeMod == n <==> n < sizeMod)
  {
  }

  lemma EightCounts(nIn: nat, p: nat, h1: nat, q: nat, h2: nat, r: nat, nOut: nat)
    ensures Total([nIn, nIn, p, h1, q, h2, r, nOut]) == 2 * nIn + p + h1 + q + h2 + r + nOut
  {
    TotalOfEight([nIn, nIn, p, h1, q, h2, r, nOut]);
  }

  lemma WrappedTotal(nIn: nat, p: nat, h1: nat, q: nat, h2: nat, r: nat, nOut: nat, m: nat)
    requires m > 0
    ensures var t, all := Total([nIn, nIn, p % m, h1, q % m, h2, r % m, nOut]), 2 * nIn + p + h1 + q + h2 + r + nOut;
            t <= all && (t == all <==> p < m && q < m && r < m)
  {
    EightCounts(nIn, p % m, h1, q % m, h2, r % m, nOut);
    Wrapped(p, m);
    Wrapped(q, m);
    Wrapped(r, m);
  }

  /** The floats load asks for are those the dimensions call for exactly when no product wraps; otherwise fewer. */
  lemma CountsTotal(nIn: nat, h1: nat, h2: nat, nOut: nat, sizeMod: nat)
    requires sizeMod > 0
    ensures Total(Counts(nIn, h1, h2, nOut, sizeMod)) <= FloatCount(nIn, h1, h2, nOut)
    ensures Total(Counts(nIn, h1, h2, nOut, sizeMod)) == FloatCount(nIn, h1, h2, nOut) <==> NoWrap(nIn, h1, h2, nOut, sizeMod)
  {
    WrappedTotal(nIn, h1 * nIn, h1, h2 * h1, h2, nOut * h2, nOut, sizeMod);
  }

  // ---- acceptance ----

  predicate Headed(file: seq<byte>) {
    |file| >= 16 && PositiveDimensions(file)
  }

  predicate FileAllowed(file: seq<byte>, sizeMod: nat)
    requires Headed(file) && sizeMod > 0
  {
    Allowed(FileCounts(file, sizeMod), sizeMod)
  }

  function ExactSize(file: seq<byte>): nat
    requires Headed(file)
  {
    16 + 4 * FloatCount(Dimension(file, 0), Dimension(file, 1), Dimension(file, 2), Dimension(file, 3))
  }

  predicate FileNoWrap(file: seq<byte>, sizeMod: nat)
    requires Headed(file)
  {
    NoWrap(Dimension(file, 0), Dimension(file, 1), Dimension(file, 2), Dimension(file, 3), sizeMod)
  }

  /** Every file, every platform: which files load. */
  lemma Acceptance(file: seq<byte>, sizeMod: nat)
    requires sizeMod > 0
    ensures Parse(file, sizeMod).Ok? <==>
              Headed(file) && FileAllowed(file, sizeMod) && |file| == 16 + 4 * Total(FileCounts(file, sizeMod))
  {
    if Headed(file) {
      FieldsAccepted(file[16..], FileCounts(file, sizeMod), 0, sizeMod);
    }
  }

  /** When no product wraps, a file loads exactly when it has the size its header calls for. */
  lemma ExactAcceptance(file: seq<byte>, sizeMod: nat)
    requires sizeMod > 0 && (Headed(file) ==> FileNoWrap(file, sizeMod))
    ensures Parse(file, sizeMod).Ok? <==> Headed(file) && FileAllowed(file, sizeMod) && |file| == ExactSize(file)
  {
    Acceptance(file, sizeMod);
    if Headed(file) {
      CountsTotal(Dimension(file, 0), Dimension(file, 1), Dimension(file, 2), Dimension(file, 3), sizeMod);
    }
  }

  lemma SameHeader(a: seq<byte>, b: seq<byte>)
    requires |a| >= 16 && |b| >= 16 && a[..16] == b[..16]
    ensures forall i :: 0 <= i < 4 ==> Dimension(a, i) == Dimension(b, i)
  {
  }

  /** A loadable file stops loading when anything is cut off its end or added to it. */
  lemma NoPrefixNoExtension(file: seq<byte>, other: seq<byte>, sizeMod: nat)
    requires sizeMod > 0 && Parse(file, sizeMod).Ok?
    requires other < file || file < other
    ensures Parse(other, sizeMod).Failed?
  {
    Acceptance(file, sizeMod);
    Acceptance(other, sizeMod);
    if |other| >= 16 {
      assert file[..16] == other[..16];
      SameHeader(file, other);
    }
  }

  lemma BodyAccepted(header: seq<byte>, body: seq<byte>, sizeMod: nat)
    requires sizeMod > 0 && |header| == 16 && Headed(header)
    ensures Parse(header + body, sizeMod).Ok? <==> FileAllowed(header, sizeMod) && |body| == 4 * Total(FileCounts(header, sizeMod))
  {
    assert (header + body)[..16] == header[..16];
    SameHeader(header, header + body);
    Acceptance(header + body, sizeMod);
  }

  /**
    The size check is exact for a header exactly when no product wraps and no array is too long. With a
    wrapped product some file with that header loads although it is shorter than the header calls for, or
    no file does.
   */
  lemma SizeCheckExactWhen(header: seq<byte>, sizeMod: nat)
    requires sizeMod > 0 && |header| == 16 && Headed(header)
    ensures (forall body: seq<byte> :: Parse(header + body, sizeMod).Ok? <==> 16 + |body| == ExactSize(header))
            <==> FileNoWrap(header, sizeMod) && FileAllowed(header, sizeMod)
  {
    forall body: seq<byte>
      ensures Parse(header + body, sizeMod).Ok? <==> FileAllowed(header, sizeMod) && |body| == 4 * Total(FileCounts(header, sizeMod))
    {
      BodyAccepted(header, body, sizeMod);
    }
    CountsTotal(Dimension(header, 0), Dimension(header, 1), Dimension(header, 2), Dimension(header, 3), sizeMod);
    var exact: seq<byte> := seq(ExactSize(header) - 16, _ => 0);
    assert Parse(header + exact, sizeMod).Ok? <==> FileNoWrap(header, sizeMod) && FileAllowed(header, sizeMod);
  }

  // ---- round trips ----

  lemma HeaderRead(p: Params<Word>)
    requires DimensionsFit(p)
    ensures var file := Layout(p);
            Dimension(file, 0) == p.nIn && Dimension(file, 1) == p.h1 && Dimension(file, 2) == p.h2 && Dimension(file, 3) == p.nOut
  {
    var file := Layout(p);
    Int32RoundTrip(p.nIn);
    Int32RoundTrip(p.h1);
    Int32RoundTrip(p.h2);
    Int32RoundTrip(p.nOut);
    assert file[0..4] == WriteInt32(p.nIn) && file[4..8] == WriteInt32(p.h1);
    assert file[8..12] == WriteInt32(p.h2) && file[12..16] == WriteInt32(p.nOut);
  }

  /** Reading back the written layout gives the same model exactly when no array is too long and no product wraps. */
  lemma LayoutRoundTrip(p: Params<Word>, sizeMod: nat)
    requires sizeMod > 0 && DimensionsFit(p) && WellSized(p)
    ensures Parse(Layout(p), sizeMod) == Ok(p) <==>
              NoWrap(p.nIn, p.h1, p.h2, p.nOut, sizeMod) && Allowed(Sizes(Fields(p)), sizeMod)
  {
    var file := Layout(p);
    HeaderRead(p);
    assert file[16..] == Flatten(Fields(p));
    var counts := Counts(p.nIn, p.h1, p.h2, p.nOut, sizeMod);
    Wrapped(p.h1 * p.nIn, sizeMod);
    Wrapped(p.h2 * p.h1, sizeMod);
    Wrapped(p.nOut * p.h2, sizeMod);
    if NoWrap(p.nIn, p.h1, p.h2, p.nOut, sizeMod) {
      assert counts == Sizes(Fields(p));
      if Allowed(counts, sizeMod) {
        FieldsRoundTrip(Fields(p), 0, sizeMod);
      } else {
        FieldsAccepted(file[16..], counts, 0, sizeMod);
      }
    } else if Parse(file, sizeMod).Ok? {
      var q := Parse(file, sizeMod).value;
      assert |q.W1| == counts[2] && |q.W2| == counts[4] && |q.W3| == counts[6];
    }
  }

  /** Writing back what was read gives the same file. */
  lemma ParseInverse(file: seq<byte>, sizeMod: nat)
    requires sizeMod > 0 && Parse(file, sizeMod).Ok?
    ensures DimensionsFit(Parse(file, sizeMod).value) && Layout(Parse(file, sizeMod).value) == file
  {
    var p := Parse(file, sizeMod).value;
    var fs := ReadFields(file[16..], FileCounts(file, sizeMod), 0, sizeMod).value;
    FieldsInverse(file[16..], FileCounts(file, sizeMod), 0, sizeMod);
    assert Fields(p) == fs;
    Int32Inverse(file[0..4]);
    Int32Inverse(file[4..8]);
    Int32Inverse(file[8..12]);
    Int32Inverse(file[12..16]);
    assert file == file[0..4] + file[4..8] + file[8..12] + file[12..16] + file[16..];
  }

  /** A file that loads without wrap-around gives a model that inference can run on. */
  lemma LoadedIsWellSized(file: seq<byte>, sizeMod: nat)
    requires sizeMod > 0 && Parse(file, sizeMod).Ok? && FileNoWrap(file, sizeMod)
    ensures WellSized(Parse(file, sizeMod).value)
  {
    var n, h, k, m := Dimension(file, 0), Dimension(file, 1), Dimension(file, 2), Dimension(file, 3);
    var p := Parse(file, sizeMod).value;
    CountsExact(n, h, k, m, sizeMod);
    assert Sizes(Fields(p)) == Counts(n, h, k, m, sizeMod);
    assert |Fields(p)[2]| == Sizes(Fields(p))[2] && |Fields(p)[4]| == Sizes(Fields(p))[4] && |Fields(p)[6]| == Sizes(Fields(p))[6];
  }

  lemma CountsExact(nIn: nat, h1: nat, h2: nat, nOut: nat, sizeMod: nat)
    requires sizeMod > 0 && NoWrap(nIn, h1, h2, nOut, sizeMod)
    ensures Counts(nIn, h1, h2, nOut, sizeMod) == [nIn, nIn, h1 * nIn, h1, h2 * h1, h2, nOut * h2, nOut]
  {
    Wrapped(h1 * nIn, sizeMod);
    Wrapped(h2 * h1, sizeMod);
    Wrapped(nOut * h2, sizeMod);
  }

  lemma SquareBound(a: nat, b: nat, m: nat)
    requires a < m && b < m
    ensures a * b < m * m
  {
  }

  /** With a 64-bit size_t no product of two 32-bit dimensions wraps. */
  lemma NoWrapOn64Bit(file: seq<byte>)
    requires Headed(file)
    ensures FileNoWrap(file, 0x1_0000_0000_0000_0000)
  {
    SquareBound(Dimension(file, 1), Dimension(file, 0), 0x8000_0000);
    SquareBound(Dimension(file, 2), Dimension(file, 1), 0x8000_0000);
    SquareBound(Dimension(file, 3), Dimension(file, 2), 0x8000_0000);
  }

  /** Two inputs of 65536 by 65536: with a 32-bit size_t the first weight matrix is taken to be empty. */
  lemma WrapExample()
    ensures var header := WriteInt32(0x1_0000) + WriteInt32(0x1_0000) + WriteInt32(1) + WriteInt32(1);
            Headed(header) && FileAllowed(header, 0x1_0000_0000) && !FileNoWrap(header, 0x1_0000_0000)
  {
    var header := WriteInt32(0x1_0000) + WriteInt32(0x1_0000) + WriteInt32(1) + WriteInt32(1);
    Int32RoundTrip(0x1_0000);
    Int32RoundTrip(1);
    assert header[0..4] == WriteInt32(0x1_0000) && header[4..8] == WriteInt32(0x1_0000);
    assert header[8..12] == WriteInt32(1) && header[12..16] == WriteInt32(1);
    assert Dimension(header, 0) == Dimension(header, 1) == 0x1_0000;
    assert Dimension(header, 2) == Dimension(header, 3) == 1;
  }
}
