/** The numbers of a loaded model, and where in the file each of them stands. */
module ModelFileValues {
  import opened Bytes
  import opened Mlp
  import opened ModelFile

  function Values(ws: seq<Word>, val: Word -> real): (v: seq<real>)
    ensures |v| == |ws|
  {
    seq(|ws|, i requires 0 <= i < |ws| => val(ws[i]))
  }

  function ParamValues(p: Params<Word>, val: Word -> real): Params<real> {
    Params(p.nIn, p.h1, p.h2, p.nOut,
           Values(p.featureMin, val), Values(p.featureMax, val),
           Values(p.W1, val), Values(p.b1, val), Values(p.W2, val), Values(p.b2, val), Values(p.W3, val), Values(p.b3, val))
  }

  // ---- the loaded numbers, by their offset in the file ----

  /** A signed 32-bit number in four bytes, least significant first. */
  predicate Int32At(n: int, file: seq<byte>, offset: nat)
    requires offset + 4 <= |file|
  {
    && -0x8000_0000 <= n < 0x8000_0000
    && (n - (file[offset] as int + 0x100 * file[offset + 1] as int + 0x1_0000 * file[offset + 2] as int + 0x100_0000 * file[offset + 3] as int))
         % 0x1_0000_0000 == 0
  }

  /** The floats in the file from this offset on, one after another. */
  predicate FloatsAt(v: seq<real>, file: seq<byte>, offset: nat, val: Word -> real) {
    && offset + 4 * |v| <= |file|
    && forall i :: 0 <= i < |v| ==> v[i] == val(file[offset + 4 * i..offset + 4 * i + 4])
  }

  /** Four positive dimensions at the front. */
  predicate HeaderFrom(p: Params<real>, file: seq<byte>) {
    && |file| >= 16
    && Int32At(p.nIn, file, 0) && Int32At(p.h1, file, 4) && Int32At(p.h2, file, 8) && Int32At(p.nOut, file, 12)
    && p.nIn > 0 && p.h1 > 0 && p.h2 > 0 && p.nOut > 0
  }

  /** The array lengths that the dimensions call for. */
  predicate SizesFrom(p: Params<real>, sizeMod: nat)
    requires sizeMod > 0
  {
    && |p.featureMin| == |p.featureMax| == p.nIn
    && |p.W1| == p.h1 * p.nIn % sizeMod && |p.b1| == p.h1
    && |p.W2| == p.h2 * p.h1 % sizeMod && |p.b2| == p.h2
    && |p.W3| == p.nOut * p.h2 % sizeMod && |p.b3| == p.nOut
  }

  /** The scaler and the first layer, one array after another. */
  predicate FirstArraysFrom(p: Params<real>, file: seq<byte>, from: nat, val: Word -> real) {
    && FloatsAt(p.featureMin, file, from, val)
    && FloatsAt(p.featureMax, file, from + 4 * |p.featureMin|, val)
    && FloatsAt(p.W1, file, from + 4 * (|p.featureMin| + |p.featureMax|), val)
    && FloatsAt(p.b1, file, from + 4 * (|p.featureMin| + |p.featureMax| + |p.W1|), val)
  }

  /** The other two layers, up to the end. */
  predicate LastArraysFrom(p: Params<real>, file: seq<byte>, from: nat, val: Word -> real) {
    && FloatsAt(p.W2, file, from, val)
    && FloatsAt(p.b2, file, from + 4 * |p.W2|, val)
    && FloatsAt(p.W3, file, from + 4 * (|p.W2| + |p.b2|), val)
    && FloatsAt(p.b3, file, from + 4 * (|p.W2| + |p.b2| + |p.W3|), val)
    && |file| == from + 4 * (|p.W2| + |p.b2| + |p.W3| + |p.b3|)
  }

  /** The eight arrays in the exporter's order after the header, and nothing behind them. */
  predicate ArraysFrom(p: Params<real>, file: seq<byte>, val: Word -> real) {
    && FirstArraysFrom(p, file, 16, val)
    && LastArraysFrom(p, file, 16 + 4 * (|p.featureMin| + |p.featureMax| + |p.W1| + |p.b1|), val)
  }

  predicate LoadedFrom(p: Params<real>, file: seq<byte>, sizeMod: nat, val: Word -> real)
    requires sizeMod > 0
  {
    HeaderFrom(p, file) && SizesFrom(p, sizeMod) && ArraysFrom(p, file, val)
  }

  lemma Int32Signed(w: Word)
    ensures Int32At(ReadInt32(w), w, 0)
  {
    var n := ReadInt32(w);
    assert n == w[0] as int + 0x100 * w[1] as int + 0x1_0000 * w[2] as int + 0x100_0000 * w[3] as int - (if w[3] >= 128 then 0x1_0000_0000 else 0);
  }

  lemma DimensionAt(file: seq<byte>, i: nat)
    requires |file| >= 16 && i < 4
    ensures Int32At(Dimension(file, i), file, 4 * i)
  {
    Int32Signed(file[4 * i..4 * i + 4]);
  }

  lemma {:induction false} WordAt(b: seq<byte>, i: nat)
    requires |b| % 4 == 0 && i < |ToWords(b)|
    ensures ToWords(b)[i] == b[4 * i..4 * i + 4]
    decreases |b|
  {
    if i > 0 {
      WordAt(b[4..], i - 1);
      assert b[4..][4 * (i - 1)..4 * (i - 1) + 4] == b[4 * i..4 * i + 4];
    }
  }

  /** One field, read where the file stands. */
  lemma FieldAt(file: seq<byte>, offset: nat, count: nat, val: Word -> real)
    requires offset + 4 * count <= |file|
    ensures var v := Values(ToWords(file[offset..][..4 * count]), val); |v| == count && FloatsAt(v, file, offset, val)
  {
    var b := file[offset..][..4 * count];
    var v := Values(ToWords(b), val);
    forall i | 0 <= i < |v|
      ensures v[i] == val(file[offset + 4 * i..offset + 4 * i + 4])
    {
      WordAt(b, i);
      assert b[4 * i..4 * i + 4] == file[offset + 4 * i..offset + 4 * i + 4];
    }
  }

  /** Where field k starts, when the fields before it have these counts. */
  function Offset(start: nat, counts: seq<nat>, k: nat): (o: nat)
    requires k <= |counts|
    ensures o >= start
  {
    if k == 0 then start else Offset(start, counts, k - 1) + 4 * counts[k - 1]
  }

  lemma {:induction false} OffsetNext(start: nat, counts: seq<nat>, k: nat)
    requires 0 < k <= |counts|
    ensures Offset(start, counts, k) == Offset(start + 4 * counts[0], counts[1..], k - 1)
    decreases k
  {
    if k > 1 {
      OffsetNext(start, counts, k - 1);
    }
  }

  /** All fields, from the first on. */
  lemma {:induction false} FieldsAt(file: seq<byte>, start: nat, counts: seq<nat>, field: nat, sizeMod: nat, val: Word -> real, k: nat)
    requires start <= |file| && ReadFields(file[start..], counts, field, sizeMod).Ok?
    ensures Offset(start, counts, |counts|) == |file|
    ensures k < |counts| ==> FloatsAt(Values(ReadFields(file[start..], counts, field, sizeMod).value[k], val), file, Offset(start, counts, k), val)
    decreases |counts|
  {
    if counts != [] {
      var next := start + 4 * counts[0];
      assert file[start..][4 * counts[0]..] == file[next..];
      FieldAt(file, start, counts[0], val);
      FieldsAt(file, next, counts[1..], field + 1, sizeMod, val, if k > 0 then k - 1 else |counts|);
      OffsetNext(start, counts, |counts|);
      if 0 < k < |counts| {
        OffsetNext(start, counts, k);
      }
    }
  }

  /** The array has this many entries and stands at this offset. */
  predicate Placed(v: seq<real>, count: nat, file: seq<byte>, offset: nat, val: Word -> real) {
    |v| == count && FloatsAt(v, file, offset, val)
  }

  /** Each array starts where the one before it ends. */
  predicate AllPlaced(fs: seq<seq<real>>, counts: seq<nat>, file: seq<byte>, at: seq<nat>, val: Word -> real) {
    && |fs| == |counts| == |at| - 1
    && forall k :: 0 <= k < |fs| ==> at[k + 1] == at[k] + 4 * counts[k] && Placed(fs[k], counts[k], file, at[k], val)
  }

  lemma FirstPlaced(file: seq<byte>, p: Params<real>, counts: seq<nat>, at: seq<nat>, val: Word -> real)
    requires AllPlaced(Fields(p), counts, file, at, val)
    ensures FirstArraysFrom(p, file, at[0], val)
    ensures at[4] == at[0] + 4 * (|p.featureMin| + |p.featureMax| + |p.W1| + |p.b1|)
  {
    var fs := Fields(p);
    assert Placed(fs[0], counts[0], file, at[0], val) && at[1] == at[0] + 4 * counts[0];
    assert Placed(fs[1], counts[1], file, at[1], val) && at[2] == at[1] + 4 * counts[1];
    assert Placed(fs[2], counts[2], file, at[2], val) && at[3] == at[2] + 4 * counts[2];
    assert Placed(fs[3], counts[3], file, at[3], val) && at[4] == at[3] + 4 * counts[3];
  }

  lemma LastPlaced(file: seq<byte>, p: Params<real>, counts: seq<nat>, at: seq<nat>, val: Word -> real)
    requires AllPlaced(Fields(p), counts, file, at, val) && at[|counts|] == |file|
    ensures LastArraysFrom(p, file, at[4], val)
  {
    var fs := Fields(p);
    assert Placed(fs[4], counts[4], file, at[4], val) && at[5] == at[4] + 4 * counts[4];
    assert Placed(fs[5], counts[5], file, at[5], val) && at[6] == at[5] + 4 * counts[5];
    assert Placed(fs[6], counts[6], file, at[6], val) && at[7] == at[6] + 4 * counts[6];
    assert Placed(fs[7], counts[7], file, at[7], val) && at[8] == at[7] + 4 * counts[7];
  }

  lemma FieldRead(file: seq<byte>, p: Params<Word>, counts: seq<nat>, sizeMod: nat, val: Word -> real, k: nat)
    requires |file| >= 16 && |counts| == 8 && ReadFields(file[16..], counts, 0, sizeMod) == Ok(Fields(p)) && k < 8
    ensures Placed(Fields(ParamValues(p, val))[k], counts[k], file, Offset(16, counts, k), val)
  {
    FieldsAt(file, 16, counts, 0, sizeMod, val, k);
    assert Fields(ParamValues(p, val))[k] == Values(Fields(p)[k], val);
  }

  function Offsets(counts: seq<nat>): (at: seq<nat>)
    ensures |at| == |counts| + 1
  {
    seq(|counts| + 1, k requires 0 <= k < |counts| + 1 => Offset(16, counts, k))
  }

  lemma FieldsPlaced(file: seq<byte>, p: Params<Word>, counts: seq<nat>, sizeMod: nat, val: Word -> real)
    requires |file| >= 16 && |counts| == 8 && ReadFields(file[16..], counts, 0, sizeMod) == Ok(Fields(p))
    ensures AllPlaced(Fields(ParamValues(p, val)), counts, file, Offsets(counts), val)
  {
    forall k: nat | k < 8
      ensures Offsets(counts)[k + 1] == Offsets(counts)[k] + 4 * counts[k]
      ensures Placed(Fields(ParamValues(p, val))[k], counts[k], file, Offsets(counts)[k], val)
    {
      FieldRead(file, p, counts, sizeMod, val, k);
    }
  }

  lemma OffsetsEnds(file: seq<byte>, counts: seq<nat>, sizeMod: nat, val: Word -> real)
    requires |file| >= 16 && ReadFields(file[16..], counts, 0, sizeMod).Ok?
    ensures Offsets(counts)[0] == 16 && Offsets(counts)[|counts|] == |file|
  {
    FieldsAt(file, 16, counts, 0, sizeMod, val, |counts|);
  }

  /** Eight fields read one after another are the eight arrays at their places. */
  lemma ArraysRead(file: seq<byte>, p: Params<Word>, counts: seq<nat>, sizeMod: nat, val: Word -> real)
    requires |file| >= 16 && |counts| == 8 && ReadFields(file[16..], counts, 0, sizeMod) == Ok(Fields(p))
    ensures ArraysFrom(ParamValues(p, val), file, val)
  {
    FieldsPlaced(file, p, counts, sizeMod, val);
    OffsetsEnds(file, counts, sizeMod, val);
    PlacedArrays(file, ParamValues(p, val), counts, Offsets(counts), val);
  }

  lemma PlacedArrays(file: seq<byte>, p: Params<real>, counts: seq<nat>, at: seq<nat>, val: Word -> real)
    requires AllPlaced(Fields(p), counts, file, at, val) && at[0] == 16 && at[|counts|] == |file|
    ensures ArraysFrom(p, file, val)
  {
    FirstPlaced(file, p, counts, at, val);
    LastPlaced(file, p, counts, at, val);
  }

  /** Every number of a parsed file stands where the exporter put it. */
  lemma ParsedFrom(file: seq<byte>, sizeMod: nat, val: Word -> real)
    requires sizeMod > 0 && Parse(file, sizeMod).Ok?
    ensures LoadedFrom(ParamValues(Parse(file, sizeMod).value, val), file, sizeMod, val)
  {
    var p := Parse(file, sizeMod).value;
    DimensionAt(file, 0);
    DimensionAt(file, 1);
    DimensionAt(file, 2);
    DimensionAt(file, 3);
    var counts := FileCounts(file, sizeMod);
    assert ReadFields(file[16..], counts, 0, sizeMod).value == Fields(p);
    ArraysRead(file, p, counts, sizeMod, val);
  }
}
