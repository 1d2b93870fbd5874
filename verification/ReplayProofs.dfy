/** The replay tool and the oracle print the same stream, and the exact conditions under which they do. */
module ReplayProofs {
  import opened Bytes
  import opened Vectors
  import opened Mlp
  import opened Csv
  import opened Tally
  import opened Replay
  import opened Oracle

  // ---- predictions ----

  /** The two scalers agree on a feature exactly when its range is positive or the value is not above it. */
  lemma ScalersAgree(raw: real, lo: real, hi: real)
    ensures Scale(raw, lo, hi) == Clipped(raw, lo, hi) <==> lo < hi || raw <= lo
  {
  }

  /** The oracle's array expressions are the layers of the model. */
  lemma MaximumIsRelu(v: Vector)
    ensures Maximum(v) == Relu(v)
  {
  }

  predicate ScalerAgrees(p: Params<real>, raw: Vector)
    requires WellSized(p) && |raw| == p.nIn
  {
    forall j :: 0 <= j < p.nIn ==> p.featureMin[j] < p.featureMax[j] || raw[j] <= p.featureMin[j]
  }

  lemma ScaledInputsAgree(p: Params<real>, raw: Vector)
    requires WellSized(p) && |raw| == p.nIn
    ensures Scaled(p, raw) == ClippedAll(p, raw) <==> ScalerAgrees(p, raw)
  {
    forall j | 0 <= j < p.nIn
      ensures Scaled(p, raw)[j] == ClippedAll(p, raw)[j] <==> p.featureMin[j] < p.featureMax[j] || raw[j] <= p.featureMin[j]
    {
      ScalersAgree(raw[j], p.featureMin[j], p.featureMax[j]);
    }
  }

  lemma SameInputSameGuess(tool: Tool, raw: Vector)
    requires ToolOk(tool) && |raw| == tool.params.nIn
    requires tool.normalize ==> Scaled(tool.params, raw) == ClippedAll(tool.params, raw)
    ensures Guess(tool, raw) == Prediction(tool, raw)
  {
    var p := tool.params;
    var x := if tool.normalize then ClippedAll(p, raw) else raw;
    var h := Layer(p.W1, p.b1, x);
    MaximumIsRelu(h);
    MaximumIsRelu(Layer(p.W2, p.b2, Relu(h)));
  }

  lemma GuessIsPrediction(tool: Tool, raw: Vector)
    requires ToolOk(tool) && |raw| == tool.params.nIn
    requires tool.normalize ==> ScalerAgrees(tool.params, raw)
    ensures Guess(tool, raw) == Prediction(tool, raw)
  {
    if tool.normalize {
      ScaledInputsAgree(tool.params, raw);
    }
    SameInputSameGuess(tool, raw);
  }

  // ---- rows ----

  /** The oracle's list and the tool's array hold the same numbers, or neither can be made. */
  lemma {:induction false} ListIsNumbers(v: seq<string>, columns: seq<int>, parse: string -> Option<real>)
    ensures ListOf(v, columns, parse) == Numbers(v, columns, parse)
  {
    if columns != [] {
      ListIsNumbers(v, columns[1..], parse);
      var all, rest := Numbers(v, columns, parse), Numbers(v, columns[1..], parse);
      if rest.Some? && 0 <= columns[0] < |v| && parse(v[columns[0]]).Some? {
        assert all.Some?;
        assert all.value == [parse(v[columns[0]]).value] + rest.value;
      } else if rest.None? {
        var j :| 0 <= j < |columns| - 1 && !(0 <= columns[1..][j] < |v| && parse(v[columns[1..][j]]).Some?);
        assert columns[1..][j] == columns[j + 1];
      }
    }
  }

  /** What the two programs must not disagree about in a row's cells. */
  predicate RowAgrees(tool: Tool, columns: seq<int>, labelCol: int, cells: seq<string>)
    requires ToolOk(tool) && |columns| == |tool.names|
  {
    var raw := Numbers(cells, columns, tool.parsers.number);
    && (0 <= labelCol < |cells| ==> tool.parsers.integer(cells[labelCol]) != Some(-1))
    && (tool.normalize && raw.Some? ==> ScalerAgrees(tool.params, raw.value))
  }

  lemma SameRow(tool: Tool, columns: seq<int>, labelCol: int, line: string, left: string, cells: seq<string>, right: string, p: Progress)
    requires ToolOk(tool) && IsSquare(p.counts.cm, tool.params.nOut) && |columns| == |tool.names|
    requires IsRow(line, left, cells, right) && RowAgrees(tool, columns, labelCol, cells)
    ensures ToolRow(tool, columns, labelCol, line, p) == OracleRow(tool, columns, labelCol, line, p)
  {
    SameCells(line, left, cells, right);
    ListIsNumbers(cells, columns, tool.parsers.number);
    var raw := Numbers(cells, columns, tool.parsers.number);
    if raw.Some? {
      GuessIsPrediction(tool, raw.value);
    }
  }

  /** For a row that both programs predict alike, they agree exactly when its label is not written as -1. */
  lemma SameRowWhen(tool: Tool, columns: seq<int>, labelCol: int, line: string, left: string, cells: seq<string>, right: string, p: Progress)
    requires ToolOk(tool) && IsSquare(p.counts.cm, tool.params.nOut) && |columns| == |tool.names|
    requires IsRow(line, left, cells, right) && Reaches(cells, columns, labelCol)
    requires Numbers(cells, columns, tool.parsers.number).Some?
    requires tool.normalize ==> ScalerAgrees(tool.params, Numbers(cells, columns, tool.parsers.number).value)
    ensures ToolRow(tool, columns, labelCol, line, p) == OracleRow(tool, columns, labelCol, line, p)
            <==> labelCol < 0 || tool.parsers.integer(cells[labelCol]) != Some(-1)
  {
    SameCells(line, left, cells, right);
    ListIsNumbers(cells, columns, tool.parsers.number);
    var raw := Numbers(cells, columns, tool.parsers.number).value;
    GuessIsPrediction(tool, raw);
    if labelCol >= 0 && tool.parsers.integer(cells[labelCol]) == Some(-1) {
      var a := Predicted(p, -2, Prediction(tool, raw), tool.params.nOut);
      var b := Predicted(p, -1, Prediction(tool, raw), tool.params.nOut);
      assert a.counts.bad == p.counts.bad + 1 && b.counts.bad == p.counts.bad;
    }
  }

  ghost predicate LineAgrees(tool: Tool, columns: seq<int>, labelCol: int, line: string)
    requires ToolOk(tool) && |columns| == |tool.names|
  {
    AllBlank(line) || exists left, cells, right :: IsRow(line, left, cells, right) && RowAgrees(tool, columns, labelCol, cells)
  }

  lemma SameLine(tool: Tool, columns: seq<int>, labelCol: int, line: string, p: Progress)
    requires ToolOk(tool) && IsSquare(p.counts.cm, tool.params.nOut) && |columns| == |tool.names|
    requires LineAgrees(tool, columns, labelCol, line)
    ensures ToolRow(tool, columns, labelCol, line, p) == OracleRow(tool, columns, labelCol, line, p)
  {
    if AllBlank(line) {
      BlankForBoth(line);
    } else {
      var left, cells, right :| IsRow(line, left, cells, right) && RowAgrees(tool, columns, labelCol, cells);
      SameRow(tool, columns, labelCol, line, left, cells, right, p);
    }
  }

  lemma {:induction false} SameRows(tool: Tool, columns: seq<int>, labelCol: int, lines: seq<string>, p: Progress)
    requires ToolOk(tool) && IsSquare(p.counts.cm, tool.params.nOut) && |columns| == |tool.names|
    requires forall i :: 0 <= i < |lines| ==> LineAgrees(tool, columns, labelCol, lines[i])
    ensures ToolRows(tool, columns, labelCol, lines, p) == OracleRows(tool, columns, labelCol, lines, p)
    decreases |lines|
  {
    if lines != [] {
      SameLine(tool, columns, labelCol, lines[0], p);
      SameRows(tool, columns, labelCol, lines[1..], ToolRow(tool, columns, labelCol, lines[0], p));
    }
  }

  // ---- files ----

  predicate DistinctCells(cells: seq<string>) {
    forall i, j :: 0 <= i < j < |cells| ==> cells[i] != cells[j]
  }

  lemma IndexUnique(cols: seq<string>, name: string)
    requires DistinctCells(cols)
    ensures FirstIndex(cols, name) == LastIndex(cols, name)
  {
  }

  /** A readable file with a header of distinct names, and lines that the programs read alike. */
  ghost predicate FileAgrees(tool: Tool, file: Option<seq<string>>)
    requires ToolOk(tool)
  {
    && file.Some? && file.value != []
    && (exists left, cells, right :: IsRow(file.value[0], left, cells, right) && DistinctCells(cells))
    && var cols := Cells(file.value[0]);
       forall i :: 1 <= i < |file.value| ==> LineAgrees(tool, Columns(cols, tool.names), FirstIndex(cols, "label"), file.value[i])
  }

  lemma SameFile(tool: Tool, file: Option<seq<string>>, p: Progress)
    requires ToolOk(tool) && IsSquare(p.counts.cm, tool.params.nOut) && FileAgrees(tool, file)
    ensures ToolFile(tool, file, p) == OracleFile(tool, file, p)
  {
    var header, lines := file.value[0], file.value[1..];
    var left, cells, right :| IsRow(header, left, cells, right) && DistinctCells(cells);
    SameCells(header, left, cells, right);
    forall j | 0 <= j < |tool.names|
      ensures Columns(cells, tool.names)[j] == DictColumns(cells, tool.names)[j]
    {
      IndexUnique(cells, tool.names[j]);
    }
    assert Columns(cells, tool.names) == DictColumns(cells, tool.names);
    IndexUnique(cells, "label");
    SameRows(tool, Columns(cells, tool.names), FirstIndex(cells, "label"), lines, p);
  }

  /** Over any list of such files the two programs print the same stream and end with the same counts, whether or not both stop on the way. */
  lemma {:induction false} SameStream(tool: Tool, files: seq<Option<seq<string>>>, p: Progress)
    requires ToolOk(tool) && IsSquare(p.counts.cm, tool.params.nOut)
    requires forall i :: 0 <= i < |files| ==> FileAgrees(tool, files[i])
    ensures ToolFiles(tool, files, p) == OracleFiles(tool, files, p)
    decreases |files|
  {
    if files != [] {
      SameFile(tool, files[0], p);
      match ToolFile(tool, files[0], p)
      case Halted(q) =>
      case Done(q) => SameStream(tool, files[1..], q);
    }
  }

  // ---- where they differ ----

  /** An empty or unreadable file is skipped by the tool and stops the oracle. */
  lemma EmptyFileDiffers(tool: Tool, p: Progress)
    requires ToolOk(tool) && IsSquare(p.counts.cm, tool.params.nOut) && "" !in tool.names
    ensures ToolFile(tool, Some([]), p) == Done(p) && OracleFile(tool, Some([]), p) == Halted(p)
    ensures ToolFile(tool, None, p) == Done(p) && OracleFile(tool, None, p) == Halted(p)
  {
    assert Strip("") == "" && Pieces("") == [""];
    assert tool.names[0] in tool.names;
    assert LastIndex([""], tool.names[0]) == -1;
    assert DictColumns([""], tool.names)[0] == -1;
  }

  /** One input, one unit per layer, two classes, and a scaler whose range is empty. */
  const DEGENERATE := Tool(Params(1, 1, 1, 2, [0.0], [0.0], [1.0], [0.0], [1.0], [0.0], [0.0, 1.0], [0.5, 0.0]),
                           ["x"], true, Parsers(cell => if cell == "1" then Some(1.0) else None, _ => None))

  lemma DotOne(a: real, b: real)
    ensures Dot([a], [b]) == a * b
  {
  }

  lemma OneUnit(w: real, bias: real, x: real)
    ensures Layer([w], [bias], [x]) == [w * x + bias]
  {
    DotOne(w, x);
    assert Rows([w], 1, 1)[0] == [w];
  }

  lemma TwoUnits(a: real, b: real, u: real, v: real, x: real)
    ensures Layer([a, b], [u, v], [x]) == [a * x + u, b * x + v]
  {
    DotOne(a, x);
    DotOne(b, x);
    assert Rows([a, b], 2, 1)[0] == [a] && Rows([a, b], 2, 1)[1] == [b];
  }

  lemma DegenerateLogits(x: real)
    requires x >= 0.0
    ensures Logits(DEGENERATE.params, [x]) == [0.5, x]
  {
    OneUnit(1.0, 0.0, x);
    assert Relu([x]) == [x];
    TwoUnits(0.0, 1.0, 0.5, 0.0, x);
  }

  /** On an empty range the two programs can predict different classes. */
  lemma DegenerateRangeDiffers()
    ensures ToolOk(DEGENERATE)
    ensures Prediction(DEGENERATE, [1.0]) == 0 && Guess(DEGENERATE, [1.0]) == 1
  {
    var p := DEGENERATE.params;
    assert Scaled(p, [1.0]) == [0.0];
    assert (1.0 - 0.0) / 1.0 == 1.0;
    assert ClippedAll(p, [1.0]) == [1.0];
    DegenerateLogits(0.0);
    DegenerateLogits(1.0);
    FirstMaxUnique([0.5, 0.0], FirstMax([0.5, 0.0]), 0);
    FirstMaxUnique([0.5, 1.0], FirstMax([0.5, 1.0]), 1);
    MaximumIsRelu(Layer(p.W1, p.b1, [1.0]));
    MaximumIsRelu(Layer(p.W2, p.b2, Relu(Layer(p.W1, p.b1, [1.0]))));
  }

  lemma PredictedApart(p: Progress, a: int, b: int, K: nat)
    requires IsSquare(p.counts.cm, K) && 0 <= a < K && 0 <= b < K
    ensures Predicted(p, -1, a, K) == Predicted(p, -1, b, K) <==> a == b
  {
    assert Predicted(p, -1, a, K).dumped[|p.dumped|].pred == a;
    assert Predicted(p, -1, b, K).dumped[|p.dumped|].pred == b;
  }

  /** On a row without a label the programs record the same exactly when they predict the same. */
  lemma UnlabelledRowWhen(tool: Tool, columns: seq<int>, line: string, left: string, cells: seq<string>, right: string, p: Progress)
    requires ToolOk(tool) && IsSquare(p.counts.cm, tool.params.nOut) && |columns| == |tool.names|
    requires IsRow(line, left, cells, right) && Numbers(cells, columns, tool.parsers.number).Some?
    ensures ToolRow(tool, columns, -1, line, p) == OracleRow(tool, columns, -1, line, p)
            <==> var raw := Numbers(cells, columns, tool.parsers.number).value; Prediction(tool, raw) == Guess(tool, raw)
  {
    SameCells(line, left, cells, right);
    ListIsNumbers(cells, columns, tool.parsers.number);
    var raw := Numbers(cells, columns, tool.parsers.number).value;
    PredictedApart(p, Prediction(tool, raw), Guess(tool, raw), tool.params.nOut);
  }

  lemma DegenerateNumbers()
    ensures Numbers(["1"], [0], DEGENERATE.parsers.number) == Some([1.0])
    ensures IsRow("1", "", ["1"], "") && IsRow("x", "", ["x"], "")
  {
    var raw := Numbers(["1"], [0], DEGENERATE.parsers.number);
    assert DEGENERATE.parsers.number("1") == Some(1.0);
    assert raw.Some? && raw.value == [1.0];
    assert "" + Joined(["1"]) + "" == "1" && "" + Joined(["x"]) + "" == "x";
  }

  /** So they record different predictions for a row that both can read. */
  lemma DegenerateRowDiffers(p: Progress)
    requires IsSquare(p.counts.cm, 2)
    ensures ToolOk(DEGENERATE) && ToolRow(DEGENERATE, [0], -1, "1", p) != OracleRow(DEGENERATE, [0], -1, "1", p)
  {
    DegenerateNumbers();
    UnlabelledRowWhen(DEGENERATE, [0], "1", "", ["1"], "", p);
    DegenerateRangeDiffers();
  }

  /** A file of a header with no label and one row. */
  lemma OneRowFile(tool: Tool, header: string, names: seq<string>, line: string, columns: seq<int>, p: Progress)
    requires ToolOk(tool) && IsSquare(p.counts.cm, tool.params.nOut)
    requires IsRow(header, "", names, "") && DistinctCells(names) && "label" !in names
    requires columns == Columns(names, tool.names) && HasColumns(columns)
    ensures ToolFile(tool, Some([header, line]), p) == Done(ToolRow(tool, columns, -1, line, p))
    ensures OracleFile(tool, Some([header, line]), p) == Done(OracleRow(tool, columns, -1, line, p))
  {
    SameCells(header, "", names, "");
    forall j | 0 <= j < |tool.names|
      ensures Columns(names, tool.names)[j] == DictColumns(names, tool.names)[j]
    {
      IndexUnique(names, tool.names[j]);
    }
    assert columns == DictColumns(names, tool.names);
    IndexUnique(names, "label");
    assert FirstIndex(names, "label") == -1;
    OneLine(tool, columns, header, line, p);
  }

  lemma OneLine(tool: Tool, columns: seq<int>, header: string, line: string, p: Progress)
    requires ToolOk(tool) && IsSquare(p.counts.cm, tool.params.nOut) && |columns| == |tool.names|
    ensures ToolRows(tool, columns, -1, [header, line][1..], p) == ToolRow(tool, columns, -1, line, p)
    ensures OracleRows(tool, columns, -1, [header, line][1..], p) == OracleRow(tool, columns, -1, line, p)
  {
    assert [header, line][1..] == [line] && [line][1..] == [];
  }

  lemma DegenerateColumns()
    ensures Columns(["x"], DEGENERATE.names) == [0] && HasColumns([0]) && DistinctCells(["x"]) && "label" !in ["x"]
  {
  }

  /** And print different streams for a file with a header and that row. */
  lemma DegenerateFileDiffers(p: Progress)
    requires IsSquare(p.counts.cm, 2)
    ensures ToolOk(DEGENERATE)
    ensures ToolFile(DEGENERATE, Some(["x", "1"]), p) != OracleFile(DEGENERATE, Some(["x", "1"]), p)
  {
    DegenerateColumns();
    DegenerateNumbers();
    DegenerateRowDiffers(p);
    OneRowFile(DEGENERATE, "x", ["x"], "1", [0], p);
  }
}
