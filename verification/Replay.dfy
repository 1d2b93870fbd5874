/** The replay tool's file loop. Files are sequences of lines; number parsing is a parameter. */
module Replay {
  import opened Bytes
  import opened Vectors
  import opened Mlp
  import opened Csv
  import opened Tally
  import M = Model

  /** stof and stoi, or Python's float32 and int: nothing where they throw. */
  datatype Parsers = Parsers(number: string -> Option<real>, integer: string -> Option<int>)

  /** `names` are the feature names that the model's inputs stand for. */
  datatype Tool = Tool(params: Params<real>, names: seq<string>, normalize: bool, parsers: Parsers)

  predicate ToolOk(tool: Tool) {
    WellSized(tool.params) && |tool.names| == tool.params.nIn
  }

  /** A file either stops the program or lets it go on; what was counted and printed so far stays. */
  datatype Outcome = Halted(progress: Progress) | Done(progress: Progress)

  function FirstIndex(cols: seq<string>, name: string): (i: int)
    ensures -1 <= i < |cols|
    ensures i >= 0 ==> cols[i] == name && name !in cols[..i]
    ensures i == -1 ==> name !in cols
  {
    if cols == [] then -1
    else if cols[0] == name then 0
    else
      var i := FirstIndex(cols[1..], name);
      if i < 0 then -1 else i + 1
  }

  function Columns(cols: seq<string>, names: seq<string>): (c: seq<int>)
    ensures |c| == |names|
    ensures forall j :: 0 <= j < |names| ==> -1 <= c[j] < |cols|
  {
    seq(|names|, j requires 0 <= j < |names| => FirstIndex(cols, names[j]))
  }

  /** The numbers in the given columns, if all are there and all parse. */
  function Numbers(v: seq<string>, columns: seq<int>, parse: string -> Option<real>): (r: Option<Vector>)
    ensures r.Some? ==> |r.value| == |columns|
  {
    if forall j :: 0 <= j < |columns| ==> 0 <= columns[j] < |v| && parse(v[columns[j]]).Some? then
      Some(seq(|columns|, j requires 0 <= j < |columns| => parse(v[columns[j]]).value))
    else None
  }

  predicate Reaches(v: seq<string>, columns: seq<int>, labelCol: int) {
    labelCol < |v| && forall j :: 0 <= j < |columns| ==> columns[j] < |v|
  }

  function Prediction(tool: Tool, raw: Vector): (pred: int)
    requires ToolOk(tool) && |raw| == tool.params.nIn
    ensures 0 <= pred < tool.params.nOut
  {
    FirstMax(Logits(tool.params, if tool.normalize then Scaled(tool.params, raw) else raw))
  }

  /** The true class of a row: -1 without a label column, -2 outside 0..K-1, nothing if the cell does not parse. */
  function TrueClass(v: seq<string>, labelCol: int, parse: string -> Option<int>, K: nat): (y: Option<int>)
    requires labelCol < |v|
    ensures y.Some? ==> -2 <= y.value < K && (y.value == -1 <==> labelCol < 0)
  {
    if labelCol < 0 then Some(-1)
    else
      match parse(v[labelCol])
      case None => None
      case Some(n) => Some(if n < 0 || n >= K then -2 else n)
  }

  function ToolRow(tool: Tool, columns: seq<int>, labelCol: int, line: string, p: Progress): (q: Progress)
    requires ToolOk(tool) && IsSquare(p.counts.cm, tool.params.nOut)
    requires |columns| == |tool.names|
    ensures IsSquare(q.counts.cm, tool.params.nOut)
  {
    if Trim(line) == "" then p
    else
      var v := Cells(line);
      if !Reaches(v, columns, labelCol) then Bad(p)
      else
        var raw := Numbers(v, columns, tool.parsers.number);
        var y := TrueClass(v, labelCol, tool.parsers.integer, tool.params.nOut);
        if raw.None? || y.None? then Bad(p) else Predicted(p, y.value, Prediction(tool, raw.value), tool.params.nOut)
  }

  function ToolRows(tool: Tool, columns: seq<int>, labelCol: int, lines: seq<string>, p: Progress): (q: Progress)
    requires ToolOk(tool) && IsSquare(p.counts.cm, tool.params.nOut)
    requires |columns| == |tool.names|
    ensures IsSquare(q.counts.cm, tool.params.nOut)
    decreases |lines|
  {
    if lines == [] then p else ToolRows(tool, columns, labelCol, lines[1..], ToolRow(tool, columns, labelCol, lines[0], p))
  }

  predicate HasColumns(columns: seq<int>) {
    forall j :: 0 <= j < |columns| ==> columns[j] >= 0
  }

  /** One file: `None` cannot be opened, and neither that nor an empty file stops the tool; a missing column does. */
  function ToolFile(tool: Tool, file: Option<seq<string>>, p: Progress): (o: Outcome)
    requires ToolOk(tool) && IsSquare(p.counts.cm, tool.params.nOut)
    ensures IsSquare(o.progress.counts.cm, tool.params.nOut)
  {
    if file.None? || file.value == [] then Done(p)
    else
      var cols := Cells(file.value[0]);
      var columns := Columns(cols, tool.names);
      if !HasColumns(columns) then Halted(p)
      else Done(ToolRows(tool, columns, FirstIndex(cols, "label"), file.value[1..], p))
  }

  function ToolFiles(tool: Tool, files: seq<Option<seq<string>>>, p: Progress): (o: Outcome)
    requires ToolOk(tool) && IsSquare(p.counts.cm, tool.params.nOut)
    ensures IsSquare(o.progress.counts.cm, tool.params.nOut)
    decreases |files|
  {
    if files == [] then Done(p)
    else
      match ToolFile(tool, files[0], p)
      case Halted(q) => Halted(q)
      case Done(q) => ToolFiles(tool, files[1..], q)
  }

  // ---- the program ----

  method ColIndex(cols: seq<string>, name: string) returns (index: int)
    ensures index == FirstIndex(cols, name)
  {
    var i := 0;
    assert cols[0..] == cols;
    while i < |cols|
      invariant 0 <= i <= |cols|
      invariant FirstIndex(cols, name) == if FirstIndex(cols[i..], name) < 0 then -1 else i + FirstIndex(cols[i..], name)
    {
      assert cols[i..][1..] == cols[i + 1..];
      if cols[i] == name {
        return i;
      }
      i := i + 1;
    }
    return -1;
  }

  /** Reads the feature cells into `raw`; false where the source throws. */
  method ReadFeatures(tool: Tool, v: seq<string>, columns: array<int>, raw: array<real>) returns (ok: bool)
    requires columns.Length == raw.Length
    requires forall j :: 0 <= j < columns.Length ==> 0 <= columns[j] < |v|
    modifies raw
    ensures ok == Numbers(v, columns[..], tool.parsers.number).Some?
    ensures ok ==> raw[..] == Numbers(v, columns[..], tool.parsers.number).value
  {
    var j := 0;
    while j < columns.Length
      invariant 0 <= j <= columns.Length
      invariant forall k :: 0 <= k < j ==> tool.parsers.number(v[columns[k]]) == Some(raw[k])
    {
      var cell := tool.parsers.number(v[columns[j]]);
      if cell.None? {
        assert columns[..][j] == columns[j];
        return false;
      }
      raw[j] := cell.value;
      j := j + 1;
    }
    assert forall k :: 0 <= k < columns.Length ==> columns[..][k] == columns[k];
    return true;
  }

  /** Column `need` is the last of the columns in use. */
  predicate IsLastColumn(columns: seq<int>, labelCol: int, need: int) {
    labelCol <= need && (forall j :: 0 <= j < |columns| ==> columns[j] <= need) && (need == labelCol || need in columns)
  }

  lemma LastColumnReaches(v: seq<string>, columns: seq<int>, labelCol: int, need: int)
    requires IsLastColumn(columns, labelCol, need)
    ensures |v| > need <==> Reaches(v, columns, labelCol)
  {
  }

  method LastColumn(columns: array<int>, labelCol: int) returns (need: int)
    ensures IsLastColumn(columns[..], labelCol, need)
  {
    need := labelCol;
    var j := 0;
    while j < columns.Length
      invariant 0 <= j <= columns.Length
      invariant IsLastColumn(columns[..j], labelCol, need)
    {
      assert columns[..j + 1] == columns[..j] + [columns[j]];
      if columns[j] > need {
        need := columns[j];
      }
      j := j + 1;
    }
    assert columns[..columns.Length] == columns[..];
  }

  method ReadLabel(tool: Tool, v: seq<string>, labelCol: int) returns (y: Option<int>)
    requires labelCol < |v| && ToolOk(tool)
    ensures y == TrueClass(v, labelCol, tool.parsers.integer, tool.params.nOut)
  {
    y := Some(-1);
    if labelCol >= 0 {
      y := tool.parsers.integer(v[labelCol]);
      if y.Some? && (y.value < 0 || y.value >= tool.params.nOut) {
        y := Some(-2);
      }
    }
  }

  /** The guarded part of the loop body: a throw leaves the row bad, without an index of its own. */
  method PredictRow(tool: Tool, model: M.Model, columns: array<int>, labelCol: int, v: seq<string>,
                    raw: array<real>, x: array<real>) returns (row: Option<(int, int)>)
    requires ToolOk(tool) && model.Content() == tool.params
    requires columns.Length == raw.Length == x.Length == |tool.names| && raw != x
    requires HasColumns(columns[..]) && Reaches(v, columns[..], labelCol)
    modifies raw, x
    ensures var numbers := Numbers(v, columns[..], tool.parsers.number);
            var y := TrueClass(v, labelCol, tool.parsers.integer, tool.params.nOut);
            row == if numbers.None? || y.None? then None else Some((y.value, Prediction(tool, numbers.value)))
  {
    assert forall j :: 0 <= j < columns.Length ==> columns[..][j] == columns[j];
    var ok := ReadFeatures(tool, v, columns, raw);
    if !ok {
      return None;
    }
    var pred := Classified(tool, model, raw, x);
    var y := ReadLabel(tool, v, labelCol);
    row := if y.None? then None else Some((y.value, pred));
  }

  method ProcessRow(tool: Tool, model: M.Model, columns: array<int>, labelCol: int, line: string,
                    raw: array<real>, x: array<real>, t: Tally)
    requires ToolOk(tool) && model.Content() == tool.params && t.Valid() && t.K == tool.params.nOut
    requires columns.Length == raw.Length == x.Length == |tool.names| && raw != x
    requires HasColumns(columns[..])
    modifies raw, x, t
    ensures t.Valid() && t.View() == ToolRow(tool, columns[..], labelCol, line, old(t.View()))
  {
    if Trim(line) == "" {
      return;
    }
    var v := Split(line);
    var need := LastColumn(columns, labelCol);
    LastColumnReaches(v, columns[..], labelCol, need);
    if |v| <= need {
      t.Skip();
      return;
    }
    var row := PredictRow(tool, model, columns, labelCol, v, raw, x);
    match row {
      case None => t.Skip();
      case Some(r) => t.Record(r.0, r.1);
    }
  }

  method Classified(tool: Tool, model: M.Model, raw: array<real>, x: array<real>) returns (pred: int)
    requires ToolOk(tool) && model.Content() == tool.params
    requires raw.Length == x.Length == |tool.names| && raw != x
    modifies x
    ensures pred == Prediction(tool, old(raw[..]))
  {
    var input := raw;
    if tool.normalize {
      model.Normalize(raw, x);
      input := x;
    }
    var z;
    pred, z := model.Classify(input);
    FirstMaxUnique(z[..], pred, FirstMax(z[..]));
  }

  method ProcessFile(tool: Tool, model: M.Model, file: Option<seq<string>>, t: Tally) returns (halted: bool)
    requires ToolOk(tool) && model.Content() == tool.params && t.Valid() && t.K == tool.params.nOut
    modifies t
    ensures t.Valid()
    ensures ToolFile(tool, file, old(t.View())) == if halted then Halted(t.View()) else Done(t.View())
  {
    if file.None? || file.value == [] {
      return false;
    }
    var cols := Split(file.value[0]);
    var n := |tool.names|;
    var columns := new int[n];
    var j := 0;
    while j < n
      invariant 0 <= j <= n && t.View() == old(t.View())
      invariant forall k :: 0 <= k < j ==> columns[k] == FirstIndex(cols, tool.names[k]) && columns[k] >= 0
    {
      columns[j] := ColIndex(cols, tool.names[j]);
      if columns[j] < 0 {
        assert Columns(cols, tool.names)[j] < 0;
        return true;
      }
      j := j + 1;
    }
    assert columns[..] == Columns(cols, tool.names);
    var labelCol := ColIndex(cols, "label");
    var raw, x := new real[n], new real[n];
    ghost var lines := file.value[1..];
    var i := 1;
    while i < |file.value|
      invariant 1 <= i <= |file.value| && t.Valid() && columns[..] == Columns(cols, tool.names)
      invariant ToolRows(tool, columns[..], labelCol, file.value[i..], t.View()) == ToolRows(tool, columns[..], labelCol, lines, old(t.View()))
    {
      assert file.value[i..][0] == file.value[i] && file.value[i..][1..] == file.value[i + 1..];
      ProcessRow(tool, model, columns, labelCol, file.value[i], raw, x, t);
      i := i + 1;
    }
    return false;
  }

  method ProcessFiles(tool: Tool, model: M.Model, files: seq<Option<seq<string>>>) returns (halted: bool, t: Tally)
    requires ToolOk(tool) && model.Content() == tool.params
    ensures fresh(t) && t.Valid() && t.K == tool.params.nOut
    ensures ToolFiles(tool, files, Progress(Zero(tool.params.nOut), [])) == if halted then Halted(t.View()) else Done(t.View())
  {
    t := new Tally(tool.params.nOut);
    ghost var all := ToolFiles(tool, files, t.View());
    halted := false;
    var i := 0;
    assert files[0..] == files;
    while i < |files|
      invariant 0 <= i <= |files| && t.Valid() && fresh(t) && t.K == tool.params.nOut
      invariant ToolFiles(tool, files[i..], t.View()) == all
    {
      assert files[i..][0] == files[i] && files[i..][1..] == files[i + 1..];
      halted := ProcessFile(tool, model, files[i], t);
      if halted {
        return;
      }
      i := i + 1;
    }
  }
}
