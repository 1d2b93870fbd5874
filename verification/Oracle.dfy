/** The reference program: the same files through Python's eyes and NumPy's array expressions. */
module Oracle {
  import opened Bytes
  import opened Vectors
  import opened Mlp
  import opened Csv
  import opened Tally
  import opened Replay

  /** The dictionary from header names to columns: a repeated name keeps its last column. */
  function LastIndex(cols: seq<string>, name: string): (i: int)
    ensures -1 <= i < |cols|
    ensures i >= 0 ==> cols[i] == name
    ensures i == -1 ==> name !in cols
  {
    if cols == [] then -1
    else
      var n := |cols| - 1;
      if cols[n] == name then n else LastIndex(cols[..n], name)
  }

  function DictColumns(cols: seq<string>, names: seq<string>): (c: seq<int>)
    ensures |c| == |names|
  {
    seq(|names|, j requires 0 <= j < |names| => LastIndex(cols, names[j]))
  }

  /** clip((x - min) / denom, 0, 1), where denom is 1 for a range that is not positive. */
  function Clipped(raw: real, lo: real, hi: real): real {
    var denom := if hi - lo > 0.0 then hi - lo else 1.0;
    var q := (raw - lo) / denom;
    if q < 0.0 then 0.0 else if q > 1.0 then 1.0 else q
  }

  function ClippedAll(p: Params<real>, raw: Vector): (x: Vector)
    requires WellSized(p) && |raw| == p.nIn
    ensures |x| == p.nIn
  {
    seq(p.nIn, j requires 0 <= j < p.nIn => Clipped(raw[j], p.featureMin[j], p.featureMax[j]))
  }

  function Maximum(v: Vector): (w: Vector)
    ensures |w| == |v|
  {
    seq(|v|, i requires 0 <= i < |v| => if v[i] < 0.0 then 0.0 else v[i])
  }

  function Guess(tool: Tool, raw: Vector): (pred: int)
    requires ToolOk(tool) && |raw| == tool.params.nIn
    ensures 0 <= pred < tool.params.nOut
  {
    var p := tool.params;
    var x := if tool.normalize then ClippedAll(p, raw) else raw;
    var h := Maximum(Plus(Times(Rows(p.W1, p.h1, p.nIn), x), p.b1));
    var k := Maximum(Plus(Times(Rows(p.W2, p.h2, p.h1), h), p.b2));
    FirstMax(Plus(Times(Rows(p.W3, p.nOut, p.h2), k), p.b3))
  }

  /** The list of numbers that the row is turned into; a cell that is missing or does not parse spoils it. */
  function ListOf(v: seq<string>, columns: seq<int>, parse: string -> Option<real>): (r: Option<Vector>)
    ensures r.Some? ==> |r.value| == |columns|
  {
    if columns == [] then Some([])
    else if !(0 <= columns[0] < |v|) then None
    else
      match parse(v[columns[0]])
      case None => None
      case Some(first) =>
        match ListOf(v, columns[1..], parse)
        case None => None
        case Some(rest) => Some([first] + rest)
  }

  /** Unlike the tool, the oracle lets a written label of -1 pass for no label. */
  function Label(v: seq<string>, labelCol: int, parse: string -> Option<int>, K: nat): (y: Option<int>)
    ensures y.Some? ==> -2 <= y.value < K
  {
    if labelCol < 0 then Some(-1)
    else if labelCol >= |v| then None
    else
      match parse(v[labelCol])
      case None => None
      case Some(n) => Some(if n >= K || n < -1 then -2 else n)
  }

  /** A missing cell and a cell that does not parse are bad alike. */
  function OracleRow(tool: Tool, columns: seq<int>, labelCol: int, line: string, p: Progress): (q: Progress)
    requires ToolOk(tool) && IsSquare(p.counts.cm, tool.params.nOut)
    requires |columns| == |tool.names|
    ensures IsSquare(q.counts.cm, tool.params.nOut)
  {
    if Strip(line) == "" then p
    else
      var v := Pieces(Strip(line));
      var raw := ListOf(v, columns, tool.parsers.number);
      var y := Label(v, labelCol, tool.parsers.integer, tool.params.nOut);
      if raw.None? || y.None? then Bad(p) else Predicted(p, y.value, Guess(tool, raw.value), tool.params.nOut)
  }

  function OracleRows(tool: Tool, columns: seq<int>, labelCol: int, lines: seq<string>, p: Progress): (q: Progress)
    requires ToolOk(tool) && IsSquare(p.counts.cm, tool.params.nOut)
    requires |columns| == |tool.names|
    ensures IsSquare(q.counts.cm, tool.params.nOut)
    decreases |lines|
  {
    if lines == [] then p else OracleRows(tool, columns, labelCol, lines[1..], OracleRow(tool, columns, labelCol, lines[0], p))
  }

  /** A file that cannot be opened stops the oracle; an empty one has an empty header line. */
  function OracleFile(tool: Tool, file: Option<seq<string>>, p: Progress): (o: Outcome)
    requires ToolOk(tool) && IsSquare(p.counts.cm, tool.params.nOut)
    ensures IsSquare(o.progress.counts.cm, tool.params.nOut)
  {
    if file.None? then Halted(p)
    else
      var cols := Pieces(Strip(if file.value == [] then "" else file.value[0]));
      var columns := DictColumns(cols, tool.names);
      if !HasColumns(columns) then Halted(p)
      else Done(OracleRows(tool, columns, LastIndex(cols, "label"), if file.value == [] then [] else file.value[1..], p))
  }

  function OracleFiles(tool: Tool, files: seq<Option<seq<string>>>, p: Progress): (o: Outcome)
    requires ToolOk(tool) && IsSquare(p.counts.cm, tool.params.nOut)
    ensures IsSquare(o.progress.counts.cm, tool.params.nOut)
    decreases |files|
  {
    if files == [] then Done(p)
    else
      match OracleFile(tool, files[0], p)
      case Halted(q) => Halted(q)
      case Done(q) => OracleFiles(tool, files[1..], q)
  }

  // ---- the program's loop ----

  method RunRows(tool: Tool, columns: seq<int>, labelCol: int, lines: seq<string>, t: Tally)
    requires ToolOk(tool) && t.Valid() && t.K == tool.params.nOut && |columns| == |tool.names|
    modifies t
    ensures t.Valid() && t.View() == OracleRows(tool, columns, labelCol, lines, old(t.View()))
  {
    var i := 0;
    assert lines[0..] == lines;
    while i < |lines|
      invariant 0 <= i <= |lines| && t.Valid()
      invariant OracleRows(tool, columns, labelCol, lines[i..], t.View()) == OracleRows(tool, columns, labelCol, lines, old(t.View()))
    {
      assert lines[i..][0] == lines[i] && lines[i..][1..] == lines[i + 1..];
      var line := Strip(lines[i]);
      i := i + 1;
      if line == "" {
        continue;
      }
      var v := Pieces(line);
      var raw := ListOf(v, columns, tool.parsers.number);
      var y := Label(v, labelCol, tool.parsers.integer, tool.params.nOut);
      if raw.None? || y.None? {
        t.Skip();
        continue;
      }
      t.Record(y.value, Guess(tool, raw.value));
    }
  }
}
