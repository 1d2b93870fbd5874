/** What a replay prints and counts, in terms of header names, cells and the rows dumped. */
module ReplayMeaning {
  import opened Bytes
  import opened Vectors
  import opened Mlp
  import opened Csv
  import opened Tally
  import opened Replay
  import P = ReplayProofs

  // ---- one row ----

  /** What a line says: nothing, nothing that can be used, or a feature vector and its true class. */
  datatype Reading = Blank | Unusable | Row(x: Vector, truth: int)

  /** The cell under column c is there and is a number. */
  predicate HasNumber(tool: Tool, cells: seq<string>, c: nat) {
    c < |cells| && tool.parsers.number(cells[c]).Some?
  }

  predicate HasLabel(tool: Tool, cells: seq<string>, c: nat) {
    c < |cells| && tool.parsers.integer(cells[c]).Some?
  }

  /** Feature j is the number in the cell whose column is headed by the feature's name. */
  predicate IsVector(tool: Tool, header: seq<string>, cells: seq<string>, x: Vector) {
    && |x| == |tool.names|
    && forall j, c :: 0 <= j < |x| && 0 <= c < |header| && header[c] == tool.names[j] ==>
         HasNumber(tool, cells, c) && tool.parsers.number(cells[c]) == Some(x[j])
  }

  /** The class in the column headed "label": -2 if there is no such class, -1 without that column. */
  predicate IsTruth(tool: Tool, header: seq<string>, cells: seq<string>, truth: int) {
    && ("label" !in header ==> truth == -1)
    && forall c :: 0 <= c < |header| && header[c] == "label" ==>
         && HasLabel(tool, cells, c)
         && var n := tool.parsers.integer(cells[c]).value; truth == if 0 <= n < tool.params.nOut then n else -2
  }

  /** A cell that the row needs is missing or cannot be read. */
  predicate LacksCell(tool: Tool, header: seq<string>, cells: seq<string>) {
    exists c :: 0 <= c < |header| &&
      ((header[c] in tool.names && !HasNumber(tool, cells, c)) || (header[c] == "label" && !HasLabel(tool, cells, c)))
  }

  ghost predicate Says(tool: Tool, header: seq<string>, line: string, r: Reading) {
    match r
    case Blank => AllBlank(line)
    case Unusable => exists left, cells, right :: IsRow(line, left, cells, right) && LacksCell(tool, header, cells)
    case Row(x, truth) =>
      exists left, cells, right :: IsRow(line, left, cells, right) && IsVector(tool, header, cells, x) && IsTruth(tool, header, cells, truth)
  }

  /** The class of the first largest logit of the vector, scaled if the tool is told to. */
  predicate IsPrediction(tool: Tool, x: Vector, pred: int)
    requires ToolOk(tool)
  {
    && |x| == tool.params.nIn
    && IsFirstMax(Logits(tool.params, if tool.normalize then Scaled(tool.params, x) else x), pred)
  }

  /** The row is dumped, and counted in the one way its true class calls for. */
  predicate RecordsRow(tool: Tool, x: Vector, truth: int, p: Progress, q: Progress)
    requires ToolOk(tool)
  {
    && q.counts.gidx == p.counts.gidx + 1
    && |q.dumped| == |p.dumped| + 1 && q.dumped[..|p.dumped|] == p.dumped
    && var d := q.dumped[|p.dumped|];
       && d.index == p.counts.gidx + 1 && d.truth == truth && IsPrediction(tool, x, d.pred)
       && q.counts.unlabeled == p.counts.unlabeled + (if truth == -1 then 1 else 0)
       && q.counts.bad == p.counts.bad + (if truth == -2 then 1 else 0)
       && q.counts.total == p.counts.total + (if truth >= 0 then 1 else 0)
       && q.counts.correct == p.counts.correct + (if truth == d.pred then 1 else 0)
  }

  predicate Records(tool: Tool, r: Reading, p: Progress, q: Progress)
    requires ToolOk(tool)
  {
    match r
    case Blank => q == p
    case Unusable => q == p.(counts := p.counts.(bad := p.counts.bad + 1))
    case Row(x, truth) => RecordsRow(tool, x, truth, p, q)
  }

  lemma IndexOf(header: seq<string>, name: string, c: nat)
    requires P.DistinctCells(header) && c < |header| && header[c] == name
    ensures FirstIndex(header, name) == c
  {
    var i := FirstIndex(header, name);
    assert header[i] == header[c];
  }

  /** The columns found by name are the columns that the header gives. */
  predicate ColumnsFit(tool: Tool, header: seq<string>, columns: seq<int>) {
    |columns| == |tool.names| && forall j :: 0 <= j < |columns| ==> 0 <= columns[j] < |header| && header[columns[j]] == tool.names[j]
  }

  lemma VectorRead(tool: Tool, header: seq<string>, columns: seq<int>, cells: seq<string>, x: Vector)
    requires ColumnsFit(tool, header, columns) && IsVector(tool, header, cells, x)
    ensures Numbers(cells, columns, tool.parsers.number) == Some(x)
  {
    forall j | 0 <= j < |columns|
      ensures 0 <= columns[j] < |cells| && tool.parsers.number(cells[columns[j]]) == Some(x[j])
    {
      assert header[columns[j]] == tool.names[j];
      assert HasNumber(tool, cells, columns[j]);
    }
    assert Numbers(cells, columns, tool.parsers.number).value == x;
  }

  lemma TruthRead(tool: Tool, header: seq<string>, cells: seq<string>, truth: int)
    requires ToolOk(tool) && IsTruth(tool, header, cells, truth)
    ensures var labelCol := FirstIndex(header, "label");
            labelCol < |cells| && TrueClass(cells, labelCol, tool.parsers.integer, tool.params.nOut) == Some(truth)
  {
    var labelCol := FirstIndex(header, "label");
    if labelCol >= 0 {
      assert HasLabel(tool, cells, labelCol);
    }
  }

  /** A row of numbers under their names is predicted from exactly those numbers. */
  lemma RowRecorded(tool: Tool, header: seq<string>, columns: seq<int>, line: string, left: string, cells: seq<string>, right: string,
                    x: Vector, truth: int, p: Progress)
    requires ToolOk(tool) && IsSquare(p.counts.cm, tool.params.nOut) && ColumnsFit(tool, header, columns)
    requires IsRow(line, left, cells, right) && IsVector(tool, header, cells, x) && IsTruth(tool, header, cells, truth)
    ensures RecordsRow(tool, x, truth, p, ToolRow(tool, columns, FirstIndex(header, "label"), line, p))
  {
    SameCells(line, left, cells, right);
    VectorRead(tool, header, columns, cells, x);
    TruthRead(tool, header, cells, truth);
  }

  lemma MissingNumber(tool: Tool, columns: seq<int>, cells: seq<string>, j: nat)
    requires j < |columns| && 0 <= columns[j] && !HasNumber(tool, cells, columns[j])
    ensures Numbers(cells, columns, tool.parsers.number) == None
  {
  }

  lemma MissingLabel(tool: Tool, header: seq<string>, cells: seq<string>, c: nat)
    requires ToolOk(tool) && FirstIndex(header, "label") == c && !HasLabel(tool, cells, c)
    ensures c >= |cells| || TrueClass(cells, c, tool.parsers.integer, tool.params.nOut) == None
  {
  }

  /** A row that is too short or whose numbers or label cannot be read. */
  predicate Spoilt(tool: Tool, columns: seq<int>, labelCol: int, cells: seq<string>)
    requires ToolOk(tool)
  {
    || labelCol >= |cells|
    || Numbers(cells, columns, tool.parsers.number) == None
    || TrueClass(cells, labelCol, tool.parsers.integer, tool.params.nOut) == None
  }

  lemma LackSpoils(tool: Tool, header: seq<string>, cells: seq<string>)
    requires ToolOk(tool) && P.DistinctCells(header) && LacksCell(tool, header, cells)
    ensures Spoilt(tool, Columns(header, tool.names), FirstIndex(header, "label"), cells)
  {
    var c :| 0 <= c < |header| &&
      ((header[c] in tool.names && !HasNumber(tool, cells, c)) || (header[c] == "label" && !HasLabel(tool, cells, c)));
    if header[c] in tool.names && !HasNumber(tool, cells, c) {
      var j :| 0 <= j < |tool.names| && tool.names[j] == header[c];
      IndexOf(header, tool.names[j], c);
      assert Columns(header, tool.names)[j] == c;
      MissingNumber(tool, Columns(header, tool.names), cells, j);
    } else {
      IndexOf(header, "label", c);
      MissingLabel(tool, header, cells, c);
    }
  }

  lemma SpoiltRow(tool: Tool, columns: seq<int>, labelCol: int, line: string, left: string, cells: seq<string>, right: string, p: Progress)
    requires ToolOk(tool) && IsSquare(p.counts.cm, tool.params.nOut) && |columns| == |tool.names|
    requires IsRow(line, left, cells, right) && Spoilt(tool, columns, labelCol, cells)
    ensures ToolRow(tool, columns, labelCol, line, p) == p.(counts := p.counts.(bad := p.counts.bad + 1))
  {
    SameCells(line, left, cells, right);
  }

  lemma LineRecorded(tool: Tool, header: seq<string>, columns: seq<int>, line: string, r: Reading, p: Progress)
    requires ToolOk(tool) && IsSquare(p.counts.cm, tool.params.nOut)
    requires P.DistinctCells(header) && columns == Columns(header, tool.names) && ColumnsFit(tool, header, columns)
    requires Says(tool, header, line, r)
    ensures Records(tool, r, p, ToolRow(tool, columns, FirstIndex(header, "label"), line, p))
  {
    match r
    case Blank =>
      BlankForBoth(line);
    case Unusable =>
      var left, cells, right :| IsRow(line, left, cells, right) && LacksCell(tool, header, cells);
      LackSpoils(tool, header, cells);
      SpoiltRow(tool, columns, FirstIndex(header, "label"), line, left, cells, right, p);
    case Row(x, truth) =>
      var left, cells, right :| IsRow(line, left, cells, right) && IsVector(tool, header, cells, x) && IsTruth(tool, header, cells, truth);
      RowRecorded(tool, header, columns, line, left, cells, right, x, truth, p);
  }

  // ---- a file ----

  /** From p, the readings recorded one after another lead to q. */
  ghost predicate RecordsAll(tool: Tool, rs: seq<Reading>, p: Progress, q: Progress)
    requires ToolOk(tool)
  {
    if rs == [] then q == p
    else exists via :: Records(tool, rs[0], p, via) && RecordsAll(tool, rs[1..], via, q)
  }

  lemma {:induction false} LinesRecorded(tool: Tool, header: seq<string>, columns: seq<int>, lines: seq<string>, rs: seq<Reading>, p: Progress)
    requires ToolOk(tool) && IsSquare(p.counts.cm, tool.params.nOut)
    requires P.DistinctCells(header) && columns == Columns(header, tool.names) && ColumnsFit(tool, header, columns)
    requires |rs| == |lines| && forall i :: 0 <= i < |lines| ==> Says(tool, header, lines[i], rs[i])
    ensures RecordsAll(tool, rs, p, ToolRows(tool, columns, FirstIndex(header, "label"), lines, p))
    decreases |lines|
  {
    if lines != [] {
      var via := ToolRow(tool, columns, FirstIndex(header, "label"), lines[0], p);
      LineRecorded(tool, header, columns, lines[0], rs[0], p);
      LinesRecorded(tool, header, columns, lines[1..], rs[1..], via);
    }
  }

  /** A file is read by its header: what each line says, by name, is what is recorded of it, in order. */
  lemma FileRecorded(tool: Tool, line: string, left: string, header: seq<string>, right: string, lines: seq<string>, rs: seq<Reading>, p: Progress)
    requires ToolOk(tool) && IsSquare(p.counts.cm, tool.params.nOut)
    requires IsRow(line, left, header, right) && P.DistinctCells(header)
    requires |rs| == |lines| && forall i :: 0 <= i < |lines| ==> Says(tool, header, lines[i], rs[i])
    ensures var o := ToolFile(tool, Some([line] + lines), p);
            if forall name :: name in tool.names ==> name in header then o.Done? && RecordsAll(tool, rs, p, o.progress)
            else o == Halted(p)
  {
    SameCells(line, left, header, right);
    var file := [line] + lines;
    assert file[0] == line && file[1..] == lines;
    var columns := Columns(header, tool.names);
    if forall name :: name in tool.names ==> name in header {
      forall j | 0 <= j < |columns|
        ensures 0 <= columns[j] < |header| && header[columns[j]] == tool.names[j]
      {
        assert tool.names[j] in tool.names;
      }
      LinesRecorded(tool, header, columns, lines, rs, p);
    } else {
      var name :| name in tool.names && name !in header;
      var j :| 0 <= j < |tool.names| && tool.names[j] == name;
      assert columns[j] == -1;
    }
  }

  /** The stream of such a file: the usable rows in order, numbered on from the rows before. */
  predicate IsStream(tool: Tool, rs: seq<Reading>, gidx: nat, d: seq<Dumped>)
    requires ToolOk(tool)
  {
    if rs == [] then d == []
    else if !rs[0].Row? then IsStream(tool, rs[1..], gidx, d)
    else
      && d != [] && d[0].index == gidx + 1 && d[0].truth == rs[0].truth && IsPrediction(tool, rs[0].x, d[0].pred)
      && IsStream(tool, rs[1..], gidx + 1, d[1..])
  }

  lemma {:induction false} RecordedStream(tool: Tool, rs: seq<Reading>, p: Progress, q: Progress)
    requires ToolOk(tool) && RecordsAll(tool, rs, p, q)
    ensures |p.dumped| <= |q.dumped| && q.dumped[..|p.dumped|] == p.dumped
    ensures IsStream(tool, rs, p.counts.gidx, q.dumped[|p.dumped|..])
    decreases |rs|
  {
    if rs != [] {
      var via :| Records(tool, rs[0], p, via) && RecordsAll(tool, rs[1..], via, q);
      RecordedStream(tool, rs[1..], via, q);
      if rs[0].Row? {
        var n := |p.dumped|;
        assert q.dumped[n] == via.dumped[n];
        assert q.dumped[n..][1..] == q.dumped[n + 1..];
        assert q.dumped[..n] == via.dumped[..n];
      }
    }
  }

  /** The stream a file adds, stated by names and cells alone. */
  lemma FileStream(tool: Tool, line: string, left: string, header: seq<string>, right: string, lines: seq<string>, rs: seq<Reading>, p: Progress)
    requires ToolOk(tool) && IsSquare(p.counts.cm, tool.params.nOut)
    requires IsRow(line, left, header, right) && P.DistinctCells(header) && forall name :: name in tool.names ==> name in header
    requires |rs| == |lines| && forall i :: 0 <= i < |lines| ==> Says(tool, header, lines[i], rs[i])
    ensures var o := ToolFile(tool, Some([line] + lines), p); var q := o.progress;
            && o.Done? && |p.dumped| <= |q.dumped| && q.dumped[..|p.dumped|] == p.dumped
            && IsStream(tool, rs, p.counts.gidx, q.dumped[|p.dumped|..])
  {
    FileRecorded(tool, line, left, header, right, lines, rs, p);
    RecordedStream(tool, rs, p, ToolFile(tool, Some([line] + lines), p).progress);
  }
}
