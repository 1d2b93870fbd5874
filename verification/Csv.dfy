/** Splitting a line of a CSV file, as the C++ tool and as the Python oracle do it. */
module Csv {

  /** The characters the C++ tool trims. */
  predicate IsBlank(c: char) {
    c == ' ' || c == '\t' || c == '\r' || c == '\n'
  }

  /** The characters Python's strip removes. */
  predicate IsSpace(c: char) {
    || '\U{0009}' <= c <= '\U{000D}' || '\U{001C}' <= c <= ' ' || c == '\U{0085}' || c == '\U{00A0}' || c == '\U{1680}'
    || '\U{2000}' <= c <= '\U{200A}' || c == '\U{2028}' || c == '\U{2029}' || c == '\U{202F}' || c == '\U{205F}' || c == '\U{3000}'
  }

  function TrimStart(s: string, ws: char -> bool): string {
    if s != "" && ws(s[0]) then TrimStart(s[1..], ws) else s
  }

  function TrimEnd(s: string, ws: char -> bool): string {
    if s != "" && ws(s[|s| - 1]) then TrimEnd(s[..|s| - 1], ws) else s
  }

  function Trim(s: string): string {
    TrimEnd(TrimStart(s, IsBlank), IsBlank)
  }

  function Strip(s: string): string {
    TrimEnd(TrimStart(s, IsSpace), IsSpace)
  }

  /** The position of the first comma, or the length. */
  function Comma(s: string): (k: nat)
    ensures k <= |s| && (k < |s| ==> s[k] == ',') && ',' !in s[..k]
  {
    if s == "" || s[0] == ',' then 0 else 1 + Comma(s[1..])
  }

  /** C++: trimmed cells; nothing after a final comma. */
  function Cells(line: string): seq<string>
    decreases |line|
  {
    if line == "" then []
    else
      var k := Comma(line);
      [Trim(line[..k])] + if k < |line| then Cells(line[k + 1..]) else []
  }

  /** Python: the cells as they are, always at least one. */
  function Pieces(line: string): seq<string>
    decreases |line|
  {
    var k := Comma(line);
    if k < |line| then [line[..k]] + Pieces(line[k + 1..]) else [line]
  }

  /** Reads up to the next comma, as getline does. */
  method NextCell(line: string, pos: nat) returns (end: nat)
    requires pos <= |line|
    ensures end == pos + Comma(line[pos..])
  {
    end := pos;
    while end < |line| && line[end] != ','
      invariant pos <= end <= |line| && ',' !in line[pos..end]
    {
      end := end + 1;
    }
    assert line[pos..][..end - pos] == line[pos..end];
    CommaAt(line[pos..], end - pos);
  }

  method Split(line: string) returns (out: seq<string>)
    ensures out == Cells(line)
  {
    out := [];
    var pos := 0;
    assert line[0..] == line;
    while pos < |line|
      invariant 0 <= pos <= |line| && out + Cells(line[pos..]) == Cells(line)
    {
      var end := NextCell(line, pos);
      CellsFrom(line, pos, end);
      var cell := Trim(line[pos..end]);
      pos := if end < |line| then end + 1 else end;
      Regroup(out, cell, Cells(line[pos..]));
      out := out + [cell];
    }
    assert line[pos..] == "" && out + [] == out;
  }

  lemma Regroup(out: seq<string>, cell: string, rest: seq<string>)
    ensures out + ([cell] + rest) == (out + [cell]) + rest
  {
  }

  lemma CellsFrom(line: string, pos: nat, end: nat)
    requires pos < |line| && end == pos + Comma(line[pos..])
    ensures end <= |line|
    ensures Cells(line[pos..]) == [Trim(line[pos..end])] + Cells(line[if end < |line| then end + 1 else end..])
  {
    var rest := line[pos..];
    assert rest[..end - pos] == line[pos..end];
    if end < |line| {
      assert rest[end - pos + 1..] == line[end + 1..];
    } else {
      assert line[end..] == "";
    }
  }

  lemma CommaAt(s: string, k: nat)
    requires k <= |s| && ',' !in s[..k] && (k < |s| ==> s[k] == ',')
    ensures Comma(s) == k
    decreases |s|
  {
  }

  // ---- lines both programs read alike ----

  /** A cell that neither program would change: it has no comma and no white space at its ends. */
  predicate IsCell(c: string) {
    c != "" && ',' !in c && !IsSpace(c[0]) && !IsSpace(c[|c| - 1])
  }

  predicate AllCells(cells: seq<string>) {
    cells != [] && forall i :: 0 <= i < |cells| ==> IsCell(cells[i])
  }

  function Joined(cells: seq<string>): string
    requires cells != []
  {
    if |cells| == 1 then cells[0] else cells[0] + "," + Joined(cells[1..])
  }

  predicate AllBlank(s: string) {
    forall i :: 0 <= i < |s| ==> s[i] in {' ', '\t', '\r', '\n'}
  }

  /** Cells with commas between them, and blanks before and after. */
  predicate IsRow(line: string, left: string, cells: seq<string>, right: string) {
    AllBlank(left) && AllBlank(right) && AllCells(cells) && line == left + Joined(cells) + right
  }

  lemma {:induction false} TrimStartBlank(left: string, s: string, ws: char -> bool)
    requires forall i :: 0 <= i < |left| ==> ws(left[i])
    requires s == "" || !ws(s[0])
    ensures TrimStart(left + s, ws) == s
    decreases |left|
  {
    if left == "" {
      assert left + s == s;
    } else {
      TrimStartBlank(left[1..], s, ws);
      assert (left + s)[1..] == left[1..] + s;
    }
  }

  lemma {:induction false} TrimEndBlank(s: string, right: string, ws: char -> bool)
    requires forall i :: 0 <= i < |right| ==> ws(right[i])
    requires s == "" || !ws(s[|s| - 1])
    ensures TrimEnd(s + right, ws) == s
    decreases |right|
  {
    if right == "" {
      assert s + right == s;
    } else {
      var n := |right| - 1;
      TrimEndBlank(s, right[..n], ws);
      assert (s + right)[..|s + right| - 1] == s + right[..n];
    }
  }

  lemma TrimBoth(left: string, s: string, right: string)
    requires AllBlank(left) && AllBlank(right) && s != "" && !IsSpace(s[0]) && !IsSpace(s[|s| - 1])
    ensures Trim(left + s + right) == s == Strip(left + s + right)
  {
    assert left + s + right == left + (s + right) && (s + right)[0] == s[0];
    TrimStartBlank(left, s + right, IsBlank);
    TrimStartBlank(left, s + right, IsSpace);
    TrimEndBlank(s, right, IsBlank);
    TrimEndBlank(s, right, IsSpace);
  }

  lemma {:induction false} JoinedEnds(cells: seq<string>)
    requires AllCells(cells)
    ensures var s := Joined(cells); s != "" && !IsSpace(s[0]) && !IsSpace(s[|s| - 1])
    decreases |cells|
  {
    assert IsCell(cells[0]);
    if |cells| > 1 {
      JoinedEnds(cells[1..]);
    }
  }

  lemma {:induction false} PiecesOfJoined(cells: seq<string>)
    requires AllCells(cells)
    ensures Pieces(Joined(cells)) == cells
    decreases |cells|
  {
    var s := Joined(cells);
    assert IsCell(cells[0]);
    if |cells| == 1 {
      assert s[..|s|] == s;
      CommaAt(s, |s|);
    } else {
      assert s[..|cells[0]|] == cells[0];
      CommaAt(s, |cells[0]|);
      PiecesOfJoined(cells[1..]);
      assert s[|cells[0]| + 1..] == Joined(cells[1..]);
    }
  }

  lemma NoCommaInBlank(s: string)
    requires AllBlank(s)
    ensures ',' !in s
  {
  }

  lemma CellsOfOne(left: string, cell: string, right: string)
    requires AllBlank(left) && AllBlank(right) && IsCell(cell)
    ensures Cells(left + cell + right) == [cell]
  {
    var line := left + cell + right;
    NoCommaInBlank(left);
    NoCommaInBlank(right);
    assert line[..|line|] == line && ',' !in line;
    CommaAt(line, |line|);
    TrimBoth(left, cell, right);
  }

  lemma CellsOfMore(left: string, cell: string, tail: string)
    requires AllBlank(left) && IsCell(cell)
    ensures Cells(left + cell + "," + tail) == [cell] + Cells(tail)
  {
    var line, k := left + cell + "," + tail, |left| + |cell|;
    NoCommaInBlank(left);
    assert line[..k] == left + cell + "" && line[k] == ',' && line[k + 1..] == tail;
    assert ',' !in line[..k];
    CommaAt(line, k);
    TrimBoth(left, cell, "");
  }

  lemma RowSplit(left: string, cell: string, more: string, right: string)
    ensures left + (cell + "," + more) + right == left + cell + "," + (more + right)
  {
  }

  lemma CellsOfPair(cell: string, tail: string)
    requires IsCell(cell)
    ensures Cells(cell + "," + tail) == [cell] + Cells(tail)
  {
    CellsOfMore("", cell, tail);
    assert "" + cell == cell;
  }

  lemma {:induction false} CellsOfTail(cells: seq<string>, right: string)
    requires AllBlank(right) && AllCells(cells)
    ensures Cells(Joined(cells) + right) == cells
    decreases |cells|
  {
    assert IsCell(cells[0]);
    if |cells| == 1 {
      CellsOfOne("", cells[0], right);
      assert "" + cells[0] + right == Joined(cells) + right;
      assert cells == [cells[0]];
    } else {
      var rest := cells[1..];
      CellsOfTail(rest, right);
      CellsOfPair(cells[0], Joined(rest) + right);
      PairSplit(cells[0], Joined(rest), right);
      assert cells == [cells[0]] + rest;
    }
  }

  lemma PairSplit(cell: string, more: string, right: string)
    ensures cell + "," + more + right == cell + "," + (more + right)
  {
  }

  /** C++ splits a row into its cells, whatever blanks surround it. */
  lemma CellsOfRow(left: string, cells: seq<string>, right: string)
    requires AllBlank(left) && AllBlank(right) && AllCells(cells)
    ensures Cells(left + Joined(cells) + right) == cells
  {
    assert IsCell(cells[0]);
    if |cells| == 1 {
      CellsOfOne(left, cells[0], right);
    } else {
      var rest := cells[1..];
      CellsOfTail(rest, right);
      CellsOfMore(left, cells[0], Joined(rest) + right);
      RowSplit(left, cells[0], Joined(rest), right);
      assert cells == [cells[0]] + rest;
    }
  }

  /** Both programs see the same cells in a row, and neither takes it for blank. */
  lemma SameCells(line: string, left: string, cells: seq<string>, right: string)
    requires IsRow(line, left, cells, right)
    ensures Cells(line) == cells == Pieces(Strip(line))
    ensures Trim(line) != "" && Strip(line) != ""
  {
    JoinedEnds(cells);
    TrimBoth(left, Joined(cells), right);
    CellsOfRow(left, cells, right);
    PiecesOfJoined(cells);
  }

  lemma {:induction false} TrimBlankLine(s: string, ws: char -> bool)
    requires forall i :: 0 <= i < |s| ==> ws(s[i])
    ensures TrimStart(s, ws) == ""
    decreases |s|
  {
    if s != "" {
      TrimBlankLine(s[1..], ws);
    }
  }

  lemma BlankForBoth(line: string)
    requires AllBlank(line)
    ensures Trim(line) == "" && Strip(line) == ""
  {
    TrimBlankLine(line, IsBlank);
    TrimBlankLine(line, IsSpace);
  }
}
