/** Removing the citation columns that say nothing from the tables of a report (mas/exporters.py). */
module CitationColumns {
  import opened Collections
  import opened Text
  import opened Tables

  /** Which headers name a citation column and which cells say nothing; the normal forms and phrase
      lists behind them are not interpreted. */
  datatype Rules = Rules(citation: string -> bool, vacant: string -> bool)

  /** A cell that says something is not blank. */
  ghost predicate Sane(rules: Rules) {
    forall cell :: !rules.vacant(cell) ==> Strip(cell) != ""
  }

  /** `_split_markdown_table_row`. */
  function SplitRow(line: string): seq<string> {
    var text := Strip(line);
    if text == "" || text[0] != '|' then []
    else Map(Strip, SplitAt(if text[|text| - 1] == '|' then (if |text| > 1 then text[1..|text| - 1] else "") else text[1..], '|'))
  }

  predicate IsTableLine(line: string) {
    var t := LStrip(line);
    t != "" && t[0] == '|'
  }

  function SplitRows(block: seq<string>): seq<seq<string>> {
    seq(|block|, i requires 0 <= i < |block| => SplitRow(block[i]))
  }

  function CellAt(row: seq<string>, i: nat): string {
    if i < |row| then row[i] else ""
  }

  /** A citation column whose body cells all say nothing. */
  predicate Removable(rules: Rules, rows: seq<seq<string>>, i: nat)
    requires |rows| >= 2 && i < |rows[0]|
  {
    rules.citation(rows[0][i]) && forall r :: 2 <= r < |rows| ==> rules.vacant(CellAt(rows[r], i))
  }

  /** The columns that stay, in order, among the first `n`. */
  function Staying(rules: Rules, rows: seq<seq<string>>, n: nat): seq<nat>
    requires |rows| >= 2 && n <= |rows[0]|
  {
    if n == 0 then []
    else Staying(rules, rows, n - 1) + if Removable(rules, rows, n - 1) then [] else [n - 1]
  }

  function Select(row: seq<string>, columns: seq<nat>): seq<string> {
    seq(|columns|, i requires 0 <= i < |columns| => CellAt(row, columns[i]))
  }

  predicate AllBlank(cells: seq<string>) {
    forall i :: 0 <= i < |cells| ==> Strip(cells[i]) == ""
  }

  /** The body lines that stay, with the cells of the columns that stay. */
  function BodyLines(rows: seq<seq<string>>, columns: seq<nat>): seq<string> {
    if rows == [] then []
    else
      var n := |rows| - 1;
      var cells := Select(rows[n], columns);
      BodyLines(rows[..n], columns) + if AllBlank(cells) then [] else [FormatRow(cells)]
  }

  predicate IsTable(block: seq<string>) {
    |block| >= 2 && SplitRow(block[0]) != [] && IsSeparatorRow(SplitRow(block[1]))
  }

  /** `_clean_client_citation_table_block`. */
  function CleanBlock(rules: Rules, block: seq<string>): seq<string> {
    if !IsTable(block) then block
    else
      var rows := SplitRows(block);
      var columns := Staying(rules, rows, |rows[0]|);
      if |columns| == |rows[0]| then block
      else if columns == [] then []
      else [FormatRow(Select(rows[0], columns)), FormatRow(Repeat(|columns|, RULE))] + BodyLines(rows[2..], columns)
  }

  /** The end of the run of table lines from `i` on. */
  function RunEnd(lines: seq<string>, i: nat): (e: nat)
    requires i <= |lines|
    ensures i <= e <= |lines|
    ensures forall k :: i <= k < e ==> IsTableLine(lines[k])
    ensures e < |lines| ==> !IsTableLine(lines[e])
    decreases |lines| - i
  {
    if i == |lines| || !IsTableLine(lines[i]) then i else RunEnd(lines, i + 1)
  }

  /** All lines with their tables cleaned. */
  function CleanLines(rules: Rules, lines: seq<string>): seq<string>
    decreases |lines|
  {
    if lines == [] then []
    else if IsTableLine(lines[0]) then
      var e := RunEnd(lines, 1);
      CleanBlock(rules, lines[..e]) + CleanLines(rules, lines[e..])
    else [lines[0]] + CleanLines(rules, lines[1..])
  }

  /** `_remove_empty_client_citation_marker_columns`. */
  function Cleaned(rules: Rules, text: string): string {
    Unlines(CleanLines(rules, Lines(text)))
  }

  // ---------- the methods ----------

  method StayingColumns(rules: Rules, rows: seq<seq<string>>) returns (columns: seq<nat>)
    requires |rows| >= 2
    ensures columns == Staying(rules, rows, |rows[0]|)
  {
    columns := [];
    for i := 0 to |rows[0]|
      invariant columns == Staying(rules, rows, i)
    {
      var empty := rules.citation(rows[0][i]);
      for r := 2 to |rows|
        invariant empty == (rules.citation(rows[0][i]) && forall x :: 2 <= x < r ==> rules.vacant(CellAt(rows[x], i)))
      {
        if !rules.vacant(CellAt(rows[r], i)) { empty := false; }
      }
      if !empty { columns := columns + [i]; }
    }
  }

  method CleanTableBlock(rules: Rules, block: seq<string>) returns (cleaned: seq<string>)
    ensures cleaned == CleanBlock(rules, block)
  {
    hide SplitRow, IsSeparatorRow, FormatRow, Select, AllBlank, Staying;
    if !IsTable(block) { return block; }
    var rows := SplitRows(block);
    var columns := StayingColumns(rules, rows);
    if |columns| == |rows[0]| { return block; }
    cleaned := [];
    if columns != [] {
      cleaned := [FormatRow(Select(rows[0], columns)), FormatRow(Repeat(|columns|, RULE))];
      ghost var head := cleaned;
      var body := rows[2..];
      for i := 0 to |body|
        invariant cleaned == head + BodyLines(body[..i], columns)
      {
        assert body[..i + 1][..i] == body[..i];
        var kept := Select(body[i], columns);
        if !AllBlank(kept) { cleaned := cleaned + [FormatRow(kept)]; }
      }
      assert body[..|body|] == body;
    }
  }

  method FindRunEnd(lines: seq<string>, start: nat) returns (end: nat)
    requires start < |lines|
    ensures start < end <= |lines| && end - start == RunEnd(lines[start..], 1)
  {
    hide IsTableLine;
    ghost var rest := lines[start..];
    end := start + 1;
    while end < |lines| && IsTableLine(lines[end])
      invariant start < end <= |lines|
      invariant RunEnd(rest, end - start) == RunEnd(rest, 1)
    {
      assert rest[end - start] == lines[end];
      end := end + 1;
    }
    assert end < |lines| ==> rest[end - start] == lines[end];
  }

  method RemoveEmptyCitationColumns(rules: Rules, text: string) returns (result: string)
    ensures result == Cleaned(rules, text)
  {
    hide IsTableLine, CleanBlock, RunEnd, Lines, Unlines;
    var lines := Lines(text);
    var output: seq<string>, index := [], 0;
    assert lines[0..] == lines;
    while index < |lines|
      invariant index <= |lines|
      invariant CleanLines(rules, lines) == output + CleanLines(rules, lines[index..])
    {
      ghost var rest := lines[index..];
      assert rest[0] == lines[index] && rest[1..] == lines[index + 1..];
      if IsTableLine(lines[index]) {
        var end := FindRunEnd(lines, index);
        assert rest[..end - index] == lines[index..end] && rest[end - index..] == lines[end..];
        var cleaned := CleanTableBlock(rules, lines[index..end]);
        output := output + cleaned;
        index := end;
      } else {
        output := output + [lines[index]];
        index := index + 1;
      }
    }
    assert lines[index..] == [] && output + [] == output;
    result := Unlines(output);
  }
}
