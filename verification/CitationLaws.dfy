/** What cleaning a report's citation columns keeps, and when cleaning twice is cleaning once. */
module CitationLaws {
  import opened Collections
  import opened Text
  import opened Tables
  import opened CitationColumns

  // ---------- rows ----------

  /** Cells as a row is split into. */
  predicate Clean(cells: seq<string>) {
    AllTrimmed(cells) && PipeFree(cells) && forall i :: 0 <= i < |cells| ==> NoBreak(cells[i])
  }

  /** Splitting a formatted row of trimmed cells without pipes gives the cells back. */
  lemma SplitUndoesFormat(cells: seq<string>)
    requires cells != [] && AllTrimmed(cells) && PipeFree(cells)
    ensures SplitRow(FormatRow(cells)) == cells && IsTableLine(FormatRow(cells))
  {
    var line := FormatRow(cells);
    RowShape(cells);
    OpensWithPipe(line, Inner(cells));
    SplitInner(cells);
    PaddedStrips(cells);
    hide FormatRow, Inner, Strip, SplitAt, IsTableLine;
    assert line[1..|line| - 1] == Inner(cells);
  }

  lemma OpensWithPipe(line: string, inner: string)
    requires line == "|" + inner + "|" && Trimmed(line)
    ensures Strip(line) == line && IsTableLine(line) && |line| > 1 && line[0] == '|' && line[|line| - 1] == '|'
  {
    assert line[0] == '|';
    TrimmedStrip(line);
    assert Skip(Space, line, 0) == 0;
  }

  lemma SplitRowClean(line: string)
    requires NoBreak(line)
    ensures Clean(SplitRow(line))
  {
    var text := Strip(line);
    if text != "" && text[0] == '|' {
      var t := if text[|text| - 1] == '|' then (if |text| > 1 then text[1..|text| - 1] else "") else text[1..];
      StripWithin(line);
      assert NoBreak(t);
      hide SplitAt, Strip, Clean, NoBreak;
      PartsClean(t);
    } else {
      assert SplitRow(line) == [];
    }
  }

  lemma PartsClean(t: string)
    requires NoBreak(t)
    ensures Clean(Map(Strip, SplitAt(t, '|')))
  {
    hide SplitAt, Strip, Trimmed, NoBreak;
    var parts := SplitAt(t, '|');
    SplitParts(t, '|');
    PartsWithin(t, '|');
    forall i | 0 <= i < |parts|
      ensures Trimmed(Strip(parts[i])) && '|' !in Strip(parts[i]) && NoBreak(Strip(parts[i]))
    {
      StripTrims(parts[i]);
      StripKeepsOut(parts[i], '|');
      StripWithin(parts[i]);
    }
  }

  lemma StripWithin(s: string)
    requires NoBreak(s)
    ensures NoBreak(Strip(s))
  {
  }

  lemma SliceWithin(s: string, i: nat, j: nat)
    requires NoBreak(s) && i <= j <= |s|
    ensures NoBreak(s[i..j])
  {
    hide IsBreak;
  }

  lemma {:induction false} PartsWithin(s: string, c: char)
    requires NoBreak(s)
    ensures forall i :: 0 <= i < |SplitAt(s, c)| ==> NoBreak(SplitAt(s, c)[i])
    decreases |s|
  {
    hide IsBreak;
    var i := Find(s, c, 0);
    if i >= 0 {
      var tail := s[i + 1..];
      SliceWithin(s, 0, i);
      SliceWithin(s, i + 1, |s|);
      assert s[0..i] == s[..i] && s[i + 1..|s|] == tail;
      PartsWithin(tail, c);
    }
  }

  lemma SelectClean(row: seq<string>, columns: seq<nat>)
    requires Clean(row)
    ensures Clean(Select(row, columns))
  {
  }

  lemma RuleClean(n: nat)
    requires n > 0
    ensures Clean(Repeat(n, RULE)) && IsSeparatorRow(Repeat(n, RULE)) && Repeat(n, RULE) != []
  {
    RuleSeparates();
  }

  lemma {:induction false} FormatNoBreak(cells: seq<string>)
    requires Clean(cells)
    ensures NoBreak(JoinWith(" | ", cells)) && NoBreak(FormatRow(cells))
    decreases |cells|
  {
    if |cells| > 1 { FormatNoBreak(cells[1..]); }
  }

  /** A line belongs to a table when its first visible character is a pipe, however it is indented. */
  lemma TableLineForm(lead: string, rest: string)
    requires All(Space, lead) && (rest != "" ==> !IsSpace(rest[0]))
    ensures IsTableLine(lead + rest) <==> rest != "" && rest[0] == '|'
  {
    var s := lead + rest;
    assert rest != "" ==> s[|lead|] == rest[0];
    AgreesAt(s, 0, lead);
    assert s[..|lead|] == lead;
    SkipRun(Space, s, 0, lead);
    assert s[|lead|..] == rest;
  }

  /** A row without its last pipe reads the same, if its last cell is not empty. */
  lemma OpenRow(cells: seq<string>)
    requires Clean(cells) && cells != [] && cells[|cells| - 1] != ""
    ensures SplitRow("|" + Inner(cells)) == cells
  {
    var t := Inner(cells);
    LastOfInner(cells);
    OpenInner(cells);
    hide Strip, Inner, SplitAt, Clean;
    OpenLine(t);
  }

  lemma OpenLine(t: string)
    requires |t| > 2 && t[|t| - 1] == ' ' && t[|t| - 2] != '|' && !IsSpace(t[|t| - 2])
    ensures SplitRow("|" + t) == Map(Strip, SplitAt(t[..|t| - 1], '|'))
  {
    hide SplitAt;
    var s, u := "|" + t, "|" + t[..|t| - 1];
    assert s == "" + u + " ";
    assert u[|u| - 1] == t[|t| - 2];
    StripPad("", u, " ");
    hide Strip;
    assert u[1..] == t[..|t| - 1];
  }

  lemma InnerCons(cells: seq<string>)
    requires |cells| > 1
    ensures Inner(cells) == Padded(cells[0]) + ['|'] + Inner(cells[1..])
  {
  }

  lemma {:induction false} LastOfInner(cells: seq<string>)
    requires Clean(cells) && cells != [] && cells[|cells| - 1] != ""
    ensures var t := Inner(cells); |t| > 2 && t[|t| - 1] == ' ' && t[|t| - 2] != '|' && !IsSpace(t[|t| - 2])
    decreases |cells|
  {
    if |cells| == 1 {
      assert Inner(cells) == " " + cells[0] + " ";
    } else {
      LastOfInner(cells[1..]);
      InnerCons(cells);
    }
  }

  lemma OneOpen(cell: string)
    requires Trimmed(cell) && '|' !in cell
    ensures Map(Strip, SplitAt(" " + cell, '|')) == [cell]
    ensures '|' !in Padded(cell) && Strip(Padded(cell)) == cell
  {
    var u := " " + cell;
    StripPad(" ", cell, "");
    StripPad(" ", cell, " ");
    assert " " + cell + "" == u;
    assert '|' !in u;
    hide Strip;
    assert SplitAt(u, '|') == [u];
  }

  /** Splitting the inside of a row short of its last blank. */
  lemma {:induction false} OpenInner(cells: seq<string>)
    requires Clean(cells) && cells != [] && cells[|cells| - 1] != ""
    ensures var t := Inner(cells); |t| > 0 && Map(Strip, SplitAt(t[..|t| - 1], '|')) == cells
    decreases |cells|
  {
    hide Strip, SplitAt, Padded;
    var t := Inner(cells);
    OneOpen(cells[0]);
    if |cells| == 1 {
      assert t == " " + cells[0] + " ";
      assert t[..|t| - 1] == " " + cells[0];
      assert cells == [cells[0]];
    } else {
      var rest := cells[1..];
      OpenInner(rest);
      InnerCons(cells);
      hide Inner;
      OpenCons(cells[0], t, Inner(rest));
      assert cells == [cells[0]] + rest;
    }
  }

  lemma OpenCons(cell: string, t: string, r: string)
    requires '|' !in Padded(cell) && Strip(Padded(cell)) == cell && r != "" && t == Padded(cell) + ['|'] + r
    ensures Map(Strip, SplitAt(t[..|t| - 1], '|')) == [cell] + Map(Strip, SplitAt(r[..|r| - 1], '|'))
  {
    hide Strip, SplitAt, Padded;
    var parts := SplitAt(r[..|r| - 1], '|');
    assert t[..|t| - 1] == Padded(cell) + ['|'] + r[..|r| - 1];
    SplitFirst(Padded(cell), '|', r[..|r| - 1]);
    assert Map(Strip, [Padded(cell)] + parts) == [Strip(Padded(cell))] + Map(Strip, parts);
  }

  /** A block that does not open with a row and a rule is left as it is. */
  lemma OnlyTables(rules: Rules, block: seq<string>)
    requires || |block| < 2 || SplitRow(block[0]) == [] || SplitRow(block[1]) == []
             || exists i :: 0 <= i < |SplitRow(block[1])| && !IsSeparatorCell(SplitRow(block[1])[i])
    ensures CleanBlock(rules, block) == block
  {
    hide SplitRow, IsSeparatorCell;
  }

  // ---------- which columns stay ----------

  predicate Rising(columns: seq<nat>) {
    forall i, j :: 0 <= i < j < |columns| ==> columns[i] < columns[j]
  }

  /** The columns, in order, that are no citation column or say something. */
  ghost predicate Exactly(rules: Rules, rows: seq<seq<string>>, n: nat, columns: seq<nat>)
    requires |rows| >= 2 && n <= |rows[0]|
  {
    && Rising(columns)
    && (forall c: nat :: c in columns <==> c < n && !Removable(rules, rows, c))
  }

  lemma {:induction false} StayingLaws(rules: Rules, rows: seq<seq<string>>, n: nat)
    requires |rows| >= 2 && n <= |rows[0]|
    ensures Exactly(rules, rows, n, Staying(rules, rows, n)) && |Staying(rules, rows, n)| <= n
    decreases n
  {
    hide Removable, Exactly;
    if n > 0 {
      StayingLaws(rules, rows, n - 1);
      OneColumnMore(rules, rows, n, Staying(rules, rows, n - 1));
    } else {
      NoColumnsYet(rules, rows);
    }
  }

  lemma NoColumnsYet(rules: Rules, rows: seq<seq<string>>)
    requires |rows| >= 2
    ensures Exactly(rules, rows, 0, [])
  {
  }

  lemma OneColumnMore(rules: Rules, rows: seq<seq<string>>, n: nat, columns: seq<nat>)
    requires |rows| >= 2 && 0 < n <= |rows[0]| && Exactly(rules, rows, n - 1, columns)
    ensures Exactly(rules, rows, n, columns + if Removable(rules, rows, n - 1) then [] else [n - 1])
  {
    hide Removable, Rising;
    if Removable(rules, rows, n - 1) {
      assert columns + [] == columns;
    } else {
      forall i | 0 <= i < |columns| ensures columns[i] < n - 1 { assert columns[i] in columns; }
      RisingMore(columns, n - 1);
      forall c: nat ensures c in columns + [n - 1] <==> c in columns || c == n - 1 { InMore(columns, n - 1, c); }
    }
  }

  lemma RisingMore(columns: seq<nat>, x: nat)
    requires Rising(columns) && forall i :: 0 <= i < |columns| ==> columns[i] < x
    ensures Rising(columns + [x])
  {
  }

  lemma InMore(columns: seq<nat>, x: nat, c: nat)
    ensures c in columns + [x] <==> c in columns || c == x
  {
  }

  lemma {:induction false} AllStay(rules: Rules, rows: seq<seq<string>>, n: nat)
    requires |rows| >= 2 && n <= |rows[0]|
    requires forall c: nat :: c < n ==> !Removable(rules, rows, c)
    ensures |Staying(rules, rows, n)| == n
    decreases n
  {
    hide Removable;
    if n > 0 { AllStay(rules, rows, n - 1); }
  }

  /** The body rows that stay, cut down to the columns that stay. */
  function BodyRows(rows: seq<seq<string>>, columns: seq<nat>): seq<seq<string>> {
    if rows == [] then []
    else
      var n := |rows| - 1;
      var cells := Select(rows[n], columns);
      BodyRows(rows[..n], columns) + if AllBlank(cells) then [] else [cells]
  }

  predicate AllClean(rows: seq<seq<string>>) {
    forall i :: 0 <= i < |rows| ==> Clean(rows[i])
  }

  lemma {:induction false} BodyReads(rows: seq<seq<string>>, columns: seq<nat>)
    requires AllClean(rows) && columns != []
    ensures SplitRows(BodyLines(rows, columns)) == BodyRows(rows, columns)
    ensures forall i :: 0 <= i < |BodyLines(rows, columns)| ==>
              IsTableLine(BodyLines(rows, columns)[i]) && NoBreak(BodyLines(rows, columns)[i])
    decreases |rows|
  {
    hide Clean, SplitRow, FormatRow, IsTableLine, AllBlank;
    if rows != [] {
      var n := |rows| - 1;
      var cells := Select(rows[n], columns);
      BodyReads(rows[..n], columns);
      SelectClean(rows[n], columns);
      CellsReadBack(cells);
    }
  }

  lemma CellsReadBack(cells: seq<string>)
    requires Clean(cells) && cells != []
    ensures SplitRow(FormatRow(cells)) == cells && IsTableLine(FormatRow(cells)) && NoBreak(FormatRow(cells))
  {
    SplitUndoesFormat(cells);
    FormatNoBreak(cells);
  }

  /** A block is cut down: it is a table, and some but not all of its columns go. */
  predicate Cut(rules: Rules, block: seq<string>) {
    IsTable(block) && 0 < |Staying(rules, SplitRows(block), |SplitRow(block[0])|)| < |SplitRow(block[0])|
  }

  function ColumnsOf(rules: Rules, block: seq<string>): seq<nat>
    requires |block| >= 2
  {
    Staying(rules, SplitRows(block), |SplitRow(block[0])|)
  }

  lemma RowsClean(block: seq<string>)
    requires Unbroken(block)
    ensures AllClean(SplitRows(block))
  {
    hide SplitRow, Clean, NoBreak;
    forall i | 0 <= i < |block| ensures Clean(SplitRow(block[i])) { SplitRowClean(block[i]); }
  }

  /** Rows cut down to some columns, under a fresh rule, short of the body rows left blank. */
  function CutRows(rows: seq<seq<string>>, columns: seq<nat>): seq<seq<string>>
    requires |rows| >= 2
  {
    [Select(rows[0], columns), Repeat(|columns|, RULE)] + BodyRows(rows[2..], columns)
  }

  function CutLines(rows: seq<seq<string>>, columns: seq<nat>): seq<string>
    requires |rows| >= 2
  {
    [FormatRow(Select(rows[0], columns)), FormatRow(Repeat(|columns|, RULE))] + BodyLines(rows[2..], columns)
  }

  lemma CleanBlockCases(rules: Rules, block: seq<string>)
    ensures Cut(rules, block) ==>
              |SplitRows(block)| >= 2 && CleanBlock(rules, block) == CutLines(SplitRows(block), ColumnsOf(rules, block))
    ensures !Cut(rules, block) ==> CleanBlock(rules, block) == block || CleanBlock(rules, block) == []
  {
    hide SplitRow, FormatRow, IsSeparatorRow, Select, Repeat, BodyLines;
    if IsTable(block) { StayingLaws(rules, SplitRows(block), |SplitRow(block[0])|); }
    hide Staying;
  }

  lemma CutReads(rows: seq<seq<string>>, columns: seq<nat>)
    requires AllClean(rows) && |rows| >= 2 && columns != []
    ensures SplitRows(CutLines(rows, columns)) == CutRows(rows, columns)
    ensures forall i :: 0 <= i < |CutLines(rows, columns)| ==> IsTableLine(CutLines(rows, columns)[i]) && NoBreak(CutLines(rows, columns)[i])
  {
    hide SplitRow, FormatRow, IsTableLine, Clean, Repeat, Select, BodyRows, BodyLines, NoBreak;
    var head, rule := Select(rows[0], columns), Repeat(|columns|, RULE);
    SelectClean(rows[0], columns);
    SelectLength(rows[0], columns);
    RuleClean(|columns|);
    BodyReads(rows[2..], columns);
    CellsReadBack(head);
    CellsReadBack(rule);
    var ls := BodyLines(rows[2..], columns);
    assert CutLines(rows, columns) == [FormatRow(head), FormatRow(rule)] + ls;
    assert SplitRows([FormatRow(head), FormatRow(rule)] + ls) == [SplitRow(FormatRow(head)), SplitRow(FormatRow(rule))] + SplitRows(ls);
  }

  lemma SelectLength(row: seq<string>, columns: seq<nat>)
    ensures |Select(row, columns)| == |columns|
  {
  }

  /** Cleaning keeps the order and content of every column it does not remove: read back, a block that
      is cut down has the header's and the body's cells of the columns that stay, in order, under a
      fresh rule, short of the body rows left blank; and the columns that stay are exactly those that
      are no citation column or say something. */
  lemma CleaningKeepsColumns(rules: Rules, block: seq<string>)
    requires Cut(rules, block) && Unbroken(block)
    ensures |SplitRows(block)| >= 2
    ensures SplitRows(CleanBlock(rules, block)) == CutRows(SplitRows(block), ColumnsOf(rules, block))
    ensures Exactly(rules, SplitRows(block), |SplitRows(block)[0]|, ColumnsOf(rules, block))
  {
    hide SplitRow, IsSeparatorRow, CleanBlock, CutRows, CutLines, Staying, Exactly, Clean;
    CleanBlockCases(rules, block);
    RowsClean(block);
    StayingLaws(rules, SplitRows(block), |SplitRows(block)[0]|);
    CutReads(SplitRows(block), ColumnsOf(rules, block));
  }

  /** The header names a citation column and every body row's cell there, missing ones as empty, is vacant. */
  ghost predicate SaysNothing(rules: Rules, rows: seq<seq<string>>, c: nat)
    requires |rows| >= 2 && c < |rows[0]|
  {
    rules.citation(rows[0][c]) && forall r :: 2 <= r < |rows| ==> rules.vacant(if c < |rows[r]| then rows[r][c] else "")
  }

  /** A row has something to show in one of the columns. */
  ghost predicate ShowsIn(row: seq<string>, columns: seq<nat>) {
    exists j :: 0 <= j < |columns| && Strip(if columns[j] < |row| then row[columns[j]] else "") != ""
  }

  /** `cut` is the row at these columns. */
  predicate IsCut(cut: seq<string>, row: seq<string>, columns: seq<nat>) {
    |cut| == |columns| && forall j :: 0 <= j < |columns| ==> cut[j] == if columns[j] < |row| then row[columns[j]] else ""
  }

  /** The body rows that have something to show, by position. */
  ghost function Showing(rows: seq<seq<string>>, columns: seq<nat>): seq<nat> {
    if rows == [] then []
    else Showing(rows[..|rows| - 1], columns) + if ShowsIn(rows[|rows| - 1], columns) then [|rows| - 1] else []
  }

  lemma CellOr(row: seq<string>, c: nat)
    ensures CellAt(row, c) == if c < |row| then row[c] else ""
  {
  }

  lemma SelectIsCut(row: seq<string>, columns: seq<nat>)
    ensures IsCut(Select(row, columns), row, columns)
    ensures AllBlank(Select(row, columns)) <==> !ShowsIn(row, columns)
  {
    var cut := Select(row, columns);
    hide Strip;
    if ShowsIn(row, columns) {
      var j :| 0 <= j < |columns| && Strip(if columns[j] < |row| then row[columns[j]] else "") != "";
      assert cut[j] == CellAt(row, columns[j]);
    }
    if !AllBlank(cut) {
      var j :| 0 <= j < |cut| && Strip(cut[j]) != "";
      assert cut[j] == CellAt(row, columns[j]);
    }
  }

  lemma {:induction false} BodyIsShowing(rows: seq<seq<string>>, columns: seq<nat>)
    ensures var body := BodyRows(rows, columns); var at := Showing(rows, columns);
            && |body| == |at|
            && forall k :: 0 <= k < |body| ==> at[k] < |rows| && IsCut(body[k], rows[at[k]], columns)
    decreases |rows|
  {
    hide Select, AllBlank, ShowsIn, IsCut;
    if rows != [] {
      var n := |rows| - 1;
      BodyIsShowing(rows[..n], columns);
      SelectIsCut(rows[n], columns);
      var before := Showing(rows[..n], columns);
      assert forall k :: 0 <= k < |before| ==> rows[..n][before[k]] == rows[before[k]];
    }
  }

  /** The columns, in order, that do not go. */
  ghost predicate KeepsExactly(rules: Rules, rows: seq<seq<string>>, columns: seq<nat>)
    requires |rows| >= 2
  {
    && Rising(columns)
    && (forall c: nat :: c in columns <==> c < |rows[0]| && !SaysNothing(rules, rows, c))
  }

  /** What is read is the header, a rule and the body rows that show something, all at these columns. */
  ghost predicate ReadsCut(rows: seq<seq<string>>, columns: seq<nat>, read: seq<seq<string>>)
    requires |rows| >= 2
  {
    var at := Showing(rows[2..], columns);
    && |read| == |at| + 2
    && IsCut(read[0], rows[0], columns)
    && |read[1]| == |columns| && (forall j :: 0 <= j < |columns| ==> read[1][j] == "---")
    && forall k :: 0 <= k < |at| ==> at[k] + 2 < |rows| && IsCut(read[k + 2], rows[at[k] + 2], columns)
  }

  /** The same by position: a block that is cut down reads as the header's cells of the columns that stay,
      a rule of three dashes for each, and, for exactly the body rows that have something to show there,
      their cells; and a column goes exactly when it names citations and says nothing. */
  lemma CutContent(rules: Rules, block: seq<string>)
    requires Cut(rules, block) && Unbroken(block)
    ensures |SplitRows(block)| >= 2
    ensures KeepsExactly(rules, SplitRows(block), ColumnsOf(rules, block))
    ensures ReadsCut(SplitRows(block), ColumnsOf(rules, block), SplitRows(CleanBlock(rules, block)))
  {
    hide SplitRow, IsSeparatorRow, CleanBlock, Staying, Select, BodyRows, Showing, IsCut, Removable, SaysNothing;
    CleaningKeepsColumns(rules, block);
    var rows := SplitRows(block);
    var columns := ColumnsOf(rules, block);
    SelectIsCut(rows[0], columns);
    BodyIsShowing(rows[2..], columns);
    KeptExactly(rules, rows, columns);
    var read := SplitRows(CleanBlock(rules, block));
    assert read == [Select(rows[0], columns), Repeat(|columns|, RULE)] + BodyRows(rows[2..], columns);
    var at := Showing(rows[2..], columns);
    forall k | 0 <= k < |at| ensures at[k] + 2 < |rows| && IsCut(read[k + 2], rows[at[k] + 2], columns) {
      assert rows[2..][at[k]] == rows[at[k] + 2];
    }
  }

  lemma KeptExactly(rules: Rules, rows: seq<seq<string>>, columns: seq<nat>)
    requires |rows| >= 2 && Exactly(rules, rows, |rows[0]|, columns)
    ensures KeepsExactly(rules, rows, columns)
  {
    hide Removable, SaysNothing;
    forall c: nat | c < |rows[0]| ensures Removable(rules, rows, c) <==> SaysNothing(rules, rows, c) { RemovableSays(rules, rows, c); }
  }

  lemma RemovableSays(rules: Rules, rows: seq<seq<string>>, c: nat)
    requires |rows| >= 2 && c < |rows[0]|
    ensures Removable(rules, rows, c) <==> SaysNothing(rules, rows, c)
  {
    forall r | 2 <= r < |rows| ensures CellAt(rows[r], c) == if c < |rows[r]| then rows[r][c] else "" { CellOr(rows[r], c); }
    hide CellAt;
  }

  // ---------- cleaning a block twice ----------

  lemma {:induction false} BodyRowStays(rows: seq<seq<string>>, columns: seq<nat>, r: nat)
    requires r < |rows| && !AllBlank(Select(rows[r], columns))
    ensures Select(rows[r], columns) in BodyRows(rows, columns)
    decreases |rows|
  {
    hide AllBlank, Select;
    if r < |rows| - 1 { BodyRowStays(rows[..|rows| - 1], columns, r); }
  }

  /** A column that stays is still not removable in the block that was cut down. */
  lemma StaysForGood(rules: Rules, rows: seq<seq<string>>, columns: seq<nat>, j: nat)
    requires Sane(rules) && |rows| >= 2 && j < |columns| && columns[j] < |rows[0]| && !Removable(rules, rows, columns[j])
    ensures |CutRows(rows, columns)[0]| == |columns| && !Removable(rules, CutRows(rows, columns), j)
  {
    hide Strip, BodyRows, Repeat;
    var c := columns[j];
    var again := CutRows(rows, columns);
    assert again[0][j] == rows[0][c];
    if rules.citation(rows[0][c]) {
      var r :| 2 <= r < |rows| && !rules.vacant(CellAt(rows[r], c));
      SaysSomething(rules, rows[2..], columns, r - 2, j);
      var k :| 0 <= k < |BodyRows(rows[2..], columns)| && BodyRows(rows[2..], columns)[k] == Select(rows[r], columns);
      assert again[k + 2] == Select(rows[r], columns);
      assert CellAt(again[k + 2], j) == CellAt(rows[r], c);
    }
  }

  lemma SaysSomething(rules: Rules, body: seq<seq<string>>, columns: seq<nat>, r: nat, j: nat)
    requires Sane(rules) && r < |body| && j < |columns| && !rules.vacant(CellAt(body[r], columns[j]))
    ensures Select(body[r], columns) in BodyRows(body, columns)
  {
    var cells := Select(body[r], columns);
    hide BodyRows, Strip;
    assert cells[j] == CellAt(body[r], columns[j]) && Strip(cells[j]) != "";
    BodyRowStays(body, columns, r);
  }

  /** Cleaning a block twice is cleaning it once. */
  lemma BlockIdempotent(rules: Rules, block: seq<string>)
    requires Sane(rules) && Unbroken(block)
    ensures CleanBlock(rules, CleanBlock(rules, block)) == CleanBlock(rules, block)
  {
    hide SplitRow, IsSeparatorRow, CleanBlock, CutRows, CutLines, Staying, Exactly, Sane, Unbroken;
    CleanBlockCases(rules, block);
    NothingToClean(rules);
    if Cut(rules, block) {
      CleaningKeepsColumns(rules, block);
      CutAgain(rules, SplitRows(block), ColumnsOf(rules, block), CleanBlock(rules, block));
    }
  }

  lemma NothingToClean(rules: Rules)
    ensures CleanBlock(rules, []) == []
  {
  }

  lemma CutAgain(rules: Rules, rows: seq<seq<string>>, columns: seq<nat>, cut: seq<string>)
    requires Sane(rules) && |rows| >= 2 && columns != []
    requires SplitRows(cut) == CutRows(rows, columns) && Exactly(rules, rows, |rows[0]|, columns)
    ensures CleanBlock(rules, cut) == cut
  {
    hide SplitRow, Removable, IsSeparatorRow, FormatRow, BodyLines, BodyRows, Repeat, Sane;
    var again := CutRows(rows, columns);
    RuleClean(|columns|);
    assert |again| == |cut| >= 2;
    assert SplitRow(cut[0]) == again[0] == Select(rows[0], columns) && SplitRow(cut[1]) == again[1] == Repeat(|columns|, RULE);
    forall j: nat | j < |columns| ensures !Removable(rules, again, j) {
      assert columns[j] in columns;
      StaysForGood(rules, rows, columns, j);
    }
    AllStay(rules, again, |columns|);
    hide CutRows, Select, Exactly;
  }

  // ---------- cleaning the lines of a text twice ----------

  predicate AllTableLines(block: seq<string>) {
    forall i :: 0 <= i < |block| ==> IsTableLine(block[i])
  }

  /** Lines that do not go on with a table. */
  predicate Apart(lines: seq<string>) {
    lines != [] ==> !IsTableLine(lines[0])
  }

  lemma {:induction false} RunEndAt(lines: seq<string>, i: nat, e: nat)
    requires i <= e <= |lines| && (forall k :: i <= k < e ==> IsTableLine(lines[k])) && (e < |lines| ==> !IsTableLine(lines[e]))
    ensures RunEnd(lines, i) == e
    decreases e - i
  {
    hide IsTableLine;
    if i < e { RunEndAt(lines, i + 1, e); }
  }

  /** A block and what stands apart from it are cleaned separately. */
  lemma BlockThenRest(rules: Rules, block: seq<string>, rest: seq<string>)
    requires AllTableLines(block) && Apart(rest)
    ensures CleanLines(rules, block + rest) == (if block == [] then [] else CleanBlock(rules, block)) + CleanLines(rules, rest)
  {
    hide IsTableLine, CleanBlock;
    var lines := block + rest;
    if block == [] {
      assert lines == rest;
    } else {
      assert forall k :: 0 <= k < |block| ==> lines[k] == block[k];
      assert |block| < |lines| ==> lines[|block|] == rest[0];
      RunEndAt(lines, 1, |block|);
      assert lines[..|block|] == block && lines[|block|..] == rest;
    }
  }

  lemma CleanBlockLines(rules: Rules, block: seq<string>)
    requires AllTableLines(block) && Unbroken(block)
    ensures AllTableLines(CleanBlock(rules, block)) && Unbroken(CleanBlock(rules, block))
  {
    hide SplitRow, IsSeparatorRow, CleanBlock, CutRows, CutLines, Staying, IsTableLine, NoBreak, Clean;
    CleanBlockCases(rules, block);
    RowsClean(block);
    if Cut(rules, block) { CutReads(SplitRows(block), ColumnsOf(rules, block)); }
  }

  /** The lines fall into a first table block, possibly empty, and the rest. */
  lemma FirstBlock(rules: Rules, lines: seq<string>) returns (block: seq<string>, rest: seq<string>)
    requires Unbroken(lines)
    ensures lines == block + rest && AllTableLines(block) && Apart(rest) && Unbroken(block) && Unbroken(rest)
    ensures lines != [] && block == [] ==> !IsTableLine(lines[0])
  {
    hide IsTableLine, NoBreak;
    var e := RunEnd(lines, 0);
    block, rest := lines[..e], lines[e..];
  }

  lemma {:induction false} CleanLinesApart(rules: Rules, lines: seq<string>)
    requires Apart(lines)
    ensures Apart(CleanLines(rules, lines))
  {
    hide IsTableLine;
  }

  lemma {:induction false} CleanLinesUnbroken(rules: Rules, lines: seq<string>)
    requires Unbroken(lines)
    ensures Unbroken(CleanLines(rules, lines))
    decreases |lines|
  {
    hide IsTableLine, NoBreak, CleanBlock;
    if lines != [] {
      var block, rest := FirstBlock(rules, lines);
      if block != [] {
        BlockThenRest(rules, block, rest);
        CleanBlockLines(rules, block);
        CleanLinesUnbroken(rules, rest);
      } else {
        CleanLinesUnbroken(rules, lines[1..]);
      }
    }
  }

  /** Cleaning lines twice is cleaning them once. */
  lemma {:induction false} LinesIdempotent(rules: Rules, lines: seq<string>)
    requires Sane(rules) && Unbroken(lines)
    ensures CleanLines(rules, CleanLines(rules, lines)) == CleanLines(rules, lines)
    decreases |lines|
  {
    hide IsTableLine, NoBreak, CleanBlock, Sane;
    if lines != [] {
      var block, rest := FirstBlock(rules, lines);
      if block != [] {
        var cut, done := CleanBlock(rules, block), CleanLines(rules, rest);
        BlockThenRest(rules, block, rest);
        CleanBlockLines(rules, block);
        BlockIdempotent(rules, block);
        LinesIdempotent(rules, rest);
        CleanLinesApart(rules, rest);
        BlockThenRest(rules, cut, done);
      } else {
        LinesIdempotent(rules, lines[1..]);
        assert ([lines[0]] + CleanLines(rules, lines[1..]))[1..] == CleanLines(rules, lines[1..]);
      }
    }
  }

  // ---------- cleaning a text twice ----------

  /** Lines that do not go on with the table before them are cleaned apart from it. */
  lemma {:induction false} PartsApart(rules: Rules, lines: seq<string>, rest: seq<string>)
    requires Unbroken(lines) && Apart(rest)
    ensures CleanLines(rules, lines + rest) == CleanLines(rules, lines) + CleanLines(rules, rest)
    decreases |lines|
  {
    hide IsTableLine, NoBreak, CleanBlock, CleanLines;
    if lines == [] {
      assert lines + rest == rest;
      EmptyLines(rules);
    } else {
      var block, tail := FirstBlock(rules, lines);
      if block != [] {
        PartsApart(rules, tail, rest);
        BlockApart(rules, block, tail, rest);
      } else {
        PartsApart(rules, lines[1..], rest);
        LineApart(rules, lines, rest);
      }
    }
  }

  lemma BlockApart(rules: Rules, block: seq<string>, tail: seq<string>, rest: seq<string>)
    requires AllTableLines(block) && block != [] && Apart(tail) && Apart(rest)
    requires CleanLines(rules, tail + rest) == CleanLines(rules, tail) + CleanLines(rules, rest)
    ensures CleanLines(rules, block + tail + rest) == CleanLines(rules, block + tail) + CleanLines(rules, rest)
  {
    hide IsTableLine, CleanBlock, CleanLines, AllTableLines;
    BlockThenRest(rules, block, tail);
    assert block + tail + rest == block + (tail + rest);
    BlockThenRest(rules, block, tail + rest);
  }

  lemma LineApart(rules: Rules, lines: seq<string>, rest: seq<string>)
    requires lines != [] && !IsTableLine(lines[0])
    requires CleanLines(rules, lines[1..] + rest) == CleanLines(rules, lines[1..]) + CleanLines(rules, rest)
    ensures CleanLines(rules, lines + rest) == CleanLines(rules, lines) + CleanLines(rules, rest)
  {
    hide IsTableLine, CleanBlock;
    assert (lines + rest)[0] == lines[0] && (lines + rest)[1..] == lines[1..] + rest;
  }

  lemma EmptyLines(rules: Rules)
    ensures CleanLines(rules, []) == []
  {
  }

  /** A last line that is no table line is cleaned apart from the others. */
  lemma LastLineApart(rules: Rules, lines: seq<string>, last: string)
    requires Unbroken(lines) && !IsTableLine(last)
    ensures CleanLines(rules, lines + [last]) == CleanLines(rules, lines) + [last]
  {
    hide IsTableLine, NoBreak, CleanBlock;
    PartsApart(rules, lines, [last]);
    OneLine(rules, last);
  }

  lemma OneLine(rules: Rules, line: string)
    requires !IsTableLine(line)
    ensures CleanLines(rules, [line]) == [line]
  {
    hide IsTableLine, CleanBlock;
    assert [line][1..] == [];
  }

  predicate EndsWithNewline(s: string) {
    s != "" && s[|s| - 1] == '\n'
  }

  lemma {:induction false} UnlinesEnds(lines: seq<string>)
    requires Unbroken(lines)
    ensures EndsWithNewline(Unlines(lines)) <==> |lines| > 1 && lines[|lines| - 1] == ""
    ensures |lines| > 1 && lines[|lines| - 1] == "" ==> Unlines(lines) == Unlines(lines[..|lines| - 1]) + "\n"
    decreases |lines|
  {
    if |lines| == 1 {
      assert NoBreak(lines[0]);
    } else if |lines| > 1 {
      UnlinesEnds(lines[1..]);
      assert lines[1..][|lines| - 2] == lines[|lines| - 1];
      assert Unlines(lines) == lines[0] + "\n" + Unlines(lines[1..]);
      assert lines[1..][..|lines| - 2] == lines[..|lines| - 1][1..];
    }
  }

  /** What cleaning a second time does: nothing, except that a final newline of the cleaned text goes. */
  lemma CleaningTwice(rules: Rules, text: string)
    requires Sane(rules)
    ensures var once := Cleaned(rules, text);
            Cleaned(rules, once) == if EndsWithNewline(once) then once[..|once| - 1] else once
  {
    hide IsTableLine, CleanLines, Lines, Unlines, EndsWithNewline, Sane, NoBreak;
    var out := CleanLines(rules, Lines(text));
    LinesUnbroken(text);
    CleanLinesUnbroken(rules, Lines(text));
    LinesIdempotent(rules, Lines(text));
    LinesOfUnlines(out);
    UnlinesEnds(out);
    if out != [] && out[|out| - 1] == "" {
      var front := out[..|out| - 1];
      assert out == front + [""];
      BlankLine();
      LastLineApart(rules, front, "");
      assert CleanLines(rules, front) == front by {
        assert (CleanLines(rules, front) + [""])[..|CleanLines(rules, front)|] == CleanLines(rules, front);
      }
      OnlyBlank(front);
    }
  }

  lemma BlankLine()
    ensures !IsTableLine("")
  {
  }

  lemma OnlyBlank(front: seq<string>)
    ensures front == [] ==> Unlines(front + [""]) == "" == Unlines(front)
  {
  }

  // ---------- when cleaning twice is cleaning once ----------

  /** A table that vanishes whole: every column is an empty citation column. */
  predicate Vanishes(rules: Rules, block: seq<string>) {
    IsTable(block) && forall c: nat :: c < |SplitRow(block[0])| ==> Removable(rules, SplitRows(block), c)
  }

  lemma {:induction false} NoneStay(rules: Rules, rows: seq<seq<string>>, n: nat)
    requires |rows| >= 2 && n <= |rows[0]|
    requires forall c: nat :: c < n ==> Removable(rules, rows, c)
    ensures Staying(rules, rows, n) == []
    decreases n
  {
    hide Removable;
    if n > 0 { NoneStay(rules, rows, n - 1); }
  }

  lemma VanishingBlock(rules: Rules, block: seq<string>)
    requires block != []
    ensures CleanBlock(rules, block) == [] <==> Vanishes(rules, block)
  {
    hide SplitRow, IsSeparatorRow, Removable, FormatRow, BodyLines, Repeat, Select, Staying;
    if IsTable(block) {
      var rows, n := SplitRows(block), |SplitRow(block[0])|;
      StayingLaws(rules, rows, n);
      if Vanishes(rules, block) { NoneStay(rules, rows, n); }
    }
  }

  /** Where the last run of table lines starts; the number of lines if the last line is none. */
  function LastTable(lines: seq<string>): (i: nat)
    ensures i <= |lines|
    ensures AllTableLines(lines[i..]) && (i > 0 ==> !IsTableLine(lines[i - 1]))
  {
    if lines == [] || !IsTableLine(lines[|lines| - 1]) then |lines| else LastTable(lines[..|lines| - 1])
  }

  /** The lines without a last table that vanishes. */
  function WithoutVanishing(rules: Rules, lines: seq<string>): seq<string> {
    var i := LastTable(lines);
    if i < |lines| && Vanishes(rules, lines[i..]) then lines[..i] else lines
  }

  /** Something is left of these lines: they are not empty, and not one table that vanishes whole. */
  predicate Shows(rules: Rules, lines: seq<string>) {
    lines != [] && !(AllTableLines(lines) && Vanishes(rules, lines))
  }

  /** A text that loses a newline in a second pass: short of a last table that vanishes, it ends with a
      blank line that has something before it. */
  predicate LosesBlankLine(rules: Rules, lines: seq<string>) {
    var rest := WithoutVanishing(rules, lines);
    rest != [] && rest[|rest| - 1] == "" && Shows(rules, rest[..|rest| - 1])
  }

  lemma ShowsSomething(rules: Rules, lines: seq<string>)
    requires Unbroken(lines)
    ensures CleanLines(rules, lines) != [] <==> Shows(rules, lines)
  {
    hide IsTableLine, NoBreak, CleanBlock, Vanishes;
    if lines != [] {
      var block, rest := FirstBlock(rules, lines);
      BlockThenRest(rules, block, rest);
      if block != [] { VanishingBlock(rules, block); }
      if rest == [] {
        assert block == lines;
      } else {
        assert !IsTableLine(lines[|block|]);
        assert CleanLines(rules, rest) != [];
      }
    }
  }

  /** How the cleaned lines end, told from the lines short of a last table that vanishes. */
  predicate EndsAs(rules: Rules, rest: seq<string>, out: seq<string>) {
    if rest == [] then out == []
    else if IsTableLine(rest[|rest| - 1]) then out != [] && IsTableLine(out[|out| - 1])
    else out == CleanLines(rules, rest[..|rest| - 1]) + [rest[|rest| - 1]]
  }

  /** What the cleaned lines end with. */
  lemma LastCleaned(rules: Rules, lines: seq<string>)
    requires Unbroken(lines)
    ensures EndsAs(rules, WithoutVanishing(rules, lines), CleanLines(rules, lines))
  {
    hide IsTableLine, NoBreak, CleanBlock, Vanishes, CleanLines, LastTable, Unbroken, AllTableLines, EndsAs;
    var i := LastTable(lines);
    var front, table := lines[..i], lines[i..];
    TwoParts(lines, i);
    LastBlock(rules, table);
    FrontThenTable(rules, front, table);
    if table != [] && !Vanishes(rules, table) {
      EndsInTable(rules, lines, i);
    } else {
      EndsInLine(rules, front);
      NothingAdded(CleanLines(rules, front));
    }
  }

  lemma NothingAdded(lines: seq<string>)
    ensures lines + [] == lines
  {
  }

  lemma TwoParts(lines: seq<string>, i: nat)
    requires i <= |lines| && Unbroken(lines)
    ensures lines == lines[..i] + lines[i..] && Unbroken(lines[..i]) && Unbroken(lines[i..])
    ensures i == |lines| ==> lines[..i] == lines
  {
    hide NoBreak;
  }

  lemma EndsInTable(rules: Rules, lines: seq<string>, i: nat)
    requires i < |lines| && AllTableLines(lines[i..])
    requires CleanLines(rules, lines) == CleanLines(rules, lines[..i]) + CleanLines(rules, lines[i..])
    requires var out := CleanLines(rules, lines[i..]); out != [] && IsTableLine(out[|out| - 1])
    ensures EndsAs(rules, lines, CleanLines(rules, lines))
  {
    hide CleanLines;
    var table := lines[i..];
    assert IsTableLine(table[|table| - 1]);
    assert lines[|lines| - 1] == table[|table| - 1];
    hide IsTableLine;
  }

  lemma EndsInLine(rules: Rules, front: seq<string>)
    requires Unbroken(front) && (front != [] ==> !IsTableLine(front[|front| - 1]))
    ensures EndsAs(rules, front, CleanLines(rules, front))
  {
    hide IsTableLine, NoBreak, CleanLines;
    EndsApart(rules, front);
  }

  lemma EndsApart(rules: Rules, front: seq<string>)
    requires Unbroken(front) && (front != [] ==> !IsTableLine(front[|front| - 1]))
    ensures front == [] ==> CleanLines(rules, front) == []
    ensures front != [] ==> CleanLines(rules, front) == CleanLines(rules, front[..|front| - 1]) + [front[|front| - 1]]
  {
    hide IsTableLine, NoBreak, CleanBlock, CleanLines;
    if front == [] {
      EmptyLines(rules);
    } else {
      var f, last := front[..|front| - 1], front[|front| - 1];
      assert front == f + [last];
      LastLineApart(rules, f, last);
    }
  }

  lemma FrontThenTable(rules: Rules, front: seq<string>, table: seq<string>)
    requires Unbroken(front) && (front != [] ==> !IsTableLine(front[|front| - 1]))
    ensures CleanLines(rules, front + table) == CleanLines(rules, front) + CleanLines(rules, table)
  {
    hide IsTableLine, NoBreak, CleanBlock, CleanLines;
    if front == [] {
      assert front + table == table;
      EmptyLines(rules);
    } else {
      var f, last := front[..|front| - 1], front[|front| - 1];
      assert front == f + [last];
      LineThenTable(rules, f, last, table);
      LastLineApart(rules, f, last);
    }
  }

  lemma LastBlock(rules: Rules, table: seq<string>)
    requires Unbroken(table) && AllTableLines(table)
    ensures var out := CleanLines(rules, table);
            if table != [] && !Vanishes(rules, table) then out != [] && IsTableLine(out[|out| - 1]) else out == []
  {
    hide IsTableLine, NoBreak, CleanBlock, Vanishes, CleanLines;
    EmptyLines(rules);
    if table != [] {
      CleanBlockLines(rules, table);
      VanishingBlock(rules, table);
      BlockThenRest(rules, table, []);
      assert table + [] == table;
    }
  }

  lemma LineThenTable(rules: Rules, f: seq<string>, last: string, table: seq<string>)
    requires Unbroken(f) && !IsTableLine(last)
    ensures CleanLines(rules, f + [last] + table) == CleanLines(rules, f) + [last] + CleanLines(rules, table)
  {
    hide IsTableLine, NoBreak, CleanBlock;
    assert f + [last] + table == f + ([last] + table);
    PartsApart(rules, f, [last] + table);
    assert ([last] + table)[1..] == table;
  }

  lemma EndsWithNewlineWhen(rules: Rules, text: string)
    ensures EndsWithNewline(Cleaned(rules, text)) <==> LosesBlankLine(rules, Lines(text))
  {
    hide IsTableLine, CleanLines, Lines, Unlines, EndsWithNewline, NoBreak, WithoutVanishing, Shows;
    var lines := Lines(text);
    var out := CleanLines(rules, lines);
    var rest := WithoutVanishing(rules, lines);
    LinesUnbroken(text);
    CleanLinesUnbroken(rules, lines);
    UnlinesEnds(out);
    LastCleaned(rules, lines);
    BlankLine();
    if rest != [] {
      KeepsUnbroken(rules, lines);
      ShowsSomething(rules, rest[..|rest| - 1]);
    }
  }

  lemma KeepsUnbroken(rules: Rules, lines: seq<string>)
    requires Unbroken(lines)
    ensures Unbroken(WithoutVanishing(rules, lines))
  {
    hide NoBreak, Vanishes, LastTable;
  }

  /** Cleaning twice equals cleaning once exactly when the text, short of a last table that vanishes
      whole, does not end with a blank line that has something before it. */
  lemma IdempotentExactly(rules: Rules, text: string)
    requires Sane(rules)
    ensures Cleaned(rules, Cleaned(rules, text)) == Cleaned(rules, text) <==> !LosesBlankLine(rules, Lines(text))
  {
    CleaningTwice(rules, text);
    EndsWithNewlineWhen(rules, text);
    hide Cleaned, LosesBlankLine, Lines;
  }

  /** So it is not idempotent on every text: a text that ends with a blank line loses it step by step. */
  lemma NotIdempotent(rules: Rules)
    ensures Cleaned(rules, "a\n\n") == "a\n" && Cleaned(rules, "a\n") == "a"
  {
    hide IsTableLine, CleanBlock;
    NoTables(rules);
    BlankBetween();
    assert Lines("a\n") == ["a"] by {
      assert FirstBreak("a\n", 0) == 1;
      assert "a\n"[2..] == "" && "a\n"[..1] == "a";
    }
  }

  lemma BlankBetween()
    ensures Lines("a\n\n") == ["a", ""]
  {
    assert Lines("\n") == [""] by { assert "\n"[1..] == ""; }
    assert FirstBreak("a\n\n", 0) == 1;
    assert "a\n\n"[2..] == "\n" && "a\n\n"[..1] == "a";
  }

  lemma NoTables(rules: Rules)
    ensures CleanLines(rules, ["a"]) == ["a"] && CleanLines(rules, ["a", ""]) == ["a", ""]
  {
    assert !IsTableLine("a") && !IsTableLine("");
    hide IsTableLine;
    assert ["a"][1..] == [] && ["a", ""][1..] == [""] && [""][1..] == [];
  }

  /** Nor is a final newline in the text needed: a blank line before a last table that vanishes whole
      is lost as well. */
  lemma NotIdempotentBeforeTable(rules: Rules)
    requires rules.citation("C")
    ensures Cleaned(rules, "a\n\n| C |\n| --- |") == "a\n" && Cleaned(rules, "a\n") == "a"
  {
    hide CleanLines, Lines, FormatRow, Unlines;
    var table := BareTable();
    TextOfTable();
    NotIdempotent(rules);
    TableGone(rules);
    UnbrokenTable();
    LinesOfUnlines(["a", ""] + table);
    BlankEnd();
  }

  function BareTable(): seq<string> {
    [FormatRow(["C"]), FormatRow([RULE])]
  }

  lemma BlankEnd()
    ensures Unlines(["a", ""]) == "a\n"
  {
  }

  lemma TableGone(rules: Rules)
    requires rules.citation("C")
    ensures CleanLines(rules, ["a", ""] + BareTable()) == ["a", ""]
  {
    hide CleanLines, CleanBlock, Vanishes, IsTableLine, NoBreak, FormatRow;
    var table := BareTable();
    BareTableVanishes(rules);
    UnbrokenTable();
    LastBlock(rules, table);
    NoTables(rules);
    BlankLine();
    assert ["a"] + [""] == ["a", ""];
    LineThenTable(rules, ["a"], "", table);
  }

  lemma UnbrokenTable()
    ensures AllTableLines(BareTable()) && Unbroken(BareTable()) && Unbroken(["a"]) && Unbroken(["a", ""] + BareTable())
  {
    hide FormatRow, IsTableLine, SplitRow;
    RuleSeparates();
    assert NoBreak("a") && NoBreak("") && NoBreak("C") && NoBreak(RULE);
    SplitUndoesFormat(["C"]);
    SplitUndoesFormat([RULE]);
    FormatNoBreak(["C"]);
    FormatNoBreak([RULE]);
    hide NoBreak;
  }

  lemma BareTableVanishes(rules: Rules)
    requires rules.citation("C")
    ensures Vanishes(rules, BareTable())
  {
    hide FormatRow, SplitRow, IsTableLine, IsSeparatorCell;
    RuleSeparates();
    SplitUndoesFormat(["C"]);
    SplitUndoesFormat([RULE]);
    var rows := SplitRows(BareTable());
    assert rows == [["C"], [RULE]];
  }

  lemma TextOfTable()
    ensures Unlines(["a", ""] + BareTable()) == "a\n\n| C |\n| --- |"
    ensures (["a", ""] + BareTable())[3] != ""
  {
    assert FormatRow(["C"]) == "| C |" && FormatRow([RULE]) == "| --- |";
    var all := ["a", "", "| C |", "| --- |"];
    assert ["a", ""] + BareTable() == all;
    assert all[1..] == ["", "| C |", "| --- |"];
    assert all[1..][1..] == ["| C |", "| --- |"];
    assert all[1..][1..][1..] == ["| --- |"];
  }
}
