/** Printing a table as Markdown and reading it back (mas/exporters.py). */
module MarkdownTable {
  import opened Collections
  import opened Text
  import opened Tables

  // ---------- printing ----------

  function Replace(s: string, c: char, d: char): string {
    seq(|s|, i requires 0 <= i < |s| => if s[i] == c then d else s[i])
  }

  /** `_table_cell`; `redact` stands for the redaction of unsafe strings, which is not modelled. */
  function TableCell(redact: string -> string, value: Option<string>): string {
    Strip(Replace(Replace(redact(if value.Some? then value.value else ""), '\n', ' '), '|', '/'))
  }

  function CleanRow(redact: string -> string, row: seq<Option<string>>): seq<string> {
    seq(|row|, i requires 0 <= i < |row| => TableCell(redact, row[i]))
  }

  function Width<T>(rows: seq<seq<T>>): nat {
    if rows == [] then 0
    else
      var w := Width(rows[..|rows| - 1]);
      if |rows[|rows| - 1]| > w then |rows[|rows| - 1]| else w
  }

  lemma {:induction false} WidthBounds<T>(rows: seq<seq<T>>)
    ensures forall i :: 0 <= i < |rows| ==> |rows[i]| <= Width(rows)
    ensures rows != [] ==> exists i :: 0 <= i < |rows| && |rows[i]| == Width(rows)
    decreases |rows|
  {
    if rows != [] {
      var n := |rows| - 1;
      WidthBounds(rows[..n]);
      if |rows[n]| <= Width(rows[..n]) && n > 0 {
        var i :| 0 <= i < n && |rows[..n][i]| == Width(rows[..n]);
        assert |rows[i]| == Width(rows);
      } else {
        assert |rows[n]| == Width(rows);
      }
    }
  }

  /** `row + [""] * (width - len(row))`. */
  function PadTo(row: seq<string>, width: nat): seq<string> {
    row + Repeat(if width > |row| then width - |row| else 0, "")
  }

  /** The rows as they are printed: every cell cleaned, every row padded to the widest. */
  function CleanRows(redact: string -> string, rows: seq<seq<Option<string>>>): seq<seq<string>> {
    seq(|rows|, i requires 0 <= i < |rows| => PadTo(CleanRow(redact, rows[i]), Width(rows)))
  }

  function FormatRows(rows: seq<seq<string>>): seq<string> {
    seq(|rows|, i requires 0 <= i < |rows| => FormatRow(rows[i]))
  }

  function TableLines(clean: seq<seq<string>>): seq<string>
    requires clean != []
  {
    [FormatRow(clean[0]), FormatRow(Repeat(|clean[0]|, RULE))] + FormatRows(clean[1..])
  }

  /** `_markdown_table`. */
  function MarkdownTable(redact: string -> string, rows: seq<seq<Option<string>>>): string {
    if rows == [] then "" else Unlines(TableLines(CleanRows(redact, rows)))
  }

  // ---------- reading ----------

  /** `_normalize_markdown_line`: a quotation mark at the start goes. */
  function NormalizeLine(line: string): string {
    var v := Strip(line);
    if v == ">" then "" else if v != "" && v[0] == '>' then LStrip(v[1..]) else v
  }

  function StripPipes(s: string): string
    decreases |s|
  {
    if s == "" then ""
    else if s[0] == '|' then StripPipes(s[1..])
    else if s[|s| - 1] == '|' then StripPipes(s[..|s| - 1])
    else s
  }

  /** Inline code between backticks loses its backticks. */
  function Unquote(s: string): string
    decreases |s|
  {
    var i := Find(s, '`', 0);
    if i < 0 then s
    else
      var j := Find(s, '`', i + 1);
      if j < 0 then s
      else if j == i + 1 then s[..j] + Unquote(s[j..])
      else s[..i] + s[i + 1..j] + Unquote(s[j + 1..])
  }

  /** Occurrences of the character doubled go, from the left. */
  function DropDoubled(s: string, c: char): string {
    if |s| >= 2 && s[0] == c && s[1] == c then DropDoubled(s[2..], c)
    else if s == "" then "" else [s[0]] + DropDoubled(s[1..], c)
  }

  /** `_strip_inline_markdown`. */
  function StripInline(s: string): string {
    Strip(DropDoubled(DropDoubled(Unquote(s), '*'), '_'))
  }

  /** `_split_table_row`. */
  function SplitTableRow(line: string): seq<string> {
    Map(StripInline, Map(Strip, SplitAt(StripPipes(Strip(line)), '|')))
  }

  predicate Separates(cell: string) {
    IsSeparatorCell(Strip(cell))
  }

  predicate SeparatorCells(cells: seq<string>) {
    cells != [] && forall i :: 0 <= i < |cells| ==> Separates(cells[i])
  }

  predicate BlankCells(cells: seq<string>) {
    forall i :: 0 <= i < |cells| ==> Strip(cells[i]) == ""
  }

  /** Body rows that are rules or blank are left out; the others are padded. */
  function KeptRows(rows: seq<seq<string>>, width: nat): seq<seq<string>> {
    if rows == [] then []
    else
      var n := |rows| - 1;
      KeptRows(rows[..n], width)
      + if SeparatorCells(rows[n]) || BlankCells(PadTo(rows[n], width)) then [] else [PadTo(rows[n], width)]
  }

  /** `_normalize_render_table_rows`. */
  function NormalizeRows(rows: seq<seq<string>>): seq<seq<string>> {
    if rows == [] then [] else [PadTo(rows[0], Width(rows))] + KeptRows(rows[1..], Width(rows))
  }

  function CellLine(line: string): string {
    Strip(NormalizeLine(line))
  }

  /** The first line from `i` on without a cell boundary. */
  function TableEnd(lines: seq<string>, i: nat): (e: nat)
    requires i <= |lines|
    ensures i <= e <= |lines|
    decreases |lines| - i
  {
    if i == |lines| || '|' !in CellLine(lines[i]) then i else TableEnd(lines, i + 1)
  }

  function SplitLines(lines: seq<string>): seq<seq<string>> {
    seq(|lines|, i requires 0 <= i < |lines| => SplitTableRow(CellLine(lines[i])))
  }

  predicate OpensTable(lines: seq<string>, start: nat) {
    && start + 1 < |lines| && '|' in CellLine(lines[start])
    && SeparatorCells(SplitTableRow(CellLine(lines[start + 1])))
  }

  /** `_consume_table`: the rows of the table that starts there, and where it ends. */
  method ConsumeTable(lines: seq<string>, start: nat) returns (table: Option<(seq<seq<string>>, nat)>)
    ensures table == Consumed(lines, start)
  {
    hide CellLine, SplitTableRow, SeparatorCells, NormalizeRows;
    if start + 1 >= |lines| { return None; }
    var first, second := CellLine(lines[start]), CellLine(lines[start + 1]);
    if '|' !in first || !SeparatorCells(SplitTableRow(second)) { return None; }
    var rows := [SplitTableRow(first)];
    var idx := start + 2;
    while idx < |lines|
      invariant start + 2 <= idx <= |lines|
      invariant rows == [SplitTableRow(first)] + SplitLines(lines[start + 2..idx])
      invariant TableEnd(lines, start + 2) == TableEnd(lines, idx)
    {
      var line := CellLine(lines[idx]);
      if '|' !in line { break; }
      assert SplitLines(lines[start + 2..idx + 1]) == SplitLines(lines[start + 2..idx]) + [SplitTableRow(line)];
      rows := rows + [SplitTableRow(line)];
      idx := idx + 1;
    }
    table := Some((NormalizeRows(rows), idx));
  }

  function Consumed(lines: seq<string>, start: nat): Option<(seq<seq<string>>, nat)> {
    if !OpensTable(lines, start) then None
    else
      var e := TableEnd(lines, start + 2);
      Some((NormalizeRows([SplitTableRow(CellLine(lines[start]))] + SplitLines(lines[start + 2..e])), e))
  }

  /** Some cell is not a rule. */
  ghost predicate HasOtherCell(cells: seq<string>) {
    exists cell :: cell in cells && !IsSeparatorCell(Strip(cell))
  }

  /** Lines that do not open with a row and a rule make no table. */
  lemma NotATable(lines: seq<string>, start: nat)
    requires start + 1 >= |lines| || '|' !in CellLine(lines[start]) || HasOtherCell(SplitTableRow(CellLine(lines[start + 1])))
    ensures Consumed(lines, start) == None
  {
    hide CellLine, SplitTableRow, IsSeparatorCell, Strip;
  }

  // ---------- the round trip ----------

  /** A printed cell is trimmed and has no cell boundary in it. */
  lemma CleanCell(redact: string -> string, value: Option<string>)
    ensures Trimmed(TableCell(redact, value)) && '|' !in TableCell(redact, value)
  {
    var raw := Replace(Replace(redact(if value.Some? then value.value else ""), '\n', ' '), '|', '/');
    StripTrims(raw);
    StripKeepsOut(raw, '|');
  }

  /** What becomes of a character of a value in a cell. */
  function Shown(c: char): char {
    if c == '\n' then ' ' else if c == '|' then '/' else c
  }

  /** A printed cell is the value, each line feed a space and each pipe a slash, short of the spaces at
      either end; a missing value is shown as an empty one. */
  lemma CellContent(redact: string -> string, value: Option<string>) returns (from: nat)
    ensures var raw := redact(if value.Some? then value.value else ""); var cell := TableCell(redact, value);
            && from + |cell| <= |raw|
            && (forall i :: 0 <= i < |cell| ==> cell[i] == Shown(raw[from + i]))
            && (forall i :: 0 <= i < |raw| && (i < from || i >= from + |cell|) ==> IsSpace(Shown(raw[i])))
  {
    var raw := redact(if value.Some? then value.value else "");
    var t := Replace(Replace(raw, '\n', ' '), '|', '/');
    ShownText(raw);
    assert TableCell(redact, value) == Strip(t);
    hide *;
    from := StripSpaces(t);
  }

  lemma ShownText(raw: string)
    ensures var t := Replace(Replace(raw, '\n', ' '), '|', '/');
            |t| == |raw| && forall i :: 0 <= i < |raw| ==> t[i] == Shown(raw[i])
  {
  }

  lemma StripSpaces(t: string) returns (from: nat)
    ensures from + |Strip(t)| <= |t| && forall i :: 0 <= i < |Strip(t)| ==> Strip(t)[i] == t[from + i]
    ensures forall i :: 0 <= i < |t| && (i < from || i >= from + |Strip(t)|) ==> IsSpace(t[i])
  {
    from := Skip(Space, t, 0);
    SkipStops(Space, t, 0);
    var l := LStrip(t);
    forall i | from + |Strip(t)| <= i < |t| ensures IsSpace(t[i]) { assert l[i - from] == t[i]; }
    forall i | 0 <= i < from ensures IsSpace(t[i]) { assert In(t[i], Space); }
  }

  /** A printed row has the width of the widest, its own cells first and empty ones behind. */
  lemma RowsPadded(redact: string -> string, rows: seq<seq<Option<string>>>, i: nat)
    requires i < |rows|
    ensures var row := CleanRows(redact, rows)[i];
            && |row| == Width(rows) && |rows[i]| <= |row|
            && (forall k :: 0 <= k < |rows[i]| ==> row[k] == TableCell(redact, rows[i][k]))
            && (forall k :: |rows[i]| <= k < |row| ==> row[k] == "")
  {
    WidthBounds(rows);
    hide TableCell, Width;
  }

  // ---------- inline markdown ----------

  lemma FindAt(s: string, c: char, i: nat, k: nat)
    requires i <= k < |s| && s[k] == c && forall x :: i <= x < k ==> s[x] != c
    ensures Find(s, c, i) == k
  {
  }

  /** Code between backticks loses them; an empty pair is none. */
  lemma InlineCode(a: string, b: string, rest: string)
    requires '`' !in a && '`' !in b
    ensures b != "" ==> Unquote(a + "`" + b + "`" + rest) == a + b + Unquote(rest)
    ensures b == "" ==> Unquote(a + "``" + rest) == a + "`" + Unquote("`" + rest)
  {
    var s := a + "`" + b + "`" + rest;
    var i, j := |a|, |a| + 1 + |b|;
    forall x | 0 <= x < i ensures s[x] != '`' { assert s[x] == a[x]; }
    forall x | i + 1 <= x < j ensures s[x] != '`' { assert s[x] == b[x - i - 1]; }
    FindAt(s, '`', 0, i);
    FindAt(s, '`', i + 1, j);
    assert s[..i] == a && s[i + 1..j] == b && s[j + 1..] == rest;
    if b == "" {
      assert s == a + "``" + rest;
      assert s[..j] == a + "`" && s[j..] == "`" + rest;
    }
  }

  lemma {:induction false} DropMarks(a: string, c: char, rest: string)
    requires c !in a
    ensures DropDoubled(a + [c, c] + rest, c) == a + DropDoubled(rest, c)
    decreases |a|
  {
    var s := a + [c, c] + rest;
    if a == "" {
      assert s[2..] == rest;
    } else {
      assert s[0] == a[0] && s[1..] == a[1..] + [c, c] + rest;
      DropMarks(a[1..], c, rest);
      assert a == [a[0]] + a[1..];
    }
  }

  lemma Undoubled(a: string, c: char)
    requires c !in a
    ensures DropDoubled(a, c) == a
  {
    NothingDoubled(a, c);
  }

  /** A cell set in bold, by either mark, or as code reads as its text. */
  lemma MarkedCell(t: string)
    requires t != "" && Trimmed(t) && '`' !in t && '*' !in t && '_' !in t
    ensures StripInline("**" + t + "**") == t && StripInline("__" + t + "__") == t && StripInline("`" + t + "`") == t
  {
    TrimmedStrip(t);
    Undoubled(t, '*');
    Undoubled(t, '_');
    hide Strip, DropDoubled, Unquote;
    Bold(t, '*');
    Bold(t, '_');
    Code(t);
    assert "**" == ['*', '*'] && "__" == ['_', '_'];
    Undoubled("__" + t + "__", '*');
  }

  lemma Bold(t: string, c: char)
    requires '`' !in t && c !in t && c != '`'
    ensures Unquote([c, c] + t + [c, c]) == [c, c] + t + [c, c] && DropDoubled([c, c] + t + [c, c], c) == t
  {
    var s := [c, c] + t + [c, c];
    assert '`' !in s;
    NoTick(s);
    assert "" + [c, c] + (t + [c, c]) == s;
    assert t + [c, c] + "" == t + [c, c];
    DropMarks("", c, t + [c, c]);
    DropMarks(t, c, "");
  }

  lemma Code(t: string)
    requires '`' !in t && t != ""
    ensures Unquote("`" + t + "`") == t
  {
    InlineCode("", t, "");
    NoTick("");
    assert "" + "`" + t + "`" + "" == "`" + t + "`";
    assert "" + t + "" == t;
  }

  lemma NoTick(s: string)
    requires '`' !in s
    ensures Unquote(s) == s
  {
  }

  /** A quoted row reads like the row. */
  lemma QuotedRow(cells: seq<string>)
    requires Printable(cells)
    ensures SplitTableRow(CellLine("> " + FormatRow(cells))) == cells
  {
    RowRoundTrip(cells);
    RowIsNormal(cells);
    RowShape(cells);
    QuotedLine(FormatRow(cells));
    hide SplitTableRow, FormatRow, CellLine;
  }

  lemma QuotedLine(line: string)
    requires Trimmed(line) && line != "" && line[0] != '>'
    ensures CellLine("> " + line) == line
  {
    var s := "> " + line;
    TrimmedStrip(line);
    Unquoted(line);
    hide Strip, LStrip;
    assert NormalizeLine(s) == LStrip(s[1..]);
  }

  lemma Unquoted(line: string)
    requires Trimmed(line) && line != ""
    ensures var s := "> " + line; Strip(s) == s && s != ">" && s[0] == '>' && LStrip(s[1..]) == line
  {
    var s := "> " + line;
    assert s[0] == '>' && s[|s| - 1] == line[|line| - 1];
    hide Strip, LStrip;
    TrimmedStrip(s);
    assert s[1..] == " " + line;
    assert All(Space, " ");
    LStripPad(" ", line);
  }

  /** A row of cells as it is printed. */
  predicate Printable(cells: seq<string>) {
    && cells != [] && AllTrimmed(cells) && PipeFree(cells)
    && forall i :: 0 <= i < |cells| ==> StripInline(cells[i]) == cells[i]
  }

  lemma {:induction false} StripPipesInner(s: string)
    requires s != "" && s[0] != '|' && s[|s| - 1] != '|'
    ensures StripPipes("|" + s + "|") == s
  {
    var t := "|" + s + "|";
    var u := s + "|";
    assert t[0] == '|' && t[1..] == u;
    assert u[0] == s[0] && u[|u| - 1] == '|' && u[..|u| - 1] == s;
    assert StripPipes(s) == s;
    assert StripPipes(u) == StripPipes(s);
  }

  lemma RowIsNormal(cells: seq<string>)
    ensures CellLine(FormatRow(cells)) == FormatRow(cells) && '|' in FormatRow(cells)
  {
    RowShape(cells);
    NormalLine(Inner(cells), FormatRow(cells));
  }

  lemma NormalLine(inner: string, line: string)
    requires line == "|" + inner + "|" && Trimmed(line)
    ensures CellLine(line) == line && '|' in line
  {
    assert line[0] == '|';
    TrimmedStrip(line);
    hide Strip;
  }

  lemma InnerEnds(cells: seq<string>)
    ensures Inner(cells) != "" && Inner(cells)[0] != '|' && Inner(cells)[|Inner(cells)| - 1] != '|'
  {
    hide JoinWith;
  }

  /** Reading a printed row gives its cells back. */
  lemma RowRoundTrip(cells: seq<string>)
    requires Printable(cells)
    ensures SplitTableRow(CellLine(FormatRow(cells))) == cells
  {
    hide Strip, StripInline, StripPipes, SplitAt, Inner, CellLine, FormatRow, Padded, Trimmed;
    RowIsNormal(cells);
    RowShape(cells);
    TrimmedStrip(FormatRow(cells));
    InnerEnds(cells);
    StripPipesInner(Inner(cells));
    SplitInner(cells);
    PaddedStrips(cells);
    assert Map(StripInline, cells) == cells;
  }

  lemma RuleRow(n: nat)
    requires n > 0
    ensures Printable(Repeat(n, RULE)) && SeparatorCells(Repeat(n, RULE))
  {
    hide Strip, StripInline, IsSeparatorCell, Trimmed;
    RuleCell();
  }

  lemma RuleCell()
    ensures Trimmed(RULE) && '|' !in RULE && StripInline(RULE) == RULE && Separates(RULE)
  {
    hide Strip, StripInline, IsSeparatorCell;
    RuleSeparates();
    TrimmedStrip(RULE);
    PlainCell(RULE);
  }

  /** A trimmed cell with no backtick and no doubled asterisk or underscore has no inline markdown. */
  lemma PlainCell(s: string)
    requires Trimmed(s) && '`' !in s
    requires forall i :: 0 <= i < |s| - 1 ==> !(s[i] == s[i + 1] && (s[i] == '*' || s[i] == '_'))
    ensures StripInline(s) == s
  {
    assert Find(s, '`', 0) == -1;
    NothingDoubled(s, '*');
    NothingDoubled(s, '_');
    TrimmedStrip(s);
  }

  lemma {:induction false} NothingDoubled(s: string, c: char)
    requires forall i :: 0 <= i < |s| - 1 ==> !(s[i] == c && s[i + 1] == c)
    ensures DropDoubled(s, c) == s
    decreases |s|
  {
    if s != "" {
      assert |s| >= 2 ==> !(s[0] == c && s[0 + 1] == c);
      NothingDoubled(s[1..], c);
      assert s == [s[0]] + s[1..];
    }
  }

  /** Every cell of the table is printable: cleaned cells with no inline markdown and no line boundary. */
  predicate PrintableTable(clean: seq<seq<string>>) {
    forall i :: 0 <= i < |clean| ==> Printable(clean[i]) && NoBreak(FormatRow(clean[i]))
  }

  /** What reading keeps of a table's body. */
  function Kept(body: seq<seq<string>>): seq<seq<string>> {
    if body == [] then []
    else
      var n := |body| - 1;
      Kept(body[..n]) + if SeparatorCells(body[n]) || BlankCells(body[n]) then [] else [body[n]]
  }

  predicate SameWidth(rows: seq<seq<string>>, width: nat) {
    forall i :: 0 <= i < |rows| ==> |rows[i]| == width
  }

  lemma {:induction false} KeptOfWidth(rows: seq<seq<string>>, width: nat)
    requires SameWidth(rows, width)
    ensures KeptRows(rows, width) == Kept(rows)
    decreases |rows|
  {
    hide SeparatorCells, BlankCells;
    if rows != [] {
      KeptOfWidth(rows[..|rows| - 1], width);
      assert PadTo(rows[|rows| - 1], width) == rows[|rows| - 1];
    }
  }

  lemma NormalizeOfWidth(rows: seq<seq<string>>, width: nat)
    requires rows != [] && SameWidth(rows, width)
    ensures NormalizeRows(rows) == [rows[0]] + Kept(rows[1..])
  {
    WidthBounds(rows);
    assert Width(rows) == width;
    KeptOfWidth(rows[1..], width);
    hide Kept, KeptRows, Width;
    assert PadTo(rows[0], width) == rows[0];
  }

  /** Where a table that stands in other lines ends. */
  lemma {:induction false} TableEndAfter(lines: seq<string>, i: nat, rows: seq<seq<string>>)
    requires i + |rows| <= |lines| && lines[i..i + |rows|] == FormatRows(rows)
    requires i + |rows| < |lines| ==> '|' !in CellLine(lines[i + |rows|])
    ensures TableEnd(lines, i) == i + |rows|
    decreases |rows|
  {
    hide CellLine, FormatRow;
    if rows != [] {
      assert lines[i] == lines[i..i + |rows|][0] == FormatRow(rows[0]);
      RowIsNormal(rows[0]);
      assert lines[i + 1..i + |rows|] == FormatRows(rows)[1..] == FormatRows(rows[1..]);
      TableEndAfter(lines, i + 1, rows[1..]);
    }
  }

  lemma SplitPrinted(rows: seq<seq<string>>)
    requires PrintableTable(rows)
    ensures SplitLines(FormatRows(rows)) == rows
  {
    hide CellLine, FormatRow, SplitTableRow, Printable;
    forall i | 0 <= i < |rows| ensures SplitTableRow(CellLine(FormatRow(rows[i]))) == rows[i] {
      RowRoundTrip(rows[i]);
    }
  }

  /** Reading a printed table out of the lines it stands in gives its header and its body back, short
      of rules and blank rows in the body, and consumes exactly the table. */
  lemma TableReadsBack(before: seq<string>, clean: seq<seq<string>>, after: seq<string>)
    requires clean != [] && PrintableTable(clean) && SameWidth(clean, |clean[0]|)
    requires after != [] ==> '|' !in CellLine(after[0])
    ensures Consumed(before + TableLines(clean) + after, |before|)
         == Some(([clean[0]] + Kept(clean[1..]), |before| + |TableLines(clean)|))
  {
    hide CellLine, SplitTableRow, SeparatorCells, PrintableTable, Printable, Consumed, Kept, TableLines, TableEnd, SplitLines,
         SameWidth, OpensTable, NormalizeRows;
    var ls := TableLines(clean);
    var lines := before + ls + after;
    var start := |before|;
    LinesOfTable(clean);
    PrintableParts(clean);
    Stands(before, ls, after);
    Opens(lines, start, clean);
    Body(lines, start, clean);
    Rows(clean);
    ConsumedIs(lines, start, clean);
  }

  lemma Stands(before: seq<string>, ls: seq<string>, after: seq<string>)
    ensures var lines := before + ls + after; var e := |before| + |ls|;
            lines[|before|..e] == ls && (e < |lines| ==> after != [] && lines[e] == after[0])
  {
  }

  lemma LinesOfTable(clean: seq<seq<string>>)
    requires clean != []
    ensures |TableLines(clean)| == |clean| + 1 && TableLines(clean)[2..] == FormatRows(clean[1..])
    ensures |FormatRows(clean[1..])| == |clean| - 1
  {
    hide FormatRow;
  }

  lemma PrintableParts(clean: seq<seq<string>>)
    requires clean != [] && PrintableTable(clean)
    ensures Printable(clean[0]) && PrintableTable(clean[1..])
  {
    hide Printable, FormatRow;
  }

  lemma DropTwo(lines: seq<string>, start: nat, ls: seq<string>)
    requires |ls| >= 2 && start + |ls| <= |lines| && lines[start..start + |ls|] == ls
    ensures lines[start + 2..start + |ls|] == ls[2..]
  {
    assert lines[start..start + |ls|][2..] == lines[start + 2..start + |ls|];
  }

  lemma Opens(lines: seq<string>, start: nat, clean: seq<seq<string>>)
    requires clean != [] && Printable(clean[0])
    requires start + |clean| + 1 <= |lines| && lines[start..start + |clean| + 1] == TableLines(clean)
    ensures OpensTable(lines, start) && SplitTableRow(CellLine(lines[start])) == clean[0]
  {
    var rule := Repeat(|clean[0]|, RULE);
    RowIsNormal(clean[0]);
    RowRoundTrip(clean[0]);
    RuleRow(|clean[0]|);
    RowRoundTrip(rule);
    hide CellLine, FormatRow, SplitTableRow, SeparatorCells;
    var ls := TableLines(clean);
    assert ls[0] == lines[start] && ls[1] == lines[start + 1];
  }

  lemma Body(lines: seq<string>, start: nat, clean: seq<seq<string>>)
    requires clean != [] && PrintableTable(clean)
    requires start + |clean| + 1 <= |lines| && lines[start..start + |clean| + 1] == TableLines(clean)
    requires start + |clean| + 1 < |lines| ==> '|' !in CellLine(lines[start + |clean| + 1])
    ensures TableEnd(lines, start + 2) == start + |clean| + 1
    ensures SplitLines(lines[start + 2..start + |clean| + 1]) == clean[1..]
  {
    hide CellLine, FormatRow, SplitTableRow, PrintableTable, TableEnd, SplitLines, TableLines, FormatRows;
    var body := clean[1..];
    var ls := TableLines(clean);
    LinesOfTable(clean);
    PrintableParts(clean);
    DropTwo(lines, start, ls);
    TableEndAfter(lines, start + 2, body);
    SplitPrinted(body);
  }

  lemma Rows(clean: seq<seq<string>>)
    requires clean != [] && SameWidth(clean, |clean[0]|)
    ensures NormalizeRows([clean[0]] + clean[1..]) == [clean[0]] + Kept(clean[1..])
  {
    hide NormalizeRows, Kept;
    assert [clean[0]] + clean[1..] == clean;
    NormalizeOfWidth(clean, |clean[0]|);
  }

  lemma ConsumedIs(lines: seq<string>, start: nat, clean: seq<seq<string>>)
    requires clean != [] && OpensTable(lines, start) && SplitTableRow(CellLine(lines[start])) == clean[0]
    requires TableEnd(lines, start + 2) == start + |clean| + 1
    requires SplitLines(lines[start + 2..start + |clean| + 1]) == clean[1..]
    requires NormalizeRows([clean[0]] + clean[1..]) == [clean[0]] + Kept(clean[1..])
    ensures Consumed(lines, start) == Some(([clean[0]] + Kept(clean[1..]), start + |clean| + 1))
  {
    hide CellLine, SplitTableRow, NormalizeRows, Kept, TableEnd, SplitLines, OpensTable;
  }

  lemma CleanRowsLaws(redact: string -> string, rows: seq<seq<Option<string>>>)
    ensures var clean := CleanRows(redact, rows);
            && |clean| == |rows| && SameWidth(clean, Width(rows))
            && forall i :: 0 <= i < |clean| ==> AllTrimmed(clean[i]) && PipeFree(clean[i])
  {
    var clean := CleanRows(redact, rows);
    WidthBounds(rows);
    hide TableCell, Trimmed;
    forall i | 0 <= i < |rows| ensures AllTrimmed(clean[i]) && PipeFree(clean[i]) {
      forall k | 0 <= k < |clean[i]| ensures Trimmed(clean[i][k]) && '|' !in clean[i][k] {
        if k < |rows[i]| {
          CleanCell(redact, rows[i][k]);
          assert clean[i][k] == TableCell(redact, rows[i][k]);
        } else {
          assert clean[i][k] == "";
          EmptyIsTrimmed();
        }
      }
    }
  }

  lemma EmptyIsTrimmed()
    ensures Trimmed("")
  {
  }

  /** The cells of the cleaned table that reading needs to be plain: no inline markdown and no line boundary. */
  predicate PlainTable(clean: seq<seq<string>>) {
    forall i, k :: 0 <= i < |clean| && 0 <= k < |clean[i]| ==> StripInline(clean[i][k]) == clean[i][k] && NoBreak(clean[i][k])
  }

  /** No body row would be taken for a rule or a blank row. */
  predicate BodyShows(body: seq<seq<string>>) {
    forall i :: 0 <= i < |body| ==> !SeparatorCells(body[i]) && !BlankCells(body[i])
  }

  lemma {:induction false} KeptAll(body: seq<seq<string>>)
    ensures Kept(body) == body <==> BodyShows(body)
    ensures |Kept(body)| <= |body|
    decreases |body|
  {
    hide SeparatorCells, BlankCells;
    if body != [] {
      var n := |body| - 1;
      KeptAll(body[..n]);
      assert body == body[..n] + [body[n]];
    }
  }

  lemma {:induction false} RowNoBreak(cells: seq<string>)
    requires forall k :: 0 <= k < |cells| ==> NoBreak(cells[k])
    ensures NoBreak(JoinWith(" | ", cells)) && NoBreak(FormatRow(cells))
    decreases |cells|
  {
    if |cells| > 1 { RowNoBreak(cells[1..]); }
  }

  /** Table round trip: the lines of a printed table with at least one column and plain cells read back
      as the cleaned, padded rows, to the last line, exactly when no body row is blank or a rule. */
  lemma TableRoundTrip(redact: string -> string, rows: seq<seq<Option<string>>>)
    requires Width(rows) > 0 && PlainTable(CleanRows(redact, rows))
    ensures var clean := CleanRows(redact, rows); var lines := Lines(MarkdownTable(redact, rows));
            && |lines| == |rows| + 1
            && Consumed(lines, 0) == Some(([clean[0]] + Kept(clean[1..]), |lines|))
            && (Consumed(lines, 0) == Some((clean, |lines|)) <==> BodyShows(clean[1..]))
  {
    hide CleanRows, Printable, Consumed, Kept, AllTrimmed, PipeFree, PlainTable, BodyShows, Lines, Unlines, TableLines, FormatRow,
         PrintableTable;
    var clean := CleanRows(redact, rows);
    CleanRowsLaws(redact, rows);
    assert clean != [] && |clean[0]| == Width(rows);
    LinesOfTable(clean);
    PlainIsPrintable(clean, Width(rows));
    PrintedLines(clean);
    TableReadsBack([], clean, []);
    assert [] + TableLines(clean) + [] == TableLines(clean);
    KeptAll(clean[1..]);
    SameTail(clean, Kept(clean[1..]));
  }

  lemma SameTail(clean: seq<seq<string>>, kept: seq<seq<string>>)
    requires clean != []
    ensures [clean[0]] + kept == clean <==> kept == clean[1..]
  {
    assert ([clean[0]] + kept)[1..] == kept;
    assert [clean[0]] + clean[1..] == clean;
  }

  lemma PlainIsPrintable(clean: seq<seq<string>>, width: nat)
    requires width > 0 && SameWidth(clean, width) && PlainTable(clean)
    requires forall i :: 0 <= i < |clean| ==> AllTrimmed(clean[i]) && PipeFree(clean[i])
    ensures PrintableTable(clean)
  {
    hide StripInline, FormatRow, NoBreak, AllTrimmed, PipeFree;
    forall i | 0 <= i < |clean| ensures Printable(clean[i]) && NoBreak(FormatRow(clean[i])) {
      RowNoBreak(clean[i]);
    }
  }

  lemma RuleNoBreak()
    ensures NoBreak(RULE)
  {
  }

  /** The lines of a printed table are its rows. */
  lemma PrintedLines(clean: seq<seq<string>>)
    requires clean != [] && clean[0] != [] && PrintableTable(clean)
    ensures Lines(Unlines(TableLines(clean))) == TableLines(clean)
  {
    hide FormatRow, Printable, IsBreak, Lines, Unlines;
    var ls := TableLines(clean);
    var rule := Repeat(|clean[0]|, RULE);
    RuleNoBreak();
    RowNoBreak(rule);
    hide NoBreak;
    forall i | 0 <= i < |ls| ensures NoBreak(ls[i]) && ls[i] != "" {
      if i == 0 { RowIsNormal(clean[0]); }
      else if i == 1 { RowIsNormal(rule); }
      else { RowIsNormal(clean[i - 1]); assert ls[i] == FormatRow(clean[1..][i - 2]); }
    }
    LinesOfUnlines(ls);
  }

  /** A table without columns does not read back: its rule line shows no dashes. */
  lemma NoColumns(redact: string -> string, rows: seq<seq<Option<string>>>)
    requires rows != [] && Width(rows) == 0
    ensures Consumed(Lines(MarkdownTable(redact, rows)), 0) == None
  {
    hide CleanRows, SplitTableRow, CellLine, Lines, FormatRow, TableLines, Unlines, StripInline;
    var clean := CleanRows(redact, rows);
    CleanRowsLaws(redact, rows);
    BareLines(clean);
    PlainCell("");
    SameAsEmptyCell();
    RowIsNormal([""]);
    RowRoundTrip([""]);
    var ls := TableLines(clean);
    assert ls[|ls| - 1] != "";
    LinesOfUnlines(ls);
    NotDashes();
    assert SplitTableRow(CellLine(ls[1])) == [""] && !Separates([""][0]);
    assert MarkdownTable(redact, rows) == Unlines(ls);
  }

  lemma NotDashes()
    ensures !Separates("")
  {
  }

  lemma SameAsEmptyCell()
    ensures FormatRow([""]) == FormatRow([])
  {
  }

  lemma BareLines(clean: seq<seq<string>>)
    requires clean != [] && SameWidth(clean, 0)
    ensures var ls := TableLines(clean);
            |ls| >= 2 && Unbroken(ls) && forall i :: 0 <= i < |ls| ==> ls[i] == FormatRow([]) && ls[i] != ""
  {
    var bare := FormatRow([]);
    assert NoBreak(bare) && bare != "";
    hide FormatRow, NoBreak;
    var ls := TableLines(clean);
    assert Repeat(0, RULE) == [] && clean[0] == [];
    forall i | 0 <= i < |ls| ensures ls[i] == bare {
      if i > 1 { assert clean[1..][i - 2] == []; }
    }
  }
}
