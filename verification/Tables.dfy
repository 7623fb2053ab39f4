/** Lines, cells and rows of Markdown tables (GitHub Flavored Markdown, section 4.10), as both table
    readers of mas/exporters.py take them apart. */
module Tables {
  import opened Collections
  import opened Text

  // ---------- trimming ----------

  /** Nothing for `str.strip` to remove. */
  predicate Trimmed(s: string) {
    s == "" || (!IsSpace(s[0]) && !IsSpace(s[|s| - 1]))
  }

  lemma {:induction false} RStripPad(s: string, pad: string)
    requires s == "" || !IsSpace(s[|s| - 1])
    requires All(Space, pad)
    ensures RStrip(s + pad) == s
    decreases |pad|
  {
    if pad == "" {
      assert s + pad == s;
    } else {
      var n := |pad| - 1;
      assert (s + pad)[..|s + pad| - 1] == s + pad[..n];
      assert IsSpace(pad[n]);
      RStripPad(s, pad[..n]);
    }
  }

  lemma LStripPad(pad: string, s: string)
    requires s == "" || !IsSpace(s[0])
    requires All(Space, pad)
    ensures LStrip(pad + s) == s
  {
    var t := pad + s;
    forall k | 0 <= k < |pad| && k < |t| ensures t[k] == pad[k] {}
    SkipRun(Space, t, 0, pad);
    assert t[|pad|..] == s;
  }

  /** Stripping takes off exactly the spaces around a trimmed text. */
  lemma StripPad(a: string, s: string, b: string)
    requires Trimmed(s) && All(Space, a) && All(Space, b)
    ensures Strip(a + s + b) == s
  {
    if s == "" {
      assert All(Space, a + b) && a + s + b == (a + b) + "";
      LStripPad(a + b, "");
    } else {
      assert a + s + b == a + (s + b);
      LStripPad(a, s + b);
      RStripPad(s, b);
    }
  }

  lemma StripTrims(s: string)
    ensures Trimmed(Strip(s))
  {
    SkipStops(Space, s, 0);
    var l := LStrip(s);
    assert l != "" ==> l[0] == s[Skip(Space, s, 0)];
  }

  lemma TrimmedStrip(s: string)
    requires Trimmed(s)
    ensures Strip(s) == s
  {
    StripPad("", s, "");
    assert "" + s + "" == s;
  }

  /** Stripping loses no character that is not a space, and adds none. */
  lemma StripKeepsOut(s: string, c: char)
    requires c !in s
    ensures c !in Strip(s)
  {
  }

  // ---------- splitting at a character ----------

  /** Python's `s.split(c)`. */
  function SplitAt(s: string, c: char): (parts: seq<string>)
    ensures |parts| > 0
  {
    var i := Find(s, c, 0);
    if i < 0 then [s] else [s[..i]] + SplitAt(s[i + 1..], c)
  }

  lemma {:induction false} SplitParts(s: string, c: char)
    ensures forall i :: 0 <= i < |SplitAt(s, c)| ==> c !in SplitAt(s, c)[i]
    decreases |s|
  {
    hide Find;
    var i := Find(s, c, 0);
    if i < 0 {
      assert SplitAt(s, c) == [s];
    } else {
      var tail := s[i + 1..];
      SplitParts(tail, c);
      assert SplitAt(s, c) == [s[..i]] + SplitAt(tail, c);
    }
  }

  function JoinWith(separator: string, parts: seq<string>): string {
    if parts == [] then "" else if |parts| == 1 then parts[0] else parts[0] + separator + JoinWith(separator, parts[1..])
  }

  function Padded(cell: string): string {
    " " + cell + " "
  }

  /** `_format_markdown_table_row`, and a line of `_markdown_table`. */
  function FormatRow(cells: seq<string>): string {
    "| " + JoinWith(" | ", cells) + " |"
  }

  function Inner(cells: seq<string>): string {
    " " + JoinWith(" | ", cells) + " "
  }

  lemma SplitFirst(a: string, c: char, b: string)
    requires c !in a
    ensures SplitAt(a + [c] + b, c) == [a] + SplitAt(b, c)
  {
    var s := a + [c] + b;
    assert s[|a|] == c;
    var i := Find(s, c, 0);
    assert forall k :: 0 <= k < |a| ==> s[k] == a[k];
    assert i == |a|;
    assert s[..i] == a && s[i + 1..] == b;
  }

  predicate PipeFree(cells: seq<string>) {
    forall i :: 0 <= i < |cells| ==> '|' !in cells[i]
  }

  lemma {:induction false} SplitInner(cells: seq<string>)
    requires cells != [] && PipeFree(cells)
    ensures SplitAt(Inner(cells), '|') == Map(Padded, cells)
    decreases |cells|
  {
    var c := Padded(cells[0]);
    assert '|' !in c;
    if |cells| == 1 {
      assert Inner(cells) == c;
    } else {
      assert Inner(cells) == c + ['|'] + Inner(cells[1..]);
      SplitFirst(c, '|', Inner(cells[1..]));
      SplitInner(cells[1..]);
      assert Map(Padded, cells) == [c] + Map(Padded, cells[1..]);
    }
  }

  predicate AllTrimmed(cells: seq<string>) {
    forall i :: 0 <= i < |cells| ==> Trimmed(cells[i])
  }

  lemma PaddedStrips(cells: seq<string>)
    requires AllTrimmed(cells)
    ensures Map(Strip, Map(Padded, cells)) == cells
  {
    forall i | 0 <= i < |cells| ensures Strip(Padded(cells[i])) == cells[i] {
      StripPad(" ", cells[i], " ");
    }
  }

  lemma RowShape(cells: seq<string>)
    ensures FormatRow(cells) == "|" + Inner(cells) + "|" && Trimmed(FormatRow(cells))
  {
  }

  // ---------- separator rows ----------

  function Without(s: string, c: char): string {
    if s == "" then "" else (if s[0] == c then "" else [s[0]]) + Without(s[1..], c)
  }

  predicate Dashes(s: string) {
    |s| >= 3 && forall i :: 0 <= i < |s| ==> s[i] == '-'
  }

  /** Dashes with an optional colon at either end; spaces do not count. */
  predicate IsSeparatorCell(cell: string) {
    var t := Without(cell, ' ');
    var u := if t != "" && t[0] == ':' then t[1..] else t;
    var v := if u != "" && u[|u| - 1] == ':' then u[..|u| - 1] else u;
    Dashes(v)
  }

  predicate IsSeparatorRow(cells: seq<string>) {
    cells != [] && forall i :: 0 <= i < |cells| ==> IsSeparatorCell(cells[i])
  }

  lemma {:induction false} WithoutLaws(s: string, c: char)
    ensures c !in Without(s, c)
    ensures c !in s ==> Without(s, c) == s
    ensures |Without(s, c)| <= |s|
    decreases |s|
  {
    if s != "" { WithoutLaws(s[1..], c); assert s == [s[0]] + s[1..]; }
  }

  lemma {:induction false} WithoutConcat(a: string, b: string, c: char)
    ensures Without(a + b, c) == Without(a, c) + Without(b, c)
    decreases |a|
  {
    if a == "" {
      assert a + b == b;
    } else {
      assert (a + b)[0] == a[0] && (a + b)[1..] == a[1..] + b;
      WithoutConcat(a[1..], b, c);
    }
  }

  /** A rule of `n` dashes with a colon on the left, on the right, on both sides or on none. */
  function RuleOf(left: bool, n: nat, right: bool): string {
    (if left then ":" else "") + seq(n, i => '-') + (if right then ":" else "")
  }

  /** A separator cell is, short of spaces, such a rule of at least three dashes. */
  lemma SeparatorForm(cell: string)
    ensures IsSeparatorCell(cell) <==> exists left, n: nat, right :: n >= 3 && Without(cell, ' ') == RuleOf(left, n, right)
  {
    hide Without, RuleOf, Dashes;
    var t := Without(cell, ' ');
    if IsSeparatorCell(cell) {
      var left, n, right := SeparatorIsRule(t);
      assert n >= 3 && Without(cell, ' ') == RuleOf(left, n, right);
    }
    if left, n: nat, right :| n >= 3 && Without(cell, ' ') == RuleOf(left, n, right) { RuleSeparatesAs(left, n, right, t); }
  }

  lemma SeparatorIsRule(t: string) returns (left: bool, n: nat, right: bool)
    requires var u := if t != "" && t[0] == ':' then t[1..] else t;
             var v := if u != "" && u[|u| - 1] == ':' then u[..|u| - 1] else u;
             Dashes(v)
    ensures n >= 3 && t == RuleOf(left, n, right)
  {
    left := t != "" && t[0] == ':';
    var u := if left then t[1..] else t;
    right := u != "" && u[|u| - 1] == ':';
    var v := if right then u[..|u| - 1] else u;
    n := |v|;
    assert v == seq(n, i => '-');
    assert u == v + if right then ":" else "";
    assert t == (if left then ":" else "") + u;
  }

  lemma RuleSeparatesAs(left: bool, n: nat, right: bool, t: string)
    requires n >= 3 && t == RuleOf(left, n, right)
    ensures var u := if t != "" && t[0] == ':' then t[1..] else t;
            var v := if u != "" && u[|u| - 1] == ':' then u[..|u| - 1] else u;
            Dashes(v)
  {
    var dashes := seq(n, i => '-');
    assert t[0] == if left then ':' else '-';
    var u := if left then t[1..] else t;
    assert u == dashes + if right then ":" else "";
    assert u[|u| - 1] == if right then ':' else '-';
    assert (if right then u[..|u| - 1] else u) == dashes;
  }

  const RULE := "---"

  lemma RuleSeparates()
    ensures IsSeparatorCell(RULE) && Trimmed(RULE) && '|' !in RULE
  {
    assert Without(RULE, ' ') == RULE;
  }

  function Repeat(n: nat, cell: string): seq<string> {
    seq(n, i => cell)
  }

  // ---------- lines ----------

  /** The line boundaries of Python's `str.splitlines`. */
  predicate IsBreak(c: char) {
    '\n' <= c <= '\r' || '\U{1C}' <= c <= '\U{1E}' || c in {'\U{85}', '\U{2028}', '\U{2029}'}
  }

  function FirstBreak(s: string, i: nat): (k: nat)
    requires i <= |s|
    ensures i <= k <= |s| && (k < |s| ==> IsBreak(s[k]))
    ensures forall x :: i <= x < k ==> !IsBreak(s[x])
    decreases |s| - i
  {
    if i == |s| || IsBreak(s[i]) then i else FirstBreak(s, i + 1)
  }

  /** Python's `s.splitlines()`: a final line boundary opens no further line. */
  function Lines(s: string): seq<string> {
    if s == "" then []
    else
      var i := FirstBreak(s, 0);
      if i == |s| then [s]
      else [s[..i]] + Lines(s[if s[i] == '\r' && i + 1 < |s| && s[i + 1] == '\n' then i + 2 else i + 1..])
  }

  function Unlines(lines: seq<string>): string {
    JoinWith("\n", lines)
  }

  predicate NoBreak(s: string) {
    forall i :: 0 <= i < |s| ==> !IsBreak(s[i])
  }

  predicate Unbroken(lines: seq<string>) {
    forall i :: 0 <= i < |lines| ==> NoBreak(lines[i])
  }

  lemma {:induction false} LinesUnbroken(s: string)
    ensures Unbroken(Lines(s))
    decreases |s|
  {
    if s != "" {
      var i := FirstBreak(s, 0);
      if i < |s| { LinesUnbroken(s[if s[i] == '\r' && i + 1 < |s| && s[i + 1] == '\n' then i + 2 else i + 1..]); }
    }
  }

  /** Splitting the joined lines gives them back, except that an empty last line is lost. */
  lemma {:induction false} LinesOfUnlines(lines: seq<string>)
    requires Unbroken(lines)
    ensures Lines(Unlines(lines)) == if lines != [] && lines[|lines| - 1] == "" then lines[..|lines| - 1] else lines
    decreases |lines|
  {
    if lines == [] {
    } else if |lines| == 1 {
      if lines[0] != "" { assert FirstBreak(lines[0], 0) == |lines[0]|; }
    } else {
      hide Lines;
      LinesOfUnlines(lines[1..]);
      LinesFirst(lines[0], Unlines(lines[1..]));
      assert lines == [lines[0]] + lines[1..];
      assert lines[|lines| - 1] == lines[1..][|lines| - 2];
    }
  }

  /** The boundaries of `str.splitlines` by number; a carriage return and a line feed make one. */
  lemma LinesBreak(line: string, c: char, rest: string)
    requires NoBreak(line) && c as int in {10, 11, 12, 13, 28, 29, 30, 0x85, 0x2028, 0x2029}
    ensures Lines(line + [c] + rest) == [line] + Lines(if c == '\r' && rest != "" && rest[0] == '\n' then rest[1..] else rest)
  {
    var s := line + [c] + rest;
    assert s[|line|] == c;
    assert forall k :: 0 <= k < |line| ==> s[k] == line[k];
    BreaksByNumber(c);
    assert FirstBreak(s, 0) == |line|;
    hide Lines, FirstBreak, IsBreak, NoBreak;
    LinesStep(s, |line|);
    assert s[..|line|] == line && s[|line| + 1..] == rest;
    if rest != "" { assert s[|line| + 1] == rest[0] && s[|line| + 2..] == rest[1..]; }
  }

  lemma LinesStep(s: string, i: nat)
    requires i < |s| && FirstBreak(s, 0) == i
    ensures Lines(s) == [s[..i]] + Lines(s[if s[i] == '\r' && i + 1 < |s| && s[i + 1] == '\n' then i + 2 else i + 1..])
  {
  }

  lemma BreaksByNumber(c: char)
    ensures IsBreak(c) <==> c as int in {10, 11, 12, 13, 28, 29, 30, 0x85, 0x2028, 0x2029}
  {
  }

  lemma LinesFirst(line: string, rest: string)
    requires NoBreak(line)
    ensures Lines(line + "\n" + rest) == [line] + Lines(rest)
  {
    var s := line + "\n" + rest;
    assert s[|line|] == '\n';
    var i := FirstBreak(s, 0);
    assert forall k :: 0 <= k < |line| ==> s[k] == line[k];
    assert i == |line|;
    assert s[..i] == line && s[i + 1..] == rest;
  }
}
