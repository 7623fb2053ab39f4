/** Picking the first JSON root out of a model response (mas/llm_client.py). */
module RootScanner {
  import opened Collections
  import opened Text
  import opened JsonSyntax
  import opened JsonDecoder

  /** What the source asks of Unicode and of its introduction pattern: `digit` is `str.isdigit`,
      `introduces` says whether the pattern for "result:", "json follows:" and the like matches. */
  datatype Lexicon = Lexicon(digit: char -> bool, introduces: string -> bool)

  ghost predicate Sane(lex: Lexicon) {
    forall c :: IsDigit(c) ==> lex.digit(c)
  }

  datatype Root = Root(fragment: string, complete: bool, value: Option<Json>)

  // ---------- the structural scan ----------

  datatype Scan =
    | Scanning(stack: string, inString: bool, escape: bool)
    | Closed(at: nat)
    | Mismatched(at: nat)

  function Opener(c: char): char {
    if c == '}' then '{' else '['
  }

  function Step(sc: Scan, c: char, at: nat): Scan {
    match sc
    case Scanning(stack, inString, escape) =>
      if escape then Scanning(stack, inString, false)
      else if c == '\\' && inString then Scanning(stack, inString, true)
      else if c == '"' then Scanning(stack, !inString, false)
      else if inString then sc
      else if c == '{' || c == '[' then Scanning(stack + [c], false, false)
      else if c == '}' || c == ']' then
        if stack == "" || stack[|stack| - 1] != Opener(c) then Mismatched(at)
        else if |stack| == 1 then Closed(at)
        else Scanning(stack[..|stack| - 1], false, false)
      else sc
    case _ => sc
  }

  /** The scanner's state after reading `s[start..stop]`. */
  function ScanTo(s: string, start: nat, stop: nat): (sc: Scan)
    requires start <= stop <= |s|
    ensures sc.Closed? || sc.Mismatched? ==> start <= sc.at < stop
    decreases stop
  {
    if stop == start then Scanning("", false, false)
    else Step(ScanTo(s, start, stop - 1), s[stop - 1], stop - 1)
  }

  lemma ScanStarts(s: string, start: nat)
    requires start <= |s|
    ensures ScanTo(s, start, start) == Scanning("", false, false)
  {
  }

  lemma ScanOne(s: string, start: nat, k: nat)
    requires start <= k < |s|
    ensures ScanTo(s, start, k + 1) == Step(ScanTo(s, start, k), s[k], k)
  {
  }

  lemma {:induction false} ScanStable(s: string, start: nat, stop: nat, later: nat)
    requires start <= stop <= later <= |s| && !ScanTo(s, start, stop).Scanning?
    ensures ScanTo(s, start, later) == ScanTo(s, start, stop)
    decreases later
  {
    if stop < later { ScanStable(s, start, stop, later - 1); }
  }

  // ---------- where the root starts ----------

  function CountFences(s: string, i: nat): nat
    requires i <= |s|
    decreases |s| - i
  {
    if i + 3 > |s| then 0
    else if At(s, i, "```") then 1 + CountFences(s, i + 3)
    else CountFences(s, i + 1)
  }

  /** The text after the last fence mark. */
  function AfterLastFence(s: string, i: nat): string
    requires i <= |s|
  {
    if i + 3 <= |s| && At(s, i, "```") then s[i + 3..]
    else if i == 0 then s
    else AfterLastFence(s, i - 1)
  }

  function Lower(c: char): char {
    if 'A' <= c <= 'Z' then (c as int + 32) as char else c
  }

  predicate OpensFence(prefix: string) {
    && CountFences(prefix, 0) % 2 == 1
    && var tail := Strip(AfterLastFence(prefix, |prefix|));
       tail == "" || (|tail| == 4 && [Lower(tail[0]), Lower(tail[1]), Lower(tail[2]), Lower(tail[3])] == "json")
  }

  /** The next visible character could continue a JSON container. */
  predicate Plausible(lex: Lexicon, s: string, index: nat)
    requires index < |s|
  {
    var next := Skip(Space, s, index + 1);
    && next < |s|
    && if s[index] == '{' then s[next] == '"' || s[next] == '}'
       else s[next] in {'"', '{', '[', ']', '-', 't', 'f', 'n'} || lex.digit(s[next])
  }

  predicate IsStructural(lex: Lexicon, s: string, index: nat)
    requires index < |s|
  {
    || index == Skip(Space, s, 0)
    || OpensFence(s[..index])
    || Plausible(lex, s, index)
    || lex.introduces(s[if index < 160 then 0 else index - 160..index])
  }

  predicate IsOpener(c: char) {
    c == '{' || c == '['
  }

  /** The earliest structural opener at or after `i`, or -1. */
  function FirstOpener(lex: Lexicon, s: string, i: nat): (r: int)
    requires i <= |s|
    ensures r == -1 || (i <= r < |s| && IsOpener(s[r]) && IsStructural(lex, s, r))
    ensures forall k :: i <= k < (if r == -1 then |s| else r) ==> !(IsOpener(s[k]) && IsStructural(lex, s, k))
    decreases |s| - i
  {
    if i == |s| then -1
    else if IsOpener(s[i]) && IsStructural(lex, s, i) then i
    else FirstOpener(lex, s, i + 1)
  }

  lemma {:induction false} SkipInert(lex: Lexicon, s: string, i: nat, j: nat)
    requires i <= j <= |s| && forall k :: i <= k < j ==> !(IsOpener(s[k]) && IsStructural(lex, s, k))
    ensures FirstOpener(lex, s, i) == FirstOpener(lex, s, j)
    decreases j - i
  {
    if i < j { SkipInert(lex, s, i + 1, j); }
  }

  /** The candidate search of the source: jump from opener to opener, never past a structural one. */
  method FirstStructuralOpener(lex: Lexicon, source: string) returns (r: int)
    ensures r == FirstOpener(lex, source, 0)
  {
    var searchStart := 0;
    while searchStart < |source|
      invariant searchStart <= |source|
      invariant FirstOpener(lex, source, 0) == FirstOpener(lex, source, searchStart)
    {
      var objectStart := Find(source, '{', searchStart);
      var arrayStart := Find(source, '[', searchStart);
      if objectStart == -1 && arrayStart == -1 {
        SkipInert(lex, source, searchStart, |source|);
        return -1;
      }
      var candidate :=
        if objectStart == -1 then arrayStart
        else if arrayStart == -1 then objectStart
        else if objectStart < arrayStart then objectStart else arrayStart;
      SkipInert(lex, source, searchStart, candidate);
      if IsStructural(lex, source, candidate) {
        return candidate;
      }
      searchStart := candidate + 1;
    }
    return -1;
  }

  // ---------- the root ----------

  /** The root that starts at an already selected opener; it is never abandoned for another one. */
  function RootAt(s: string, start: nat): Root
    requires start <= |s|
  {
    match ScanTo(s, start, |s|)
    case Closed(at) => Root(s[start..at + 1], true, Loads(s[start..at + 1]))
    case Mismatched(at) => Root(s[start..at + 1], false, None)
    case Scanning(_, _, _) => Root(s[start..], false, None)
  }

  function FirstRoot(lex: Lexicon, text: string): Option<Root> {
    if text == "" then None
    else
      match Loads(Strip(text))
      case Some(v) => Some(Root(Strip(text), true, Some(v)))
      case None =>
        var start := FirstOpener(lex, text, 0);
        if start < 0 then None else Some(RootAt(text, start))
  }

  /** `first_json_root`: one pass with a bracket stack and two flags. */
  method FirstJsonRoot(lex: Lexicon, text: string) returns (r: Option<Root>)
    ensures r == FirstRoot(lex, text)
  {
    hide ScanTo, Loads, Strip, FirstOpener, IsStructural;
    if text == "" {
      return None;
    }
    var stripped := Strip(text);
    var whole := Loads(stripped);
    if whole.Some? {
      return Some(Root(stripped, true, whole));
    }
    var start := FirstStructuralOpener(lex, text);
    if start < 0 {
      return None;
    }
    var stack, inString, escape := "", false, false;
    var index := start;
    ScanStarts(text, start);
    while index < |text|
      invariant start <= index <= |text|
      invariant ScanTo(text, start, index) == Scanning(stack, inString, escape)
    {
      var c := text[index];
      ScanOne(text, start, index);
      if escape {
        escape := false;
      } else if c == '\\' && inString {
        escape := true;
      } else if c == '"' {
        inString := !inString;
      } else if inString {
      } else if c == '{' || c == '[' {
        stack := stack + [c];
      } else if c == '}' || c == ']' {
        if stack == "" || stack[|stack| - 1] != Opener(c) {
          ScanStable(text, start, index + 1, |text|);
          return Some(Root(text[start..index + 1], false, None));
        }
        stack := stack[..|stack| - 1];
        if stack == "" {
          ScanStable(text, start, index + 1, |text|);
          var fragment := text[start..index + 1];
          return Some(Root(fragment, true, Loads(fragment)));
        }
      }
      index := index + 1;
    }
    return Some(Root(text[start..], false, None));
  }

  /** `parse_json`: the value of a complete first root, whatever its shape. */
  function ParseJson(lex: Lexicon, text: string): Option<Json> {
    match FirstRoot(lex, text)
    case Some(Root(_, true, value)) => value
    case _ => None
  }
}
