/** Where a root may start, told from the text before and behind an opener; and that a parsed value
    stands in the response at the selected place and nowhere else. */
module OpenerLaws {
  import opened Collections
  import opened Text
  import opened JsonSyntax
  import opened JsonDecoder
  import opened RootScanner
  import opened RootLaws
  import opened DecoderSoundness

  // ---------- fences ----------

  lemma NotAFence(s: string, i: nat)
    requires i + 3 <= |s| && (s[i] != '`' || s[i + 1] != '`' || s[i + 2] != '`')
    ensures !At(s, i, "```")
  {
    var t := s[i..i + 3];
    assert t[0] == s[i] && t[1] == s[i + 1] && t[2] == s[i + 2];
  }

  lemma AFence(s: string, i: nat)
    requires i + 3 <= |s| && s[i] == '`' && s[i + 1] == '`' && s[i + 2] == '`'
    ensures At(s, i, "```")
  {
    assert s[i..i + 3] == "```";
  }

  /** No fence mark begins before `j`. */
  lemma {:induction false} CountFrom(s: string, i: nat, j: nat)
    requires i <= j <= |s| && forall k :: i <= k < j ==> s[k] != '`'
    ensures CountFences(s, i) == CountFences(s, j)
    decreases j - i
  {
    if i < j {
      if i + 3 <= |s| {
        NotAFence(s, i);
        CountFrom(s, i + 1, j);
      }
    }
  }

  lemma {:induction false} LastFence(s: string, i: nat, k: nat)
    requires k + 3 <= |s| && k <= i <= |s| && s[k] == '`' && s[k + 1] == '`' && s[k + 2] == '`'
    requires forall x :: k + 3 <= x < |s| ==> s[x] != '`'
    ensures AfterLastFence(s, i) == s[k + 3..]
    decreases i - k
  {
    if i == k {
      AFence(s, k);
    } else {
      if i + 3 <= |s| { NotAFence(s, i); }
      LastFence(s, i - 1, k);
    }
  }

  /** Text without a tick. */
  predicate Tickless(s: string) {
    forall k :: 0 <= k < |s| ==> s[k] != '`'
  }

  /** What may stand between a fence mark and the root: nothing, or "json" in either case. */
  predicate IsTag(tag: string) {
    || tag == ""
    || (|tag| == 4 && tag[0] in {'j', 'J'} && tag[1] in {'s', 'S'} && tag[2] in {'o', 'O'} && tag[3] in {'n', 'N'})
  }

  /** After one fence mark with such a tag the fence is open, after other text or a second mark it is not. */
  lemma FenceOpens(w: string, t: string)
    requires Tickless(w) && Tickless(t)
    ensures OpensFence(w + "```" + t) <==> IsTag(Strip(t))
  {
    var s := w + "```" + t;
    var k := |w|;
    forall x | 0 <= x < k ensures s[x] != '`' { assert s[x] == w[x]; }
    forall x | k + 3 <= x < |s| ensures s[x] != '`' { assert s[x] == t[x - k - 3]; }
    AFence(s, k);
    CountFrom(s, 0, k);
    CountFrom(s, k + 3, |s|);
    LastFence(s, |s|, k);
    assert s[k + 3..] == t;
    hide Strip, CountFences, AfterLastFence;
    assert CountFences(s, 0) == 1 by { OneFence(s, k); }
    LowerJson(Strip(t));
  }

  lemma OneFence(s: string, k: nat)
    requires k + 3 <= |s| && At(s, k, "```") && CountFences(s, 0) == CountFences(s, k) && CountFences(s, k + 3) == CountFences(s, |s|)
    ensures CountFences(s, 0) == 1
  {
  }

  lemma LowerJson(tag: string)
    ensures tag == "" || (|tag| == 4 && [Lower(tag[0]), Lower(tag[1]), Lower(tag[2]), Lower(tag[3])] == "json") <==> IsTag(tag)
  {
    if |tag| == 4 {
      var l := [Lower(tag[0]), Lower(tag[1]), Lower(tag[2]), Lower(tag[3])];
      assert l == "json" <==> l[0] == 'j' && l[1] == 's' && l[2] == 'o' && l[3] == 'n';
      LowerOf(tag[0]);
      LowerOf(tag[1]);
      LowerOf(tag[2]);
      LowerOf(tag[3]);
    }
  }

  lemma LowerOf(c: char)
    ensures Lower(c) == 'j' <==> c in {'j', 'J'}
    ensures Lower(c) == 's' <==> c in {'s', 'S'}
    ensures Lower(c) == 'o' <==> c in {'o', 'O'}
    ensures Lower(c) == 'n' <==> c in {'n', 'N'}
  {
  }

  lemma FenceCloses(w: string, x: string, t: string)
    requires Tickless(w) && Tickless(x) && Tickless(t)
    ensures !OpensFence(w + "```" + x + "```" + t)
  {
    var s := w + "```" + x + "```" + t;
    var k := |w|;
    var m := k + 3 + |x|;
    forall i | 0 <= i < k ensures s[i] != '`' { assert s[i] == w[i]; }
    forall i | k + 3 <= i < m ensures s[i] != '`' { assert s[i] == x[i - k - 3]; }
    forall i | m + 3 <= i < |s| ensures s[i] != '`' { assert s[i] == t[i - m - 3]; }
    AFence(s, k);
    AFence(s, m);
    CountFrom(s, 0, k);
    CountFrom(s, k + 3, m);
    CountFrom(s, m + 3, |s|);
    TwoFences(s, k, m);
  }

  lemma TwoFences(s: string, k: nat, m: nat)
    requires k + 3 <= m && m + 3 <= |s| && At(s, k, "```") && At(s, m, "```") && CountFences(s, 0) == CountFences(s, k)
    requires CountFences(s, k + 3) == CountFences(s, m) && CountFences(s, m + 3) == CountFences(s, |s|)
    ensures CountFences(s, 0) == 2
  {
  }

  // ---------- openers ----------

  /** The character by which an object, or an array, may go on. */
  predicate GoesOn(lex: Lexicon, open: char, c: char) {
    if open == '{' then c == '"' || c == '}'
    else c == '"' || c == '{' || c == '[' || c == ']' || c == '-' || c == 't' || c == 'f' || c == 'n' || lex.digit(c)
  }

  /** An opener in text without a tick before it is structural exactly when nothing visible stands before
      it, or what follows it goes on like a container, or the last 160 characters introduce one. */
  lemma OpenerIsStructural(lex: Lexicon, a: string, open: char, spaces: string, rest: string)
    requires IsOpener(open) && Tickless(a) && All(Space, spaces) && (rest != "" ==> !IsSpace(rest[0]))
    ensures IsStructural(lex, a + [open] + spaces + rest, |a|)
       <==> All(Space, a) || (rest != "" && GoesOn(lex, open, rest[0])) || lex.introduces(if |a| <= 160 then a else a[|a| - 160..])
  {
    assert '`' !in a;
    NoTicks(a, 0);
    hide OpensFence, Skip, IsSpace, All;
    StructuralCases(lex, a, open, spaces, rest);
  }

  /** An opener after one fence mark is structural exactly when the fence is open there, or what follows
      it goes on like a container, or the last 160 characters introduce one. */
  lemma FencedOpener(lex: Lexicon, w: string, t: string, open: char, spaces: string, rest: string)
    requires IsOpener(open) && Tickless(w) && Tickless(t) && All(Space, spaces) && (rest != "" ==> !IsSpace(rest[0]))
    ensures var a := w + "```" + t;
            IsStructural(lex, a + [open] + spaces + rest, |a|)
            <==> IsTag(Strip(t)) || (rest != "" && GoesOn(lex, open, rest[0])) || lex.introduces(if |a| <= 160 then a else a[|a| - 160..])
  {
    var a := w + "```" + t;
    FenceOpens(w, t);
    NotAllSpace(a, |w|);
    hide Tickless, IsTag, Strip, OpensFence;
    StructuralCases(lex, a, open, spaces, rest);
  }

  lemma NotAllSpace(a: string, k: nat)
    requires k < |a| && a[k] == '`'
    ensures !All(Space, a)
  {
    assert !In(a[k], Space);
  }

  lemma StructuralCases(lex: Lexicon, a: string, open: char, spaces: string, rest: string)
    requires IsOpener(open) && All(Space, spaces) && (rest != "" ==> !IsSpace(rest[0]))
    ensures IsStructural(lex, a + [open] + spaces + rest, |a|)
       <==> All(Space, a) || OpensFence(a) || (rest != "" && GoesOn(lex, open, rest[0])) || lex.introduces(if |a| <= 160 then a else a[|a| - 160..])
  {
    var s := a + [open] + spaces + rest;
    var k := |a|;
    assert s[..k] == a;
    NextVisible(s, k, spaces, rest);
    FirstVisible(s, k, a);
    var from := if k < 160 then 0 else k - 160;
    assert s[from..k] == if k <= 160 then a else a[k - 160..];
    hide OpensFence, Skip, IsSpace, All;
  }

  lemma NextVisible(s: string, k: nat, spaces: string, rest: string)
    requires k < |s| && All(Space, spaces) && s[k + 1..] == spaces + rest && (rest != "" ==> !IsSpace(rest[0]))
    ensures Skip(Space, s, k + 1) == k + 1 + |spaces| && (rest != "" ==> k + 1 + |spaces| < |s| && s[k + 1 + |spaces|] == rest[0])
    ensures rest == "" ==> k + 1 + |spaces| == |s|
  {
    var t := s[k + 1..];
    assert |s| == k + 1 + |spaces| + |rest|;
    if rest != "" { assert t[|spaces|] == rest[0]; }
    forall x | 0 <= x < |spaces| ensures s[k + 1 + x] == spaces[x] { assert t[x] == spaces[x]; }
    SkipRun(Space, s, k + 1, spaces);
  }

  lemma FirstVisible(s: string, k: nat, a: string)
    requires k < |s| && s[..k] == a && IsOpener(s[k])
    ensures k == Skip(Space, s, 0) <==> All(Space, a)
  {
    SkipStops(Space, s, 0);
    OpenersAreVisible();
    forall x | 0 <= x < k ensures s[x] == a[x] { assert s[..k][x] == s[x]; }
    if All(Space, a) { forall x | 0 <= x < k ensures In(s[x], Space) { assert In(a[x], Space); } }
  }

  /** A closer that does not match the innermost open bracket ends the root there, incomplete. */
  lemma MismatchEndsRoot(s: string, start: nat, k: nat, stack: string)
    requires start <= k < |s| && ScanTo(s, start, k) == Scanning(stack, false, false)
    requires (s[k] == '}' && (stack == "" || stack[|stack| - 1] != '{')) || (s[k] == ']' && (stack == "" || stack[|stack| - 1] != '['))
    requires forall c :: c in stack ==> IsOpener(c)
    ensures RootAt(s, start) == Root(s[start..k + 1], false, None)
  {
    hide Loads;
    assert ScanTo(s, start, k + 1) == Mismatched(k);
    ScanStable(s, start, k + 1, |s|);
  }

  /** Unless the response is JSON as it stands, its root is at the first structural opener, whatever
      becomes of it: what is read is a start of the text from there on, and all of it if no bracket ends
      the root; without an opener there is no root. */
  lemma RootIsReported(lex: Lexicon, text: string)
    requires Loads(Strip(text)).None?
    ensures var k := FirstOpener(lex, text, 0); var r := FirstRoot(lex, text);
            if k < 0 then r == None
            else
              && r.Some? && r.value.fragment != "" && r.value.fragment <= text[k..]
              && r.value.value == (if r.value.complete then Loads(r.value.fragment) else None)
              && (ScanTo(text, k, |text|).Scanning? ==> r.value.fragment == text[k..] && !r.value.complete)
  {
    hide Loads, Strip, FirstOpener, ScanTo;
  }

  /** The characters that count as spaces, by number. */
  lemma SpacesByNumber(c: char)
    ensures IsSpace(c) <==> c as int in {
      9, 10, 11, 12, 13, 28, 29, 30, 31, 32, 0x85, 0xA0, 0x1680, 0x2000, 0x2001, 0x2002, 0x2003, 0x2004, 0x2005, 0x2006, 0x2007,
      0x2008, 0x2009, 0x200A, 0x2028, 0x2029, 0x202F, 0x205F, 0x3000}
    ensures IsBlank(c) <==> c as int in {9, 10, 13, 32}
  {
  }

  // ---------- what is parsed ----------

  /** Whatever `parse_json` returns is written in the response: either the response is that value and
      spaces, or it stands at the earliest structural opener. A malformed root is never replaced. */
  lemma ParsedStands(lex: Lexicon, text: string) returns (a: nat, b: nat, v: Value)
    requires ParseJson(lex, text).Some?
    ensures a <= b <= |text| && Stands(text, a, b, v, ParseJson(lex, text).value)
    ensures (All(Space, text[..a]) && All(Space, text[b..])) || a == FirstOpener(lex, text, 0)
  {
    if Loads(Strip(text)).Some? {
      a, b, v := WholeStands(text);
    } else {
      a, b, v := RootStands(lex, text);
    }
  }

  lemma WholeStands(text: string) returns (a: nat, b: nat, v: Value)
    requires Loads(Strip(text)).Some?
    ensures a <= b <= |text| && Stands(text, a, b, v, Loads(Strip(text)).value) && All(Space, text[..a]) && All(Space, text[b..])
  {
    hide Loads, Stands;
    var x, y, u := LoadsSound(Strip(text));
    v := u;
    var f, t := StripParts(text);
    BlankIsSpace(t[..x]);
    BlankIsSpace(t[y..]);
    a, b := f + x, f + y;
    StandsWithin(text, f, t, x, y, v, Loads(t).value);
    hide *;
    assert text[..a] == text[..f] + t[..x];
    assert text[b..] == t[y..] + text[f + |t|..];
    SpacesJoin(text[..f], t[..x]);
    SpacesJoin(t[y..], text[f + |t|..]);
  }

  lemma SpacesJoin(a: string, b: string)
    requires All(Space, a) && All(Space, b)
    ensures All(Space, a + b)
  {
  }

  /** What `Strip` takes off. */
  lemma StripParts(s: string) returns (f: nat, t: string)
    ensures t == Strip(s) && f + |t| <= |s| && t == s[f..f + |t|] && All(Space, s[..f]) && All(Space, s[f + |t|..])
  {
    f, t := Skip(Space, s, 0), Strip(s);
    SkipStops(Space, s, 0);
    assert s == s[..f] + LStrip(s);
    var l := LStrip(s);
    forall k | 0 <= k < |l| - |t| ensures In(l[|t|..][k], Space) { assert l[|t|..][k] == l[|t| + k]; }
    assert s[f + |t|..] == l[|t|..];
  }

  lemma SliceOfSlice(s: string, a: nat, b: nat, x: nat, y: nat)
    requires a <= b <= |s| && x <= y <= b - a
    ensures s[a..b][x..y] == s[a + x..a + y]
  {
    var l, r := s[a..b][x..y], s[a + x..a + y];
    assert |l| == |r|;
    forall k | 0 <= k < |l| ensures l[k] == r[k] {}
  }

  lemma StandsWithin(text: string, f: nat, t: string, x: nat, y: nat, v: Value, j: Json)
    requires f + |t| <= |text| && t == text[f..f + |t|] && Stands(t, x, y, v, j)
    ensures Stands(text, f + x, f + y, v, j)
  {
    hide Meaning, Print, Lenient;
    SliceOfSlice(text, f, f + |t|, x, y);
  }

  lemma OpenerFirst(t: string, x: nat)
    requires t != "" && IsOpener(t[0]) && x <= |t| && All(Blank, t[..x])
    ensures x == 0
  {
    assert x > 0 ==> In(t[..x][0], Blank);
  }

  lemma RootStands(lex: Lexicon, text: string) returns (a: nat, b: nat, v: Value)
    requires Loads(Strip(text)).None? && ParseJson(lex, text).Some?
    ensures a <= b <= |text| && Stands(text, a, b, v, ParseJson(lex, text).value) && a == FirstOpener(lex, text, 0)
  {
    hide Loads, Stands, FirstOpener, ScanTo, Strip;
    var start := FirstOpener(lex, text, 0);
    var root := RootAt(text, start);
    var fragment := root.fragment;
    assert root.complete && root.value == Loads(fragment);
    var x, y, u := LoadsSound(fragment);
    v := u;
    a, b := start + x, start + y;
    OpenersAreVisible();
    assert fragment[0] == text[start];
    OpenerFirst(fragment, x);
    StandsWithin(text, start, fragment, x, y, v, Loads(fragment).value);
  }
}
