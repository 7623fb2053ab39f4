/** Which part of a response `first_json_root` selects. A response is some inert text `w`, in which
    no opener can start a root, then printed JSON, complete or cut off. */
module RootLaws {
  import opened Collections
  import opened Text
  import opened JsonSyntax
  import opened JsonDecoder
  import opened DecoderLaws
  import opened RootScanner
  import opened ScannerLaws

  /** Nothing in `s` before `b` starts a root: no opener there is structural, and the first visible
      character is not a quote. */
  predicate InertTo(lex: Lexicon, s: string, b: nat)
    requires b <= |s|
  {
    && (forall k :: 0 <= k < b && IsOpener(s[k]) ==> !IsStructural(lex, s, k))
    && (Skip(Space, s, 0) < b ==> s[Skip(Space, s, 0)] != '"')
  }

  /** Text that is inert before a container with opener `c`. Prose may have brackets and quotes. */
  predicate Inert(lex: Lexicon, w: string, c: char) {
    InertTo(lex, w + [c], |w|)
  }

  /** Text without any opener or quote. */
  predicate PlainText(w: string) {
    forall k :: 0 <= k < |w| ==> !IsOpener(w[k]) && w[k] != '"'
  }

  lemma PlainTextIsInert(lex: Lexicon, w: string, c: char)
    requires PlainText(w)
    ensures Inert(lex, w, c)
  {
    hide IsStructural;
  }

  lemma {:induction false} NoTicks(s: string, i: nat)
    requires i <= |s| && '`' !in s
    ensures CountFences(s, i) == 0
    decreases |s| - i
  {
    if i + 3 <= |s| {
      NoTicks(s, i + 1);
      assert s[i..i + 3][0] == s[i];
    }
  }

  /** Whether text makes an opener right behind it the start of a root: no visible character so far, a
      fence, or an introduction. */
  predicate Introduces(lex: Lexicon, a: string) {
    || Skip(Space, a, 0) == |a|
    || '`' in a
    || lex.introduces(a[if |a| < 160 then 0 else |a| - 160..])
  }

  /** A character that may follow the opener of a JSON container. */
  predicate Continues(lex: Lexicon, d: char) {
    IsSpace(d) || d in {'"', '{', '}', '[', ']', '-', 't', 'f', 'n'} || lex.digit(d)
  }

  lemma ProseOpener(lex: Lexicon, a: string, s: string)
    requires |a| + 1 < |s| && a <= s && !Introduces(lex, a) && !Continues(lex, s[|a| + 1])
    ensures !IsStructural(lex, s, |a|) && Skip(Space, s, 0) < |a|
  {
    hide IsSpace, CountFences, AfterLastFence, Strip;
    SkipStops(Space, a, 0);
    SkipStops(Space, s, 0);
    assert s[Skip(Space, a, 0)] == a[Skip(Space, a, 0)];
    NoTicks(a, 0);
    var from := if |a| < 160 then 0 else |a| - 160;
    assert s[..|a|] == a && s[from..|a|] == a[from..];
  }

  /** And prose with an opener that nothing introduces, before something no container goes on with. */
  lemma ProseIsInert(lex: Lexicon, a: string, open: char, d: char, b: string, c: char)
    requires PlainText(a) && PlainText(b) && IsOpener(open) && !Introduces(lex, a) && !Continues(lex, d)
    ensures Inert(lex, a + [open, d] + b, c)
  {
    hide IsSpace, Skip, IsStructural, Introduces;
    var w := a + [open, d] + b;
    var s := w + [c];
    ProseOpener(lex, a, s);
    forall x | 0 <= x < |w| && x != |a| ensures !IsOpener(s[x]) && s[x] != '"' {
      if x < |a| { assert s[x] == a[x]; }
      else if x > |a| + 1 { assert s[x] == b[x - |a| - 2]; }
    }
  }

  lemma {:induction false} SkipSame(s: string, t: string, i: nat, b: nat)
    requires i <= b < |s| && b < |t| && (forall k :: 0 <= k <= b ==> s[k] == t[k]) && !IsSpace(s[b])
    ensures Skip(Space, s, i) == Skip(Space, t, i) <= b
    decreases b - i
  {
    hide IsSpace;
    if i < b { SkipSame(s, t, i + 1, b); }
  }

  /** Whether an opener before a visible character is structural is settled by the text up to there. */
  lemma StructuralSame(lex: Lexicon, s: string, t: string, k: nat, b: nat)
    requires k < b < |s| && b < |t| && (forall x :: 0 <= x <= b ==> s[x] == t[x]) && !IsSpace(s[b])
    ensures IsStructural(lex, s, k) == IsStructural(lex, t, k)
  {
    hide IsSpace, Skip, OpensFence;
    SkipSame(s, t, 0, b);
    SkipSame(s, t, k + 1, b);
    assert s[..k] == t[..k];
    var from := if k < 160 then 0 else k - 160;
    assert s[from..k] == t[from..k];
  }

  lemma InertSame(lex: Lexicon, s: string, t: string, b: nat)
    requires b < |s| && b < |t| && (forall x :: 0 <= x <= b ==> s[x] == t[x]) && !IsSpace(s[b])
    ensures InertTo(lex, s, b) == InertTo(lex, t, b)
  {
    hide IsSpace, Skip, IsStructural;
    SkipSame(s, t, 0, b);
    forall k | 0 <= k < b ensures IsStructural(lex, s, k) == IsStructural(lex, t, k) { StructuralSame(lex, s, t, k, b); }
  }

  /** Inert text stays inert whatever container of that kind follows it. */
  lemma InertBefore(lex: Lexicon, w: string, c: char, rest: string)
    requires IsOpener(c)
    ensures Inert(lex, w, c) == InertTo(lex, w + [c] + rest, |w|)
  {
    hide InertTo;
    OpenersAreVisible();
    InertSame(lex, w + [c], w + [c] + rest, |w|);
  }

  lemma OpenersAreVisible()
    ensures forall c :: IsOpener(c) ==> !IsSpace(c)
  {
  }

  predicate IsContainer(v: Value) {
    v.Arr? || v.EmptyArr? || v.Obj? || v.EmptyObj?
  }

  // ---------- the whole-text shortcut ----------

  lemma NumberEnd(s: string, i: nat)
    requires i <= |s| && DecodeNumber(s, i).Ok?
    ensures forall k :: i <= k < DecodeNumber(s, i).end ==> NumberChar(s[k])
  {
    hide WholeEnd, FracEnd, ExpEnd, NumberChar;
    var j := if s[i] == '-' then i + 1 else i;
    var w := WholeEnd(s, j);
    var f := FracEnd(s, w);
    SignChar();
    WholeChars(s, j);
    FracChars(s, w);
    ExpChars(s, f);
  }

  lemma SignChar()
    ensures NumberChar('-')
  {
  }

  lemma WholeChars(s: string, j: nat)
    requires j < |s| && IsDigit(s[j])
    ensures forall k :: j <= k < WholeEnd(s, j) ==> NumberChar(s[k])
  {
    SkipStops(Digit, s, j);
  }

  lemma FracChars(s: string, w: nat)
    requires w <= |s|
    ensures forall k :: w <= k < FracEnd(s, w) ==> NumberChar(s[k])
  {
    if w + 1 <= |s| { SkipStops(Digit, s, w + 1); }
  }

  lemma ExpChars(s: string, f: nat)
    requires f <= |s|
    ensures forall k :: f <= k < ExpEnd(s, f) ==> NumberChar(s[k])
  {
    if ExpEnd(s, f) > f {
      SkipStops(Digit, s, if s[f + 1] == '+' || s[f + 1] == '-' then f + 2 else f + 1);
    }
  }

  /** A value that starts with none of the three openers ends before any container opener. */
  lemma ScalarEnd(s: string, i: nat)
    requires i < |s| && s[i] != '"' && s[i] != '{' && s[i] != '[' && Decode(s, i).Ok?
    ensures forall k :: i <= k < Decode(s, i).end ==> s[k] != '{' && s[k] != '['
  {
    hide DecodeNumber, DecodeItems, DecodeMembers, DecodeString, At, Skip, NumberChar;
    if s[i] == 'n' && At(s, i, "null") { WordChars(s, i, "null"); }
    else if s[i] == 't' && At(s, i, "true") { WordChars(s, i, "true"); }
    else if s[i] == 'f' && At(s, i, "false") { WordChars(s, i, "false"); }
    else if DecodeNumber(s, i).Ok? { NumberEnd(s, i); NumberChars(); }
    else if s[i] == 'N' && At(s, i, "NaN") { WordChars(s, i, "NaN"); }
    else if s[i] == 'I' && At(s, i, "Infinity") { WordChars(s, i, "Infinity"); }
    else { WordChars(s, i, "-Infinity"); }
  }

  lemma NumberChars()
    ensures forall c :: NumberChar(c) ==> c != '{' && c != '['
  {
  }

  lemma WordChars(s: string, i: nat, t: string)
    requires forall k :: 0 <= k < |t| ==> t[k] != '{' && t[k] != '['
    ensures At(s, i, t) ==> forall k :: i <= k < i + |t| ==> s[k] != '{' && s[k] != '['
  {
    if At(s, i, t) {
      forall k | i <= k < i + |t| ensures s[k] != '{' && s[k] != '[' { assert s[i..i + |t|][k - i] == s[k]; }
    }
  }

  /** Where `Strip` cuts. */
  lemma StripSpan(s: string, b: nat)
    requires b < |s| && !IsSpace(s[b])
    ensures var f := Skip(Space, s, 0);
            && f <= b < f + |Strip(s)| <= |s|
            && Strip(s) == s[f..f + |Strip(s)|]
            && !IsSpace(s[f])
            && !IsSpace(Strip(s)[|Strip(s)| - 1])
  {
    SkipStops(Space, s, 0);
    var f := Skip(Space, s, 0);
    assert In(s[b], Space) <==> IsSpace(s[b]);
    var l := s[f..];
    assert l[b - f] == s[b];
    assert In(s[f], Space) <==> IsSpace(s[f]);
  }

  lemma LoadsPrinted(v: Value)
    requires Valid(v) && IsContainer(v)
    ensures Loads(Print(v)) == Some(Meaning(v))
  {
    hide Decode, Print, Agrees, Meaning, Valid;
    var p := Print(v);
    AgreesSelf(p);
    FirstChar(v);
    ValueAgrees(p, 0, v);
    OpenBracket(v);
  }

  function OpenerOf(v: Value): (c: char)
    ensures IsOpener(c)
  {
    if v.Arr? || v.EmptyArr? then '[' else '{'
  }

  lemma OpenBracket(v: Value)
    requires IsContainer(v)
    ensures |Print(v)| > 0 && Print(v)[0] == OpenerOf(v)
  {
  }

  lemma AgreesSelf(s: string)
    ensures Agrees(s, 0, s)
  {
  }

  /** Reading the stripped text as a whole succeeds only when the text is the printed container and spaces. */
  lemma Shortcut(lex: Lexicon, s: string, b: nat, v: Value)
    requires Valid(v) && IsContainer(v)
    requires b < |s| && InertTo(lex, s, b) && Agrees(s, b, Print(v))
    ensures Loads(Strip(s)).Some? ==> b + |Print(v)| <= |s| && Strip(s) == Print(v)
  {
    hide Decode, Print, Meaning, Valid, Strip, OpensFence, Plausible;
    OpenBracket(v);
    AgreesFirst(s, b, Print(v));
    StripSpan(s, b);
    var f := Skip(Space, s, 0);
    var st := Strip(s);
    if f == b {
      forall k | 0 <= k < |Print(v)| && 0 + k < |st| ensures st[0 + k] == Print(v)[k] { assert st[k] == s[b + k]; }
      ShortcutExact(st, v);
    } else {
      assert !IsOpener(s[f]) && s[f] != '"';
      assert st[b - f] == s[b];
      ShortcutScalar(st, b - f);
    }
  }

  lemma ShortcutExact(st: string, v: Value)
    requires Valid(v) && IsContainer(v) && |st| > 0 && Agrees(st, 0, Print(v)) && !IsSpace(st[|st| - 1])
    ensures Loads(st).Some? ==> st == Print(v)
  {
    hide Decode, Print, Meaning, Valid;
    OpenBracket(v);
    AgreesFirst(st, 0, Print(v));
    ValueAgrees(st, 0, v);
    if |Print(v)| <= |st| {
      AgreesAt(st, 0, Print(v));
      SkipStops(Blank, st, |Print(v)|);
      assert !In(st[|st| - 1], Blank);
    }
  }

  lemma ShortcutScalar(st: string, n: nat)
    requires 0 < n < |st| && (st[n] == '{' || st[n] == '[')
    requires st[0] != '{' && st[0] != '[' && st[0] != '"' && !IsSpace(st[0])
    ensures Loads(st) == None
  {
    var r := Decode(st, 0);
    if r.Ok? {
      ScalarEnd(st, 0);
      SkipStops(Blank, st, r.end);
    }
  }

  // ---------- root selection ----------

  lemma BlankIsSpace(t: string)
    requires All(Blank, t)
    ensures All(Space, t)
  {
  }

  /** A printed container is lexically plausible at its opener as soon as anything visible follows. */
  lemma PlausibleOpener(lex: Lexicon, s: string, b: nat, v: Value)
    requires Sane(lex) && Valid(v) && IsContainer(v) && b < |s| && Agrees(s, b, Print(v))
    ensures Skip(Space, s, b + 1) < |s| ==> Plausible(lex, s, b)
    ensures b + |Print(v)| <= |s| ==> Skip(Space, s, b + 1) < |s|
  {
    hide Agrees, PrintItems, PrintMembers;
    OpenBracket(v);
    AgreesFirst(s, b, Print(v));
    ValidParts(v);
    match v
    case EmptyArr(blank) =>
      AgreesSplit(s, b, "[", blank + "]");
      AgreesSplit(s, b + 1, blank, "]");
      AgreesFirst(s, b + 1 + |blank|, "]");
      BlankIsSpace(blank);
      SkipRun(Space, s, b + 1, blank);
    case EmptyObj(blank) =>
      AgreesSplit(s, b, "{", blank + "}");
      AgreesSplit(s, b + 1, blank, "}");
      AgreesFirst(s, b + 1 + |blank|, "}");
      BlankIsSpace(blank);
      SkipRun(Space, s, b + 1, blank);
    case Arr(items) => PlausibleArray(lex, s, b, items);
    case Obj(members) =>
      AgreesSplit(s, b, "{", PrintMembers(members));
      MemberParts(s, b + 1, members);
      MemberStarts(s, b + 1, members);
      BlankIsSpace(members.m.lead);
      SkipRun(Space, s, b + 1, members.m.lead);
  }

  lemma PlausibleArray(lex: Lexicon, s: string, b: nat, items: Items)
    requires Sane(lex) && ValidItems(items) && b < |s| && s[b] == '[' && Agrees(s, b, Print(Arr(items)))
    ensures Skip(Space, s, b + 1) < |s| ==> Plausible(lex, s, b)
    ensures b + |Print(Arr(items))| <= |s| ==> Skip(Space, s, b + 1) < |s|
  {
    hide Agrees, PrintItems, Print;
    PrintArr(items);
    AgreesSplit(s, b, "[", PrintItems(items));
    ItemsParts(s, b + 1, items);
    BlankIsSpace(items.lead);
    FirstChar(items.v);
    AgreesFirst(s, b + 1 + |items.lead|, Print(items.v));
    SkipRun(Space, s, b + 1, items.lead);
  }

  lemma PrintArr(items: Items)
    ensures Print(Arr(items)) == "[" + PrintItems(items)
  {
  }

  lemma OpenerFound(lex: Lexicon, s: string, b: nat)
    requires b < |s| && InertTo(lex, s, b)
    ensures FirstOpener(lex, s, 0) == FirstOpener(lex, s, b)
  {
    hide IsStructural;
    SkipInert(lex, s, 0, b);
  }

  lemma RootSelectionAt(lex: Lexicon, s: string, b: nat, v: Value)
    requires Sane(lex) && Valid(v) && IsContainer(v)
    requires b + |Print(v)| <= |s| && InertTo(lex, s, b) && Agrees(s, b, Print(v))
    ensures FirstRoot(lex, s) == Some(Root(Print(v), true, Some(Meaning(v))))
  {
    hide Print, Meaning, Valid, Agrees, Strip, Loads, Plausible, ScanTo, InertTo;
    OpenBracket(v);
    AgreesFirst(s, b, Print(v));
    LoadsPrinted(v);
    Shortcut(lex, s, b, v);
    OpenerFound(lex, s, b);
    PlausibleOpener(lex, s, b, v);
    ScanInitial(s, b);
    ScanContainer(s, b, b, v, "");
    ScanStable(s, b, b + |Print(v)|, |s|);
    AgreesAt(s, b, Print(v));
    assert FirstOpener(lex, s, b) == b;
  }

  lemma ScanInitial(s: string, b: nat)
    requires b <= |s|
    ensures ScanTo(s, b, b) == Scanning("", false, false)
  {
  }

  /** For every JSON object or array, every way to write it, every inert text before it and every
      text after it, the selected root is exactly what was written, with its value. */
  lemma RootSelection(lex: Lexicon, w: string, v: Value, suffix: string)
    requires Sane(lex) && Valid(v) && IsContainer(v) && Inert(lex, w, OpenerOf(v))
    ensures FirstRoot(lex, w + Print(v) + suffix) == Some(Root(Print(v), true, Some(Meaning(v))))
    ensures ParseJson(lex, w + Print(v) + suffix) == Some(Meaning(v))
  {
    var s := w + Print(v) + suffix;
    InertResponse(lex, w, v, Print(v) + suffix);
    assert w + (Print(v) + suffix) == s;
    assert s[|w|..|w| + |Print(v)|] == Print(v);
    AgreesAt(s, |w|, Print(v));
    RootSelectionAt(lex, s, |w|, v);
  }

  /** Inert text, then a container or a part of it, then anything. */
  lemma InertResponse(lex: Lexicon, w: string, v: Value, rest: string)
    requires IsContainer(v) && Inert(lex, w, OpenerOf(v)) && rest != "" && rest[0] == Print(v)[0]
    ensures InertTo(lex, w + rest, |w|)
  {
    hide Inert, InertTo;
    OpenBracket(v);
    InertBefore(lex, w, OpenerOf(v), rest[1..]);
    assert w + [rest[0]] + rest[1..] == w + rest;
  }

  // ---------- a cut root ----------

  lemma {:induction false} ScanPrefix(s: string, t: string, start: nat, stop: nat)
    requires start <= stop <= |s| <= |t| && forall k :: 0 <= k < stop ==> s[k] == t[k]
    ensures ScanTo(s, start, stop) == ScanTo(t, start, stop)
    decreases stop
  {
    if start < stop { ScanPrefix(s, t, start, stop - 1); }
  }

  /** Every proper prefix of a printed container leaves the scan open. */
  lemma ScanOpen(s: string, b: nat, v: Value)
    requires Valid(v) && IsContainer(v) && b <= |s| < b + |Print(v)| && Agrees(s, b, Print(v))
    ensures ScanTo(s, b, |s|).Scanning?
  {
    hide Print, Valid, ScanTo, Agrees;
    var t := s[..b] + Print(v);
    assert forall k :: 0 <= k < |s| ==> s[k] == t[k] by { SamePrefix(s, b, Print(v)); }
    assert t[b..b + |Print(v)|] == Print(v);
    AgreesAt(t, b, Print(v));
    ScanInitial(t, b);
    ScanContainer(t, b, b, v, "");
    ScanPrefix(s, t, b, |s|);
    if !ScanTo(t, b, |s|).Scanning? {
      ScanStable(t, b, |s|, |t|);
    }
  }

  lemma SamePrefix(s: string, b: nat, p: string)
    requires b <= |s| <= b + |p| && Agrees(s, b, p)
    ensures forall k :: 0 <= k < |s| ==> s[k] == (s[..b] + p)[k]
  {
    forall k | b <= k < |s| ensures s[k] == (s[..b] + p)[k] {
      assert s[b + (k - b)] == p[k - b];
    }
  }

  /** A cut container yields either no root or the incomplete root that runs from its opener to the
      cut: never a value nested in it, and never a value. */
  lemma RootCutAt(lex: Lexicon, s: string, b: nat, v: Value)
    requires Sane(lex) && Valid(v) && IsContainer(v)
    requires b < |s| < b + |Print(v)| && InertTo(lex, s, b) && Agrees(s, b, Print(v))
    ensures FirstRoot(lex, s) == if IsStructural(lex, s, b) then Some(Root(s[b..], false, None)) else None
  {
    hide Print, Valid, Agrees, Strip, Loads, ScanTo, IsStructural, InertTo;
    OpenBracket(v);
    AgreesFirst(s, b, Print(v));
    Shortcut(lex, s, b, v);
    OpenerFound(lex, s, b);
    ScanOpen(s, b, v);
    if !IsStructural(lex, s, b) {
      LaterOpeners(lex, s, b, v);
    }
  }

  /** If the first opener is not selected, it is because nothing visible follows it. */
  lemma LaterOpeners(lex: Lexicon, s: string, b: nat, v: Value)
    requires Sane(lex) && Valid(v) && IsContainer(v) && b < |s| && Agrees(s, b, Print(v))
    requires !IsStructural(lex, s, b)
    ensures FirstOpener(lex, s, b) == -1
  {
    PlausibleOpener(lex, s, b, v);
    SkipStops(Space, s, b + 1);
    forall k | b + 1 <= k < |s| ensures !IsOpener(s[k]) { assert In(s[k], Space); }
    SkipInert(lex, s, b, |s|);
  }
}
