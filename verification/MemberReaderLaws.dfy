/** What is recovered from a truncated object, told from the object itself: `Salvage` looks at the
    member tree and the position of the cut, never at the text the reader sees. */
module MemberReaderLaws {
  import opened Collections
  import opened Text
  import opened JsonSyntax
  import opened JsonDecoder
  import opened DecoderLaws
  import opened RootScanner
  import opened RootLaws
  import opened MemberReader

  /** Where the value of the first member starts and ends, counted from the start of the members. */
  function ValueAt(ms: Members): nat {
    |ms.m.lead| + |Quote(ms.m.key)| + |ms.m.gap| + 1 + |ms.m.before|
  }

  function ValueEnd(ms: Members): nat {
    ValueAt(ms) + |Print(ms.m.v)|
  }

  /** What can be recovered when only the first `cut` characters of the members are there. Members
      whose value is complete are kept. A cut name that already shows a quote (an escaped one) and a
      numeral cut right after its point or exponent make the reader give up; a numeral cut after a
      digit is a shorter numeral; everything else at the cut is dropped. */
  function Salvage(ms: Members, cut: nat, acc: Members'): Option<Members'> {
    var m := ms.m;
    var keyAt := |m.lead|;
    if cut <= keyAt then Some(acc)
    else if cut < keyAt + |Quote(m.key)| then
      if '"' in Quote(m.key)[1..cut - keyAt] then None else Some(acc)
    else if cut <= ValueAt(ms) then Some(acc)
    else if cut < ValueEnd(ms) then
      if m.v.Num? then SalvageNumeral(Print(m.v)[..cut - ValueAt(ms)], Unescape(m.key), acc) else Some(acc)
    else
      var next := acc[Unescape(m.key) := Meaning(m.v)];
      if ms.LastMember? || cut <= ValueEnd(ms) + |m.trail| then Some(next)
      else Salvage(ms.rest, cut - ValueEnd(ms) - |m.trail| - 1, next)
  }

  function SalvageNumeral(p: string, key: Key, acc: Members'): Option<Members'>
    requires p != ""
  {
    if p == "-" then Some(acc)
    else if IsDigit(p[|p| - 1]) then Some(acc[key := Number(p)])
    else None
  }

  // ---------- the reader computes Salvage ----------

  lemma {:induction false} ReadIsSalvage(lex: Lexicon, s: string, i: nat, ms: Members, acc: Members')
    requires Sane(lex) && ValidMembers(ms) && i <= |s| < i + |PrintMembers(ms)| && Agrees(s, i, PrintMembers(ms))
    ensures ReadMember(lex, s, i, acc) == Salvage(ms, |s| - i, acc)
    decreases ms, 1
  {
    hide Agrees, Print, PrintMembers, Quote, Decode, DecodeString, MembersTail, All, Skip, Unescape, Find;
    var m := ms.m;
    var k := i + |m.lead|;
    var g := k + |Quote(m.key)|;
    var c := g + |m.gap|;
    MemberParts(s, i, ms);
    MemberStarts(s, i, ms);
    QuoteLength(m.key);
    SpaceRun(s, i, m.lead);
    if k < |s| {
      KeyAgrees(s, k, m.key);
      if g <= |s| {
        SpaceRun(s, g, m.gap);
        if c < |s| {
          SpaceRun(s, c + 1, m.before);
          ReadValueIsSalvage(lex, s, i, ms, acc);
        }
      } else {
        CutKey(s, k, m.key);
      }
    }
  }

  lemma QuoteLength(key: seq<Piece>)
    ensures |Quote(key)| >= 2
  {
  }

  /** Printed blanks are skipped by the wider whitespace loop as well; no token starts with a space. */
  lemma SpaceRun(s: string, i: nat, run: string)
    requires i <= |s| && All(Blank, run) && Agrees(s, i, run)
    requires i + |run| < |s| ==> !IsSpace(s[i + |run|])
    ensures Skip(Space, s, i) == if i + |run| <= |s| then i + |run| else |s|
  {
    BlankIsSpace(run);
    SkipRun(Space, s, i, run);
  }

  lemma CutKey(s: string, k: nat, key: seq<Piece>)
    requires k < |s| < k + |Quote(key)| && Agrees(s, k, Quote(key))
    ensures Find(s, '"', k + 1) == -1 <==> '"' !in Quote(key)[1..|s| - k]
  {
    var cut := Quote(key)[1..|s| - k];
    forall x | 0 <= x < |cut| ensures cut[x] == s[k + 1 + x] {
      assert s[k + (1 + x)] == Quote(key)[1 + x];
    }
    var f := Find(s, '"', k + 1);
    if f != -1 {
      assert cut[f - k - 1] == '"';
    }
  }

  lemma {:induction false} ReadValueIsSalvage(lex: Lexicon, s: string, i: nat, ms: Members, acc: Members')
    requires Sane(lex) && ValidMembers(ms) && Agrees(s, i, PrintMembers(ms))
    requires i + ValueAt(ms) - |ms.m.before| <= |s| < i + |PrintMembers(ms)|
    ensures ReadValue(lex, s, Unescape(ms.m.key), if i + ValueAt(ms) <= |s| then i + ValueAt(ms) else |s|, acc) == Salvage(ms, |s| - i, acc)
    decreases ms, 0
  {
    hide Agrees, Print, PrintMembers, Quote, Decode, DecodeNumber, MembersTail, All, Skip, Unescape, ReadMember, Meaning, Valid;
    var m := ms.m;
    var j := i + ValueAt(ms);
    var e := i + ValueEnd(ms);
    MemberParts(s, i, ms);
    QuoteLength(m.key);
    TailStart(s, e + |m.trail|, ms);
    Delimited(s, e, m.trail, if ms.LastMember? then '}' else ',');
    FirstChar(m.v);
    AgreesFirst(s, j, Print(m.v));
    if j < |s| {
      if e <= |s| {
        ValueAgrees(s, j, m.v);
        SpaceRun(s, e, m.trail);
        if ms.MoreMembers? && e + |m.trail| < |s| {
          ReadIsSalvage(lex, s, e + |m.trail| + 1, ms.rest, acc[Unescape(m.key) := Meaning(m.v)]);
        }
      } else if m.v.Num? {
        ReadCutNumeral(lex, s, j, m.v, Unescape(m.key), acc);
      } else {
        ValueAgrees(s, j, m.v);
      }
    }
  }

  lemma ReadCutNumeral(lex: Lexicon, s: string, j: nat, v: Value, key: Key, acc: Members')
    requires Sane(lex) && Valid(v) && v.Num? && j < |s| < j + |Print(v)| && Agrees(s, j, Print(v))
    ensures ReadValue(lex, s, key, j, acc) == SalvageNumeral(Print(v)[..|s| - j], key, acc)
  {
    hide Decode, DecodeNumber, Valid, ReadMember;
    ValidParts(v);
    PrintNum(v.n);
    var p := Print(v)[..|s| - j];
    assert s[j..] == p by { CutText(s, j, Print(v)); }
    NumeralCut(s, j, v.n);
    NumberOnly(s, j, v.n);
    assert p[|p| - 1] == s[|s| - 1];
    if p == "-" {
      assert s[j] == p[0];
    }
  }

  /** Blanks and the delimiter after a value do not continue a numeral. */
  lemma Delimited(s: string, e: nat, trail: string, sep: char)
    requires All(Blank, trail) && (sep == '}' || sep == ',')
    requires Agrees(s, e, trail) && Agrees(s, e + |trail|, [sep])
    ensures NumberStops(s, e)
    ensures e + |trail| < |s| ==> s[e + |trail|] == sep && !IsSpace(sep)
  {
    AgreesFirst(s, e, trail);
    AgreesFirst(s, e + |trail|, [sep]);
  }

  lemma CutText(s: string, j: nat, t: string)
    requires j <= |s| < j + |t| && Agrees(s, j, t)
    ensures s[j..] == t[..|s| - j]
  {
    forall x | 0 <= x < |s| - j ensures s[j..][x] == t[x] { assert s[j + x] == t[x]; }
  }

  // ---------- whole responses ----------

  predicate IsObject(v: Value) {
    v.Obj? || v.EmptyObj?
  }

  function SalvageObject(v: Value, cut: nat): Option<Members'>
    requires IsObject(v) && cut > 0
  {
    if v.EmptyObj? then Some(map[]) else Salvage(v.members, cut - 1, map[])
  }

  /** A response that breaks off inside its first JSON object: exactly `Salvage` is recovered,
      unless the brace was not even taken for a root because nothing visible follows it. */
  lemma TruncatedObject(lex: Lexicon, w: string, v: Value, cut: nat)
    requires Sane(lex) && Inert(lex, w, '{') && Valid(v) && IsObject(v) && 0 < cut < |Print(v)|
    ensures var text := w + Print(v)[..cut];
            && (IsStructural(lex, text, |w|) ==> Completed(lex, text) == SalvageObject(v, cut))
            && (!IsStructural(lex, text, |w|) ==> Completed(lex, text) == None)
            && (Skip(Space, text, |w| + 1) < |text| ==> IsStructural(lex, text, |w|))
  {
    hide Print, Valid, FirstRoot, IsStructural, Plausible, Inert, InertTo;
    var text := w + Print(v)[..cut];
    TextAgrees(w, Print(v)[..cut], Print(v));
    InertResponse(lex, w, v, Print(v)[..cut]);
    RootCutAt(lex, text, |w|, v);
    PlausibleOpener(lex, text, |w|, v);
    if Plausible(lex, text, |w|) {
      PlausibleIsStructural(lex, text, |w|);
    }
    if IsStructural(lex, text, |w|) {
      var fragment := Print(v)[..cut];
      assert text[|w|..] == fragment;
      OpenBracket(v);
      assert LStrip(fragment) == fragment;
      ReadFragment(lex, v, cut);
    }
  }

  lemma PlausibleIsStructural(lex: Lexicon, s: string, b: nat)
    requires b < |s| && Plausible(lex, s, b)
    ensures IsStructural(lex, s, b)
  {
  }

  lemma TextAgrees(w: string, a: string, t: string)
    requires a <= t
    ensures Agrees(w + a, |w|, t)
  {
    forall k | 0 <= k < |t| && |w| + k < |w + a| ensures (w + a)[|w| + k] == t[k] {}
  }

  lemma ReadFragment(lex: Lexicon, v: Value, cut: nat)
    requires Sane(lex) && Valid(v) && IsObject(v) && 0 < cut < |Print(v)|
    ensures ReadMember(lex, Print(v)[..cut], 1, map[]) == SalvageObject(v, cut)
  {
    hide Agrees, PrintMembers, Salvage, ReadMember, Valid;
    var s := Print(v)[..cut];
    ValidParts(v);
    TextAgrees("", s, Print(v));
    assert "" + s == s;
    match v
    case EmptyObj(blank) => ReadEmpty(lex, s, blank);
    case Obj(members) =>
      AgreesSplit(s, 0, "{", PrintMembers(members));
      ReadIsSalvage(lex, s, 1, members, map[]);
  }

  lemma ReadEmpty(lex: Lexicon, s: string, blank: string)
    requires All(Blank, blank) && 0 < |s| < |blank| + 2 && Agrees(s, 0, "{" + (blank + "}"))
    ensures ReadMember(lex, s, 1, map[]) == Some(map[])
  {
    hide Agrees, All;
    AgreesSplit(s, 0, "{", blank + "}");
    AgreesSplit(s, 1, blank, "}");
    BlankIsSpace(blank);
    SkipRun(Space, s, 1, blank);
  }

  /** A complete first object is recovered whole, whatever follows it. */
  lemma CompleteObject(lex: Lexicon, w: string, v: Value, suffix: string)
    requires Sane(lex) && Inert(lex, w, '{') && Valid(v) && IsObject(v)
    ensures Meaning(v).Object? && Completed(lex, w + Print(v) + suffix) == Some(Meaning(v).members)
  {
    RootSelection(lex, w, v, suffix);
    OpenBracket(v);
    ObjectMeaning(v);
    hide *;
    CompleteRoot(lex, w + Print(v) + suffix, Print(v), Meaning(v).members);
  }

  lemma CompleteRoot(lex: Lexicon, text: string, fragment: string, members: Members')
    requires FirstRoot(lex, text) == Some(Root(fragment, true, Some(Object(members))))
    requires fragment != "" && fragment[0] == '{'
    ensures Completed(lex, text) == Some(members)
  {
    hide FirstRoot, MembersOf;
    CompleteMembers(lex, fragment, members);
  }

  lemma CompleteMembers(lex: Lexicon, fragment: string, members: Members')
    requires fragment != "" && fragment[0] == '{'
    ensures MembersOf(lex, Root(fragment, true, Some(Object(members)))) == Some(members)
  {
    hide LStrip, ReadMember, IsSpace;
    BraceIsVisible();
    NothingToStrip(fragment);
  }

  lemma BraceIsVisible()
    ensures !IsSpace('{')
  {
  }

  lemma NothingToStrip(t: string)
    requires t != "" && !IsSpace(t[0])
    ensures LStrip(t) == t
  {
  }

  lemma ObjectMeaning(v: Value)
    ensures IsObject(v) ==> Meaning(v).Object?
    ensures v.Arr? || v.EmptyArr? ==> Meaning(v).Array?
  {
  }

  /** Objects inside a first array are never promoted, complete or cut. */
  lemma ArrayRoot(lex: Lexicon, w: string, v: Value, cut: nat)
    requires Sane(lex) && Inert(lex, w, '[') && Valid(v) && (v.Arr? || v.EmptyArr?) && 0 < cut <= |Print(v)|
    ensures Completed(lex, w + Print(v)[..cut]) == None
  {
    hide Print, Valid, FirstRoot, IsStructural, ReadMember, Inert, InertTo;
    var fragment := Print(v)[..cut];
    var text := w + fragment;
    TextAgrees(w, fragment, Print(v));
    InertResponse(lex, w, v, fragment);
    OpenBracket(v);
    assert LStrip(fragment) == fragment;
    if cut < |Print(v)| {
      RootCutAt(lex, text, |w|, v);
      assert text[|w|..] == fragment;
    } else {
      RootSelectionAt(lex, text, |w|, v);
      assert fragment == Print(v);
    }
  }

  // ---------- what Salvage amounts to ----------

  function Length(ms: Members): nat {
    if ms.LastMember? then 1 else 1 + Length(ms.rest)
  }

  function Nth(ms: Members, n: nat): Member
    requires n < Length(ms)
  {
    if n == 0 then ms.m else Nth(ms.rest, n - 1)
  }

  /** The map of the first `n` members, in order. */
  function FirstMembers(ms: Members, n: nat, acc: Members'): Members'
    requires n <= Length(ms)
  {
    if n == 0 then acc
    else
      var next := acc[Unescape(ms.m.key) := Meaning(ms.m.v)];
      if ms.LastMember? then next else FirstMembers(ms.rest, n - 1, next)
  }

  /** How many members have their whole value before the cut. */
  function CompleteCount(ms: Members, cut: nat): (n: nat)
    ensures n <= Length(ms)
  {
    if cut < ValueEnd(ms) then 0
    else if ms.LastMember? then 1
    else if cut <= ValueEnd(ms) + |ms.m.trail| then 1
    else 1 + CompleteCount(ms.rest, cut - ValueEnd(ms) - |ms.m.trail| - 1)
  }

  /** `r` adds to the first `n` members a shortened numeral of the next one. */
  predicate ShortNumeral(ms: Members, n: nat, acc: Members', r: Members', p: string)
    requires n <= Length(ms)
  {
    && n < Length(ms)
    && Nth(ms, n).v.Num?
    && p < Print(Nth(ms, n).v) && p != "" && IsDigit(p[|p| - 1])
    && r == FirstMembers(ms, n, acc)[Unescape(Nth(ms, n).key) := Number(p)]
  }

  /** Whatever the cut, what is recovered is the map of exactly the completed members, in order, or
      that map with the numeral at the cut shortened. Nothing nested, nothing later, nothing missing. */
  lemma {:induction false} SalvageIsPrefix(ms: Members, cut: nat, acc: Members')
    requires ValidMembers(ms)
    ensures var r := Salvage(ms, cut, acc);
            var n := CompleteCount(ms, cut);
            r.Some? ==> r.value == FirstMembers(ms, n, acc) || exists p :: ShortNumeral(ms, n, acc, r.value, p)
    decreases ms
  {
    hide Print, Quote, Unescape, Meaning, ValueAt, Valid;
    FirstChar(ms.m.v);
    QuoteLength(ms.m.key);
    KeyBeforeValue(ms);
    var r := Salvage(ms, cut, acc);
    if ValueAt(ms) < cut < ValueEnd(ms) {
      var p := Print(ms.m.v)[..cut - ValueAt(ms)];
      assert p < Print(ms.m.v) by { ProperPrefix(Print(ms.m.v), cut - ValueAt(ms)); }
      assert ms.m.v.Num? && r.Some? && p != "-" ==> ShortNumeral(ms, 0, acc, r.value, p);
    } else if cut >= ValueEnd(ms) && ms.MoreMembers? && cut > ValueEnd(ms) + |ms.m.trail| {
      var rest := cut - ValueEnd(ms) - |ms.m.trail| - 1;
      var next := acc[Unescape(ms.m.key) := Meaning(ms.m.v)];
      SalvageIsPrefix(ms.rest, rest, next);
      var n := CompleteCount(ms.rest, rest);
      assert CompleteCount(ms, cut) == n + 1;
      assert FirstMembers(ms, n + 1, acc) == FirstMembers(ms.rest, n, next);
      assert r == Salvage(ms.rest, rest, next);
      if r.Some? && r.value != FirstMembers(ms.rest, n, next) {
        var p :| ShortNumeral(ms.rest, n, next, r.value, p);
        assert Nth(ms, n + 1) == Nth(ms.rest, n);
        assert ShortNumeral(ms, n + 1, acc, r.value, p);
      }
    }
  }

  lemma KeyBeforeValue(ms: Members)
    ensures |ms.m.lead| + |Quote(ms.m.key)| < ValueAt(ms)
  {
  }

  lemma ProperPrefix(t: string, n: nat)
    requires n < |t|
    ensures t[..n] < t
  {
  }

  /** The headline: for every object, every way to write it, every inert text before it and every
      cut, the reader returns nothing or exactly the members completed before the cut (the numeral
      at the cut possibly shortened). Names need not be distinct. */
  lemma TruncationSafe(lex: Lexicon, w: string, ms: Members, cut: nat)
    requires Sane(lex) && Inert(lex, w, '{') && ValidMembers(ms) && 0 < cut < |Print(Obj(ms))|
    ensures var r := Completed(lex, w + Print(Obj(ms))[..cut]);
            var n := CompleteCount(ms, cut - 1);
            r.Some? ==> r.value == FirstMembers(ms, n, map[]) || exists p :: ShortNumeral(ms, n, map[], r.value, p)
  {
    hide Salvage, ShortNumeral, Completed, Print, PrintMembers, IsStructural, FirstMembers;
    TruncatedObject(lex, w, Obj(ms), cut);
    SalvageIsPrefix(ms, cut - 1, map[]);
  }
}
