/** What the member reader refuses: an object that goes wrong where a member, a colon, a value or a
    delimiter should stand is malformed and gives nothing, while one that merely ends gives what it has. */
module RefusalLaws {
  import opened Collections
  import opened Text
  import opened JsonSyntax
  import opened JsonDecoder
  import opened DecoderLaws
  import opened RootScanner
  import opened RootLaws
  import opened MemberReader
  import opened MemberReaderLaws

  // ---------- members that are followed by more ----------

  /** Members as they are written when others follow: the last one has its comma too. */
  function Leading(ms: Members): string
    decreases ms, 1
  {
    ms.m.lead + (Quote(ms.m.key) + (ms.m.gap + (":" + (ms.m.before + (Print(ms.m.v) + (ms.m.trail + LeadingTail(ms)))))))
  }

  function LeadingTail(ms: Members): string
    decreases ms, 0
  {
    match ms
    case LastMember(_) => ","
    case MoreMembers(_, rest) => "," + Leading(rest)
  }

  /** One member stands in the text, up to its delimiter. */
  predicate MemberStands(s: string, i: nat, m: Member) {
    var k := i + |m.lead|;
    var g := k + |Quote(m.key)|;
    var c := g + |m.gap|;
    var j := c + 1 + |m.before|;
    var e := j + |Print(m.v)|;
    && At(s, i, m.lead) && At(s, k, Quote(m.key)) && At(s, g, m.gap) && At(s, c, ":") && At(s, c + 1, m.before)
    && At(s, j, Print(m.v)) && At(s, e, m.trail)
  }

  /** Where its value ends. */
  function MemberEnd(i: nat, m: Member): nat {
    i + |m.lead| + |Quote(m.key)| + |m.gap| + 1 + |m.before| + |Print(m.v)|
  }

  lemma AtSplit(s: string, i: nat, a: string, b: string)
    requires At(s, i, a + b)
    ensures At(s, i, a) && At(s, i + |a|, b)
  {
    assert s[i..i + |a|] == (a + b)[..|a|];
    assert s[i + |a|..i + |a| + |b|] == (a + b)[|a|..];
  }

  lemma AtFirst(s: string, i: nat, t: string)
    requires At(s, i, t) && t != ""
    ensures i < |s| && s[i] == t[0]
  {
    assert s[i..i + |t|][0] == s[i];
  }

  lemma LeadingStands(s: string, i: nat, ms: Members)
    requires At(s, i, Leading(ms))
    ensures MemberStands(s, i, ms.m)
    ensures At(s, MemberEnd(i, ms.m) + |ms.m.trail|, LeadingTail(ms))
  {
    hide At, Quote, Print, LeadingTail;
    var m := ms.m;
    var t6 := m.trail + LeadingTail(ms);
    var t5 := Print(m.v) + t6;
    var t4 := m.before + t5;
    var t3 := ":" + t4;
    var t2 := m.gap + t3;
    var t1 := Quote(m.key) + t2;
    var k := i + |m.lead|;
    var g := k + |Quote(m.key)|;
    var c := g + |m.gap|;
    var j := c + 1 + |m.before|;
    AtSplit(s, i, m.lead, t1);
    AtSplit(s, k, Quote(m.key), t2);
    AtSplit(s, g, m.gap, t3);
    AtSplit(s, c, ":", t4);
    AtSplit(s, c + 1, m.before, t5);
    AtSplit(s, j, Print(m.v), t6);
    AtSplit(s, j + |Print(m.v)|, m.trail, LeadingTail(ms));
  }

  /** Spaces that stand there are skipped, up to the first visible character. */
  lemma SpacesStand(s: string, i: nat, run: string)
    requires At(s, i, run) && All(Space, run) && (i + |run| < |s| ==> !IsSpace(s[i + |run|]))
    ensures Skip(Space, s, i) == i + |run|
  {
    AgreesAt(s, i, run);
    SkipRun(Space, s, i, run);
  }

  /** A name that stands there is read, and the reader looks for its colon. */
  lemma NameRead(lex: Lexicon, s: string, i: nat, lead: string, key: seq<Piece>, gap: string, acc: Members')
    requires ValidPieces(key) && All(Space, lead) && All(Space, gap)
    requires At(s, i, lead) && At(s, i + |lead|, Quote(key)) && At(s, i + |lead| + |Quote(key)|, gap)
    requires var c := i + |lead| + |Quote(key)| + |gap|; c < |s| && !IsSpace(s[c])
    ensures var c := i + |lead| + |Quote(key)| + |gap|;
            ReadMember(lex, s, i, acc) ==
            if s[c] != ':' then None else ReadValue(lex, s, Unescape(key), Skip(Space, s, c + 1), acc)
  {
    hide At, Quote, Skip, DecodeString, ReadValue, Unescape, IsSpace;
    var k := i + |lead|;
    QuoteStarts(key);
    AtFirst(s, k, Quote(key));
    QuoteIsVisible();
    SpacesStand(s, i, lead);
    AgreesAt(s, k, Quote(key));
    KeyAgrees(s, k, key);
    AtFits(s, k, Quote(key));
    SpacesStand(s, k + |Quote(key)|, gap);
  }

  lemma AtFits(s: string, i: nat, t: string)
    requires At(s, i, t)
    ensures i + |t| <= |s|
  {
  }

  lemma QuoteStarts(key: seq<Piece>)
    ensures Quote(key) != "" && Quote(key)[0] == '"'
  {
  }

  lemma QuoteIsVisible()
    ensures !IsSpace('"') && !IsSpace(':') && !IsSpace(',')
  {
  }

  /** A value that stands there is read, if it is not a numeral that runs on. */
  lemma ValueRead(lex: Lexicon, s: string, key: Key, b: nat, before: string, v: Value, acc: Members')
    requires Valid(v) && All(Space, before) && b <= |s| && At(s, b, before) && At(s, b + |before|, Print(v))
    requires v.Num? ==> NumberStops(s, b + |before| + |Print(v)|)
    ensures var e := b + |before| + |Print(v)|;
            e <= |s| && ReadValue(lex, s, key, Skip(Space, s, b), acc) == ReadDelimiter(lex, s, e, acc[key := Meaning(v)])
  {
    hide At, Print, Decode, Meaning, Valid, ReadDelimiter, Skip, IsSpace;
    var j := b + |before|;
    FirstChar(v);
    AtFirst(s, j, Print(v));
    SpacesStand(s, b, before);
    AtFits(s, j, Print(v));
    AgreesAt(s, j, Print(v));
    ValueAgrees(s, j, v);
  }

  /** One complete member and its comma are read, and the reader goes on to the next. */
  lemma MemberRead(lex: Lexicon, s: string, i: nat, m: Member, acc: Members')
    requires ValidMember(m) && MemberStands(s, i, m)
    requires var at := MemberEnd(i, m) + |m.trail|; at < |s| && s[at] == ','
    ensures ReadMember(lex, s, i, acc)
         == ReadMember(lex, s, MemberEnd(i, m) + |m.trail| + 1, acc[Unescape(m.key) := Meaning(m.v)])
  {
    hide At, Print, Quote, Unescape, Meaning, Valid, Skip, ReadMember, ReadValue, All, ValidPieces, IsSpace;
    var c := i + |m.lead| + |Quote(m.key)| + |m.gap|;
    var e := MemberEnd(i, m);
    BlankIsSpace(m.lead);
    BlankIsSpace(m.gap);
    BlankIsSpace(m.before);
    BlankIsSpace(m.trail);
    QuoteIsVisible();
    AtFirst(s, c, ":");
    AtFits(s, c, ":");
    NameRead(lex, s, i, m.lead, m.key, m.gap, acc);
    TrailStops(s, e, m.trail);
    ValueRead(lex, s, Unescape(m.key), c + 1, m.before, m.v, acc);
    SpacesStand(s, e, m.trail);
  }

  lemma TrailStops(s: string, e: nat, trail: string)
    requires At(s, e, trail) && All(Blank, trail) && e + |trail| < |s| && s[e + |trail|] == ','
    ensures NumberStops(s, e)
  {
    if trail != "" { AtFirst(s, e, trail); assert In(trail[0], Blank); }
  }

  /** Complete members are read one after the other. */
  lemma {:induction false} ReadsThrough(lex: Lexicon, s: string, i: nat, ms: Members, acc: Members')
    requires ValidMembers(ms) && At(s, i, Leading(ms))
    ensures i + |Leading(ms)| <= |s|
    ensures ReadMember(lex, s, i, acc) == ReadMember(lex, s, i + |Leading(ms)|, MembersMeaning(ms, acc))
    decreases ms
  {
    hide At, Print, Quote, Unescape, Meaning, ValidMember, ReadMember, MemberStands;
    var at := MemberEnd(i, ms.m) + |ms.m.trail|;
    AtFits(s, i, Leading(ms));
    LeadingStands(s, i, ms);
    AtFirst(s, at, LeadingTail(ms));
    MemberRead(lex, s, i, ms.m, acc);
    if ms.MoreMembers? {
      AtSplit(s, at, ",", Leading(ms.rest));
      ReadsThrough(lex, s, at + 1, ms.rest, acc[Unescape(ms.m.key) := Meaning(ms.m.v)]);
    }
  }

  // ---------- faults ----------

  /** What goes wrong after complete members: no name where one should stand, a name with an escape that
      is none or a control character in it, no colon, no value, or no delimiter. */
  datatype Fault =
    | NoName(lead: string, c: char)
    | BadName(lead: string, ps: seq<Piece>, junk: string, more: string)
    | NoColon(lead: string, key: seq<Piece>, gap: string, c: char)
    | NoValue(lead: string, key: seq<Piece>, gap: string, before: string, c: char, more: string)
    | NoDelimiter(lead: string, key: seq<Piece>, gap: string, before: string, v: Value, trail: string, c: char)

  /** The characters JSON values start with. */
  predicate StartsValue(lex: Lexicon, c: char) {
    c == '"' || c == '{' || c == '[' || c == '-' || c == 't' || c == 'f' || c == 'n' || lex.digit(c)
  }

  predicate IsFault(lex: Lexicon, f: Fault) {
    && All(Space, f.lead)
    && match f
       case NoName(_, c) => !IsSpace(c) && c != '"' && c != '}'
       case BadName(_, ps, junk, _) =>
         ValidPieces(ps) && ((|junk| == 1 && junk[0] < ' ') || (|junk| == 2 && junk[0] == '\\' && junk[1] != 'u' && !IsShortEscape(junk[1])))
       case NoColon(_, key, gap, c) => ValidPieces(key) && All(Space, gap) && !IsSpace(c) && c != ':'
       case NoValue(_, key, gap, before, c, more) =>
         && ValidPieces(key) && All(Space, gap) && All(Space, before) && !IsSpace(c) && !StartsValue(lex, c)
         && !("NaN" <= [c] + more) && !("Infinity" <= [c] + more)
       case NoDelimiter(_, key, gap, before, v, trail, c) =>
         && ValidPieces(key) && All(Space, gap) && All(Space, before) && Valid(v) && All(Space, trail)
         && !IsSpace(c) && c != ',' && c != '}' && (v.Num? && trail == "" ==> !IsDigit(c) && c !in {'.', 'e', 'E', '+', '-'})
  }

  /** A fault that shows only in all that follows: a letter that a constant could start with. */
  predicate NeedsRest(f: Fault) {
    f.NoValue? && (f.c == 'N' || f.c == 'I')
  }

  function FaultText(f: Fault): string {
    match f
    case NoName(lead, c) => lead + [c]
    case BadName(lead, ps, junk, more) => lead + ("\"" + (PrintPieces(ps) + (junk + (more + "\""))))
    case NoColon(lead, key, gap, c) => lead + (Quote(key) + (gap + [c]))
    case NoValue(lead, key, gap, before, c, more) => lead + (Quote(key) + (gap + (":" + (before + ([c] + more)))))
    case NoDelimiter(lead, key, gap, before, v, trail, c) =>
      lead + (Quote(key) + (gap + (":" + (before + (Print(v) + (trail + [c]))))))
  }

  /** Where a member is expected, a fault makes the reader give up. */
  lemma FaultRefused(lex: Lexicon, s: string, i: nat, f: Fault, acc: Members')
    requires RootScanner.Sane(lex) && IsFault(lex, f) && At(s, i, FaultText(f))
    requires NeedsRest(f) ==> i + |FaultText(f)| == |s|
    ensures i <= |s| && ReadMember(lex, s, i, acc) == None
  {
    match f
    case NoName(lead, c) => NoNameRefused(lex, s, i, lead, c, acc);
    case BadName(lead, ps, junk, more) => BadNameRefused(lex, s, i, lead, ps, junk, more, acc);
    case NoColon(lead, key, gap, c) => NoColonRefused(lex, s, i, lead, key, gap, c, acc);
    case NoValue(lead, key, gap, before, c, more) => NoValueRefused(lex, s, i, lead, key, gap, before, c, more, acc);
    case NoDelimiter(lead, key, gap, before, v, trail, c) => NoDelimiterRefused(lex, s, i, lead, key, gap, before, v, trail, c, acc);
  }

  lemma NoNameRefused(lex: Lexicon, s: string, i: nat, lead: string, c: char, acc: Members')
    requires All(Space, lead) && !IsSpace(c) && c != '"' && c != '}' && At(s, i, lead + [c])
    ensures i <= |s| && ReadMember(lex, s, i, acc) == None
  {
    hide At, Skip;
    AtSplit(s, i, lead, [c]);
    AtFirst(s, i + |lead|, [c]);
    SpacesStand(s, i, lead);
  }

  lemma BadNameRefused(lex: Lexicon, s: string, i: nat, lead: string, ps: seq<Piece>, junk: string, more: string, acc: Members')
    requires IsFault(lex, BadName(lead, ps, junk, more)) && At(s, i, lead + ("\"" + (PrintPieces(ps) + (junk + (more + "\"")))))
    ensures i <= |s| && ReadMember(lex, s, i, acc) == None
  {
    hide At, Skip, DecodeString, PrintPieces, ValidPieces, IsSpace, IsShortEscape, All, Find;
    var k := i + |lead|;
    var q := k + 1 + |PrintPieces(ps)|;
    JunkStands(s, i, lead, PrintPieces(ps), junk, more);
    QuoteIsVisible();
    SpacesStand(s, i, lead);
    PiecesThenJunk(s, k + 1, ps, junk);
    QuoteFound(s, k + 1, q + |junk| + |more|);
  }

  lemma JunkStands(s: string, i: nat, lead: string, read: string, junk: string, more: string)
    requires At(s, i, lead + ("\"" + (read + (junk + (more + "\"")))))
    ensures var k := i + |lead|; var q := k + 1 + |read|;
            && At(s, i, lead) && k < |s| && s[k] == '"' && At(s, k + 1, read) && At(s, q, junk)
            && q + |junk| + |more| < |s| && s[q + |junk| + |more|] == '"'
  {
    hide At;
    var k := i + |lead|;
    var q := k + 1 + |read|;
    AtSplit(s, i, lead, "\"" + (read + (junk + (more + "\""))));
    AtSplit(s, k, "\"", read + (junk + (more + "\"")));
    AtSplit(s, k + 1, read, junk + (more + "\""));
    AtSplit(s, q, junk, more + "\"");
    AtSplit(s, q + |junk|, more, "\"");
    AtFirst(s, k, "\"");
    AtFirst(s, q + |junk| + |more|, "\"");
  }

  lemma QuoteFound(s: string, i: nat, k: nat)
    requires i <= k < |s| && s[k] == '"'
    ensures Find(s, '"', i) != -1
  {
  }

  lemma JunkAt(s: string, i: nat, junk: string)
    requires At(s, i, junk)
    requires (|junk| == 1 && junk[0] < ' ') || (|junk| == 2 && junk[0] == '\\' && junk[1] != 'u' && !IsShortEscape(junk[1]))
    ensures i < |s| && DecodeString(s, i) == Fail
  {
    AtFirst(s, i, junk);
    if |junk| == 2 { assert s[i..i + 2][1] == s[i + 1]; }
  }

  lemma {:induction false} PiecesThenJunk(s: string, i: nat, ps: seq<Piece>, junk: string)
    requires ValidPieces(ps) && At(s, i, PrintPieces(ps)) && At(s, i + |PrintPieces(ps)|, junk)
    requires (|junk| == 1 && junk[0] < ' ') || (|junk| == 2 && junk[0] == '\\' && junk[1] != 'u' && !IsShortEscape(junk[1]))
    ensures i <= |s| && DecodeString(s, i) == Fail
    decreases |ps|
  {
    if ps == [] {
      assert PrintPieces([]) == "";
      JunkAt(s, i, junk);
    } else {
      hide At, DecodeString, PrintPiece, ValidPiece;
      AtFits(s, i, PrintPieces(ps));
      AtSplit(s, i, PrintPiece(ps[0]), PrintPieces(ps[1..]));
      AtFits(s, i, PrintPiece(ps[0]));
      PiecesThenJunk(s, i + |PrintPiece(ps[0])|, ps[1..], junk);
      AgreesAt(s, i, PrintPiece(ps[0]));
      PieceAgrees(s, i, ps[0]);
    }
  }

  lemma NoColonRefused(lex: Lexicon, s: string, i: nat, lead: string, key: seq<Piece>, gap: string, c: char, acc: Members')
    requires IsFault(lex, NoColon(lead, key, gap, c)) && At(s, i, lead + (Quote(key) + (gap + [c])))
    ensures i <= |s| && ReadMember(lex, s, i, acc) == None
  {
    hide At, Quote, ReadMember, IsSpace;
    AtSplit(s, i, lead, Quote(key) + (gap + [c]));
    AtSplit(s, i + |lead|, Quote(key), gap + [c]);
    AtSplit(s, i + |lead| + |Quote(key)|, gap, [c]);
    AtFirst(s, i + |lead| + |Quote(key)| + |gap|, [c]);
    NameRead(lex, s, i, lead, key, gap, acc);
  }

  lemma NoValueRefused(lex: Lexicon, s: string, i: nat, lead: string, key: seq<Piece>, gap: string, before: string, c: char, more: string,
                       acc: Members')
    requires RootScanner.Sane(lex) && IsFault(lex, NoValue(lead, key, gap, before, c, more))
    requires At(s, i, lead + (Quote(key) + (gap + (":" + (before + ([c] + more))))))
    requires c == 'N' || c == 'I' ==> i + |lead + (Quote(key) + (gap + (":" + (before + ([c] + more)))))| == |s|
    ensures i <= |s| && ReadMember(lex, s, i, acc) == None
  {
    hide At, Quote, ReadMember, Unescape, Skip, IsSpace, ValidPieces, All, StartsValue, LooksLikeValue, Decode;
    var g := i + |lead| + |Quote(key)|;
    var b := g + |gap| + 1;
    ValueStands(s, i, lead, Quote(key), gap, before, [c], more);
    AtFirst(s, g + |gap|, ":");
    AtFirst(s, b + |before|, [c]);
    QuoteIsVisible();
    NameRead(lex, s, i, lead, key, gap, acc);
    SpacesStand(s, b, before);
    if c == 'N' || c == 'I' { NoConstant(s, b + |before|, c, more); } else { OtherStart(s, b + |before|); }
    NothingStarts(lex, s, b + |before|);
  }

  lemma NoConstant(s: string, j: nat, c: char, more: string)
    requires At(s, j, [c]) && At(s, j + 1, more) && j + 1 + |more| == |s|
    requires !("NaN" <= [c] + more) && !("Infinity" <= [c] + more)
    ensures !At(s, j, "NaN") && !At(s, j, "Infinity")
  {
    assert s[j..] == [c] + more;
    AtTail(s, j, "NaN");
    AtTail(s, j, "Infinity");
  }

  lemma AtTail(s: string, j: nat, t: string)
    requires j <= |s|
    ensures At(s, j, t) <==> t <= s[j..]
  {
    assert j + |t| <= |s| ==> s[j..j + |t|] == s[j..][..|t|];
  }

  lemma OtherStart(s: string, j: nat)
    requires j < |s| && s[j] != 'N' && s[j] != 'I'
    ensures !At(s, j, "NaN") && !At(s, j, "Infinity")
  {
    assert s[j..][0] == s[j];
    AtTail(s, j, "NaN");
    AtTail(s, j, "Infinity");
  }

  lemma NothingStarts(lex: Lexicon, s: string, j: nat)
    requires RootScanner.Sane(lex) && j < |s| && !StartsValue(lex, s[j]) && !At(s, j, "NaN") && !At(s, j, "Infinity")
    ensures Decode(s, j) == Fail && !LooksLikeValue(lex, s[j])
  {
    assert DecodeNumber(s, j) == Fail;
  }

  lemma NoDelimiterRefused(lex: Lexicon, s: string, i: nat, lead: string, key: seq<Piece>, gap: string, before: string, v: Value,
                           trail: string, c: char, acc: Members')
    requires IsFault(lex, NoDelimiter(lead, key, gap, before, v, trail, c))
    requires At(s, i, lead + (Quote(key) + (gap + (":" + (before + (Print(v) + (trail + [c])))))))
    ensures i <= |s| && ReadMember(lex, s, i, acc) == None
  {
    hide At, Quote, Print, ReadMember, ReadValue, Unescape, Skip, IsSpace, Meaning, Valid, ValidPieces, All;
    var g := i + |lead| + |Quote(key)|;
    var b := g + |gap| + 1;
    var e := b + |before| + |Print(v)|;
    ValueStands(s, i, lead, Quote(key), gap, before, Print(v), trail + [c]);
    AtSplit(s, e, trail, [c]);
    AtFirst(s, e + |trail|, [c]);
    AtFirst(s, g + |gap|, ":");
    QuoteIsVisible();
    NameRead(lex, s, i, lead, key, gap, acc);
    FaultStops(s, e, trail, c);
    AtFits(s, g + |gap|, ":");
    ValueRead(lex, s, Unescape(key), b, before, v, acc);
    SpacesStand(s, e, trail);
  }

  lemma ValueStands(s: string, i: nat, lead: string, name: string, gap: string, before: string, value: string, rest: string)
    requires At(s, i, lead + (name + (gap + (":" + (before + (value + rest))))))
    ensures At(s, i, lead) && At(s, i + |lead|, name) && At(s, i + |lead| + |name|, gap) && At(s, i + |lead| + |name| + |gap|, ":")
    ensures var b := i + |lead| + |name| + |gap| + 1;
            At(s, b, before) && At(s, b + |before|, value) && At(s, b + |before| + |value|, rest)
  {
    hide At;
    var g := i + |lead| + |name|;
    var b := g + |gap| + 1;
    AtSplit(s, i, lead, name + (gap + (":" + (before + (value + rest)))));
    AtSplit(s, i + |lead|, name, gap + (":" + (before + (value + rest))));
    AtSplit(s, g, gap, ":" + (before + (value + rest)));
    AtSplit(s, g + |gap|, ":", before + (value + rest));
    AtSplit(s, b, before, value + rest);
    AtSplit(s, b + |before|, value, rest);
  }

  /** A numeral does not run on into spaces or a character it cannot hold. */
  lemma FaultStops(s: string, e: nat, trail: string, c: char)
    requires At(s, e, trail) && All(Space, trail) && e + |trail| < |s| && s[e + |trail|] == c
    ensures trail != "" || (!IsDigit(c) && c !in {'.', 'e', 'E', '+', '-'}) ==> NumberStops(s, e)
  {
    hide At;
    if trail != "" { AtFirst(s, e, trail); SpaceStops(trail[0]); assert In(trail[0], Space); }
  }

  lemma SpaceStops(c: char)
    ensures In(c, Space) ==> !IsDigit(c) && c !in {'.', 'e', 'E', '+', '-'}
  {
  }

  /** A first object that is not complete and goes wrong after any number of complete members gives
      nothing: what was completed before the fault is not recovered. */
  lemma MalformedObject(lex: Lexicon, text: string, ms: Members, f: Fault, rest: string)
    requires RootScanner.Sane(lex) && ValidMembers(ms) && IsFault(lex, f)
    requires FirstRoot(lex, text) == Some(Root("{" + (Leading(ms) + (FaultText(f) + rest)), false, None))
    requires NeedsRest(f) ==> rest == ""
    ensures Completed(lex, text) == None
  {
    hide FirstRoot, Leading, FaultText, IsFault, At, ReadMember, MembersMeaning, Completed, ValidMembers;
    var s := "{" + (Leading(ms) + (FaultText(f) + rest));
    RestIsRead(lex, text, s);
    AtSelf(s);
    AtSplit(s, 0, "{", Leading(ms) + (FaultText(f) + rest));
    AtSplit(s, 1, Leading(ms), FaultText(f) + rest);
    AtSplit(s, 1 + |Leading(ms)|, FaultText(f), rest);
    ReadsThrough(lex, s, 1, ms, map[]);
    FaultRefused(lex, s, 1 + |Leading(ms)|, f, MembersMeaning(ms, map[]));
  }

  /** A complete root that is no object, or does not parse, gives nothing. */
  lemma CompleteButNoObject(lex: Lexicon, text: string, s: string, value: Option<Json>)
    requires FirstRoot(lex, text) == Some(Root(s, true, value)) && !(value.Some? && value.value.Object?)
    ensures Completed(lex, text) == None
  {
    hide FirstRoot, ReadMember, LStrip;
  }

  lemma RestIsRead(lex: Lexicon, text: string, s: string)
    requires s != "" && s[0] == '{' && FirstRoot(lex, text) == Some(Root(s, false, None))
    ensures Completed(lex, text) == ReadMember(lex, s, 1, map[])
  {
    hide FirstRoot, ReadMember, LStrip, IsSpace;
    BraceIsVisible();
    NothingToStrip(s);
  }

  /** So does one that goes wrong at once. */
  lemma MalformedAtOnce(lex: Lexicon, text: string, f: Fault, rest: string)
    requires RootScanner.Sane(lex) && IsFault(lex, f)
    requires FirstRoot(lex, text) == Some(Root("{" + (FaultText(f) + rest), false, None))
    requires NeedsRest(f) ==> rest == ""
    ensures Completed(lex, text) == None
  {
    hide FirstRoot, FaultText, IsFault, At, ReadMember, Completed;
    var s := "{" + (FaultText(f) + rest);
    RestIsRead(lex, text, s);
    AtSelf(s);
    AtSplit(s, 0, "{", FaultText(f) + rest);
    AtSplit(s, 1, FaultText(f), rest);
    FaultRefused(lex, s, 1, f, map[]);
  }

  lemma AtSelf(s: string)
    ensures At(s, 0, s)
  {
  }
}
