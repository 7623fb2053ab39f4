/** The depth counter is the scanner's stack, counted; and on a truncated object both extractors
    recover the same value for a name. */
module KeyExtractorLaws {
  import opened Collections
  import opened Text
  import opened JsonSyntax
  import opened JsonDecoder
  import opened DecoderLaws
  import opened RootScanner
  import opened ScannerLaws
  import opened RootLaws
  import opened MemberReader
  import opened MemberReaderLaws
  import opened KeyExtractor

  // ---------- depth against the stack ----------

  function Count(t: string, c: char): nat {
    if t == "" then 0 else Count(t[..|t| - 1], c) + if t[|t| - 1] == c then 1 else 0
  }

  lemma CountPush(t: string, x: char, c: char)
    ensures Count(t + [x], c) == Count(t, c) + if x == c then 1 else 0
  {
    assert (t + [x])[..|t|] == t;
  }

  /** Text that leaves the counters at zero, outside strings: as text without openers or quotes, but
      also prose with closed brackets and quotations. */
  predicate Balanced(w: string) {
    DepthTo(w, |w|) == Depth(0, 0, false, false)
  }

  lemma {:induction false} DepthPrefix(s: string, t: string, stop: nat)
    requires stop <= |s| && stop <= |t| && forall k :: 0 <= k < stop ==> s[k] == t[k]
    ensures DepthTo(s, stop) == DepthTo(t, stop)
    decreases stop
  {
    if stop > 0 { DepthPrefix(s, t, stop - 1); }
  }

  lemma {:induction false} PlainTextIsBalanced(w: string)
    requires PlainText(w)
    ensures Balanced(w)
    decreases |w|
  {
    if w != "" {
      var n := |w| - 1;
      PlainTextIsBalanced(w[..n]);
      DepthPrefix(w, w[..n], n);
    }
  }

  /** The counters agree with an open scan. */
  predicate Matches(d: Depth, sc: Scan) {
    && sc.Scanning?
    && d == Depth(Count(sc.stack, '{'), Count(sc.stack, '['), sc.inString, sc.escape)
    && (sc.escape ==> sc.inString)
  }

  lemma StepMatches(d: Depth, sc: Scan, c: char, at: nat)
    requires Matches(d, sc) && Step(sc, c, at).Scanning?
    ensures Matches(DepthStep(d, c), Step(sc, c, at))
  {
    CountPush(sc.stack, c, '{');
    CountPush(sc.stack, c, '[');
    if sc.stack != "" {
      var n := |sc.stack| - 1;
      assert sc.stack == sc.stack[..n] + [sc.stack[n]];
      CountPush(sc.stack[..n], sc.stack[n], '{');
      CountPush(sc.stack[..n], sc.stack[n], '[');
    }
  }

  lemma ScanWasOpen(s: string, start: nat, stop: nat)
    requires start < stop <= |s| && ScanTo(s, start, stop).Scanning?
    ensures ScanTo(s, start, stop - 1).Scanning?
  {
  }

  /** As long as the scan is open, the two counters are the numbers of braces and brackets on the
      stack, for every text: the two hand-written scanners agree. */
  lemma {:induction false} DepthIsStack(s: string, start: nat, stop: nat)
    requires start <= stop <= |s| && Balanced(s[..start]) && ScanTo(s, start, stop).Scanning?
    ensures Matches(DepthTo(s, stop), ScanTo(s, start, stop))
    decreases stop
  {
    if stop == start {
      DepthPrefix(s, s[..start], start);
    } else {
      hide Matches, Step, DepthStep;
      ScanWasOpen(s, start, stop);
      DepthIsStack(s, start, stop - 1);
      StepMatches(DepthTo(s, stop - 1), ScanTo(s, start, stop - 1), s[stop - 1], stop - 1);
    }
  }

  // ---------- the n-th member in the text ----------

  function Drop(ms: Members, n: nat): Members
    requires n < Length(ms)
  {
    if n == 0 then ms else Drop(ms.rest, n - 1)
  }

  /** Where the n-th member starts, counted from the start of the members. */
  function Offset(ms: Members, n: nat): nat
    requires n < Length(ms)
  {
    if n == 0 then 0 else ValueEnd(ms) + |ms.m.trail| + 1 + Offset(ms.rest, n - 1)
  }

  /** Where its name starts. */
  function NameAt(ms: Members, n: nat): nat
    requires n < Length(ms)
  {
    Offset(ms, n) + |Nth(ms, n).lead|
  }

  lemma DropFacts(s: string, i: nat, ms: Members, n: nat)
    requires n < Length(ms) && ValidMembers(ms) && Agrees(s, i, PrintMembers(ms))
    ensures Drop(ms, n).m == Nth(ms, n) && ValidMembers(Drop(ms, n)) && ValidMember(Nth(ms, n))
    ensures Agrees(s, i + Offset(ms, n), PrintMembers(Drop(ms, n)))
    ensures |PrintMembers(ms)| == Offset(ms, n) + |PrintMembers(Drop(ms, n))|
    ensures Length(ms) == n + Length(Drop(ms, n))
    ensures forall k :: n <= k < Length(ms) ==> Nth(ms, k) == Nth(Drop(ms, n), k - n)
  {
    hide Agrees, PrintMembers, Offset, Drop, Nth;
    DropMembers(ms, n);
    DropText(s, i, ms, n);
  }

  /** What is left after the first `n` members, as members. */
  lemma {:induction false} DropMembers(ms: Members, n: nat)
    requires n < Length(ms) && ValidMembers(ms)
    ensures Drop(ms, n).m == Nth(ms, n) && ValidMembers(Drop(ms, n)) && ValidMember(Nth(ms, n))
    ensures Length(ms) == n + Length(Drop(ms, n))
    ensures forall k :: n <= k < Length(ms) ==> Nth(ms, k) == Nth(Drop(ms, n), k - n)
    decreases n
  {
    hide ValidMember;
    if n > 0 {
      DropMembers(ms.rest, n - 1);
      assert forall k :: n <= k < Length(ms) ==> Nth(ms, k) == Nth(ms.rest, k - 1);
    }
  }

  /** And as text. */
  lemma {:induction false} DropText(s: string, i: nat, ms: Members, n: nat)
    requires n < Length(ms) && Agrees(s, i, PrintMembers(ms))
    ensures Agrees(s, i + Offset(ms, n), PrintMembers(Drop(ms, n)))
    ensures |PrintMembers(ms)| == Offset(ms, n) + |PrintMembers(Drop(ms, n))|
    decreases n
  {
    hide Agrees, Print, PrintMembers, Quote, MembersTail;
    if n > 0 {
      MemberParts(s, i, ms);
      TailStart(s, i + ValueEnd(ms) + |ms.m.trail|, ms);
      DropText(s, i + ValueEnd(ms) + |ms.m.trail| + 1, ms.rest, n - 1);
    }
  }

  /** Just before the n-th member's name the scan stands inside the object and nothing else. */
  lemma {:induction false} ScanAtName(s: string, start: nat, i: nat, ms: Members, n: nat, inner: string)
    requires n < Length(ms) && ValidMembers(ms)
    requires start <= i && i + |PrintMembers(ms)| <= |s| && Agrees(s, i, PrintMembers(ms)) && inner != ""
    requires ScanTo(s, start, i) == Scanning(inner, false, false)
    ensures i + NameAt(ms, n) <= |s| && ScanTo(s, start, i + NameAt(ms, n)) == Scanning(inner, false, false)
    decreases n
  {
    hide Agrees, Print, PrintMembers, Quote, MembersTail, ScanTo, All, Valid;
    MemberParts(s, i, ms);
    ScanToValue(s, start, i, ms, inner);
    if n > 0 {
      var j := i + ValueAt(ms);
      var e := i + ValueEnd(ms);
      TailStart(s, e + |ms.m.trail|, ms);
      ScanValue(s, start, j, ms.m.v, inner);
      BlankIsQuiet(ms.m.trail);
      ScanQuiet(s, start, e, ms.m.trail, inner);
      ScanQuiet(s, start, e + |ms.m.trail|, ",", inner);
      ScanAtName(s, start, e + |ms.m.trail| + 1, ms.rest, n - 1, inner);
    }
  }

  lemma NameDepth(s: string, b: nat, ms: Members, n: nat)
    requires n < Length(ms) && ValidMembers(ms) && b <= |s| && Balanced(s[..b])
    requires b + 1 + NameAt(ms, n) <= |s| <= b + |Print(Obj(ms))| && Agrees(s, b, Print(Obj(ms)))
    ensures AtDepthOne(s, b + 1 + NameAt(ms, n))
  {
    hide Agrees, Print, ScanTo, Quote, NameAt, Offset, DepthTo, ValidMembers;
    var t := s[..b] + Print(Obj(ms));
    assert forall k :: 0 <= k < |s| ==> s[k] == t[k] by { SamePrefix(s, b, Print(Obj(ms))); }
    assert t[b..b + |Print(Obj(ms))|] == Print(Obj(ms));
    AgreesAt(t, b, Print(Obj(ms)));
    NameScan(t, b, ms, n);
    var k := b + 1 + NameAt(ms, n);
    ScanPrefix(s, t, b, k);
    DepthIsStack(s, b, k);
    OneBrace();
  }

  lemma OneBrace()
    ensures Count("{", '{') == 1 && Count("{", '[') == 0
  {
    assert "" + "{" == "{";
    CountPush("", '{', '{');
    CountPush("", '{', '[');
  }

  lemma NameScan(t: string, b: nat, ms: Members, n: nat)
    requires n < Length(ms) && ValidMembers(ms) && b + |Print(Obj(ms))| <= |t| && Agrees(t, b, Print(Obj(ms)))
    ensures b + 1 + NameAt(ms, n) <= |t| && ScanTo(t, b, b + 1 + NameAt(ms, n)) == Scanning("{", false, false)
  {
    hide Agrees, PrintMembers, ScanTo, NameAt;
    AgreesSplit(t, b, "{", PrintMembers(ms));
    ScanInitial(t, b);
    ScanChar(t, b, b, '{');
    ScanAtName(t, b, b + 1, ms, n, "{");
  }

  // ---------- the reader's result for one name ----------

  lemma ValueAfterKey(ms: Members)
    ensures |ms.m.lead| + |Quote(ms.m.key)| <= ValueAt(ms) <= ValueEnd(ms)
  {
    hide Print, Quote;
  }

  /** Cutting at or after the n-th member, the members before it are all there. */
  lemma {:induction false} SalvageDrop(ms: Members, cut: nat, acc: Members', n: nat)
    requires ValidMembers(ms) && n < Length(ms) && cut >= Offset(ms, n)
    ensures Salvage(ms, cut, acc) == Salvage(Drop(ms, n), cut - Offset(ms, n), FirstMembers(ms, n, acc))
    decreases n
  {
    hide Print, Quote, Unescape, Meaning, Valid, ValueAt, ValueEnd;
    if n > 0 {
      FirstChar(ms.m.v);
      KeyBeforeValue(ms);
      ValueAfterKey(ms);
      var next := acc[Unescape(ms.m.key) := Meaning(ms.m.v)];
      SalvageDrop(ms.rest, cut - ValueEnd(ms) - |ms.m.trail| - 1, next, n - 1);
      assert FirstMembers(ms, n, acc) == FirstMembers(ms.rest, n - 1, next);
    }
  }

  /** A name none of the first `n` members has is untouched by what is recovered before the n-th
      member's name is complete. */
  lemma {:induction false} SalvageKeeps(ms: Members, cut: nat, acc: Members', n: nat, key: Key)
    requires ValidMembers(ms) && n <= Length(ms)
    requires forall k :: 0 <= k < n ==> Unescape(Nth(ms, k).key) != key
    requires n < Length(ms) ==> cut < NameAt(ms, n) + |Quote(Nth(ms, n).key)|
    ensures var r := Salvage(ms, cut, acc);
            r.Some? ==> (key in r.value <==> key in acc) && (key in acc ==> r.value[key] == acc[key])
    decreases ms
  {
    hide Print, Quote, Unescape, Meaning, Valid;
    FirstChar(ms.m.v);
    KeyBeforeValue(ms);
    if n > 0 {
      assert Nth(ms, 0) == ms.m;
      if ms.MoreMembers? && cut > ValueEnd(ms) + |ms.m.trail| {
        forall k | 0 <= k < n - 1 ensures Unescape(Nth(ms.rest, k).key) != key { assert Nth(ms.rest, k) == Nth(ms, k + 1); }
        SalvageKeeps(ms.rest, cut - ValueEnd(ms) - |ms.m.trail| - 1, acc[Unescape(ms.m.key) := Meaning(ms.m.v)], n - 1, key);
      }
    }
  }

  lemma {:induction false} FirstMembersKeep(ms: Members, acc: Members', n: nat, key: Key)
    requires n <= Length(ms)
    requires forall k :: 0 <= k < n ==> Unescape(Nth(ms, k).key) != key
    ensures key in FirstMembers(ms, n, acc) <==> key in acc
    decreases n
  {
    if n > 0 {
      assert Nth(ms, 0) == ms.m;
      if ms.MoreMembers? {
        forall k | 0 <= k < n - 1 ensures Unescape(Nth(ms.rest, k).key) != key { assert Nth(ms.rest, k) == Nth(ms, k + 1); }
        FirstMembersKeep(ms.rest, acc[Unescape(ms.m.key) := Meaning(ms.m.v)], n - 1, key);
      }
    }
  }

  /** What is recovered under a name carried by the first member only. */
  function FirstValue(ms: Members, cut: nat): Option<Json> {
    if cut <= ValueAt(ms) then None
    else if cut < ValueEnd(ms) then
      if ms.m.v.Num? then
        var p := Print(ms.m.v)[..cut - ValueAt(ms)];
        if IsDigit(p[|p| - 1]) then Some(Number(p)) else None
      else None
    else Some(Meaning(ms.m.v))
  }

  function Lookup(m: Members', key: Key): Option<Json> {
    if key in m then Some(m[key]) else None
  }

  lemma SalvageFirst(ms: Members, cut: nat, acc: Members', key: Key)
    requires ValidMembers(ms) && key == Unescape(ms.m.key) && key !in acc
    requires forall k :: 1 <= k < Length(ms) ==> Unescape(Nth(ms, k).key) != key
    ensures var r := Salvage(ms, cut, acc);
            r.Some? ==> Lookup(r.value, key) == FirstValue(ms, cut)
  {
    hide Print, Quote, Unescape, Meaning, Valid;
    FirstChar(ms.m.v);
    KeyBeforeValue(ms);
    var next := acc[key := Meaning(ms.m.v)];
    if cut >= ValueEnd(ms) && ms.MoreMembers? && cut > ValueEnd(ms) + |ms.m.trail| {
      forall k | 0 <= k < Length(ms.rest) ensures Unescape(Nth(ms.rest, k).key) != key { assert Nth(ms.rest, k) == Nth(ms, k + 1); }
      SalvageKeeps(ms.rest, cut - ValueEnd(ms) - |ms.m.trail| - 1, next, Length(ms.rest), key);
    }
  }

  // ---------- the extractor's result for one name ----------

  lemma {:induction false} FindTextHit(s: string, t: string, i: nat, k: nat)
    requires i <= k <= |s| && At(s, k, t) && forall x :: i <= x < k ==> !At(s, x, t)
    ensures FindText(s, t, i) == k
    decreases k - i
  {
    if i < k { FindTextHit(s, t, i + 1, k); }
  }

  /** Counting occurrences from the left without overlap, as the search goes, `k` is one of them. */
  predicate Reached(s: string, t: string, start: nat, k: nat)
    requires start <= |s| && t != ""
    decreases |s| - start
  {
    var x := FindText(s, t, start);
    x != -1 && (x == k || (x < k && Reached(s, t, x + |t|, k)))
  }

  lemma {:induction false} SearchMisses(s: string, needle: string, start: nat)
    requires needle != "" && start <= |s|
    requires forall x :: start <= x <= |s| && At(s, x, needle) ==> !AtDepthOne(s, x)
    ensures ExtractFrom(s, needle, start) == None
    decreases |s| - start
  {
    hide DepthTo, TakeAfter, At;
    var x := FindText(s, needle, start);
    if x != -1 {
      SearchMisses(s, needle, x + |needle|);
    }
  }

  lemma AtFits(s: string, x: nat, t: string)
    requires At(s, x, t)
    ensures x + |t| <= |s|
  {
  }

  /** If the quoted name stands at depth one at `k` only, the search takes what follows it exactly when
      it reaches it, and finds nothing otherwise. */
  lemma {:induction false} SearchExact(s: string, needle: string, start: nat, k: nat)
    requires needle != "" && start <= |s| && At(s, k, needle) && AtDepthOne(s, k)
    requires forall x :: start <= x <= |s| && At(s, x, needle) && AtDepthOne(s, x) ==> x == k
    ensures ExtractFrom(s, needle, start) == if Reached(s, needle, start, k) then TakeAfter(s, k + |needle|) else None
    decreases |s| - start
  {
    hide DepthTo, TakeAfter, At;
    AtFits(s, k, needle);
    var x := FindText(s, needle, start);
    if x != -1 && x < k {
      SearchExact(s, needle, x + |needle|, k);
    } else if x > k {
      SearchMisses(s, needle, x);
    }
  }

  /** An occurrence that no earlier one runs into is reached. */
  lemma {:induction false} ApartIsReached(s: string, t: string, start: nat, k: nat)
    requires t != "" && start <= k <= |s| && At(s, k, t)
    requires forall x :: start <= x < k && At(s, x, t) ==> x + |t| <= k
    ensures Reached(s, t, start, k)
    decreases k - start
  {
    hide At;
    AtFits(s, k, t);
    var x := FindText(s, t, start);
    if x != k {
      ApartIsReached(s, t, x + |t|, k);
    }
  }

  lemma ReachedStands(s: string, t: string, start: nat, k: nat)
    requires t != "" && start <= |s|
    ensures Reached(s, t, start, k) ==> At(s, k, t)
    decreases |s| - start
  {
    hide At;
    var x := FindText(s, t, start);
    if x != -1 && x < k { ReachedStands(s, t, x + |t|, k); }
  }

  lemma LoadsAny(v: Value)
    requires Valid(v)
    ensures Loads(Print(v)) == Some(Meaning(v))
  {
    hide Decode, Print, Agrees, Meaning, Valid;
    var p := Print(v);
    AgreesSelf(p);
    FirstChar(v);
    ValueAgrees(p, 0, v);
    NotMark(v);
  }

  lemma NotMark(v: Value)
    requires Valid(v)
    ensures |Print(v)| > 0 && Print(v)[0] != '\U{FEFF}'
  {
    FirstChar(v);
    if v.Num? { assert Print(v)[0] == if v.n.minus then '-' else v.n.whole[0]; }
  }

  lemma LoadsNumber(n: Numeral, p: string)
    requires ValidNumeral(n) && p < PrintNumeral(n) && p != "" && IsDigit(p[|p| - 1])
    ensures Loads(p) == Some(Number(p))
  {
    hide Decode, DecodeNumber, PrintNumeral;
    assert Agrees(p, 0, PrintNumeral(n));
    NumeralCut(p, 0, n);
    NumberOnly(p, 0, n);
    assert p[0..] == p;
    FirstChar(Num(n));
    NotMark(Num(n));
    PrintNum(n);
    assert p[0] == PrintNumeral(n)[0];
  }

  /** From the end of the first member's name, the extractor takes what the reader keeps. */
  lemma TakeFirstValue(s: string, i: nat, ms: Members)
    requires ValidMembers(ms) && Agrees(s, i, PrintMembers(ms))
    requires i + |ms.m.lead| + |Quote(ms.m.key)| <= |s| <= i + |PrintMembers(ms)|
    requires var n := |s| - i; ValueAt(ms) < n < ValueEnd(ms) && ms.m.v.Num? ==>
               var p := Print(ms.m.v)[..n - ValueAt(ms)]; p == "-" || IsDigit(p[|p| - 1])
    ensures TakeAfter(s, i + |ms.m.lead| + |Quote(ms.m.key)|) == FirstValue(ms, |s| - i)
  {
    hide Agrees, Print, PrintMembers, Quote, Decode, MembersTail, All, Skip, Unescape, Meaning, Valid, Loads;
    var m := ms.m;
    var g := i + |m.lead| + |Quote(m.key)|;
    var c := g + |m.gap|;
    var j := i + ValueAt(ms);
    MemberParts(s, i, ms);
    MemberStarts(s, i, ms);
    FindColon(s, g, m.gap);
    if c < |s| {
      SpaceRun(s, c + 1, m.before);
      if j < |s| {
        DecodeHere(s, i, ms);
      }
    }
  }

  lemma {:induction false} FindSkip(s: string, c: char, i: nat, j: nat)
    requires i <= j <= |s| && forall k :: i <= k < j ==> s[k] != c
    ensures Find(s, c, i) == Find(s, c, j)
    decreases j - i
  {
    if i < j { FindSkip(s, c, i + 1, j); }
  }

  lemma FindColon(s: string, g: nat, gap: string)
    requires g <= |s| && All(Blank, gap) && Agrees(s, g, gap) && Agrees(s, g + |gap|, ":")
    ensures Find(s, ':', g) == if g + |gap| < |s| then g + |gap| else -1
  {
    var c := if g + |gap| < |s| then g + |gap| else |s|;
    forall k | g <= k < c ensures s[k] != ':' { assert s[g + (k - g)] == gap[k - g]; assert In(gap[k - g], Blank); }
    FindSkip(s, ':', g, c);
    AgreesFirst(s, g + |gap|, ":");
  }

  lemma DecodeHere(s: string, i: nat, ms: Members)
    requires ValidMembers(ms) && Agrees(s, i, PrintMembers(ms))
    requires i + ValueAt(ms) < |s| <= i + |PrintMembers(ms)|
    requires var n := |s| - i; n < ValueEnd(ms) && ms.m.v.Num? ==>
               var p := Print(ms.m.v)[..n - ValueAt(ms)]; p == "-" || IsDigit(p[|p| - 1])
    ensures var j := i + ValueAt(ms);
            FirstValue(ms, |s| - i) ==
            match Decode(s, j)
            case Fail => None
            case Ok(_, end) => Loads(s[j..end])
  {
    hide Agrees, PrintMembers, Print, Quote, Decode, DecodeNumber, MembersTail, All, Meaning, Valid, Loads;
    var v := ms.m.v;
    var j := i + ValueAt(ms);
    var e := i + ValueEnd(ms);
    MemberParts(s, i, ms);
    TailStart(s, e + |ms.m.trail|, ms);
    Delimited(s, e, ms.m.trail, if ms.LastMember? then '}' else ',');
    if e <= |s| {
      ValueAgrees(s, j, v);
      AgreesAt(s, j, Print(v));
      LoadsAny(v);
    } else if v.Num? {
      CutValue(s, j, v);
    } else {
      ValueAgrees(s, j, v);
    }
  }

  lemma CutValue(s: string, j: nat, v: Value)
    requires Valid(v) && v.Num? && j < |s| < j + |Print(v)| && Agrees(s, j, Print(v))
    requires var p := Print(v)[..|s| - j]; p == "-" || IsDigit(p[|p| - 1])
    ensures var p := Print(v)[..|s| - j];
            if p == "-" then Decode(s, j) == Fail
            else Decode(s, j) == Ok(Number(p), |s|) && s[j..|s|] == p && Loads(p) == Some(Number(p))
  {
    hide Decode, DecodeNumber, Valid, Loads;
    ValidParts(v);
    PrintNum(v.n);
    var p := Print(v)[..|s| - j];
    assert s[j..] == p by { CutText(s, j, Print(v)); }
    NumeralCut(s, j, v.n);
    NumberOnly(s, j, v.n);
    assert p[|p| - 1] == s[|s| - 1];
    if p != "-" {
      ProperPrefix(Print(v), |s| - j);
      LoadsNumber(v.n, p);
    }
  }

  // ---------- agreement ----------

  /** The literal that spells a name without escapes. */
  function PlainPieces(key: string): seq<Piece> {
    seq(|key|, i requires 0 <= i < |key| => Plain(key[i]))
  }

  lemma {:induction false} PrintPlain(key: string)
    ensures PrintPieces(PlainPieces(key)) == key
  {
    if key != "" {
      assert PlainPieces(key)[1..] == PlainPieces(key[1..]);
      PrintPlain(key[1..]);
    }
  }

  /** A name with nothing to escape, as the callers ask for. */
  predicate SpelledPlainly(key: string) {
    forall k :: 0 <= k < |key| ==> ValidPiece(Plain(key[k]))
  }

  /** The name does not end in a character that can stand right before a member. */
  predicate EndsSafely(key: string) {
    key != "" ==> key[|key| - 1] !in {'{', ','} && !IsBlank(key[|key| - 1])
  }

  /** In the text, the quoted name stands at depth one only where the n-th member's name is written
      (nowhere if `n` is the number of members), and only that member carries it. */
  ghost predicate Unambiguous(s: string, b: nat, ms: Members, n: nat, key: string) {
    var code := Unescape(PlainPieces(key));
    && n <= Length(ms)
    && (forall k :: 0 <= k < Length(ms) ==> (Unescape(Nth(ms, k).key) == code <==> k == n))
    && (n < Length(ms) ==> Nth(ms, n).key == PlainPieces(key))
    && (forall x :: 0 <= x <= |s| && At(s, x, Needle(key)) && AtDepthOne(s, x) ==>
          n < Length(ms) && x == b + 1 + NameAt(ms, n))
  }

  /** The search meets the quoted name where the n-th member's name is written. */
  predicate Meets(s: string, b: nat, ms: Members, n: nat, key: string) {
    n < Length(ms) && Reached(s, Needle(key), 0, b + 1 + NameAt(ms, n))
  }

  /** The two extractors on a whole object and on every cut of it: whenever the member reader returns a
      map, the depth-counting search gives what the map has under the name if it meets the name, and
      nothing otherwise. So they agree exactly when it meets the name or the map has nothing there; and
      always on a name that ends safely. */
  lemma ExtractorsAgree(lex: Lexicon, w: string, ms: Members, cut: nat, n: nat, key: string)
    requires Sane(lex) && Inert(lex, w, '{') && Balanced(w) && ValidMembers(ms) && 0 < cut <= |Print(Obj(ms))| && SpelledPlainly(key)
    requires Unambiguous(w + Print(Obj(ms))[..cut], |w|, ms, n, key)
    ensures var text := w + Print(Obj(ms))[..cut];
            var r := Completed(lex, text);
            var extracted := ExtractFrom(text, Needle(key), 0);
            r.Some? ==>
              var kept := Lookup(r.value, Unescape(PlainPieces(key)));
              && extracted == (if Meets(text, |w|, ms, n, key) then kept else None)
              && (extracted == kept <==> Meets(text, |w|, ms, n, key) || kept == None)
              && (EndsSafely(key) ==> extracted == kept)
  {
    hide Agrees, PrintMembers, Salvage, Completed, ExtractFrom, IsStructural, DepthTo, Unescape, NameAt, Unambiguous, Meets;
    var v := Obj(ms);
    var text := w + Print(v)[..cut];
    var b := |w|;
    if cut < |Print(v)| { TruncatedObject(lex, w, v, cut); } else { WholeIsSalvage(lex, w, ms); }
    TextAgrees(w, Print(v)[..cut], Print(v));
    assert text[..b] == w;
    if Completed(lex, text).Some? {
      AgreesSplit(text, b, "{", PrintMembers(ms));
      ExtractIsLookup(text, b, ms, n, key);
    }
  }

  predicate IsIdentifier(key: string) {
    forall k :: 0 <= k < |key| ==> 'a' <= key[k] <= 'z' || 'A' <= key[k] <= 'Z' || IsDigit(key[k]) || key[k] == '_'
  }

  lemma IdentifierIsSafe(key: string)
    requires IsIdentifier(key)
    ensures SpelledPlainly(key) && EndsSafely(key)
  {
  }

  /** The callers ask for identifiers only; on these the extractors agree. */
  lemma IdentifiersAgree(lex: Lexicon, w: string, ms: Members, cut: nat, n: nat, key: string)
    requires Sane(lex) && Inert(lex, w, '{') && Balanced(w) && ValidMembers(ms) && 0 < cut <= |Print(Obj(ms))| && IsIdentifier(key)
    requires Unambiguous(w + Print(Obj(ms))[..cut], |w|, ms, n, key)
    ensures var text := w + Print(Obj(ms))[..cut];
            var r := Completed(lex, text);
            r.Some? ==> ExtractFrom(text, Needle(key), 0) == Lookup(r.value, Unescape(PlainPieces(key)))
  {
    IdentifierIsSafe(key);
    hide *;
    ExtractorsAgree(lex, w, ms, cut, n, key);
  }

  /** With no member at all, and no quote before the object, neither finds anything. */
  lemma EmptyExtractorsAgree(lex: Lexicon, w: string, blank: string, cut: nat, key: string)
    requires Sane(lex) && Inert(lex, w, '{') && '"' !in w && Valid(EmptyObj(blank)) && 0 < cut <= |Print(EmptyObj(blank))|
    ensures var text := w + Print(EmptyObj(blank))[..cut];
            var r := Completed(lex, text);
            ExtractFrom(text, Needle(key), 0) == None && (r.Some? ==> r.value == map[])
  {
    hide Completed, ExtractFrom, IsStructural;
    var v := EmptyObj(blank);
    var text := w + Print(v)[..cut];
    if cut < |Print(v)| {
      TruncatedObject(lex, w, v, cut);
    } else {
      CompleteObject(lex, w, v, "");
      assert w + Print(v) + "" == text;
    }
    forall x | 0 <= x < |text| ensures text[x] != '"' {
      if x > |w| && x < |w| + 1 + |blank| { assert text[x] == blank[x - |w| - 1]; assert In(blank[x - |w| - 1], Blank); }
    }
    forall x | 0 <= x <= |text| ensures !At(text, x, Needle(key)) {
      if At(text, x, Needle(key)) { AgreesAt(text, x, Needle(key)); AgreesFirst(text, x, Needle(key)); }
    }
    SearchMisses(text, Needle(key), 0);
  }

  lemma WholeIsSalvage(lex: Lexicon, w: string, ms: Members)
    requires Sane(lex) && Inert(lex, w, '{') && ValidMembers(ms)
    ensures Completed(lex, w + Print(Obj(ms))[..|Print(Obj(ms))|]) == Salvage(ms, |PrintMembers(ms)|, map[])
  {
    hide Completed, Salvage, PrintMembers, MembersMeaning, ValidMembers;
    var p := Print(Obj(ms));
    assert w + p + "" == w + p[..|p|];
    assert Valid(Obj(ms));
    CompleteObject(lex, w, Obj(ms), "");
    SalvageWhole(ms, map[]);
  }

  lemma {:induction false} SalvageWhole(ms: Members, acc: Members')
    requires ValidMembers(ms)
    ensures Salvage(ms, |PrintMembers(ms)|, acc) == Some(MembersMeaning(ms, acc))
    decreases ms
  {
    hide Print, Quote, Unescape, Meaning, Valid;
    FirstChar(ms.m.v);
    if ms.MoreMembers? { SalvageWhole(ms.rest, acc[Unescape(ms.m.key) := Meaning(ms.m.v)]); }
  }

  lemma ExtractIsLookup(s: string, b: nat, ms: Members, n: nat, key: string)
    requires ValidMembers(ms) && SpelledPlainly(key) && Unambiguous(s, b, ms, n, key) && b <= |s| && Balanced(s[..b])
    requires b < |s| <= b + |Print(Obj(ms))| && Agrees(s, b, Print(Obj(ms))) && Agrees(s, b + 1, PrintMembers(ms))
    ensures var r := Salvage(ms, |s| - b - 1, map[]);
            r.Some? ==>
              var kept := Lookup(r.value, Unescape(PlainPieces(key)));
              && ExtractFrom(s, Needle(key), 0) == (if Meets(s, b, ms, n, key) then kept else None)
              && (EndsSafely(key) ==> Meets(s, b, ms, n, key) || kept == None)
  {
    hide Agrees, PrintMembers, Print, Salvage, ExtractFrom, DepthTo, Unescape, At, Meaning, Valid, Quote, Reached, EndsSafely;
    var code := Unescape(PlainPieces(key));
    var cut := |s| - b - 1;
    QuotePlain(key);
    if n == Length(ms) || cut < NameAt(ms, n) + |Needle(key)| {
      SalvageKeeps(ms, cut, map[], n, code);
      forall x | 0 <= x <= |s| && At(s, x, Needle(key)) ensures !AtDepthOne(s, x) { AtFits(s, x, Needle(key)); }
      SearchMisses(s, Needle(key), 0);
      if n < Length(ms) { NotYetMet(s, b + 1 + NameAt(ms, n), key); }
    } else {
      ExtractNth(s, b, ms, n, key);
    }
  }

  lemma NotYetMet(s: string, k: nat, key: string)
    requires k + |Needle(key)| > |s|
    ensures !Reached(s, Needle(key), 0, k)
  {
    ReachedStands(s, Needle(key), 0, k);
  }

  /** Once the n-th member's name is whole. */
  lemma ExtractNth(s: string, b: nat, ms: Members, n: nat, key: string)
    requires ValidMembers(ms) && SpelledPlainly(key) && Unambiguous(s, b, ms, n, key) && b <= |s| && Balanced(s[..b]) && n < Length(ms)
    requires b < |s| <= b + |Print(Obj(ms))| && Agrees(s, b, Print(Obj(ms))) && Agrees(s, b + 1, PrintMembers(ms))
    requires b + 1 + NameAt(ms, n) + |Needle(key)| <= |s|
    ensures var r := Salvage(ms, |s| - b - 1, map[]);
            r.Some? ==>
              ExtractFrom(s, Needle(key), 0) ==
              if Meets(s, b, ms, n, key) then Lookup(r.value, Unescape(PlainPieces(key))) else None
    ensures EndsSafely(key) ==> Meets(s, b, ms, n, key)
  {
    hide Agrees, PrintMembers, Print, ExtractFrom, DepthTo, Unescape, At, Meaning, Valid, Quote, TakeAfter, FirstValue;
    hide Lookup, SpelledPlainly, Needle, Salvage, ValueEnd, ValueAt, Reached, EndsSafely;
    var code := Unescape(PlainPieces(key));
    var d := Drop(ms, n);
    var i := b + 1 + Offset(ms, n);
    PrintObjLength(ms);
    DropFacts(s, b + 1, ms, n);
    SalvageNth(ms, |s| - b - 1, n, code);
    QuotePlain(key);
    NameOccurs(s, b, ms, n, key);
    NeedleSize(key);
    SearchExact(s, Needle(key), 0, b + 1 + NameAt(ms, n));
    if EndsSafely(key) { SafeNameMet(s, b, ms, n, key); }
    var acc := FirstMembers(ms, n, map[]);
    if Salvage(d, |s| - i, acc).Some? {
      NumeralKept(d, |s| - i, acc);
      TakeFirstValue(s, i, d);
    }
  }

  lemma NeedleSize(key: string)
    ensures Needle(key) != ""
  {
  }

  lemma SalvageNth(ms: Members, cut: nat, n: nat, code: Key)
    requires ValidMembers(ms) && n < Length(ms) && cut >= Offset(ms, n)
    requires forall k :: 0 <= k < Length(ms) ==> (Unescape(Nth(ms, k).key) == code <==> k == n)
    ensures var r := Salvage(ms, cut, map[]);
            && r == Salvage(Drop(ms, n), cut - Offset(ms, n), FirstMembers(ms, n, map[]))
            && (r.Some? ==> Lookup(r.value, code) == FirstValue(Drop(ms, n), cut - Offset(ms, n)))
  {
    hide PrintMembers, Print, Unescape, Meaning, Valid, Quote, FirstValue, Lookup, Salvage, ValueEnd, ValueAt;
    var d := Drop(ms, n);
    AgreesSelf(PrintMembers(ms));
    DropFacts(PrintMembers(ms), 0, ms, n);
    SalvageDrop(ms, cut, map[], n);
    FirstMembersKeep(ms, map[], n, code);
    forall k | 1 <= k < Length(d) ensures Unescape(Nth(d, k).key) != code { assert Nth(d, k) == Nth(ms, n + k); }
    SalvageFirst(d, cut - Offset(ms, n), FirstMembers(ms, n, map[]), code);
  }

  lemma QuotePlain(key: string)
    ensures Quote(PlainPieces(key)) == Needle(key)
  {
    PrintPlain(key);
  }

  lemma PrintObjLength(ms: Members)
    ensures |Print(Obj(ms))| == 1 + |PrintMembers(ms)|
  {
  }

  lemma NumeralKept(ms: Members, cut: nat, acc: Members')
    requires ValidMembers(ms) && Salvage(ms, cut, acc).Some?
    ensures ValueAt(ms) < cut < ValueEnd(ms) && ms.m.v.Num? ==>
              var p := Print(ms.m.v)[..cut - ValueAt(ms)]; p == "-" || IsDigit(p[|p| - 1])
  {
    hide Print, Quote, Unescape, Meaning;
    KeyBeforeValue(ms);
  }

  /** The n-th member's name is an occurrence at depth one. */
  lemma NameOccurs(s: string, b: nat, ms: Members, n: nat, key: string)
    requires ValidMembers(ms) && n < Length(ms) && Nth(ms, n).key == PlainPieces(key) && b <= |s| && Balanced(s[..b])
    requires b < |s| <= b + |Print(Obj(ms))| && Agrees(s, b, Print(Obj(ms))) && Agrees(s, b + 1, PrintMembers(ms))
    requires b + 1 + NameAt(ms, n) + |Needle(key)| <= |s|
    ensures var k := b + 1 + NameAt(ms, n); At(s, k, Needle(key)) && AtDepthOne(s, k)
  {
    hide Agrees, PrintMembers, Print, DepthTo, Unescape, At, Meaning, Valid, Quote;
    var k := b + 1 + NameAt(ms, n);
    DropFacts(s, b + 1, ms, n);
    MemberParts(s, b + 1 + Offset(ms, n), Drop(ms, n));
    QuotePlain(key);
    AgreesAt(s, k, Needle(key));
    NameDepth(s, b, ms, n);
  }

  /** If it ends safely, no earlier occurrence runs into it. */
  lemma SafeNameMet(s: string, b: nat, ms: Members, n: nat, key: string)
    requires ValidMembers(ms) && SpelledPlainly(key) && EndsSafely(key) && n < Length(ms)
    requires Agrees(s, b, Print(Obj(ms))) && Agrees(s, b + 1, PrintMembers(ms))
    requires b + 1 + NameAt(ms, n) + |Needle(key)| <= |s| && At(s, b + 1 + NameAt(ms, n), Needle(key))
    ensures Meets(s, b, ms, n, key)
  {
    hide Agrees, PrintMembers, Print, At, Valid, Quote, NameAt, Reached, SpelledPlainly, EndsSafely;
    var k := b + 1 + NameAt(ms, n);
    BeforeName(s, b, ms, n);
    forall x | 0 <= x < k && At(s, x, Needle(key)) ensures x + |Needle(key)| <= k { NoOverlap(s, x, k, key); }
    ApartIsReached(s, Needle(key), 0, k);
  }

  /** The character before a member's name is a brace, a comma or a blank. */
  lemma BeforeName(s: string, b: nat, ms: Members, n: nat)
    requires ValidMembers(ms) && n < Length(ms) && b + 1 + NameAt(ms, n) < |s|
    requires Agrees(s, b, Print(Obj(ms))) && Agrees(s, b + 1, PrintMembers(ms))
    ensures var c := s[b + NameAt(ms, n)]; c == '{' || c == ',' || IsBlank(c)
  {
    hide Agrees, PrintMembers, Quote, Valid, MembersTail;
    DropFacts(s, b + 1, ms, n);
    var d := Drop(ms, n);
    var i := b + 1 + Offset(ms, n);
    MemberParts(s, i, d);
    if d.m.lead != "" {
      LastOfRun(s, i, d.m.lead);
    } else if n == 0 {
      AgreesFirst(s, b, Print(Obj(ms)));
    } else {
      CommaBefore(s, b + 1, ms, n);
    }
  }

  lemma LastOfRun(s: string, i: nat, run: string)
    requires All(Blank, run) && run != "" && i + |run| <= |s| && Agrees(s, i, run)
    ensures IsBlank(s[i + |run| - 1])
  {
    assert s[i + (|run| - 1)] == run[|run| - 1];
    assert In(run[|run| - 1], Blank);
  }

  lemma {:induction false} CommaBefore(s: string, i: nat, ms: Members, n: nat)
    requires ValidMembers(ms) && 0 < n < Length(ms) && i + Offset(ms, n) <= |s| && Agrees(s, i, PrintMembers(ms))
    ensures s[i + Offset(ms, n) - 1] == ','
    decreases n
  {
    hide Agrees, PrintMembers, Quote, Print, Valid, MembersTail;
    MemberParts(s, i, ms);
    var at := i + ValueEnd(ms) + |ms.m.trail|;
    TailStart(s, at, ms);
    AgreesFirst(s, at, [',']);
    if n > 1 {
      CommaBefore(s, at + 1, ms.rest, n - 1);
    }
  }

  lemma NoOverlap(s: string, x: nat, k: nat, key: string)
    requires SpelledPlainly(key) && EndsSafely(key) && x < k && k + |Needle(key)| <= |s| && At(s, x, Needle(key)) && At(s, k, Needle(key))
    requires var c := s[k - 1]; c == '{' || c == ',' || IsBlank(c)
    ensures x + |Needle(key)| <= k
  {
    var t := Needle(key);
    AgreesAt(s, x, t);
    AgreesAt(s, k, t);
    AgreesFirst(s, k, t);
    forall y | 0 <= y < |key| ensures s[x + 1 + y] == key[y] && s[x + 1 + y] != '"' {
      assert s[x + (1 + y)] == t[1 + y];
      assert ValidPiece(Plain(key[y]));
    }
    assert forall z :: x < z <= x + |key| ==> s[z] == key[z - x - 1] && s[z] != '"';
    assert key != "" ==> s[x + |key|] == key[|key| - 1];
  }

  /** A name that does not end safely can be stepped over: here the search for the quoted name first
      meets it across the end of an array, and goes on behind the name itself. */
  lemma NameSteppedOver(lex: Lexicon)
    requires Sane(lex)
    ensures var text := "{\"p\":[\"b\"],\"],\":5}"; var r := Completed(lex, text);
            && ExtractFrom(text, Needle("],"), 0) == None
            && r.Some? && Lookup(r.value, Unescape(PlainPieces("],"))) == Some(Number("5"))
  {
    SteppedOverSearch();
    SteppedOverReader(lex);
  }

  lemma SteppedOverSearch()
    ensures ExtractFrom("{\"p\":[\"b\"],\"],\":5}", Needle("],"), 0) == None
  {
    hide DepthTo, At;
    var s := "{\"p\":[\"b\"],\"],\":5}";
    var t := Needle("],");
    assert t == "\"],\"";
    assert s[8..12] == t;
    assert At(s, 8, t) by { AtThere(s, 8, t); }
    forall x | 0 <= x <= |s| ensures At(s, x, t) ==> x == 8 || x == 11 { AtShows(s, x, t); }
    FindTextHit(s, t, 0, 8);
    SteppedOverDepth();
    SearchMisses(s, t, 12);
  }

  lemma AtThere(s: string, x: nat, t: string)
    requires x + |t| <= |s| && s[x..x + |t|] == t
    ensures At(s, x, t)
  {
  }

  lemma AtShows(s: string, x: nat, t: string)
    requires |t| > 1
    ensures At(s, x, t) ==> x + 1 < |s| && s[x] == t[0] && s[x + 1] == t[1]
  {
  }

  lemma SteppedOverDepth()
    ensures DepthTo("{\"p\":[\"b\"],\"],\":5}", 8).arrays == 1
  {
    var s := "{\"p\":[\"b\"],\"],\":5}";
    assert DepthTo(s, 1) == Depth(1, 0, false, false);
    assert DepthTo(s, 3) == Depth(1, 0, true, false);
    assert DepthTo(s, 5) == Depth(1, 0, false, false);
    assert DepthTo(s, 7) == Depth(1, 1, true, false);
  }

  function ArrayThenName(): Members {
    MoreMembers(
      Member("", [Plain('p')], "", "", Arr(LastItem("", Text([Plain('b')]), "")), ""),
      LastMember(Member("", [Plain(']'), Plain(',')], "", "", Num(Numeral(false, "5", "", "")), "")))
  }

  lemma SteppedOverReader(lex: Lexicon)
    requires Sane(lex)
    ensures var r := Completed(lex, "{\"p\":[\"b\"],\"],\":5}");
            r.Some? && Lookup(r.value, Unescape(PlainPieces("],"))) == Some(Number("5"))
  {
    hide Completed, Meaning, Unescape;
    var v := Obj(ArrayThenName());
    PrintArrayThenName();
    ValidArrayThenName();
    CompleteObject(lex, "", v, "");
    assert "" + Print(v) + "" == Print(v);
    MeaningArrayThenName();
  }

  lemma PrintArrayThenName()
    ensures Print(Obj(ArrayThenName())) == "{\"p\":[\"b\"],\"],\":5}"
  {
    var ms := ArrayThenName();
    QuoteOne('p');
    QuoteTwo(']', ',');
    PrintOneItem();
    PrintFive();
    hide Quote, Print;
    assert PrintMembers(ms.rest) == "\"],\":5}";
    assert PrintMembers(ms) == "\"p\":[\"b\"],\"],\":5}";
    PrintObject(ms);
  }

  lemma QuoteOne(c: char)
    ensures Quote([Plain(c)]) == "\"" + [c] + "\""
  {
    assert [Plain(c)][1..] == [] && PrintPieces([]) == "";
  }

  lemma QuoteTwo(c: char, d: char)
    ensures Quote([Plain(c), Plain(d)]) == "\"" + [c, d] + "\""
  {
    assert [Plain(c), Plain(d)][1..] == [Plain(d)] && [Plain(d)][1..] == [] && PrintPieces([]) == "";
    assert PrintPieces([Plain(d)]) == [d];
    assert PrintPieces([Plain(c), Plain(d)]) == [c] + [d];
  }

  lemma PrintOneItem()
    ensures Print(Arr(LastItem("", Text([Plain('b')]), ""))) == "[\"b\"]"
  {
    QuoteOne('b');
    hide Quote;
    assert Print(Text([Plain('b')])) == Quote([Plain('b')]);
  }

  lemma PrintFive()
    ensures Print(Num(Numeral(false, "5", "", ""))) == "5"
  {
    assert PrintNumeral(Numeral(false, "5", "", "")) == "" + ("5" + ("" + "")) == "5";
  }

  lemma PrintObject(ms: Members)
    ensures Print(Obj(ms)) == "{" + PrintMembers(ms)
  {
    hide PrintMembers;
  }

  lemma ValidArrayThenName()
    ensures Valid(Obj(ArrayThenName()))
  {
    var ms := ArrayThenName();
    assert forall k :: 0 <= k < 1 ==> ValidPiece([Plain('p')][k]);
    assert Valid(Text([Plain('b')]));
    assert Valid(ms.rest.m.v);
    assert ValidMembers(ms.rest);
  }

  lemma MeaningArrayThenName()
    ensures var m := Meaning(Obj(ArrayThenName()));
            m.Object? && Lookup(m.members, Unescape(PlainPieces("],"))) == Some(Number("5"))
  {
    var ms := ArrayThenName();
    assert PlainPieces("],") == ms.rest.m.key;
    assert Meaning(ms.rest.m.v) == Number("5");
    hide Unescape;
  }
}
