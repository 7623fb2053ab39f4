/** The root scanner against the printer: which text becomes the root, and with which value. */
module ScannerLaws {
  import opened Text
  import opened JsonSyntax
  import opened DecoderLaws
  import opened RootScanner

  // ---------- the stack over printed text ----------

  /** Characters the structural scan passes over outside strings. */
  predicate Quiet(t: string) {
    forall k :: 0 <= k < |t| ==> t[k] !in {'"', '{', '}', '[', ']'}
  }

  lemma {:induction false} ScanQuiet(s: string, start: nat, i: nat, t: string, stack: string)
    requires start <= i && i + |t| <= |s| && Agrees(s, i, t) && Quiet(t)
    requires ScanTo(s, start, i) == Scanning(stack, false, false)
    ensures ScanTo(s, start, i + |t|) == Scanning(stack, false, false)
    decreases |t|
  {
    if t != "" {
      var n := |t| - 1;
      assert t == t[..n] + t[n..];
      AgreesSplit(s, i, t[..n], t[n..]);
      AgreesFirst(s, i + n, t[n..]);
      ScanQuiet(s, start, i, t[..n], stack);
    }
  }

  lemma ScanChar(s: string, start: nat, i: nat, c: char)
    requires start <= i < |s| && Agrees(s, i, [c])
    ensures ScanTo(s, start, i + 1) == Step(ScanTo(s, start, i), c, i)
  {
    AgreesFirst(s, i, [c]);
  }

  lemma ScanPiece(s: string, start: nat, i: nat, p: Piece, stack: string)
    requires ValidPiece(p) && start <= i && i + |PrintPiece(p)| <= |s| && Agrees(s, i, PrintPiece(p))
    requires ScanTo(s, start, i) == Scanning(stack, true, false)
    ensures ScanTo(s, start, i + |PrintPiece(p)|) == Scanning(stack, true, false)
  {
    var t := PrintPiece(p);
    assert s[i + 0] == t[0];
    assert ScanTo(s, start, i + 1) == Step(ScanTo(s, start, i), t[0], i);
    if |t| > 1 {
      assert s[i + 1] == t[1];
      assert ScanTo(s, start, i + 2) == Step(ScanTo(s, start, i + 1), t[1], i + 1);
    }
    if p.Hex? {
      assert s[i + 2] == t[2] && s[i + 3] == t[3] && s[i + 4] == t[4] && s[i + 5] == t[5];
      assert ScanTo(s, start, i + 3) == Scanning(stack, true, false);
      assert ScanTo(s, start, i + 4) == Scanning(stack, true, false);
      assert ScanTo(s, start, i + 5) == Scanning(stack, true, false);
    }
  }

  lemma {:induction false} ScanPieces(s: string, start: nat, i: nat, ps: seq<Piece>, stack: string)
    requires ValidPieces(ps) && start <= i && i + |PrintPieces(ps)| <= |s| && Agrees(s, i, PrintPieces(ps))
    requires ScanTo(s, start, i) == Scanning(stack, true, false)
    ensures ScanTo(s, start, i + |PrintPieces(ps)|) == Scanning(stack, true, false)
    decreases |ps|
  {
    if ps != [] {
      var n := |PrintPiece(ps[0])|;
      AgreesSplit(s, i, PrintPiece(ps[0]), PrintPieces(ps[1..]));
      ScanPiece(s, start, i, ps[0], stack);
      ScanPieces(s, start, i + n, ps[1..], stack);
    }
  }

  lemma ScanQuote(s: string, start: nat, i: nat, ps: seq<Piece>, stack: string)
    requires ValidPieces(ps) && start <= i && i + |Quote(ps)| <= |s| && Agrees(s, i, Quote(ps))
    requires ScanTo(s, start, i) == Scanning(stack, false, false)
    ensures ScanTo(s, start, i + |Quote(ps)|) == Scanning(stack, false, false)
  {
    hide Agrees, PrintPieces;
    assert Quote(ps) == "\"" + (PrintPieces(ps) + "\"");
    AgreesSplit(s, i, "\"", PrintPieces(ps) + "\"");
    AgreesSplit(s, i + 1, PrintPieces(ps), "\"");
    ScanChar(s, start, i, '"');
    ScanPieces(s, start, i + 1, ps, stack);
    ScanChar(s, start, i + 1 + |PrintPieces(ps)|, '"');
  }

  predicate NumberChar(c: char) {
    IsDigit(c) || c in {'.', 'e', 'E', '+', '-'}
  }

  /** A numeral is made of digits, signs, the point and the exponent mark only. */
  lemma NumeralChars(n: Numeral)
    requires ValidNumeral(n)
    ensures forall k :: 0 <= k < |PrintNumeral(n)| ==> NumberChar(PrintNumeral(n)[k])
  {
    forall k | 0 <= k < |n.frac| ensures NumberChar(n.frac[k]) {
      assert k > 0 ==> n.frac[1..][k - 1] == n.frac[k];
    }
    forall k | 0 <= k < |n.exp| ensures NumberChar(n.exp[k]) {
      assert k > 0 && Digits(n.exp[1..]) ==> n.exp[1..][k - 1] == n.exp[k];
      assert k > 1 && !Digits(n.exp[1..]) ==> n.exp[2..][k - 2] == n.exp[k];
    }
    assert forall k :: 0 <= k < |n.whole| ==> NumberChar(n.whole[k]);
    hide NumberChar, ValidNumeral;
    var sign := if n.minus then "-" else "";
    var tail := n.frac + n.exp;
    assert forall k :: 0 <= k < |tail| ==> NumberChar(tail[k]);
    var rest := n.whole + tail;
    assert forall k :: 0 <= k < |rest| ==> NumberChar(rest[k]);
    assert NumberChar('-') by { Dash(); }
    assert PrintNumeral(n) == sign + rest;
  }

  lemma Dash()
    ensures NumberChar('-')
  {
  }

  lemma QuietScalars(v: Value)
    requires Valid(v) && (v.Literal? || v.Num?)
    ensures Quiet(Print(v))
  {
    match v
    case Literal(_) =>
    case Num(n) =>
      PrintNum(n);
      NumeralChars(n);
      hide Print, PrintNumeral;
      forall k | 0 <= k < |Print(v)| ensures Print(v)[k] !in {'"', '{', '}', '[', ']'} {
        assert NumberChar(PrintNumeral(n)[k]);
      }
  }

  /** The scan's state once a container's closing bracket, standing at `at`, is read. */
  function Popped(stack: string, at: nat): Scan {
    if stack == "" then Closed(at) else Scanning(stack, false, false)
  }

  lemma ScanClose(s: string, start: nat, at: nat, open: char, close: char, stack: string)
    requires start <= at < |s| && s[at] == close && Opener(close) == open && (close == '}' || close == ']')
    requires ScanTo(s, start, at) == Scanning(stack + [open], false, false)
    ensures ScanTo(s, start, at + 1) == Popped(stack, at)
  {
    assert (stack + [open])[..|stack|] == stack;
  }

  /** Reading a whole printed container leaves the stack as it was, and empties it exactly at the end. */
  lemma {:induction false} ScanContainer(s: string, start: nat, i: nat, v: Value, stack: string)
    requires Valid(v) && (v.Arr? || v.EmptyArr? || v.Obj? || v.EmptyObj?)
    requires start <= i && i + |Print(v)| <= |s| && Agrees(s, i, Print(v))
    requires ScanTo(s, start, i) == Scanning(stack, false, false)
    ensures ScanTo(s, start, i + |Print(v)|) == Popped(stack, i + |Print(v)| - 1)
    decreases v, 1
  {
    hide Agrees, PrintItems, PrintMembers, ScanTo, All, Valid;
    ValidParts(v);
    match v
    case EmptyArr(blank) => ScanEmpty(s, start, i, blank, '[', ']', stack);
    case EmptyObj(blank) => ScanEmpty(s, start, i, blank, '{', '}', stack);
    case Arr(items) =>
      AgreesSplit(s, i, "[", PrintItems(items));
      ScanChar(s, start, i, '[');
      ScanItems(s, start, i + 1, items, stack);
    case Obj(members) =>
      AgreesSplit(s, i, "{", PrintMembers(members));
      ScanChar(s, start, i, '{');
      ScanMembers(s, start, i + 1, members, stack);
  }

  lemma BlankIsQuiet(t: string)
    requires All(Blank, t)
    ensures Quiet(t)
  {
  }

  lemma ScanEmpty(s: string, start: nat, i: nat, blank: string, open: char, close: char, stack: string)
    requires All(Blank, blank) && ((open == '[' && close == ']') || (open == '{' && close == '}'))
    requires start <= i && i + |blank| + 2 <= |s| && Agrees(s, i, [open] + (blank + [close]))
    requires ScanTo(s, start, i) == Scanning(stack, false, false)
    ensures ScanTo(s, start, i + |blank| + 2) == Popped(stack, i + |blank| + 1)
  {
    hide Agrees;
    AgreesSplit(s, i, [open], blank + [close]);
    AgreesSplit(s, i + 1, blank, [close]);
    ScanChar(s, start, i, open);
    BlankIsQuiet(blank);
    ScanQuiet(s, start, i + 1, blank, stack + [open]);
    AgreesFirst(s, i + 1 + |blank|, [close]);
    ScanClose(s, start, i + 1 + |blank|, open, close, stack);
  }

  lemma {:induction false} ScanValue(s: string, start: nat, i: nat, v: Value, stack: string)
    requires Valid(v) && stack != ""
    requires start <= i && i + |Print(v)| <= |s| && Agrees(s, i, Print(v))
    requires ScanTo(s, start, i) == Scanning(stack, false, false)
    ensures ScanTo(s, start, i + |Print(v)|) == Scanning(stack, false, false)
    decreases v, 2
  {
    hide Agrees, ScanTo, All, Valid, PrintItems, PrintMembers, PrintPieces;
    ValidParts(v);
    match v
    case Literal(_) =>
      QuietScalars(v);
      ScanQuiet(s, start, i, Print(v), stack);
    case Num(_) =>
      QuietScalars(v);
      ScanQuiet(s, start, i, Print(v), stack);
    case Text(ps) => ScanQuote(s, start, i, ps, stack);
    case _ => ScanContainer(s, start, i, v, stack);
  }

  lemma {:induction false} ScanItems(s: string, start: nat, i: nat, items: Items, stack: string)
    requires ValidItems(items) && start <= i && i + |PrintItems(items)| <= |s| && Agrees(s, i, PrintItems(items))
    requires ScanTo(s, start, i) == Scanning(stack + ['['], false, false)
    ensures ScanTo(s, start, i + |PrintItems(items)|) == Popped(stack, i + |PrintItems(items)| - 1)
    decreases items, 3
  {
    hide Agrees, ScanTo, All, Print, PrintItems, ScanTo, ItemsTail, Valid, Popped;
    ItemsParts(s, i, items);
    var inner := stack + ['['];
    var j := i + |items.lead|;
    var e := j + |Print(items.v)|;
    var at := e + |items.trail|;
    BlankIsQuiet(items.lead);
    BlankIsQuiet(items.trail);
    ScanQuiet(s, start, i, items.lead, inner);
    ScanValue(s, start, j, items.v, inner);
    ScanQuiet(s, start, e, items.trail, inner);
    if items.LastItem? {
      AgreesFirst(s, at, "]");
      ScanClose(s, start, at, '[', ']', stack);
    } else {
      ScanQuiet(s, start, at, ",", inner);
      ScanItems(s, start, at + 1, items.rest, stack);
    }
  }

  lemma {:induction false} ScanMembers(s: string, start: nat, i: nat, ms: Members, stack: string)
    requires ValidMembers(ms) && start <= i && i + |PrintMembers(ms)| <= |s| && Agrees(s, i, PrintMembers(ms))
    requires ScanTo(s, start, i) == Scanning(stack + ['{'], false, false)
    ensures ScanTo(s, start, i + |PrintMembers(ms)|) == Popped(stack, i + |PrintMembers(ms)| - 1)
    decreases ms, 3
  {
    hide Agrees, ScanTo, All, Print, PrintMembers, Quote, MembersTail, Valid, Popped;
    MemberParts(s, i, ms);
    var inner := stack + ['{'];
    var m := ms.m;
    var j := i + |m.lead| + |Quote(m.key)| + |m.gap| + 1 + |m.before|;
    var e := j + |Print(m.v)|;
    var at := e + |m.trail|;
    TailStart(s, at, ms);
    ScanToValue(s, start, i, ms, inner);
    ScanValue(s, start, j, m.v, inner);
    BlankIsQuiet(m.trail);
    ScanQuiet(s, start, e, m.trail, inner);
    if ms.LastMember? {
      AgreesFirst(s, at, "}");
      ScanClose(s, start, at, '{', '}', stack);
    } else {
      ScanQuiet(s, start, at, ",", inner);
      ScanMembers(s, start, at + 1, ms.rest, stack);
    }
  }

  /** The scan from the start of a member to its value. */
  lemma ScanToValue(s: string, start: nat, i: nat, ms: Members, inner: string)
    requires ValidMembers(ms) && start <= i && i + |PrintMembers(ms)| <= |s| && Agrees(s, i, PrintMembers(ms))
    requires ScanTo(s, start, i) == Scanning(inner, false, false)
    ensures var m := ms.m;
            var k := i + |m.lead|;
            var c := k + |Quote(m.key)| + |m.gap|;
            && c + 1 + |m.before| <= |s|
            && ScanTo(s, start, k) == Scanning(inner, false, false)
            && ScanTo(s, start, c + 1 + |m.before|) == Scanning(inner, false, false)
  {
    hide Agrees, ScanTo, All, Print, PrintMembers, Quote, MembersTail, Valid;
    MemberParts(s, i, ms);
    var m := ms.m;
    var k := i + |m.lead|;
    var g := k + |Quote(m.key)|;
    var c := g + |m.gap|;
    BlankIsQuiet(m.lead);
    BlankIsQuiet(m.gap);
    BlankIsQuiet(m.before);
    ScanQuiet(s, start, i, m.lead, inner);
    ScanQuote(s, start, k, m.key, inner);
    ScanQuiet(s, start, g, m.gap, inner);
    ScanQuiet(s, start, c, ":", inner);
    ScanQuiet(s, start, c + 1, m.before, inner);
  }
}
