/** The decoder reads nothing but JSON: whatever it accepts is a written value, and what it returns is
    what that value denotes. The three constants `NaN`, `Infinity` and `-Infinity`, which Python's
    decoder takes for numbers, are the one exception to the grammar. */
module DecoderSoundness {
  import opened Text
  import opened JsonSyntax
  import opened JsonDecoder
  import opened DecoderLaws

  // ---------- the grammar with the constants ----------

  /** A numeral of the grammar, or one of the three constants. */
  predicate LenientNumeral(n: Numeral) {
    || ValidNumeral(n)
    || (n.frac == "" && n.exp == "" && (n.whole == "Infinity" || (n.whole == "NaN" && !n.minus)))
  }

  predicate Lenient(v: Value) {
    match v
    case Literal(_) => true
    case Num(n) => LenientNumeral(n)
    case Text(ps) => ValidPieces(ps)
    case EmptyArr(blank) => All(Blank, blank)
    case Arr(items) => LenientItems(items)
    case EmptyObj(blank) => All(Blank, blank)
    case Obj(members) => LenientMembers(members)
  }

  predicate LenientItems(items: Items) {
    && All(Blank, items.lead) && Lenient(items.v) && All(Blank, items.trail)
    && (items.MoreItems? ==> LenientItems(items.rest))
  }

  predicate LenientMembers(ms: Members) {
    && All(Blank, ms.m.lead) && ValidPieces(ms.m.key) && All(Blank, ms.m.gap)
    && All(Blank, ms.m.before) && Lenient(ms.m.v) && All(Blank, ms.m.trail)
    && (ms.MoreMembers? ==> LenientMembers(ms.rest))
  }

  // ---------- slices ----------

  lemma Glue(s: string, a: nat, b: nat, c: nat)
    requires a <= b <= c <= |s|
    ensures s[a..b] + s[b..c] == s[a..c]
  {
  }

  lemma BlankSlice(s: string, i: nat)
    requires i <= |s|
    ensures All(Blank, s[i..Skip(Blank, s, i)])
  {
    SkipStops(Blank, s, i);
  }

  lemma DigitSlice(s: string, i: nat)
    requires i <= |s|
    ensures All(Digit, s[i..Skip(Digit, s, i)])
  {
    SkipStops(Digit, s, i);
  }

  // ---------- strings ----------

  lemma {:induction false} StringSound(s: string, i: nat)
    requires i <= |s| && DecodeString(s, i).Ok?
    ensures var r := DecodeString(s, i);
            ValidPieces(r.value) && PrintPieces(r.value) + "\"" == s[i..r.end]
    decreases |s| - i
  {
    hide ValidPiece, PrintPiece;
    var r := DecodeString(s, i);
    if s[i] == '"' {
      assert PrintPieces([]) == "";
    } else {
      var p := FirstRead(s, i);
      var n := |PrintPiece(p)|;
      StringSound(s, i + n);
      var rest := DecodeString(s, i + n).value;
      assert ([p] + rest)[1..] == rest;
      assert PrintPieces(r.value) == PrintPiece(p) + PrintPieces(rest);
      Glue(s, i, i + n, r.end);
      assert PrintPiece(p) + PrintPieces(rest) + "\"" == PrintPiece(p) + (PrintPieces(rest) + "\"");
    }
  }

  /** The first piece of a literal that is read. */
  lemma FirstRead(s: string, i: nat) returns (p: Piece)
    requires i < |s| && s[i] != '"' && DecodeString(s, i).Ok?
    ensures ValidPiece(p) && |PrintPiece(p)| > 0 && i + |PrintPiece(p)| <= |s| && PrintPiece(p) == s[i..i + |PrintPiece(p)|]
    ensures DecodeString(s, i) == Push(p, DecodeString(s, i + |PrintPiece(p)|))
  {
    p := if s[i] != '\\' then Plain(s[i])
         else if s[i + 1] == 'u' then Hex(s[i + 2], s[i + 3], s[i + 4], s[i + 5])
         else Short(s[i + 1]);
  }

  // ---------- numbers ----------

  lemma NumberSound(s: string, i: nat) returns (n: Numeral)
    requires i < |s| && DecodeNumber(s, i).Ok?
    ensures ValidNumeral(n) && PrintNumeral(n) == DecodeNumber(s, i).value
  {
    hide ValidFrac, ValidExp;
    var j := if s[i] == '-' then i + 1 else i;
    var w := WholeEnd(s, j);
    var f := FracEnd(s, w);
    var e := ExpEnd(s, f);
    n := Numeral(s[i] == '-', s[j..w], s[w..f], s[f..e]);
    WholeSound(s, j);
    FracSound(s, w);
    ExpSound(s, f);
    hide WholeEnd, FracEnd, ExpEnd;
    Glue(s, w, f, e);
    Glue(s, j, w, e);
    Glue(s, i, j, e);
    assert s[i..j] == if s[i] == '-' then "-" else "";
  }

  lemma WholeSound(s: string, j: nat)
    requires j < |s| && IsDigit(s[j])
    ensures var t := s[j..WholeEnd(s, j)]; Digits(t) && (t[0] == '0' ==> |t| == 1)
  {
    DigitSlice(s, j);
  }

  lemma FracSound(s: string, k: nat)
    requires k <= |s|
    ensures ValidFrac(s[k..FracEnd(s, k)])
  {
    var e := FracEnd(s, k);
    if e > k {
      DigitSlice(s, k + 1);
      assert s[k..e][1..] == s[k + 1..e];
    }
  }

  lemma ExpSound(s: string, k: nat)
    requires k <= |s|
    ensures ValidExp(s[k..ExpEnd(s, k)])
  {
    var e := ExpEnd(s, k);
    if e > k {
      var t := s[k..e];
      var m := if s[k + 1] == '+' || s[k + 1] == '-' then k + 2 else k + 1;
      DigitSlice(s, m);
      assert t[1..] == s[k + 1..e];
      if m == k + 2 { assert t[2..] == s[m..e]; }
    }
  }

  lemma Constants()
    ensures PrintNumeral(Numeral(false, "NaN", "", "")) == "NaN"
    ensures PrintNumeral(Numeral(false, "Infinity", "", "")) == "Infinity"
    ensures PrintNumeral(Numeral(true, "Infinity", "", "")) == "-Infinity"
  {
  }

  /** The constants are read. */
  lemma ConstantsRead(s: string, i: nat)
    requires i <= |s|
    ensures At(s, i, "NaN") ==> Decode(s, i) == Ok(Number("NaN"), i + 3)
    ensures At(s, i, "Infinity") ==> Decode(s, i) == Ok(Number("Infinity"), i + 8)
    ensures At(s, i, "-Infinity") ==> Decode(s, i) == Ok(Number("-Infinity"), i + 9)
  {
    if At(s, i, "NaN") { assert s[i] == s[i..i + 3][0]; }
    if At(s, i, "Infinity") { assert s[i] == s[i..i + 8][0]; }
    if At(s, i, "-Infinity") { assert s[i] == s[i..i + 9][0] && s[i + 1] == s[i..i + 9][1]; }
  }

  // ---------- values ----------

  /** `v` is written in the text from `i` to `end`, and denotes `j`. */
  predicate Stands(s: string, i: nat, end: nat, v: Value, j: Json) {
    i <= end <= |s| && Lenient(v) && Print(v) == s[i..end] && Meaning(v) == j
  }

  /** Soundness: what is decoded is written there. */
  lemma {:induction false} DecodeSound(s: string, i: nat) returns (v: Value)
    requires i <= |s| && Decode(s, i).Ok?
    ensures Stands(s, i, Decode(s, i).end, v, Decode(s, i).value)
    decreases |s| - i, 0
  {
    var end := Decode(s, i).end;
    if s[i] == '"' {
      hide DecodeItems, DecodeMembers, Unescape, ValidPieces, DecodeString;
      v := JsonSyntax.Text(DecodeString(s, i + 1).value);
      StringStands(s, i);
    } else if s[i] == '{' {
      v := ObjectSound(s, i);
    } else if s[i] == '[' {
      v := ArraySound(s, i);
    } else {
      v := ScalarSound(s, i);
    }
  }

  lemma StringStands(s: string, i: nat)
    requires i < |s| && s[i] == '"' && DecodeString(s, i + 1).Ok?
    ensures var r := DecodeString(s, i + 1);
            Stands(s, i, r.end, JsonSyntax.Text(r.value), Str(Unescape(r.value)))
  {
    hide DecodeString, Unescape;
    StringSound(s, i + 1);
    var r := DecodeString(s, i + 1);
    Glue(s, i, i + 1, r.end);
    assert s[i..i + 1] == "\"";
    assert Quote(r.value) == "\"" + (PrintPieces(r.value) + "\"");
  }

  lemma ScalarSound(s: string, i: nat) returns (v: Value)
    requires i < |s| && s[i] != '"' && s[i] != '{' && s[i] != '[' && Decode(s, i).Ok?
    ensures Stands(s, i, Decode(s, i).end, v, Decode(s, i).value)
  {
    hide DecodeNumber, DecodeItems, DecodeMembers, DecodeString, PrintNumeral, ValidNumeral;
    Constants();
    if s[i] == 'n' && At(s, i, "null") { v := Literal(Nil); }
    else if s[i] == 't' && At(s, i, "true") { v := Literal(True); }
    else if s[i] == 'f' && At(s, i, "false") { v := Literal(False); }
    else if DecodeNumber(s, i).Ok? { var n := NumberSound(s, i); v := Num(n); }
    else if s[i] == 'N' && At(s, i, "NaN") { v := Num(Numeral(false, "NaN", "", "")); }
    else if s[i] == 'I' && At(s, i, "Infinity") { v := Num(Numeral(false, "Infinity", "", "")); }
    else { v := Num(Numeral(true, "Infinity", "", "")); }
  }

  lemma {:induction false} ArraySound(s: string, i: nat) returns (v: Value)
    requires i < |s| && s[i] == '[' && Decode(s, i).Ok?
    ensures Stands(s, i, Decode(s, i).end, v, Decode(s, i).value)
    decreases |s| - i - 1, 3
  {
    hide Skip, All, DecodeItems, DecodeNumber, DecodeString, DecodeMembers;
    var j := Skip(Blank, s, i + 1);
    var end := Decode(s, i).end;
    BlankSlice(s, i + 1);
    Glue(s, i, i + 1, end);
    assert s[i..i + 1] == "[";
    if j < |s| && s[j] == ']' {
      v := EmptyArr(s[i + 1..j]);
      Glue(s, i + 1, j, end);
      assert s[j..end] == "]";
    } else {
      var items := ItemsSound(s, i + 1);
      v := Arr(items);
      ArrStands(items);
    }
  }

  lemma ArrStands(items: Items)
    ensures Print(Arr(items)) == "[" + PrintItems(items) && Meaning(Arr(items)) == Array(ItemsMeaning(items))
    ensures Lenient(Arr(items)) == LenientItems(items)
  {
  }

  /** The items from `b` on, blanks first, to the closing bracket. */
  lemma {:induction false} ItemsSound(s: string, b: nat) returns (items: Items)
    requires b <= |s| && DecodeItems(s, Skip(Blank, s, b)).Ok?
    ensures var r := DecodeItems(s, Skip(Blank, s, b));
            LenientItems(items) && PrintItems(items) == s[b..r.end] && ItemsMeaning(items) == r.value
    decreases |s| - b, 2
  {
    hide Skip, All, Decode, Print, Meaning, Lenient;
    var i := Skip(Blank, s, b);
    var r := DecodeItems(s, i);
    BlankSlice(s, b);
    var v := DecodeSound(s, i);
    var e := Decode(s, i).end;
    var at := Skip(Blank, s, e);
    BlankSlice(s, e);
    Glue(s, at, at + 1, r.end);
    Glue(s, e, at, r.end);
    Glue(s, i, e, r.end);
    Glue(s, b, i, r.end);
    if s[at] == ']' {
      items := LastItem(s[b..i], v, s[e..at]);
      assert s[at..r.end] == "]";
    } else {
      var rest := ItemsSound(s, at + 1);
      items := MoreItems(s[b..i], v, s[e..at], rest);
      assert s[at..at + 1] == ",";
    }
  }

  lemma {:induction false} ObjectSound(s: string, i: nat) returns (v: Value)
    requires i < |s| && s[i] == '{' && Decode(s, i).Ok?
    ensures Stands(s, i, Decode(s, i).end, v, Decode(s, i).value)
    decreases |s| - i - 1, 3
  {
    hide Skip, All, DecodeItems, DecodeNumber, DecodeString, DecodeMembers;
    var j := Skip(Blank, s, i + 1);
    var end := Decode(s, i).end;
    BlankSlice(s, i + 1);
    Glue(s, i, i + 1, end);
    assert s[i..i + 1] == "{";
    if j < |s| && s[j] == '}' {
      v := EmptyObj(s[i + 1..j]);
      Glue(s, i + 1, j, end);
      assert s[j..end] == "}";
    } else {
      var ms := MembersSound(s, i + 1, map[]);
      v := Obj(ms);
      ObjStands(ms);
    }
  }

  lemma ObjStands(ms: Members)
    ensures Print(Obj(ms)) == "{" + PrintMembers(ms) && Meaning(Obj(ms)) == Object(MembersMeaning(ms, map[]))
    ensures Lenient(Obj(ms)) == LenientMembers(ms)
  {
  }

  /** The members from `b` on, blanks first, to the closing brace. */
  lemma {:induction false} MembersSound(s: string, b: nat, acc: map<Key, Json>) returns (ms: Members)
    requires b <= |s| && DecodeMembers(s, Skip(Blank, s, b), acc).Ok?
    ensures var r := DecodeMembers(s, Skip(Blank, s, b), acc);
            LenientMembers(ms) && PrintMembers(ms) == s[b..r.end] && Object(MembersMeaning(ms, acc)) == r.value
    decreases |s| - b, 2
  {
    hide Skip, All, Decode, DecodeString, Print, PrintMembers, MembersMeaning, Meaning, Lenient, Unescape, ValidPieces, Quote, AfterColon;
    var k := Skip(Blank, s, b);
    var r := DecodeMembers(s, k, acc);
    var key, g := DecodeString(s, k + 1).value, DecodeString(s, k + 1).end;
    StringStands(s, k);
    TextStands(s, k, g, key);
    var c := Skip(Blank, s, g);
    BlankSlice(s, b);
    BlankSlice(s, g);
    ms := ValueSound(s, c + 1, s[b..k], key, s[g..c], acc);
    Glue(s, c, c + 1, r.end);
    assert s[c..c + 1] == ":";
    Glue(s, g, c, r.end);
    Glue(s, k, g, r.end);
    Glue(s, b, k, r.end);
    MembersText(ms);
  }

  lemma TextStands(s: string, i: nat, end: nat, ps: seq<Piece>)
    requires Stands(s, i, end, JsonSyntax.Text(ps), Str(Unescape(ps)))
    ensures ValidPieces(ps) && Quote(ps) == s[i..end]
  {
  }

  /** The members' text, the first value's part set off. */
  function FromValue(ms: Members): string {
    ms.m.before + (Print(ms.m.v) + (ms.m.trail + MembersTail(ms)))
  }

  lemma MembersText(ms: Members)
    ensures PrintMembers(ms) == ms.m.lead + (Quote(ms.m.key) + (ms.m.gap + (":" + FromValue(ms))))
  {
    hide Quote, Print;
  }

  /** From the colon on: the first value and whatever members follow it. */
  lemma {:induction false} ValueSound(s: string, b: nat, lead: string, key: seq<Piece>, gap: string, acc: map<Key, Json>) returns (ms: Members)
    requires b <= |s| && All(Blank, lead) && All(Blank, gap) && ValidPieces(key) && AfterColon(s, Unescape(key), b, acc).Ok?
    ensures ms.m.lead == lead && ms.m.key == key && ms.m.gap == gap && LenientMembers(ms)
    ensures var r := AfterColon(s, Unescape(key), b, acc);
            FromValue(ms) == s[b..r.end] && Object(MembersMeaning(ms, acc)) == r.value
    decreases |s| - b, 1
  {
    hide Skip, All, Decode, DecodeMembers, Print, PrintMembers, MembersMeaning, Meaning, Lenient, Unescape, ValidPieces;
    var r := AfterColon(s, Unescape(key), b, acc);
    var i := Skip(Blank, s, b);
    BlankSlice(s, b);
    var v := DecodeSound(s, i);
    var e := Decode(s, i).end;
    var at := Skip(Blank, s, e);
    BlankSlice(s, e);
    Glue(s, at, at + 1, r.end);
    Glue(s, e, at, r.end);
    Glue(s, i, e, r.end);
    Glue(s, b, i, r.end);
    var m := Member(lead, key, gap, s[b..i], v, s[e..at]);
    if s[at] == '}' {
      ms := LastMember(m);
      assert s[at..r.end] == "}";
    } else {
      var rest := MembersSound(s, at + 1, acc[Unescape(key) := Meaning(v)]);
      ms := MoreMembers(m, rest);
      assert s[at..at + 1] == ",";
    }
    MeaningTurn(ms, acc);
  }

  /** What `json.loads` accepts is one written value between blanks. */
  lemma LoadsSound(s: string) returns (a: nat, b: nat, v: Value)
    requires Loads(s).Some?
    ensures a <= b <= |s| && All(Blank, s[..a]) && All(Blank, s[b..]) && Stands(s, a, b, v, Loads(s).value)
  {
    hide Decode, Stands, Skip, All;
    a := Skip(Blank, s, 0);
    v := DecodeSound(s, a);
    b := Decode(s, a).end;
    BlankSlice(s, 0);
    BlankSlice(s, b);
    assert s[0..a] == s[..a] && s[b..|s|] == s[b..];
  }
}
