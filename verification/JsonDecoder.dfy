/** The standard library's JSON decoder (`JSONDecoder.raw_decode` and `json.loads`), which the
    recovery code relies on, and what it does with complete and with truncated JSON text. */
module JsonDecoder {
  import opened Collections
  import opened Text
  import opened JsonSyntax

  datatype Parsed<+T> = Fail | Ok(value: T, end: nat)

  // ---------- the decoder ----------

  /** A string literal after its opening quote. Control characters are refused. */
  function DecodeString(s: string, i: nat): (r: Parsed<seq<Piece>>)
    requires i <= |s|
    ensures r.Ok? ==> i < r.end <= |s|
    decreases |s| - i
  {
    if i == |s| then Fail
    else if s[i] == '"' then Ok([], i + 1)
    else if s[i] == '\\' then
      if i + 1 == |s| then Fail
      else if s[i + 1] == 'u' then
        if i + 6 <= |s| && ValidPiece(Hex(s[i + 2], s[i + 3], s[i + 4], s[i + 5])) then
          Push(Hex(s[i + 2], s[i + 3], s[i + 4], s[i + 5]), DecodeString(s, i + 6))
        else Fail
      else if IsShortEscape(s[i + 1]) then Push(Short(s[i + 1]), DecodeString(s, i + 2))
      else Fail
    else if s[i] < ' ' then Fail
    else Push(Plain(s[i]), DecodeString(s, i + 1))
  }

  function Push<T>(head: T, tail: Parsed<seq<T>>): Parsed<seq<T>> {
    match tail
    case Fail => Fail
    case Ok(value, end) => Ok([head] + value, end)
  }

  /** The greedy numeral match: sign, whole part, then fraction and exponent if complete. */
  function DecodeNumber(s: string, i: nat): (r: Parsed<string>)
    requires i <= |s|
    ensures r.Ok? ==> i < r.end <= |s| && r.value == s[i..r.end]
  {
    var j := if i < |s| && s[i] == '-' then i + 1 else i;
    if j == |s| || !IsDigit(s[j]) then Fail
    else var e := ExpEnd(s, FracEnd(s, WholeEnd(s, j))); Ok(s[i..e], e)
  }

  function WholeEnd(s: string, j: nat): (r: nat)
    requires j < |s| && IsDigit(s[j])
    ensures j < r <= |s|
  {
    if s[j] == '0' then j + 1 else Skip(Digit, s, j)
  }

  function FracEnd(s: string, k: nat): (r: nat)
    requires k <= |s|
    ensures k <= r <= |s|
  {
    if k + 1 < |s| && s[k] == '.' && IsDigit(s[k + 1]) then Skip(Digit, s, k + 1) else k
  }

  function ExpEnd(s: string, k: nat): (r: nat)
    requires k <= |s|
    ensures k <= r <= |s|
  {
    if k < |s| && (s[k] == 'e' || s[k] == 'E') then
      var m := if k + 1 < |s| && (s[k + 1] == '+' || s[k + 1] == '-') then k + 2 else k + 1;
      if m < |s| && IsDigit(s[m]) then Skip(Digit, s, m) else k
    else k
  }

  /** `raw_decode`: one value starting exactly at `i`, and where it ends. */
  function Decode(s: string, i: nat): (r: Parsed<Json>)
    requires i <= |s|
    ensures r.Ok? ==> i < r.end <= |s|
    decreases |s| - i, 0
  {
    if i == |s| then Fail
    else if s[i] == '"' then
      match DecodeString(s, i + 1)
      case Fail => Fail
      case Ok(ps, end) => Ok(Str(Unescape(ps)), end)
    else if s[i] == '{' then
      var j := Skip(Blank, s, i + 1);
      if j < |s| && s[j] == '}' then Ok(Object(map[]), j + 1) else DecodeMembers(s, j, map[])
    else if s[i] == '[' then
      var j := Skip(Blank, s, i + 1);
      if j < |s| && s[j] == ']' then Ok(Array([]), j + 1)
      else
        match DecodeItems(s, j)
        case Fail => Fail
        case Ok(items, end) => Ok(Array(items), end)
    else if s[i] == 'n' && At(s, i, "null") then Ok(Null, i + 4)
    else if s[i] == 't' && At(s, i, "true") then Ok(Bool(true), i + 4)
    else if s[i] == 'f' && At(s, i, "false") then Ok(Bool(false), i + 5)
    else
      match DecodeNumber(s, i)
      case Ok(lexeme, end) => Ok(Number(lexeme), end)
      case Fail =>
        if s[i] == 'N' && At(s, i, "NaN") then Ok(Number("NaN"), i + 3)
        else if s[i] == 'I' && At(s, i, "Infinity") then Ok(Number("Infinity"), i + 8)
        else if s[i] == '-' && At(s, i, "-Infinity") then Ok(Number("-Infinity"), i + 9)
        else Fail
  }

  function DecodeItems(s: string, i: nat): (r: Parsed<seq<Json>>)
    requires i <= |s|
    ensures r.Ok? ==> i < r.end <= |s|
    decreases |s| - i, 1
  {
    match Decode(s, i)
    case Fail => Fail
    case Ok(v, end) =>
      var j := Skip(Blank, s, end);
      if j < |s| && s[j] == ']' then Ok([v], j + 1)
      else if j < |s| && s[j] == ',' then Push(v, DecodeItems(s, Skip(Blank, s, j + 1)))
      else Fail
  }

  function DecodeMembers(s: string, i: nat, acc: map<Key, Json>): (r: Parsed<Json>)
    requires i <= |s|
    ensures r.Ok? ==> i < r.end <= |s|
    decreases |s| - i, 1
  {
    if i == |s| || s[i] != '"' then Fail
    else
      match DecodeString(s, i + 1)
      case Fail => Fail
      case Ok(ps, keyEnd) =>
        var c := Skip(Blank, s, keyEnd);
        if c == |s| || s[c] != ':' then Fail else AfterColon(s, Unescape(ps), c + 1, acc)
  }

  /** The member loop from the colon after a name on. */
  function AfterColon(s: string, key: Key, i: nat, acc: map<Key, Json>): (r: Parsed<Json>)
    requires i <= |s|
    ensures r.Ok? ==> i < r.end <= |s|
    decreases |s| - i, 1
  {
    match Decode(s, Skip(Blank, s, i))
    case Fail => Fail
    case Ok(v, end) =>
      var next := acc[key := v];
      var j := Skip(Blank, s, end);
      if j < |s| && s[j] == '}' then Ok(Object(next), j + 1)
      else if j < |s| && s[j] == ',' then DecodeMembers(s, Skip(Blank, s, j + 1), next)
      else Fail
  }

  /** `json.loads`: one value, nothing but blanks around it, no byte order mark. */
  function Loads(s: string): Option<Json> {
    if |s| > 0 && s[0] == '\U{FEFF}' then None
    else
      match Decode(s, Skip(Blank, s, 0))
      case Fail => None
      case Ok(v, end) => if Skip(Blank, s, end) == |s| then Some(v) else None
  }

  // ---------- strings ----------

  /** A complete literal is read back piece by piece; a truncated one is refused. */
  lemma {:induction false} StringAgrees(s: string, i: nat, ps: seq<Piece>)
    requires i <= |s| && ValidPieces(ps) && Agrees(s, i, PrintPieces(ps) + "\"")
    ensures DecodeString(s, i) ==
            if i + |PrintPieces(ps)| + 1 <= |s| then Ok(ps, i + |PrintPieces(ps)| + 1) else Fail
    decreases |ps|
  {
    hide Agrees, PrintPiece, ValidPiece;
    if ps == [] {
      assert PrintPieces(ps) + "\"" == "\"";
      AgreesFirst(s, i, "\"");
    } else {
      var p, rest := PrintPiece(ps[0]), PrintPieces(ps[1..]);
      assert PrintPieces(ps) + "\"" == p + (rest + "\"");
      AgreesSplit(s, i, p, rest + "\"");
      PieceAgrees(s, i, ps[0]);
      if i + |p| <= |s| {
        StringAgrees(s, i + |p|, ps[1..]);
        assert [ps[0]] + ps[1..] == ps;
      }
    }
  }

  lemma PieceAgrees(s: string, i: nat, p: Piece)
    requires i <= |s| && ValidPiece(p) && Agrees(s, i, PrintPiece(p))
    ensures DecodeString(s, i) ==
            if i + |PrintPiece(p)| <= |s| then Push(p, DecodeString(s, i + |PrintPiece(p)|)) else Fail
  {
    var t := PrintPiece(p);
    AgreesFirst(s, i, t);
    assert |t| > 1 && i + 1 < |s| ==> s[i + 1] == t[1];
    if p.Hex? && i + 6 <= |s| {
      assert s[i + 2] == t[2] && s[i + 3] == t[3] && s[i + 4] == t[4] && s[i + 5] == t[5];
    }
  }

  // ---------- numerals ----------

  /** No numeral continues at position `i`: the text ends there or goes on with a character no numeral holds. */
  predicate NumberStops(s: string, i: nat) {
    i < |s| ==> !IsDigit(s[i]) && s[i] !in {'.', 'e', 'E', '+', '-'}
  }

  lemma FracAgrees(s: string, k: nat, frac: string)
    requires k <= |s| && ValidFrac(frac) && Agrees(s, k, frac)
    requires k + |frac| < |s| ==> !IsDigit(s[k + |frac|])
    requires k + |frac| < |s| && frac == "" ==> s[k] != '.'
    ensures k + |frac| <= |s| ==> FracEnd(s, k) == k + |frac|
    ensures k + 1 < |s| < k + |frac| ==> FracEnd(s, k) == |s|
    ensures |s| <= k + 1 && |s| < k + |frac| ==> FracEnd(s, k) == k
  {
    if frac != "" {
      assert frac == [frac[0]] + frac[1..];
      AgreesSplit(s, k, [frac[0]], frac[1..]);
      if k + 1 <= |s| {
        SkipRun(Digit, s, k + 1, frac[1..]);
        assert s[k] == frac[0];
        if k + 1 < |s| { assert s[k + 1] == frac[1]; }
      }
    }
  }

  /** The length of `e`, with its sign if it has one. */
  function ExpMark(exp: string): nat
    requires exp != "" && ValidExp(exp)
  {
    if Digits(exp[1..]) then 1 else 2
  }

  lemma ExpAgrees(s: string, k: nat, exp: string)
    requires k <= |s| && ValidExp(exp) && Agrees(s, k, exp)
    requires k + |exp| <= |s| ==> NumberStops(s, k + |exp|)
    ensures k + |exp| <= |s| ==> ExpEnd(s, k) == k + |exp|
    ensures exp != "" && k + ExpMark(exp) < |s| < k + |exp| ==> ExpEnd(s, k) == |s|
    ensures exp != "" && |s| <= k + ExpMark(exp) ==> ExpEnd(s, k) == k
  {
    if exp != "" {
      var mark := ExpMark(exp);
      assert exp == exp[..mark] + exp[mark..];
      AgreesSplit(s, k, exp[..mark], exp[mark..]);
      assert k < |s| ==> s[k] == exp[0];
      assert k + 1 < |s| ==> s[k + 1] == exp[1];
      if mark == 1 { assert exp[1..][0] == exp[1]; }
      if k + mark <= |s| {
        SkipRun(Digit, s, k + mark, exp[mark..]);
        if k + mark < |s| { assert s[k + mark] == exp[mark]; assert exp[mark..][0] == exp[mark]; }
      }
    }
  }

  /** The parts of a numeral in the text, one after the other. */
  lemma NumeralParts(s: string, i: nat, n: Numeral)
    requires ValidNumeral(n) && Agrees(s, i, PrintNumeral(n)) && i < |s|
    ensures s[i] == '-' <==> n.minus
    ensures var j := if n.minus then i + 1 else i;
            && Agrees(s, j, n.whole)
            && Agrees(s, j + |n.whole|, n.frac)
            && Agrees(s, j + |n.whole| + |n.frac|, n.exp)
            && |PrintNumeral(n)| == j - i + |n.whole| + |n.frac| + |n.exp|
            && (j < |s| ==> s[j] == n.whole[0])
  {
    var sign := if n.minus then "-" else "";
    AgreesSplit(s, i, sign, n.whole + (n.frac + n.exp));
    AgreesSplit(s, i + |sign|, n.whole, n.frac + n.exp);
    AgreesSplit(s, i + |sign| + |n.whole|, n.frac, n.exp);
    assert n.minus ==> s[i + 0] == sign[0];
    assert i + |sign| < |s| ==> s[i + |sign| + 0] == n.whole[0];
  }

  lemma WholeAgrees(s: string, j: nat, n: Numeral)
    requires ValidNumeral(n) && j < |s| && Agrees(s, j, n.whole)
    requires j + |n.whole| < |s| ==> !IsDigit(s[j + |n.whole|])
    ensures IsDigit(s[j]) && WholeEnd(s, j) == if j + |n.whole| <= |s| then j + |n.whole| else |s|
  {
    assert s[j + 0] == n.whole[0];
    SkipRun(Digit, s, j, n.whole);
  }

  /** A complete numeral that nothing continues is read to its end. */
  lemma NumeralComplete(s: string, i: nat, n: Numeral)
    requires ValidNumeral(n) && Agrees(s, i, PrintNumeral(n)) && i + |PrintNumeral(n)| <= |s|
    requires NumberStops(s, i + |PrintNumeral(n)|)
    ensures DecodeNumber(s, i) == Ok(PrintNumeral(n), i + |PrintNumeral(n)|)
  {
    hide Agrees, WholeEnd, FracEnd, ExpEnd, ValidFrac, ValidExp;
    assert |PrintNumeral(n)| > 0;
    NumeralParts(s, i, n);
    var j := if n.minus then i + 1 else i;
    NumeralStops(s, j, n);
    AgreesAt(s, i, PrintNumeral(n));
  }

  lemma NumeralStops(s: string, j: nat, n: Numeral)
    requires ValidNumeral(n) && Agrees(s, j, n.whole)
    requires Agrees(s, j + |n.whole|, n.frac) && Agrees(s, j + |n.whole| + |n.frac|, n.exp)
    requires j + |n.whole| + |n.frac| + |n.exp| <= |s|
    requires NumberStops(s, j + |n.whole| + |n.frac| + |n.exp|)
    ensures IsDigit(s[j])
    ensures ExpEnd(s, FracEnd(s, WholeEnd(s, j))) == j + |n.whole| + |n.frac| + |n.exp|
  {
    var k := j + |n.whole|;
    var f := k + |n.frac|;
    assert n.frac != "" && k < |s| ==> s[k + 0] == n.frac[0];
    assert n.exp != "" && f < |s| ==> s[f + 0] == n.exp[0];
    WholeAgrees(s, j, n);
    FracAgrees(s, k, n.frac);
    ExpAgrees(s, f, n.exp);
  }

  /** A truncated numeral: a lone sign is refused, a text ending in a digit is read to the cut
      as a shorter numeral, and anything else leaves a '.', 'e' or 'E' unread. */
  lemma NumeralCut(s: string, i: nat, n: Numeral)
    requires ValidNumeral(n) && Agrees(s, i, PrintNumeral(n)) && i < |s| < i + |PrintNumeral(n)|
    ensures var r := DecodeNumber(s, i);
            if s[i..] == "-" then r == Fail
            else if IsDigit(s[|s| - 1]) then r == Ok(s[i..], |s|)
            else r.Ok? && r.end < |s| && s[r.end] in {'.', 'e', 'E'}
  {
    hide WholeEnd, FracEnd, ExpEnd, ValidFrac, ValidExp, PrintNumeral;
    NumeralParts(s, i, n);
    var j := if n.minus then i + 1 else i;
    var k := j + |n.whole|;
    assert s[i..|s|] == s[i..];
    if j == |s| {
      assert s[i..] == "-";
    } else {
      assert s[i..] != "-" by { assert s[i..][0] == s[i]; assert n.minus ==> |s[i..]| > 1; }
      PartStarts(s, k, n);
      WholeAgrees(s, j, n);
      if |s| <= k {
        assert s[j + (|s| - 1 - j)] == n.whole[|s| - 1 - j];
        PastEnd(s);
      } else {
        CutAfterWhole(s, k, n);
      }
    }
  }

  lemma PartStarts(s: string, k: nat, n: Numeral)
    requires ValidNumeral(n) && Agrees(s, k, n.frac) && Agrees(s, k + |n.frac|, n.exp)
    ensures k < |s| && n.frac + n.exp != "" ==> !IsDigit(s[k])
  {
    AgreesFirst(s, k, n.frac);
    AgreesFirst(s, k + |n.frac|, n.exp);
  }

  lemma PastEnd(s: string)
    ensures ExpEnd(s, FracEnd(s, |s|)) == |s|
  {
  }

  lemma CutAfterWhole(s: string, k: nat, n: Numeral)
    requires ValidNumeral(n) && Agrees(s, k, n.frac) && Agrees(s, k + |n.frac|, n.exp)
    requires k < |s| < k + |n.frac| + |n.exp|
    ensures var e := ExpEnd(s, FracEnd(s, k));
            if IsDigit(s[|s| - 1]) then e == |s| else e < |s| && s[e] in {'.', 'e', 'E'}
  {
    var f := k + |n.frac|;
    if f < |s| {
      assert s[f] == n.exp[0];
      FracAgrees(s, k, n.frac);
      ExpAgrees(s, f, n.exp);
      var mark := ExpMark(n.exp);
      assert s[|s| - 1] == n.exp[|s| - 1 - f];
      if f + mark < |s| {
        assert n.exp[mark..][|s| - 1 - f - mark] == n.exp[|s| - 1 - f];
      }
    } else {
      assert s[k] == n.frac[0];
      FracAgrees(s, k, n.frac);
      assert s[|s| - 1] == n.frac[|s| - 1 - k];
      if k + 1 < |s| {
        assert n.frac[1..][|s| - 2 - k] == n.frac[|s| - 1 - k];
      }
    }
  }
}
