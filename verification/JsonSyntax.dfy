/** JSON values, and concrete JSON text as trees.

    `Json` is what the decoder returns. `Value` is one particular way to write a JSON
    value down (RFC 8259, sections 2 to 7): every choice of insignificant whitespace, of
    string escapes, of numeral spelling and of member order is a different tree, so
    "for every tree" means "for every serialization". */
module JsonSyntax {
  import opened Text

  /** A decoded string is a sequence of code points; surrogates may occur alone. */
  type Key = seq<int>

  datatype Json =
    | Null
    | Bool(b: bool)
    | Number(lexeme: string)
    | Str(text: Key)
    | Array(items: seq<Json>)
    | Object(members: map<Key, Json>)

  // ---------- string literals ----------

  datatype Piece =
    | Plain(c: char)
    | Short(c: char)
    | Hex(h0: char, h1: char, h2: char, h3: char)

  predicate IsHex(c: char) {
    IsDigit(c) || 'a' <= c <= 'f' || 'A' <= c <= 'F'
  }

  predicate IsShortEscape(c: char) {
    c in {'"', '\\', '/', 'b', 'f', 'n', 'r', 't'}
  }

  predicate ValidPiece(p: Piece) {
    match p
    case Plain(c) => c >= ' ' && c != '"' && c != '\\'
    case Short(c) => IsShortEscape(c)
    case Hex(h0, h1, h2, h3) => IsHex(h0) && IsHex(h1) && IsHex(h2) && IsHex(h3)
  }

  predicate ValidPieces(ps: seq<Piece>) {
    forall k :: 0 <= k < |ps| ==> ValidPiece(ps[k])
  }

  function PrintPiece(p: Piece): string {
    match p
    case Plain(c) => [c]
    case Short(c) => ['\\', c]
    case Hex(h0, h1, h2, h3) => ['\\', 'u', h0, h1, h2, h3]
  }

  function PrintPieces(ps: seq<Piece>): string {
    if ps == [] then "" else PrintPiece(ps[0]) + PrintPieces(ps[1..])
  }

  function Quote(ps: seq<Piece>): string {
    "\"" + PrintPieces(ps) + "\""
  }

  function HexDigit(c: char): int {
    if IsDigit(c) then c as int - '0' as int
    else if 'a' <= c <= 'f' then c as int - 'a' as int + 10
    else c as int - 'A' as int + 10
  }

  function CodeUnit(p: Piece): int {
    match p
    case Plain(c) => c as int
    case Short(c) =>
      (match c
       case 'b' => 8
       case 'f' => 12
       case 'n' => 10
       case 'r' => 13
       case 't' => 9
       case _ => c as int)
    case Hex(h0, h1, h2, h3) => 4096 * HexDigit(h0) + 256 * HexDigit(h1) + 16 * HexDigit(h2) + HexDigit(h3)
  }

  /** The text a literal denotes: an escaped surrogate pair is one code point. */
  function Unescape(ps: seq<Piece>): Key {
    if ps == [] then []
    else
      var u := CodeUnit(ps[0]);
      if ps[0].Hex? && 0xD800 <= u <= 0xDBFF && |ps| > 1 && ps[1].Hex? && 0xDC00 <= CodeUnit(ps[1]) <= 0xDFFF then
        [0x10000 + (u - 0xD800) * 0x400 + (CodeUnit(ps[1]) - 0xDC00)] + Unescape(ps[2..])
      else
        [u] + Unescape(ps[1..])
  }

  // ---------- numerals ----------

  /** `frac` is empty or starts with '.', `exp` is empty or starts with 'e' or 'E'. */
  datatype Numeral = Numeral(minus: bool, whole: string, frac: string, exp: string)

  predicate Digits(t: string) {
    |t| > 0 && All(Digit, t)
  }

  predicate ValidFrac(t: string) {
    t == "" || (t[0] == '.' && Digits(t[1..]))
  }

  predicate ValidExp(t: string) {
    t == "" ||
    ((t[0] == 'e' || t[0] == 'E') &&
     (Digits(t[1..]) || (|t| > 1 && (t[1] == '+' || t[1] == '-') && Digits(t[2..]))))
  }

  predicate ValidNumeral(n: Numeral) {
    && Digits(n.whole)
    && (n.whole[0] == '0' ==> |n.whole| == 1)
    && ValidFrac(n.frac)
    && ValidExp(n.exp)
  }

  function PrintNumeral(n: Numeral): string {
    (if n.minus then "-" else "") + (n.whole + (n.frac + n.exp))
  }

  // ---------- values ----------

  datatype Word = True | False | Nil

  function Spell(w: Word): string {
    match w
    case True => "true"
    case False => "false"
    case Nil => "null"
  }

  datatype Value =
    | Literal(w: Word)
    | Num(n: Numeral)
    | Text(ps: seq<Piece>)
    | EmptyArr(blank: string)
    | Arr(items: Items)
    | EmptyObj(blank: string)
    | Obj(members: Members)

  datatype Items =
    | LastItem(lead: string, v: Value, trail: string)
    | MoreItems(lead: string, v: Value, trail: string, rest: Items)

  datatype Member = Member(lead: string, key: seq<Piece>, gap: string, before: string, v: Value, trail: string)

  datatype Members =
    | LastMember(m: Member)
    | MoreMembers(m: Member, rest: Members)

  predicate Valid(v: Value) {
    match v
    case Literal(_) => true
    case Num(n) => ValidNumeral(n)
    case Text(ps) => ValidPieces(ps)
    case EmptyArr(blank) => All(Blank, blank)
    case Arr(items) => ValidItems(items)
    case EmptyObj(blank) => All(Blank, blank)
    case Obj(members) => ValidMembers(members)
  }

  predicate ValidItems(items: Items) {
    && All(Blank, items.lead) && Valid(items.v) && All(Blank, items.trail)
    && (items.MoreItems? ==> ValidItems(items.rest))
  }

  predicate ValidMember(m: Member) {
    && All(Blank, m.lead) && ValidPieces(m.key) && All(Blank, m.gap)
    && All(Blank, m.before) && Valid(m.v) && All(Blank, m.trail)
  }

  predicate ValidMembers(ms: Members) {
    ValidMember(ms.m) && (ms.MoreMembers? ==> ValidMembers(ms.rest))
  }

  function Print(v: Value): string {
    match v
    case Literal(w) => Spell(w)
    case Num(n) => PrintNumeral(n)
    case Text(ps) => Quote(ps)
    case EmptyArr(blank) => "[" + (blank + "]")
    case Arr(items) => "[" + PrintItems(items)
    case EmptyObj(blank) => "{" + (blank + "}")
    case Obj(members) => "{" + PrintMembers(members)
  }

  /** The items of an array with the closing bracket. */
  function PrintItems(items: Items): string {
    items.lead + (Print(items.v) + (items.trail +
      (match items
       case LastItem(_, _, _) => "]"
       case MoreItems(_, _, _, rest) => "," + PrintItems(rest))))
  }

  /** The members of an object with the closing brace. */
  function PrintMembers(ms: Members): string {
    ms.m.lead + (Quote(ms.m.key) + (ms.m.gap + (":" + (ms.m.before + (Print(ms.m.v) + (ms.m.trail +
      (match ms
       case LastMember(_) => "}"
       case MoreMembers(_, rest) => "," + PrintMembers(rest))))))))
  }

  function Meaning(v: Value): Json {
    match v
    case Literal(True) => Bool(true)
    case Literal(False) => Bool(false)
    case Literal(Nil) => Null
    case Num(n) => Number(PrintNumeral(n))
    case Text(ps) => Str(Unescape(ps))
    case EmptyArr(_) => Array([])
    case Arr(items) => Array(ItemsMeaning(items))
    case EmptyObj(_) => Object(map[])
    case Obj(members) => Object(MembersMeaning(members, map[]))
  }

  function ItemsMeaning(items: Items): seq<Json> {
    match items
    case LastItem(_, v, _) => [Meaning(v)]
    case MoreItems(_, v, _, rest) => [Meaning(v)] + ItemsMeaning(rest)
  }

  /** A repeated name keeps its last value, as a Python dict does. */
  function MembersMeaning(ms: Members, acc: map<Key, Json>): map<Key, Json> {
    var next := acc[Unescape(ms.m.key) := Meaning(ms.m.v)];
    match ms
    case LastMember(_) => next
    case MoreMembers(_, rest) => MembersMeaning(rest, next)
  }

  /** The first character of a written value says which kind it is. */
  lemma FirstChar(v: Value)
    requires Valid(v)
    ensures |Print(v)| > 0
    ensures !IsSpace(Print(v)[0]) && Print(v)[0] !in {']', '}', ',', ':'}
    ensures match Print(v)[0]
            case '"' => v.Text?
            case '{' => v.Obj? || v.EmptyObj?
            case '[' => v.Arr? || v.EmptyArr?
            case 't' => v == Literal(True)
            case 'f' => v == Literal(False)
            case 'n' => v == Literal(Nil)
            case c => v.Num? && (IsDigit(c) || c == '-')
  {
    match v
    case Num(n) =>
      assert Print(v)[0] == if n.minus then '-' else n.whole[0];
    case _ =>
  }
}
