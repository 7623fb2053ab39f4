/** What a written value denotes, told by a relation between JSON values and their texts, and what the
    readers of a response make of it. */
module MeaningLaws {
  import opened Collections
  import opened Text
  import opened JsonSyntax
  import opened JsonDecoder
  import opened DecoderLaws
  import opened RootScanner
  import opened RootLaws
  import opened MemberReader
  import opened MemberReaderLaws
  import opened StringLaws

  type Object' = map<Key, Json>

  /** `v` is a way to write `j`: the three words, a numeral as it stands, a spelling of a string, the
      items of an array in order, and an object whose later members replace earlier ones of their name. */
  ghost predicate Writes(v: Value, j: Json)
    decreases v
  {
    match j
    case Null => v.Literal? && Print(v) == "null"
    case Bool(b) => v.Literal? && Print(v) == if b then "true" else "false"
    case Number(lexeme) => v.Num? && Print(v) == lexeme
    case Str(text) => v.Text? && Spells(v.ps, text)
    case Array(items) => if items == [] then v.EmptyArr? else v.Arr? && WritesItems(v.items, items)
    case Object(members) => (v.EmptyObj? && members == map[]) || (v.Obj? && WritesMembers(v.members, members))
  }

  ghost predicate WritesItems(items: Items, js: seq<Json>)
    decreases items
  {
    && js != [] && Writes(items.v, js[0])
    && if items.LastItem? then |js| == 1 else WritesItems(items.rest, js[1..])
  }

  ghost predicate WritesMembers(ms: Members, m: Object')
    decreases ms
  {
    match ms
    case LastMember(first) => exists key, j :: Spells(first.key, key) && Writes(first.v, j) && m == map[key := j]
    case MoreMembers(first, rest) =>
      exists key, j, later ::
        Spells(first.key, key) && Writes(first.v, j) && WritesMembers(rest, later) && Extends(m, key, j, later)
  }

  /** One member before others: those of its name replace it. */
  predicate Extends(m: Object', key: Key, j: Json, later: Object') {
    m == map[key := j] + later
  }

  lemma WordText(w: Word)
    ensures Print(Literal(w)) == Spell(w)
    ensures Spell(w) == "null" <==> w == Nil
    ensures Spell(w) == "true" <==> w == True
    ensures Spell(w) == "false" <==> w == False
  {
  }

  /** A valid writing denotes one value, the one `Meaning` computes. */
  lemma {:induction false} WritesMeaning(v: Value, j: Json)
    requires Valid(v)
    ensures Writes(v, j) <==> j == Meaning(v)
    decreases v, 0
  {
    hide Spells, Print, ValidPieces, Unescape;
    match v
    case Literal(w) => WordText(w);
    case Num(n) => PrintNum(n);
    case Text(ps) => EverySpelling(ps, Unescape(ps)); if j.Str? { EverySpelling(ps, j.text); }
    case EmptyArr(_) =>
    case Arr(items) =>
      ItemsNotEmpty(items);
      if j.Array? { WritesItemsMeaning(items, j.items); }
    case EmptyObj(_) =>
    case Obj(members) => if j.Object? { WritesMembersMeaning(members, j.members); }
  }

  lemma ItemsNotEmpty(items: Items)
    ensures ItemsMeaning(items) != []
  {
  }

  lemma {:induction false} WritesItemsMeaning(items: Items, js: seq<Json>)
    requires ValidItems(items)
    ensures WritesItems(items, js) <==> js == ItemsMeaning(items)
    decreases items, 1
  {
    hide Writes, Meaning;
    if js != [] {
      WritesMeaning(items.v, js[0]);
      if items.MoreItems? { WritesItemsMeaning(items.rest, js[1..]); }
      assert js == [js[0]] + js[1..];
    }
  }

  lemma {:induction false} WritesMembersMeaning(ms: Members, m: Object')
    requires ValidMembers(ms)
    ensures WritesMembers(ms, m) <==> m == MembersMeaning(ms, map[])
    decreases ms, 1
  {
    hide Meaning, Spells, Unescape;
    var first := ms.m;
    var key, j := Unescape(first.key), Meaning(first.v);
    EverySpelling(first.key, key);
    WritesMeaning(first.v, j);
    forall k, i ensures Spells(first.key, k) && Writes(first.v, i) <==> k == key && i == j {
      EverySpelling(first.key, k);
      WritesMeaning(first.v, i);
    }
    if ms.MoreMembers? {
      var later := MembersMeaning(ms.rest, map[]);
      forall l ensures WritesMembers(ms.rest, l) <==> l == later { WritesMembersMeaning(ms.rest, l); }
      MeaningContinues(ms.rest, map[][key := j]);
      assert map[][key := j] == map[key := j];
      var all := map[key := j] + later;
      assert MembersMeaning(ms, map[]) == all;
      assert WritesMembers(ms.rest, later) && Extends(all, key, j, later);
      if WritesMembers(ms, m) {
        var k, i, l :| Spells(first.key, k) && Writes(first.v, i) && WritesMembers(ms.rest, l) && Extends(m, k, i, l);
        assert k == key && i == j && l == later;
      }
    }
  }

  /** Reading on after earlier members adds the later ones to them, replacing names that return. */
  lemma {:induction false} MeaningContinues(ms: Members, acc: Object')
    ensures MembersMeaning(ms, acc) == acc + MembersMeaning(ms, map[])
    decreases ms
  {
    hide Meaning, Unescape;
    var key, j := Unescape(ms.m.key), Meaning(ms.m.v);
    if ms.MoreMembers? {
      MeaningContinues(ms.rest, acc[key := j]);
      MeaningContinues(ms.rest, map[][key := j]);
      assert acc[key := j] + MembersMeaning(ms.rest, map[]) == acc + (map[][key := j] + MembersMeaning(ms.rest, map[]));
    } else {
      assert acc[key := j] == acc + map[][key := j];
    }
  }

  // ---------- the readers ----------

  /** Whatever container is written, however, with inert text before it and any text after it: parsing
      the response gives the value that was written. */
  lemma ResponseIsRead(lex: Lexicon, w: string, v: Value, suffix: string, j: Json)
    requires RootScanner.Sane(lex) && Valid(v) && IsContainer(v) && Inert(lex, w, OpenerOf(v))
    ensures ParseJson(lex, w + Print(v) + suffix) == Some(j) <==> Writes(v, j)
  {
    RootSelection(lex, w, v, suffix);
    WritesMeaning(v, j);
  }

  /** A string literal alone is read as the text it spells, whatever escapes were chosen. */
  lemma StringIsRead(text: Key, styles: seq<Style>)
    requires IsText(text) && |styles| == |text| && NoSplitPair(text)
    ensures Loads("\"" + Spelled(text, styles) + "\"") == Some(Str(text))
  {
    hide Decode, Write, Unescape, NoSplitPair;
    var ps := Write(text, styles);
    StringRoundTrip(text, styles);
    SpelledPrints(text, styles);
    var s := Quote(ps);
    assert s == "\"" + Spelled(text, styles) + "\"";
    AgreesSelf(s);
    TextMeans(ps);
    ValueAgrees(s, 0, JsonSyntax.Text(ps));
  }

  lemma TextMeans(ps: seq<Piece>)
    ensures Print(JsonSyntax.Text(ps)) == Quote(ps) && Meaning(JsonSyntax.Text(ps)) == Str(Unescape(ps))
    ensures ValidPieces(ps) ==> Valid(JsonSyntax.Text(ps))
  {
  }

  /** The characters of a spelling. */
  function SpelledOne(u: int, style: Style): string
    requires IsCodePoint(u)
  {
    if style.AsIs? && Unescaped(u) then [u as char]
    else if style.AsShort? && u in SHORT then "\\" + [SHORT[u]]
    else
      var upper := if style.AsHex? then style.upper else (i: nat) => false;
      if u <= 0xFFFF then SpelledUnit(u, upper, 0)
      else SpelledUnit(0xD800 + (u - 0x10000) / 0x400, upper, 0) + SpelledUnit(0xDC00 + (u - 0x10000) % 0x400, upper, 4)
  }

  function SpelledUnit(u: int, upper: nat -> bool, at: nat): string
    requires 0 <= u <= 0xFFFF
  {
    "\\u" + [HexOf(u / 16 / 16 / 16, upper(at)), HexOf(u / 16 / 16 % 16, upper(at + 1)), HexOf(u / 16 % 16, upper(at + 2)), HexOf(u % 16, upper(at + 3))]
  }

  function Spelled(text: Key, styles: seq<Style>): string
    requires IsText(text) && |styles| == |text|
  {
    if text == [] then "" else SpelledOne(text[0], styles[0]) + Spelled(text[1..], styles[1..])
  }

  lemma {:induction false} PrintConcat(a: seq<Piece>, b: seq<Piece>)
    ensures PrintPieces(a + b) == PrintPieces(a) + PrintPieces(b)
    decreases |a|
  {
    hide PrintPiece;
    if a == [] {
      assert a + b == b;
    } else {
      assert (a + b)[0] == a[0] && (a + b)[1..] == a[1..] + b;
      PrintConcat(a[1..], b);
    }
  }

  lemma SpelledOnePrints(u: int, style: Style)
    requires IsCodePoint(u)
    ensures PrintPieces(WriteOne(u, style)) == SpelledOne(u, style)
  {
    hide HexOf, PrintPieces, WriteUnit, SpelledUnit;
    var ps := WriteOne(u, style);
    if |ps| == 1 { PrintOne(ps[0]); } else { PrintTwo(ps[0], ps[1]); assert ps == [ps[0], ps[1]]; }
    if |ps| == 1 { assert ps == [ps[0]]; }
    if !(style.AsIs? && Unescaped(u)) && !(style.AsShort? && u in SHORT) {
      var upper := if style.AsHex? then style.upper else (i: nat) => false;
      if u <= 0xFFFF {
        UnitPrints(u, upper, 0);
      } else {
        UnitPrints(0xD800 + (u - 0x10000) / 0x400, upper, 0);
        UnitPrints(0xDC00 + (u - 0x10000) % 0x400, upper, 4);
      }
    }
  }

  lemma UnitPrints(u: int, upper: nat -> bool, at: nat)
    requires 0 <= u <= 0xFFFF
    ensures PrintPiece(WriteUnit(u, upper, at)) == SpelledUnit(u, upper, at)
  {
    hide HexOf;
  }

  lemma PrintOne(p: Piece)
    ensures PrintPieces([p]) == PrintPiece(p)
  {
    assert [p][1..] == [] && PrintPieces([]) == "";
  }

  lemma PrintTwo(p: Piece, q: Piece)
    ensures PrintPieces([p, q]) == PrintPiece(p) + PrintPiece(q)
  {
    PrintOne(q);
    assert [p, q][1..] == [q];
  }

  lemma {:induction false} SpelledPrints(text: Key, styles: seq<Style>)
    requires IsText(text) && |styles| == |text|
    ensures PrintPieces(Write(text, styles)) == Spelled(text, styles)
    decreases |text|
  {
    hide WriteOne, SpelledOne, PrintPieces;
    if text == [] {
      NothingPrinted();
    } else {
      SpelledPrints(text[1..], styles[1..]);
      SpelledOnePrints(text[0], styles[0]);
      PrintConcat(WriteOne(text[0], styles[0]), Write(text[1..], styles[1..]));
    }
  }

  lemma NothingPrinted()
    ensures PrintPieces([]) == ""
  {
  }

  // ---------- what is recovered ----------

  /** The first `n` members as an object of their own. */
  function Front(ms: Members, n: nat): Members
    requires 0 < n <= Length(ms)
  {
    if n == 1 then LastMember(ms.m) else MoreMembers(ms.m, Front(ms.rest, n - 1))
  }

  lemma {:induction false} FrontMeans(ms: Members, n: nat, acc: Members')
    requires 0 < n <= Length(ms) && ValidMembers(ms)
    ensures ValidMembers(Front(ms, n)) && FirstMembers(ms, n, acc) == MembersMeaning(Front(ms, n), acc)
    decreases n
  {
    hide Unescape, Meaning, ValidMember;
    if n > 1 { FrontMeans(ms.rest, n - 1, acc[Unescape(ms.m.key) := Meaning(ms.m.v)]); }
  }

  /** The map is what the first `n` members write. */
  ghost predicate Holds(ms: Members, n: nat, m: Members')
    requires n <= Length(ms)
  {
    if n == 0 then m == map[] else WritesMembers(Front(ms, n), m)
  }

  /** The map is what the first `n` members write and, under the next name, a shortened numeral. */
  ghost predicate HoldsShortened(ms: Members, n: nat, m: Members')
    requires n <= Length(ms)
  {
    && n < Length(ms) && Nth(ms, n).v.Num?
    && exists front, key, p :: Holds(ms, n, front) && Spells(Nth(ms, n).key, key) && Shortened(Nth(ms, n).v, p) && m == front[key := Number(p)]
  }

  predicate Shortened(v: Value, p: string) {
    p < Print(v) && p != "" && IsDigit(p[|p| - 1])
  }

  /** Truncation safety in terms of what was written: from every cut of every object, after every inert
      text, the reader returns nothing, or exactly what the members completed before the cut write, or
      that and the numeral at the cut, shortened. */
  lemma TruncationRecovers(lex: Lexicon, w: string, ms: Members, cut: nat)
    requires RootScanner.Sane(lex) && Inert(lex, w, '{') && ValidMembers(ms) && 0 < cut < |Print(Obj(ms))|
    ensures var r := Completed(lex, w + Print(Obj(ms))[..cut]);
            var n := CompleteCount(ms, cut - 1);
            r.Some? ==> Holds(ms, n, r.value) || HoldsShortened(ms, n, r.value)
  {
    hide Completed, Print, Holds, FirstMembers, Nth;
    TruncationSafe(lex, w, ms, cut);
    var r := Completed(lex, w + Print(Obj(ms))[..cut]);
    var n := CompleteCount(ms, cut - 1);
    FirstHolds(ms, n);
    if r.Some? && r.value != FirstMembers(ms, n, map[]) {
      var p :| ShortNumeral(ms, n, map[], r.value, p);
      NthSpells(ms, n);
      assert Shortened(Nth(ms, n).v, p);
    }
  }

  lemma FirstHolds(ms: Members, n: nat)
    requires n <= Length(ms) && ValidMembers(ms)
    ensures Holds(ms, n, FirstMembers(ms, n, map[]))
  {
    if n > 0 {
      FrontMeans(ms, n, map[]);
      WritesMembersMeaning(Front(ms, n), FirstMembers(ms, n, map[]));
    }
  }

  lemma {:induction false} NthSpells(ms: Members, n: nat)
    requires n < Length(ms) && ValidMembers(ms)
    ensures Spells(Nth(ms, n).key, Unescape(Nth(ms, n).key))
    decreases n
  {
    hide Spells, Unescape;
    if n == 0 { EverySpelling(ms.m.key, Unescape(ms.m.key)); } else { NthSpells(ms.rest, n - 1); }
  }

  /** And a complete first object gives exactly what it writes. */
  lemma ObjectIsRecovered(lex: Lexicon, w: string, ms: Members, suffix: string, m: Members')
    requires RootScanner.Sane(lex) && Inert(lex, w, '{') && ValidMembers(ms)
    ensures Completed(lex, w + Print(Obj(ms)) + suffix) == Some(m) <==> WritesMembers(ms, m)
  {
    hide Completed, Print, WritesMembers, ValidMembers;
    CompleteObject(lex, w, Obj(ms), suffix);
    WritesMembersMeaning(ms, m);
  }
}
