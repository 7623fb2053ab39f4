/** String literals against a writer: a text can be spelled with any mix of plain characters, short
    escapes and four-digit escapes, and reading any such spelling gives the text back. */
module StringLaws {
  import opened JsonSyntax

  // ---------- the writer ----------

  /** How a writer may spell one code point; a style that does not fit it falls back on four-digit
      escapes. `upper` says which hexadecimal digits are in upper case. */
  datatype Style = AsIs | AsShort | AsHex(upper: nat -> bool)

  predicate IsHigh(u: int) {
    0xD800 <= u <= 0xDBFF
  }

  predicate IsLow(u: int) {
    0xDC00 <= u <= 0xDFFF
  }

  predicate IsCodePoint(u: int) {
    0 <= u <= 0x10FFFF
  }

  /** Section 7 of RFC 8259: what may stand unescaped. A lone surrogate is no character. */
  predicate Unescaped(u: int) {
    IsCodePoint(u) && u >= 0x20 && u != 0x22 && u != 0x5C && !IsHigh(u) && !IsLow(u)
  }

  /** The two-character escapes of section 7 of RFC 8259, by code point. */
  const SHORT: map<int, char> := map[
    0x22 := '"', 0x5C := '\\', 0x2F := '/', 8 := 'b', 12 := 'f', 10 := 'n', 13 := 'r', 9 := 't']

  const LOWER := "0123456789abcdef"
  const UPPER := "0123456789ABCDEF"

  function HexOf(d: int, upper: bool): char
    requires 0 <= d < 16
  {
    if upper then UPPER[d] else LOWER[d]
  }

  function WriteUnit(u: int, upper: nat -> bool, at: nat): Piece
    requires 0 <= u <= 0xFFFF
  {
    Hex(HexOf(u / 16 / 16 / 16, upper(at)), HexOf(u / 16 / 16 % 16, upper(at + 1)), HexOf(u / 16 % 16, upper(at + 2)), HexOf(u % 16, upper(at + 3)))
  }

  /** One code point; those above 0xFFFF are escaped as a surrogate pair. */
  function WriteOne(u: int, style: Style): seq<Piece>
    requires IsCodePoint(u)
  {
    if style.AsIs? && Unescaped(u) then [Plain(u as char)]
    else if style.AsShort? && u in SHORT then [Short(SHORT[u])]
    else
      var upper := if style.AsHex? then style.upper else (i: nat) => false;
      if u <= 0xFFFF then [WriteUnit(u, upper, 0)]
      else [WriteUnit(0xD800 + (u - 0x10000) / 0x400, upper, 0), WriteUnit(0xDC00 + (u - 0x10000) % 0x400, upper, 4)]
  }

  predicate IsText(text: Key) {
    forall k :: 0 <= k < |text| ==> IsCodePoint(text[k])
  }

  function Write(text: Key, styles: seq<Style>): seq<Piece>
    requires IsText(text) && |styles| == |text|
  {
    if text == [] then [] else WriteOne(text[0], styles[0]) + Write(text[1..], styles[1..])
  }

  // ---------- reading one piece ----------

  lemma HexRead(d: int, upper: bool)
    requires 0 <= d < 16
    ensures IsHex(HexOf(d, upper)) && HexDigit(HexOf(d, upper)) == d
  {
  }

  lemma UnitRead(u: int, upper: nat -> bool, at: nat)
    requires 0 <= u <= 0xFFFF
    ensures var p := WriteUnit(u, upper, at); ValidPiece(p) && p.Hex? && CodeUnit(p) == u
  {
    hide HexOf, HexDigit, IsHex;
    HexRead(u / 16 / 16 / 16, upper(at));
    HexRead(u / 16 / 16 % 16, upper(at + 1));
    HexRead(u / 16 % 16, upper(at + 2));
    HexRead(u % 16, upper(at + 3));
    FourDigits(u);
  }

  lemma FourDigits(u: int)
    requires 0 <= u <= 0xFFFF
    ensures u == 4096 * (u / 16 / 16 / 16) + 256 * (u / 16 / 16 % 16) + 16 * (u / 16 % 16) + u % 16
    ensures u / 16 / 16 / 16 < 16
  {
  }

  lemma ShortRead(u: int)
    requires u in SHORT
    ensures ValidPiece(Short(SHORT[u])) && CodeUnit(Short(SHORT[u])) == u
  {
  }

  // ---------- reading a spelling back ----------

  /** A high surrogate right before a low one: two code points that no spelling keeps apart. */
  predicate SplitPair(text: Key, k: nat) {
    k + 1 < |text| && IsHigh(text[k]) && IsLow(text[k + 1])
  }

  predicate NoSplitPair(text: Key) {
    forall k: nat :: k < |text| ==> !SplitPair(text, k)
  }

  /** The text with such pairs read as the code point they encode. */
  function Joined(text: Key): Key {
    if text == [] then []
    else if SplitPair(text, 0) then [0x10000 + (text[0] - 0xD800) * 0x400 + (text[1] - 0xDC00)] + Joined(text[2..])
    else [text[0]] + Joined(text[1..])
  }

  lemma OnePiece(u: int, style: Style)
    requires IsCodePoint(u)
    ensures var ps := WriteOne(u, style); ps != [] && (ps[0].Hex? && IsLow(CodeUnit(ps[0])) <==> IsLow(u))
  {
    hide WriteUnit, CodeUnit;
    if style.AsShort? && u in SHORT {
      ShortIsSmall(u);
    } else if !(style.AsIs? && Unescaped(u)) {
      var upper := if style.AsHex? then style.upper else (i: nat) => false;
      if u <= 0xFFFF { UnitRead(u, upper, 0); } else { HighHalf(u); UnitRead(0xD800 + (u - 0x10000) / 0x400, upper, 0); }
    }
  }

  lemma ShortIsSmall(u: int)
    requires u in SHORT
    ensures 0 <= u < 0x80
  {
  }

  lemma HighHalf(u: int)
    requires 0x10000 <= u <= 0x10FFFF
    ensures IsHigh(0xD800 + (u - 0x10000) / 0x400) && IsLow(0xDC00 + (u - 0x10000) % 0x400)
  {
  }

  /** The first piece of a spelling is a low surrogate exactly when the text starts with one. */
  lemma FirstPiece(text: Key, styles: seq<Style>)
    requires IsText(text) && |styles| == |text| && text != []
    ensures var ps := Write(text, styles);
            && ps != [] && (ps[0].Hex? && IsLow(CodeUnit(ps[0])) <==> IsLow(text[0]))
  {
    hide WriteOne, CodeUnit;
    OnePiece(text[0], styles[0]);
  }

  /** What comes after the first code point's pieces is read by itself. */
  lemma ReadOne(u: int, style: Style, rest: seq<Piece>)
    requires IsCodePoint(u)
    requires IsHigh(u) ==> rest == [] || !(rest[0].Hex? && IsLow(CodeUnit(rest[0])))
    ensures ValidPieces(WriteOne(u, style)) && Unescape(WriteOne(u, style) + rest) == [u] + Unescape(rest)
  {
    hide WriteUnit, CodeUnit, Unescape, HexDigit, HexOf;
    var ps := WriteOne(u, style);
    if style.AsIs? && Unescaped(u) {
      PlainRead(u);
      UnescapeOne(ps[0], rest);
    } else if style.AsShort? && u in SHORT {
      ShortRead(u);
      UnescapeOne(ps[0], rest);
    } else {
      var upper := if style.AsHex? then style.upper else (i: nat) => false;
      if u <= 0xFFFF {
        UnitRead(u, upper, 0);
        UnescapeOne(ps[0], rest);
      } else {
        UnitRead(0xD800 + (u - 0x10000) / 0x400, upper, 0);
        UnitRead(0xDC00 + (u - 0x10000) % 0x400, upper, 4);
        UnescapePair(ps[0], ps[1], rest);
        assert ps == [ps[0], ps[1]];
      }
    }
  }

  lemma PlainRead(u: int)
    requires Unescaped(u)
    ensures ValidPiece(Plain(u as char)) && CodeUnit(Plain(u as char)) == u
  {
  }

  lemma UnescapeOne(p: Piece, rest: seq<Piece>)
    requires !(p.Hex? && IsHigh(CodeUnit(p)) && rest != [] && rest[0].Hex? && IsLow(CodeUnit(rest[0])))
    ensures Unescape([p] + rest) == [CodeUnit(p)] + Unescape(rest)
  {
    hide CodeUnit;
    assert ([p] + rest)[1..] == rest;
  }

  lemma UnescapePair(p: Piece, q: Piece, rest: seq<Piece>)
    requires p.Hex? && q.Hex? && IsHigh(CodeUnit(p)) && IsLow(CodeUnit(q))
    ensures Unescape([p, q] + rest) == [0x10000 + (CodeUnit(p) - 0xD800) * 0x400 + (CodeUnit(q) - 0xDC00)] + Unescape(rest)
  {
    hide CodeUnit;
    assert ([p, q] + rest)[2..] == rest;
  }

  /** Whatever styles are chosen, the spelling is valid and reads as the text, pairs joined. */
  lemma {:induction false} SpellingReads(text: Key, styles: seq<Style>)
    requires IsText(text) && |styles| == |text|
    ensures ValidPieces(Write(text, styles)) && Unescape(Write(text, styles)) == Joined(text)
    decreases |text|
  {
    hide WriteOne, Unescape, ValidPiece, CodeUnit;
    if text == [] {
      NothingToRead();
    } else if SplitPair(text, 0) {
      assert text[1..][1..] == text[2..] && styles[1..][1..] == styles[2..];
      SpellingReads(text[2..], styles[2..]);
      PairRead(text[0], text[1], styles[0], styles[1], Write(text[2..], styles[2..]));
      assert Write(text, styles) == WriteOne(text[0], styles[0]) + (WriteOne(text[1], styles[1]) + Write(text[2..], styles[2..]));
    } else {
      SpellingReads(text[1..], styles[1..]);
      if |text| > 1 { FirstPiece(text[1..], styles[1..]); }
      ReadOne(text[0], styles[0], Write(text[1..], styles[1..]));
    }
  }

  lemma NothingToRead()
    ensures Unescape([]) == []
  {
  }

  lemma PairRead(u: int, v: int, s: Style, t: Style, rest: seq<Piece>)
    requires IsHigh(u) && IsLow(v)
    ensures ValidPieces(WriteOne(u, s)) && ValidPieces(WriteOne(v, t))
    ensures Unescape(WriteOne(u, s) + (WriteOne(v, t) + rest)) == [0x10000 + (u - 0xD800) * 0x400 + (v - 0xDC00)] + Unescape(rest)
  {
    hide WriteUnit, CodeUnit, Unescape;
    var f := if s.AsHex? then s.upper else (i: nat) => false;
    var g := if t.AsHex? then t.upper else (i: nat) => false;
    UnitRead(u, f, 0);
    UnitRead(v, g, 0);
    var p, q := WriteUnit(u, f, 0), WriteUnit(v, g, 0);
    UnescapePair(p, q, rest);
    assert WriteOne(u, s) + (WriteOne(v, t) + rest) == [p, q] + rest;
  }

  lemma {:induction false} JoinedExactly(text: Key)
    ensures |Joined(text)| <= |text| && (Joined(text) == text <==> NoSplitPair(text))
    decreases |text|
  {
    if text == [] {
    } else if SplitPair(text, 0) {
      JoinedExactly(text[2..]);
      assert |Joined(text)| < |text|;
    } else {
      var rest := text[1..];
      JoinedExactly(rest);
      assert text == [text[0]] + rest;
      assert Joined(text)[1..] == Joined(rest);
      if NoSplitPair(text) {
        forall k: nat | k < |rest| ensures !SplitPair(rest, k) { assert !SplitPair(text, k + 1); }
      }
      if NoSplitPair(rest) {
        forall k: nat | k < |text| ensures !SplitPair(text, k) { if k > 0 { assert !SplitPair(rest, k - 1); } }
      }
    }
  }

  /** The round trip: reading any spelling of a text gives the text back exactly when no high surrogate
      stands right before a low one in it. */
  lemma StringRoundTrip(text: Key, styles: seq<Style>)
    requires IsText(text) && |styles| == |text|
    ensures ValidPieces(Write(text, styles))
    ensures Unescape(Write(text, styles)) == text <==> NoSplitPair(text)
  {
    SpellingReads(text, styles);
    JoinedExactly(text);
  }

  /** `ps` is a spelling of the text. */
  ghost predicate Spells(ps: seq<Piece>, text: Key) {
    IsText(text) && NoSplitPair(text) && exists styles: seq<Style> :: |styles| == |text| && ps == Write(text, styles)
  }

  lemma SpellsReads(ps: seq<Piece>, text: Key)
    requires Spells(ps, text)
    ensures ValidPieces(ps) && Unescape(ps) == text
  {
    var styles: seq<Style> :| |styles| == |text| && ps == Write(text, styles);
    StringRoundTrip(text, styles);
  }

  // ---------- every literal is a spelling ----------

  function UpperDigit(c: char): bool {
    'A' <= c <= 'F'
  }

  lemma DigitWritten(c: char)
    requires IsHex(c)
    ensures 0 <= HexDigit(c) < 16 && HexOf(HexDigit(c), UpperDigit(c)) == c
  {
  }

  /** Which digits of an escape, or of two in a row, are in upper case. */
  function Cases(p: Piece, q: Piece): nat -> bool
    requires p.Hex? && q.Hex?
  {
    (i: nat) => UpperDigit([p.h0, p.h1, p.h2, p.h3, q.h0, q.h1, q.h2, q.h3][i % 8])
  }

  lemma HexWritten(p: Piece, upper: nat -> bool, at: nat)
    requires p.Hex? && ValidPiece(p)
    requires upper(at) == UpperDigit(p.h0) && upper(at + 1) == UpperDigit(p.h1)
    requires upper(at + 2) == UpperDigit(p.h2) && upper(at + 3) == UpperDigit(p.h3)
    ensures 0 <= CodeUnit(p) <= 0xFFFF && WriteUnit(CodeUnit(p), upper, at) == p
  {
    DigitWritten(p.h0);
    DigitWritten(p.h1);
    DigitWritten(p.h2);
    DigitWritten(p.h3);
    UnitOf(p);
    hide *;
    Assembled(p, upper, at, CodeUnit(p), HexDigit(p.h0), HexDigit(p.h1), HexDigit(p.h2), HexDigit(p.h3));
  }

  lemma UnitOf(p: Piece)
    requires p.Hex?
    ensures CodeUnit(p) == 4096 * HexDigit(p.h0) + 256 * HexDigit(p.h1) + 16 * HexDigit(p.h2) + HexDigit(p.h3)
  {
  }

  lemma Assembled(p: Piece, upper: nat -> bool, at: nat, u: int, a: int, b: int, c: int, d: int)
    requires p.Hex? && 0 <= a < 16 && 0 <= b < 16 && 0 <= c < 16 && 0 <= d < 16 && u == 4096 * a + 256 * b + 16 * c + d
    requires HexOf(a, upper(at)) == p.h0 && HexOf(b, upper(at + 1)) == p.h1
    requires HexOf(c, upper(at + 2)) == p.h2 && HexOf(d, upper(at + 3)) == p.h3
    ensures 0 <= u <= 0xFFFF && WriteUnit(u, upper, at) == p
  {
    hide HexOf;
    DigitsOf(a, b, c, d);
  }

  lemma Split(q: int, r: int)
    requires 0 <= r < 16
    ensures (q * 16 + r) / 16 == q && (q * 16 + r) % 16 == r
  {
  }

  lemma DigitsOf(a: int, b: int, c: int, d: int)
    requires 0 <= a < 16 && 0 <= b < 16 && 0 <= c < 16 && 0 <= d < 16
    ensures var u := 4096 * a + 256 * b + 16 * c + d;
            0 <= u <= 0xFFFF && u / 16 / 16 / 16 == a && u / 16 / 16 % 16 == b && u / 16 % 16 == c && u % 16 == d
  {
    var u := 4096 * a + 256 * b + 16 * c + d;
    assert u == ((a * 16 + b) * 16 + c) * 16 + d;
    Split((a * 16 + b) * 16 + c, d);
    Split(a * 16 + b, c);
    Split(a, b);
  }

  /** A piece that is not the first half of a pair spells one code point. */
  lemma PieceWritten(p: Piece) returns (style: Style)
    requires ValidPiece(p)
    ensures IsCodePoint(CodeUnit(p)) && WriteOne(CodeUnit(p), style) == [p]
    ensures IsHigh(CodeUnit(p)) || IsLow(CodeUnit(p)) ==> p.Hex?
  {
    hide WriteUnit;
    match p
    case Plain(c) => style := AsIs;
    case Short(c) => style := AsShort; ShortWritten(c);
    case Hex(_, _, _, _) =>
      style := AsHex(Cases(p, p));
      hide CodeUnit;
      HexWritten(p, Cases(p, p), 0);
  }

  lemma ShortWritten(c: char)
    requires IsShortEscape(c)
    ensures var u := CodeUnit(Short(c)); u in SHORT && SHORT[u] == c && 0 <= u < 0x80
  {
  }

  lemma PairWritten(p: Piece, q: Piece) returns (style: Style)
    requires ValidPiece(p) && ValidPiece(q) && p.Hex? && q.Hex? && IsHigh(CodeUnit(p)) && IsLow(CodeUnit(q))
    ensures var u := 0x10000 + (CodeUnit(p) - 0xD800) * 0x400 + (CodeUnit(q) - 0xDC00);
            0x10000 <= u <= 0x10FFFF && WriteOne(u, style) == [p, q]
  {
    hide WriteUnit, CodeUnit;
    var upper := Cases(p, q);
    style := AsHex(upper);
    HexWritten(p, upper, 0);
    HexWritten(q, upper, 4);
    Halves(CodeUnit(p) - 0xD800, CodeUnit(q) - 0xDC00);
  }

  lemma Halves(a: int, b: int)
    requires 0 <= a < 0x400 && 0 <= b < 0x400
    ensures var v := a * 0x400 + b; v / 0x400 == a && v % 0x400 == b && 0 <= v < 0x100000
  {
  }

  /** Every valid literal is a spelling of the text it reads as, and of no other. */
  lemma EverySpelling(ps: seq<Piece>, text: Key)
    requires ValidPieces(ps)
    ensures Spells(ps, text) <==> text == Unescape(ps)
  {
    if Spells(ps, text) { SpellsReads(ps, text); }
    var styles := StylesOf(ps);
    StringRoundTrip(Unescape(ps), styles);
    assert Spells(ps, Unescape(ps));
  }

  lemma {:induction false} StylesOf(ps: seq<Piece>) returns (styles: seq<Style>)
    requires ValidPieces(ps)
    ensures IsText(Unescape(ps)) && |styles| == |Unescape(ps)| && Write(Unescape(ps), styles) == ps
    decreases |ps|
  {
    hide CodeUnit, WriteOne, ValidPiece;
    if ps == [] {
      styles := [];
    } else if |ps| > 1 && ps[0].Hex? && ps[1].Hex? && IsHigh(CodeUnit(ps[0])) && IsLow(CodeUnit(ps[1])) {
      var first := PairWritten(ps[0], ps[1]);
      var rest := StylesOf(ps[2..]);
      styles := [first] + rest;
      assert ps == [ps[0], ps[1]] + ps[2..];
      UnescapePair(ps[0], ps[1], ps[2..]);
    } else {
      var first := PieceWritten(ps[0]);
      var rest := StylesOf(ps[1..]);
      styles := [first] + rest;
      assert ps == [ps[0]] + ps[1..];
      UnescapeOne(ps[0], ps[1..]);
    }
  }
}
