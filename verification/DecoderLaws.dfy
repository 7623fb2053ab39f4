/** The decoder against the printer: every serialization is read back, with whatever text
    follows it, and every truncated container, string or word is refused. */
module DecoderLaws {
  import opened Text
  import opened JsonSyntax
  import opened JsonDecoder

  /** One printed value, complete or cut. A complete numeral must not run on into what follows. */
  lemma {:induction false} ValueAgrees(s: string, i: nat, v: Value)
    requires Valid(v) && i <= |s| && Agrees(s, i, Print(v))
    requires v.Num? && i + |Print(v)| <= |s| ==> NumberStops(s, i + |Print(v)|)
    ensures i + |Print(v)| <= |s| ==> Decode(s, i) == Ok(Meaning(v), i + |Print(v)|)
    ensures |s| < i + |Print(v)| && !v.Num? ==> Decode(s, i) == Fail
    decreases v, 0
  {
    hide PrintItems, PrintMembers, PrintPieces, DecodeItems, DecodeMembers, AfterColon, DecodeString, DecodeNumber;
    hide Agrees, Skip, All, Valid, ValidItems, ValidMembers, Unescape, ItemsMeaning, MembersMeaning;
    FirstChar(v);
    AgreesFirst(s, i, Print(v));
    ValidParts(v);
    if i < |s| {
      match v
      case Literal(w) => WordAgrees(s, i, w);
      case Num(n) =>
        if i + |Print(v)| <= |s| {
          NumeralComplete(s, i, n);
          NumberOnly(s, i, n);
        }
      case Text(ps) => KeyAgrees(s, i, ps);
      case EmptyArr(blank) => BlankThen(s, i, blank, '[', ']');
      case EmptyObj(blank) => BlankThen(s, i, blank, '{', '}');
      case Arr(items) =>
        AgreesSplit(s, i, "[", PrintItems(items));
        ItemsAgrees(s, i + 1, items);
      case Obj(members) =>
        AgreesSplit(s, i, "{", PrintMembers(members));
        MembersAgrees(s, i + 1, members, map[]);
    }
  }

  lemma ValidParts(v: Value)
    requires Valid(v)
    ensures match v
            case Literal(_) => true
            case Num(n) => ValidNumeral(n)
            case Text(ps) => ValidPieces(ps)
            case EmptyArr(blank) => All(Blank, blank)
            case EmptyObj(blank) => All(Blank, blank)
            case Arr(items) => ValidItems(items)
            case Obj(members) => ValidMembers(members)
  {
  }

  lemma WordAgrees(s: string, i: nat, w: Word)
    requires i < |s| && Agrees(s, i, Spell(w))
    ensures Decode(s, i) == if i + |Spell(w)| <= |s| then Ok(Meaning(Literal(w)), i + |Spell(w)|) else Fail
  {
    var t := Spell(w);
    assert s[i + 0] == t[0];
    if i + |t| <= |s| {
      AgreesAt(s, i, t);
    }
    assert DecodeNumber(s, i) == Fail;
  }

  lemma BlankThen(s: string, i: nat, blank: string, open: char, close: char)
    requires All(Blank, blank) && ((open == '[' && close == ']') || (open == '{' && close == '}'))
    requires i < |s| && Agrees(s, i, [open] + (blank + [close]))
    ensures Decode(s, i) ==
            if i + |blank| + 2 <= |s| then Ok(if open == '[' then Array([]) else Object(map[]), i + |blank| + 2) else Fail
  {
    AgreesSplit(s, i, [open], blank + [close]);
    AgreesSplit(s, i + 1, blank, [close]);
    assert s[i + 0] == [open][0];
    assert i + 1 + |blank| < |s| ==> s[i + 1 + |blank| + 0] == [close][0];
    SkipRun(Blank, s, i + 1, blank);
  }

  /** A value inside a container, its trailing blanks and the delimiter after them: either all
      of it is there, or nothing that could pass for a delimiter follows what was read. */
  lemma {:induction false} Element(s: string, i: nat, v: Value, trail: string, sep: char)
    requires Valid(v) && All(Blank, trail) && sep in {',', ']', '}'} && i <= |s|
    requires Agrees(s, i, Print(v)) && Agrees(s, i + |Print(v)|, trail)
    requires Agrees(s, i + |Print(v)| + |trail|, [sep])
    ensures var at := i + |Print(v)| + |trail|;
            if at < |s| then
              Decode(s, i) == Ok(Meaning(v), i + |Print(v)|) && Skip(Blank, s, i + |Print(v)|) == at && s[at] == sep
            else
              Unfinished(s, Decode(s, i))
    decreases v, 1
  {
    hide Print, Agrees, Decode, DecodeNumber, Valid;
    var end := i + |Print(v)|;
    if end <= |s| {
      AgreesFirst(s, end, trail);
      AgreesFirst(s, end + |trail|, [sep]);
      ValueAgrees(s, i, v);
      SkipRun(Blank, s, end, trail);
    } else if v.Num? && i < |s| {
      ValidParts(v);
      PrintNum(v.n);
      NumeralCut(s, i, v.n);
      NumberOnly(s, i, v.n);
    } else {
      ValueAgrees(s, i, v);
    }
  }

  lemma PrintNum(n: Numeral)
    ensures Print(Num(n)) == PrintNumeral(n)
  {
  }

  /** What was read is not followed by a delimiter. */
  predicate Unfinished(s: string, r: Parsed<Json>)
    requires r.Ok? ==> r.end <= |s|
  {
    r.Ok? ==> var j := Skip(Blank, s, r.end); j == |s| || s[j] !in {',', ']', '}'}
  }

  /** Where a numeral stands, the decoder does what its numeral match does. */
  lemma NumberOnly(s: string, i: nat, n: Numeral)
    requires ValidNumeral(n) && i < |s| && Agrees(s, i, PrintNumeral(n))
    ensures match DecodeNumber(s, i)
            case Fail => Decode(s, i) == Fail
            case Ok(lexeme, end) => Decode(s, i) == Ok(Number(lexeme), end)
  {
    FirstChar(Num(n));
    var c := PrintNumeral(n)[0];
    assert s[i + 0] == c;
    NumeralParts(s, i, n);
    assert At(s, i, "-Infinity") ==> s[i + 1] == s[i..i + 9][1] == 'I';
  }

  function ItemsTail(items: Items): string {
    match items
    case LastItem(_, _, _) => "]"
    case MoreItems(_, _, _, rest) => "," + PrintItems(rest)
  }

  /** Where the parts of the first item stand. */
  lemma ItemsParts(s: string, i: nat, items: Items)
    requires ValidItems(items) && Agrees(s, i, PrintItems(items))
    ensures var tail := ItemsTail(items);
            var j := i + |items.lead|;
            var e := j + |Print(items.v)|;
            var at := e + |items.trail|;
            && Agrees(s, i, items.lead) && Agrees(s, j, Print(items.v)) && Agrees(s, e, items.trail) && Agrees(s, at, tail)
            && |PrintItems(items)| == at - i + 1 + (if items.LastItem? then 0 else |PrintItems(items.rest)|)
            && (items.MoreItems? ==> Agrees(s, at + 1, PrintItems(items.rest)))
            && Agrees(s, at, if items.LastItem? then "]" else ",")
            && (j < |s| ==> !IsBlank(s[j]) && s[j] != ']')
  {
    hide Agrees, Print, All;
    var tail := ItemsTail(items);
    AgreesSplit(s, i, items.lead, Print(items.v) + (items.trail + tail));
    var j := i + |items.lead|;
    AgreesSplit(s, j, Print(items.v), items.trail + tail);
    AgreesSplit(s, j + |Print(items.v)|, items.trail, tail);
    FirstChar(items.v);
    AgreesFirst(s, j, Print(items.v));
    if items.MoreItems? {
      AgreesSplit(s, j + |Print(items.v)| + |items.trail|, ",", PrintItems(items.rest));
    }
  }

  /** One turn of the array loop. */
  lemma ItemsTurn(s: string, j: nat, v: Json, end: nat, at: nat)
    requires j <= |s| && end <= |s| && Decode(s, j) == Ok(v, end) && Skip(Blank, s, end) == at < |s|
    ensures s[at] == ']' ==> DecodeItems(s, j) == Ok([v], at + 1)
    ensures s[at] == ',' ==> DecodeItems(s, j) == Push(v, DecodeItems(s, Skip(Blank, s, at + 1)))
  {
    hide Decode, Skip, Push;
  }

  lemma AtEnd(s: string)
    ensures Decode(s, |s|) == Fail && DecodeItems(s, |s|) == Fail
  {
  }

  lemma ItemsStop(s: string, j: nat)
    requires j <= |s| && Unfinished(s, Decode(s, j))
    ensures DecodeItems(s, j) == Fail
  {
  }

  lemma {:induction false} ItemsAgrees(s: string, i: nat, items: Items)
    requires ValidItems(items) && i <= |s| && Agrees(s, i, PrintItems(items))
    ensures DecodeItems(s, Skip(Blank, s, i)) ==
            if i + |PrintItems(items)| <= |s| then Ok(ItemsMeaning(items), i + |PrintItems(items)|) else Fail
    ensures Skip(Blank, s, i) < |s| ==> s[Skip(Blank, s, i)] != ']'
    decreases items, 2
  {
    hide Print, PrintItems, Agrees, Decode, DecodeItems, Skip, All, Valid;
    ItemsParts(s, i, items);

    var sep := if items.LastItem? then ']' else ',';
    var j := i + |items.lead|;
    var at := j + |Print(items.v)| + |items.trail|;
    SkipRun(Blank, s, i, items.lead);
    if |s| < j {
      AtEnd(s);
    } else {
      assert Skip(Blank, s, i) == j;
      Element(s, j, items.v, items.trail, sep);
      if |s| <= at {
        ItemsStop(s, j);
      } else {
        ItemsTurn(s, j, Meaning(items.v), j + |Print(items.v)|, at);
        match items
        case LastItem(_, _, _) =>
          assert DecodeItems(s, j) == Ok(ItemsMeaning(items), at + 1);
        case MoreItems(_, _, _, rest) =>
          ItemsAgrees(s, at + 1, rest);
          assert DecodeItems(s, j) == Push(Meaning(items.v), DecodeItems(s, Skip(Blank, s, at + 1)));
      }
    }
  }

  /** Where the parts of the first member stand. */
  lemma MemberParts(s: string, i: nat, ms: Members)
    requires Agrees(s, i, PrintMembers(ms))
    ensures var m := ms.m;
            var tail := MembersTail(ms);
            var k := i + |m.lead|;
            var c := k + |Quote(m.key)| + |m.gap|;
            var j := c + 1 + |m.before|;
            var e := j + |Print(m.v)|;
            && Agrees(s, i, m.lead) && Agrees(s, k, Quote(m.key)) && Agrees(s, k + |Quote(m.key)|, m.gap)
            && Agrees(s, c, ":") && Agrees(s, c + 1, m.before)
            && Agrees(s, j, Print(m.v)) && Agrees(s, e, m.trail)
            && Agrees(s, e + |m.trail|, tail)
            && |PrintMembers(ms)| == e + |m.trail| + |tail| - i
  {
    hide Agrees, Print, Quote;
    var m := ms.m;
    var t7 := MembersTail(ms);
    var t6 := m.trail + t7;
    var t5 := Print(m.v) + t6;
    var t4 := m.before + t5;
    var t3 := ":" + t4;
    var t2 := m.gap + t3;
    var t1 := Quote(m.key) + t2;
    assert PrintMembers(ms) == m.lead + t1;
    var k := i + |m.lead|;
    var g := k + |Quote(m.key)|;
    var c := g + |m.gap|;
    var j := c + 1 + |m.before|;
    AgreesSplit(s, i, m.lead, t1);
    AgreesSplit(s, k, Quote(m.key), t2);
    AgreesSplit(s, g, m.gap, t3);
    AgreesSplit(s, c, ":", t4);
    AgreesSplit(s, c + 1, m.before, t5);
    AgreesSplit(s, j, Print(m.v), t6);
    AgreesSplit(s, j + |Print(m.v)|, m.trail, t7);
  }

  function MembersTail(ms: Members): string {
    match ms
    case LastMember(_) => "}"
    case MoreMembers(_, rest) => "," + PrintMembers(rest)
  }

  /** One turn of the object loop, up to the name's colon and up to the value's delimiter. */
  lemma MembersKey(s: string, k: nat, key: seq<Piece>, g: nat, c: nat, acc: map<Key, Json>)
    requires k < |s| && s[k] == '"' && DecodeString(s, k + 1) == Ok(key, g)
    requires g <= |s| && c == Skip(Blank, s, g)
    ensures c == |s| || s[c] != ':' ==> DecodeMembers(s, k, acc) == Fail
    ensures c < |s| && s[c] == ':' ==> DecodeMembers(s, k, acc) == AfterColon(s, Unescape(key), c + 1, acc)
  {
    hide DecodeString, AfterColon, Skip, Unescape;
  }

  lemma MembersNoKey(s: string, k: nat, acc: map<Key, Json>)
    requires k <= |s|
    ensures k == |s| ==> DecodeMembers(s, k, acc) == Fail
    ensures k < |s| && DecodeString(s, k + 1) == Fail ==> DecodeMembers(s, k, acc) == Fail
  {
  }

  lemma {:induction false} MembersAgrees(s: string, i: nat, ms: Members, acc: map<Key, Json>)
    requires ValidMembers(ms) && i <= |s| && Agrees(s, i, PrintMembers(ms))
    ensures DecodeMembers(s, Skip(Blank, s, i), acc) ==
            if i + |PrintMembers(ms)| <= |s| then Ok(Object(MembersMeaning(ms, acc)), i + |PrintMembers(ms)|) else Fail
    ensures Skip(Blank, s, i) < |s| ==> s[Skip(Blank, s, i)] == '"'
    decreases ms, 2
  {
    hide Print, PrintMembers, Quote, Agrees, Decode, DecodeMembers, DecodeString, Skip, All, AfterColon, MembersTail, MembersMeaning;
    var m := ms.m;
    MemberParts(s, i, ms);
    MemberStarts(s, i, ms);
    var k := i + |m.lead|;
    SkipRun(Blank, s, i, m.lead);
    var g := k + |Quote(m.key)|;
    var c := g + |m.gap|;
    if k < |s| {
      KeyAgrees(s, k, m.key);
      if g <= |s| {
        SkipRun(Blank, s, g, m.gap);
        MembersKey(s, k, m.key, g, Skip(Blank, s, g), acc);
        if c < |s| {
          MemberValue(s, c + 1, ms, acc);
        }
      } else {
        MembersNoKey(s, k, acc);
      }
    } else {
      MembersNoKey(s, |s|, acc);
    }
  }

  /** The characters at which the parts of a member start. */
  lemma MemberStarts(s: string, i: nat, ms: Members)
    requires ValidMembers(ms) && Agrees(s, i, PrintMembers(ms))
    ensures var m := ms.m;
            var k := i + |m.lead|;
            var c := k + |Quote(m.key)| + |m.gap|;
            var j := c + 1 + |m.before|;
            && (k < |s| ==> s[k] == '"' && !IsBlank(s[k]))
            && (c < |s| ==> s[c] == ':' && !IsBlank(s[c]))
            && (j < |s| ==> !IsSpace(s[j]))
  {
    hide Agrees, Print, PrintMembers, PrintPieces, MembersTail;
    MemberParts(s, i, ms);
    var m := ms.m;
    var k := i + |m.lead|;
    var c := k + |Quote(m.key)| + |m.gap|;
    var j := c + 1 + |m.before|;
    FirstChar(m.v);
    AgreesFirst(s, k, Quote(m.key));
    AgreesFirst(s, c, ":");
    AgreesFirst(s, j, Print(m.v));
  }

  lemma KeyAgrees(s: string, k: nat, key: seq<Piece>)
    requires k < |s| && ValidPieces(key) && Agrees(s, k, Quote(key))
    ensures s[k] == '"'
    ensures DecodeString(s, k + 1) ==
            if k + |Quote(key)| <= |s| then Ok(key, k + |Quote(key)|) else Fail
  {
    assert Quote(key) == "\"" + (PrintPieces(key) + "\"");
    AgreesSplit(s, k, "\"", PrintPieces(key) + "\"");
    assert s[k + 0] == Quote(key)[0];
    StringAgrees(s, k + 1, key);
  }

  /** The object loop from the first member's colon on. */
  lemma {:induction false} MemberValue(s: string, b: nat, ms: Members, acc: map<Key, Json>)
    requires ValidMembers(ms) && b <= |s| && Agrees(s, b, ms.m.before)
    requires Agrees(s, b + |ms.m.before|, Print(ms.m.v))
    requires Agrees(s, b + |ms.m.before| + |Print(ms.m.v)|, ms.m.trail)
    requires Agrees(s, b + |ms.m.before| + |Print(ms.m.v)| + |ms.m.trail|, MembersTail(ms))
    requires b + |ms.m.before| < |s| ==> !IsSpace(s[b + |ms.m.before|])
    ensures var at := b + |ms.m.before| + |Print(ms.m.v)| + |ms.m.trail|;
            AfterColon(s, Unescape(ms.m.key), b, acc) ==
            if at + |MembersTail(ms)| <= |s| then Ok(Object(MembersMeaning(ms, acc)), at + |MembersTail(ms)|) else Fail
    decreases ms, 1
  {
    hide Print, PrintMembers, Quote, Agrees, Decode, DecodeMembers, DecodeString, Skip, All, Unescape;
    hide AfterColon, MembersTail, MembersMeaning, Meaning, Valid, Unfinished;
    var m := ms.m;
    var j := b + |m.before|;
    var at := j + |Print(m.v)| + |m.trail|;
    var next := acc[Unescape(m.key) := Meaning(m.v)];
    SkipRun(Blank, s, b, m.before);
    TailStart(s, at, ms);
    MeaningTurn(ms, acc);
    if j <= |s| {
      Element(s, j, m.v, m.trail, if ms.LastMember? then '}' else ',');
      if at < |s| {
        ColonTurn(s, Unescape(m.key), b, acc, Meaning(m.v), j + |Print(m.v)|, at);
        if ms.MoreMembers? { MembersAgrees(s, at + 1, ms.rest, next); }
      } else {
        ColonStop(s, Unescape(m.key), b, acc);
      }
    } else {
      NothingRead(s);
      ColonStop(s, Unescape(m.key), b, acc);
    }
  }

  /** One turn of the object loop, from the colon to the delimiter after the value. */
  lemma ColonTurn(s: string, key: Key, b: nat, acc: map<Key, Json>, v: Json, end: nat, at: nat)
    requires b <= |s| && end <= |s| && Decode(s, Skip(Blank, s, b)) == Ok(v, end) && Skip(Blank, s, end) == at < |s|
    ensures s[at] == '}' ==> AfterColon(s, key, b, acc) == Ok(Object(acc[key := v]), at + 1)
    ensures s[at] == ',' ==> AfterColon(s, key, b, acc) == DecodeMembers(s, Skip(Blank, s, at + 1), acc[key := v])
  {
    hide Decode, Skip, DecodeMembers;
  }

  lemma ColonStop(s: string, key: Key, b: nat, acc: map<Key, Json>)
    requires b <= |s| && Unfinished(s, Decode(s, Skip(Blank, s, b)))
    ensures AfterColon(s, key, b, acc) == Fail
  {
    hide Decode, Skip, DecodeMembers;
  }

  lemma NothingRead(s: string)
    ensures Unfinished(s, Decode(s, |s|))
  {
  }

  lemma MeaningTurn(ms: Members, acc: map<Key, Json>)
    ensures var next := acc[Unescape(ms.m.key) := Meaning(ms.m.v)];
            MembersMeaning(ms, acc) == if ms.LastMember? then next else MembersMeaning(ms.rest, next)
  {
    hide Unescape, Meaning;
  }

  lemma TailStart(s: string, at: nat, ms: Members)
    requires Agrees(s, at, MembersTail(ms))
    ensures Agrees(s, at, [if ms.LastMember? then '}' else ','])
    ensures ms.MoreMembers? ==> Agrees(s, at + 1, PrintMembers(ms.rest))
    ensures |MembersTail(ms)| == if ms.LastMember? then 1 else 1 + |PrintMembers(ms.rest)|
  {
    AgreesFirst(s, at, MembersTail(ms));
    if ms.MoreMembers? {
      AgreesSplit(s, at, ",", PrintMembers(ms.rest));
    }
  }
}
