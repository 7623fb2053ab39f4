/** Ranking the operator's constraints and rendering as many as fit (mas/orchestrator.py). */
module ConstraintRanking {
  import opened Collections
  import opened Ordering

  datatype Candidate = Candidate(
    text: string,
    priority: int,
    sourceRank: int,
    sourceOrder: int,
    source: string,
    stableKey: seq<string>)

  /** The dedupe key of a text is a normal form of it; only equality and emptiness matter here. */
  type Folding = string -> string

  function Strs(ss: seq<string>): seq<Value> {
    Map(s => Str(s), ss)
  }

  /** The sort key: higher priority first, then source, then position, then text. */
  function RankKey(fold: Folding, c: Candidate): Value {
    Tuple([Num(-c.priority), Num(c.sourceRank), Tuple(Strs(c.stableKey)), Num(c.sourceOrder), Str(fold(c.text))])
  }

  function WithKeys(fold: Folding, cs: seq<Candidate>): seq<Keyed<Candidate>> {
    Map(c => Keyed(RankKey(fold, c), c), cs)
  }

  function Items(ks: seq<Keyed<Candidate>>): seq<Candidate> {
    Map((k: Keyed<Candidate>) => k.item, ks)
  }

  function Ordered(fold: Folding, cs: seq<Candidate>): seq<Candidate> {
    Items(Sort(WithKeys(fold, cs)))
  }

  /** The dedupe keys in use. */
  function Folds(fold: Folding, cs: seq<Candidate>): seq<string> {
    Map((c: Candidate) => fold(c.text), cs)
  }

  /** Keep the first candidate of every non-empty dedupe key. */
  function Firsts(fold: Folding, cs: seq<Candidate>): seq<Candidate> {
    if cs == [] then []
    else
      var front, c := Firsts(fold, cs[..|cs| - 1]), cs[|cs| - 1];
      if fold(c.text) == "" || fold(c.text) in Folds(fold, front) then front else front + [c]
  }

  function Ranked(fold: Folding, cs: seq<Candidate>): seq<Candidate> {
    Firsts(fold, Ordered(fold, cs))
  }

  /** `_rank_operator_constraint_candidates`. */
  method RankCandidates(fold: Folding, candidates: seq<Candidate>) returns (selected: seq<Candidate>)
    ensures selected == Ranked(fold, candidates)
  {
    var ranked := Ordered(fold, candidates);
    selected := [];
    var keys: set<string> := {};
    for i := 0 to |ranked|
      invariant selected == Firsts(fold, ranked[..i])
      invariant forall k :: k in keys <==> k in Folds(fold, selected)
    {
      var key := fold(ranked[i].text);
      assert ranked[..i + 1][..i] == ranked[..i];
      if key != "" && key !in keys {
        assert Folds(fold, selected + [ranked[i]]) == Folds(fold, selected) + [key];
        selected := selected + [ranked[i]];
        keys := keys + {key};
      }
    }
    assert ranked[..|ranked|] == ranked;
  }

  // ---------- what the ranking is ----------

  predicate InOrder(fold: Folding, cs: seq<Candidate>) {
    forall i, j :: 0 <= i < j < |cs| ==> Leq(RankKey(fold, cs[i]), RankKey(fold, cs[j]))
  }

  lemma OrderedLaws(fold: Folding, cs: seq<Candidate>)
    ensures InOrder(fold, Ordered(fold, cs)) && multiset(Ordered(fold, cs)) == multiset(cs)
  {
    var ks := WithKeys(fold, cs);
    var t := Sort(ks);
    SortLaws(ks, Num(0));
    hide Leq, RankKey;
    MapKeepsElements((k: Keyed<Candidate>) => k.item, t, ks);
    assert Items(ks) == cs;
    forall i | 0 <= i < |t| ensures t[i].key == RankKey(fold, t[i].item) {
      assert t[i] in multiset(t);
      assert t[i] in ks;
    }
  }

  /** `a` may stand before `b`: by falling priority, then source, stable key, position and text. */
  predicate MayPrecede(fold: Folding, a: Candidate, b: Candidate) {
    if a.priority != b.priority then a.priority > b.priority
    else if a.sourceRank != b.sourceRank then a.sourceRank < b.sourceRank
    else if a.stableKey != b.stableKey then CompareItems(Strs(a.stableKey), Strs(b.stableKey)) < 0
    else if a.sourceOrder != b.sourceOrder then a.sourceOrder < b.sourceOrder
    else CompareText(fold(a.text), fold(b.text)) <= 0
  }

  lemma KeyOrder(fold: Folding, a: Candidate, b: Candidate)
    ensures Leq(RankKey(fold, a), RankKey(fold, b)) <==> MayPrecede(fold, a, b)
  {
    var x, y := RankKey(fold, a).items, RankKey(fold, b).items;
    ItemsAntisymmetric(Strs(a.stableKey), Strs(b.stableKey));
    SameStrs(a.stableKey, b.stableKey);
    hide CompareItems, CompareText, Strs;
    FiveItems(x, y);
  }

  lemma SameStrs(a: seq<string>, b: seq<string>)
    ensures Strs(a) == Strs(b) <==> a == b
  {
    if Strs(a) == Strs(b) {
      assert |a| == |Strs(a)| == |b|;
      forall i | 0 <= i < |a| ensures a[i] == b[i] { assert Strs(a)[i] == Strs(b)[i]; }
    }
  }

  /** Five items are compared one after the other. */
  lemma FiveItems(x: seq<Value>, y: seq<Value>)
    requires |x| == |y| == 5
    ensures CompareItems(x, y) ==
            if Compare(x[0], y[0]) != 0 then Compare(x[0], y[0])
            else if Compare(x[1], y[1]) != 0 then Compare(x[1], y[1])
            else if Compare(x[2], y[2]) != 0 then Compare(x[2], y[2])
            else if Compare(x[3], y[3]) != 0 then Compare(x[3], y[3])
            else Compare(x[4], y[4])
  {
    hide Compare;
    OneItem(x, y);
    OneItem(x[1..], y[1..]);
    OneItem(x[2..], y[2..]);
    OneItem(x[3..], y[3..]);
    OneItem(x[4..], y[4..]);
    assert x[1..][1..] == x[2..] && y[1..][1..] == y[2..];
    assert x[2..][1..] == x[3..] && y[2..][1..] == y[3..];
    assert x[3..][1..] == x[4..] && y[3..][1..] == y[4..];
    assert x[4..][1..] == [] && y[4..][1..] == [];
    hide CompareItems;
    NoItems();
  }

  lemma OneItem(x: seq<Value>, y: seq<Value>)
    requires x != [] && y != []
    ensures CompareItems(x, y) == if Compare(x[0], y[0]) != 0 then Compare(x[0], y[0]) else CompareItems(x[1..], y[1..])
  {
    hide Compare;
  }

  lemma NoItems()
    ensures CompareItems([], []) == 0
  {
  }

  /** The ranking goes by falling priority, then by source, stable key, position and text. */
  lemma RankedInOrder(fold: Folding, candidates: seq<Candidate>, i: nat, j: nat)
    requires i < j < |Ranked(fold, candidates)|
    ensures MayPrecede(fold, Ranked(fold, candidates)[i], Ranked(fold, candidates)[j])
  {
    RankingLaws(fold, candidates);
    KeyOrder(fold, Ranked(fold, candidates)[i], Ranked(fold, candidates)[j]);
    hide MayPrecede, Ranked, RankKey, Leq, Represented;
  }

  /** `r` stands for `c`: the same dedupe key, ranked no later. */
  predicate StandsFor(fold: Folding, r: Candidate, c: Candidate) {
    fold(r.text) == fold(c.text) && Leq(RankKey(fold, r), RankKey(fold, c))
  }

  ghost predicate Represented(fold: Folding, rs: seq<Candidate>, c: Candidate) {
    exists r :: r in rs && StandsFor(fold, r, c)
  }

  predicate NoRepeat(fold: Folding, cs: seq<Candidate>) {
    forall i, j :: 0 <= i < j < |cs| ==> fold(cs[i].text) != fold(cs[j].text)
  }

  lemma {:induction false} FirstsAreSome(fold: Folding, cs: seq<Candidate>)
    ensures forall r :: r in Firsts(fold, cs) ==> r in cs && fold(r.text) != ""
    decreases |cs|
  {
    if cs != [] { FirstsAreSome(fold, cs[..|cs| - 1]); }
  }

  lemma {:induction false} FirstsSound(fold: Folding, cs: seq<Candidate>)
    requires InOrder(fold, cs)
    ensures InOrder(fold, Firsts(fold, cs)) && NoRepeat(fold, Firsts(fold, cs))
    decreases |cs|
  {
    hide Leq, RankKey;
    if cs != [] {
      var n := |cs| - 1;
      var front, c := Firsts(fold, cs[..n]), cs[n];
      FirstsSound(fold, cs[..n]);
      FirstsAreSome(fold, cs[..n]);
      if fold(c.text) != "" && fold(c.text) !in Folds(fold, front) { Extends(fold, cs, front, c); }
    }
  }

  lemma Extends(fold: Folding, cs: seq<Candidate>, front: seq<Candidate>, c: Candidate)
    requires cs != [] && c == cs[|cs| - 1] && InOrder(fold, cs)
    requires InOrder(fold, front) && NoRepeat(fold, front) && (forall r :: r in front ==> r in cs[..|cs| - 1])
    requires fold(c.text) !in Folds(fold, front)
    ensures InOrder(fold, front + [c]) && NoRepeat(fold, front + [c])
  {
    hide Leq, RankKey;
    forall i | 0 <= i < |front|
      ensures Leq(RankKey(fold, front[i]), RankKey(fold, c)) && fold(front[i].text) != fold(c.text)
    {
      assert front[i] in front && front[i] in cs[..|cs| - 1];
      var k :| 0 <= k < |cs| - 1 && cs[k] == front[i];
      assert Folds(fold, front)[i] == fold(front[i].text);
    }
  }

  lemma {:induction false} FirstsRepresent(fold: Folding, cs: seq<Candidate>, d: Candidate)
    requires InOrder(fold, cs) && d in cs && fold(d.text) != ""
    ensures Represented(fold, Firsts(fold, cs), d)
    decreases |cs|
  {
    hide Leq, RankKey;
    var n := |cs| - 1;
    var front, c := Firsts(fold, cs[..n]), cs[n];
    var rs := Firsts(fold, cs);
    assert cs == cs[..n] + [c];
    if d in cs[..n] {
      FirstsRepresent(fold, cs[..n], d);
      var r :| r in front && StandsFor(fold, r, d);
      assert r in rs;
    } else if fold(c.text) in Folds(fold, front) {
      var i :| 0 <= i < |front| && Folds(fold, front)[i] == fold(c.text);
      FirstsAreSome(fold, cs[..n]);
      assert front[i] in cs[..n];
      assert front[i] in rs && StandsFor(fold, front[i], d);
    } else {
      LeqSelf(RankKey(fold, c));
      assert rs[|rs| - 1] == c;
      assert StandsFor(fold, c, d);
    }
  }

  lemma LeqSelf(k: Value)
    ensures Leq(k, k)
  {
    Antisymmetric(k, k);
  }

  /** The ranking is sorted, repeats no dedupe key, contains only candidates with a key, and stands
      for every candidate with a key by one ranked no later. */
  lemma RankingLaws(fold: Folding, cs: seq<Candidate>)
    ensures var rs := Ranked(fold, cs);
            && InOrder(fold, rs) && NoRepeat(fold, rs)
            && (forall r :: r in rs ==> r in cs && fold(r.text) != "")
            && (forall c :: c in cs && fold(c.text) != "" ==> Represented(fold, rs, c))
  {
    OrderedLaws(fold, cs);
    hide Leq, RankKey, Ordered;
    var all := Ordered(fold, cs);
    FirstsSound(fold, all);
    FirstsAreSome(fold, all);
    forall c ensures c in cs <==> c in all {
      assert c in multiset(cs) <==> c in multiset(all);
    }
    forall c | c in cs && fold(c.text) != "" ensures Represented(fold, Ranked(fold, cs), c) {
      FirstsRepresent(fold, all, c);
    }
  }

  function RankKeys(fold: Folding, cs: seq<Candidate>): seq<Value> {
    Map(c => RankKey(fold, c), cs)
  }

  /** Two candidates with one rank key have one dedupe key, so selection looks at keys only. */
  lemma {:induction false} FirstsByKey(fold: Folding, a: seq<Candidate>, b: seq<Candidate>)
    requires RankKeys(fold, a) == RankKeys(fold, b)
    ensures RankKeys(fold, Firsts(fold, a)) == RankKeys(fold, Firsts(fold, b))
    ensures Folds(fold, Firsts(fold, a)) == Folds(fold, Firsts(fold, b))
    decreases |a|
  {
    assert |a| == |RankKeys(fold, a)| == |b|;
    if a != [] {
      var n := |a| - 1;
      assert RankKeys(fold, a[..n]) == RankKeys(fold, a)[..n] == RankKeys(fold, b[..n]);
      FirstsByKey(fold, a[..n], b[..n]);
      assert RankKeys(fold, a)[n] == RankKeys(fold, b)[n];
      SameKeySameFold(fold, a[n], b[n]);
      hide RankKey;
      var f, g := Firsts(fold, a[..n]), Firsts(fold, b[..n]);
      assert RankKeys(fold, f + [a[n]]) == RankKeys(fold, f) + [RankKey(fold, a[n])];
      assert RankKeys(fold, g + [b[n]]) == RankKeys(fold, g) + [RankKey(fold, b[n])];
      assert Folds(fold, f + [a[n]]) == Folds(fold, f) + [fold(a[n].text)];
      assert Folds(fold, g + [b[n]]) == Folds(fold, g) + [fold(b[n].text)];
    }
  }

  lemma SameKeySameFold(fold: Folding, a: Candidate, b: Candidate)
    requires RankKey(fold, a) == RankKey(fold, b)
    ensures fold(a.text) == fold(b.text)
  {
    assert RankKey(fold, a).items[4] == RankKey(fold, b).items[4];
  }

  /** The order in which candidates arrive changes the ranking at most among candidates that tie on
      the whole sort key. */
  lemma RankingForgetsOrder(fold: Folding, a: seq<Candidate>, b: seq<Candidate>)
    requires multiset(a) == multiset(b)
    ensures RankKeys(fold, Ranked(fold, a)) == RankKeys(fold, Ranked(fold, b))
  {
    MapKeepsElements(c => Keyed(RankKey(fold, c), c), a, b);
    SortForgetsOrder(WithKeys(fold, a), WithKeys(fold, b));
    OrderedKeys(fold, a);
    OrderedKeys(fold, b);
    hide RankKey, Ordered, Sort;
    FirstsByKey(fold, Ordered(fold, a), Ordered(fold, b));
  }

  lemma OrderedKeys(fold: Folding, cs: seq<Candidate>)
    ensures RankKeys(fold, Ordered(fold, cs)) == Keys(Sort(WithKeys(fold, cs)))
  {
    var ks := WithKeys(fold, cs);
    var t := Sort(ks);
    SortLaws(ks, Num(0));
    hide RankKey;
    forall i | 0 <= i < |t| ensures t[i].key == RankKey(fold, t[i].item) {
      assert t[i] in multiset(t);
      assert t[i] in ks;
    }
  }

  // ---------- rendering ----------

  function HardHeader(): (h: string)
    ensures h != ""
  {
    "Material operator constraints (ranked; highest priority first):"
  }

  function DescriptiveHeader(): string {
    "Descriptive operator context signals (not hard constraints):"
  }

  const HARD_PRIORITY := 50

  function Hard(cs: seq<Candidate>): seq<Candidate> {
    if cs == [] then []
    else Hard(cs[..|cs| - 1]) + if cs[|cs| - 1].priority >= HARD_PRIORITY then [cs[|cs| - 1]] else []
  }

  function Descriptive(cs: seq<Candidate>): seq<Candidate> {
    if cs == [] then []
    else Descriptive(cs[..|cs| - 1]) + if cs[|cs| - 1].priority < HARD_PRIORITY then [cs[|cs| - 1]] else []
  }

  function Line(c: Candidate): string {
    "- [" + c.source + "] " + c.text
  }

  function Join(pieces: seq<string>): string {
    if pieces == [] then "" else Join(pieces[..|pieces| - 1]) + pieces[|pieces| - 1]
  }

  /** A group's indivisible pieces: its header, then one line an entry; an empty group has none. */
  function GroupPieces(separator: string, header: string, entries: seq<Candidate>): seq<string> {
    if entries == [] then [] else [separator + header] + Map(c => "\n" + Line(c), entries)
  }

  /** All pieces of a full rendering. */
  function Pieces(ranked: seq<Candidate>): seq<string> {
    var hard := Hard(ranked);
    GroupPieces("", HardHeader(), hard)
    + GroupPieces(if hard == [] then "" else "\n\n", DescriptiveHeader(), Descriptive(ranked))
  }

  /** How many pieces fit after `used` characters, taken in order up to the first that does not. */
  function Fit(used: nat, pieces: seq<string>, max: int): (n: nat)
    ensures n <= |pieces|
    decreases |pieces|
  {
    if pieces == [] || used + |pieces[0]| > max then 0 else 1 + Fit(used + |pieces[0]|, pieces[1..], max)
  }

  function Rendering(ranked: seq<Candidate>, max: int): string {
    Join(Pieces(ranked)[..Fit(0, Pieces(ranked), max)])
  }

  lemma {:induction false} FitConcat(used: nat, a: seq<string>, b: seq<string>, max: int)
    ensures Fit(used, a + b, max) ==
            if Fit(used, a, max) == |a| then |a| + Fit(used + |Join(a)|, b, max) else Fit(used, a, max)
    decreases |a|
  {
    hide Join, Fit;
    NothingJoined();
    if a == [] {
      assert a + b == b;
      FitNone(used, max);
    } else {
      JoinFirst(a);
      assert (a + b)[0] == a[0] && (a + b)[1..] == a[1..] + b;
      FitFirst(used, a, max);
      FitFirst(used, a + b, max);
      if used + |a[0]| <= max { FitConcat(used + |a[0]|, a[1..], b, max); }
    }
  }

  lemma NothingJoined()
    ensures Join([]) == ""
  {
  }

  lemma FitNone(used: nat, max: int)
    ensures Fit(used, [], max) == 0
  {
  }

  lemma FitFirst(used: nat, pieces: seq<string>, max: int)
    requires pieces != []
    ensures Fit(used, pieces, max) ==
            if used + |pieces[0]| > max then 0 else 1 + Fit(used + |pieces[0]|, pieces[1..], max)
  {
  }

  lemma {:induction false} JoinConcat(a: seq<string>, b: seq<string>)
    ensures Join(a + b) == Join(a) + Join(b)
    decreases |b|
  {
    if b == [] {
      assert a + b == a;
    } else {
      var n := |b| - 1;
      assert (a + b)[..|a + b| - 1] == a + b[..n] && (a + b)[|a + b| - 1] == b[n];
      JoinConcat(a, b[..n]);
      assert Join(a + b) == Join(a + b[..n]) + b[n];
      assert Join(b) == Join(b[..n]) + b[n];
    }
  }

  lemma JoinFirst(a: seq<string>)
    requires a != []
    ensures Join(a) == a[0] + Join(a[1..])
  {
    JoinConcat([a[0]], a[1..]);
    assert [a[0]] + a[1..] == a;
    assert Join([a[0]]) == Join([]) + a[0];
  }

  /** Trying the next piece. */
  lemma NextPiece(rendered: string, ps: seq<string>, k: nat, max: int)
    requires k < |ps|
    ensures Join(ps[..k + 1]) == Join(ps[..k]) + ps[k]
    ensures var text := rendered + Join(ps[..k]);
            && rendered + Join(ps[..k + 1]) == text + ps[k]
            && Fit(|text|, ps[k..], max) == if |text + ps[k]| > max then 0 else 1 + Fit(|text + ps[k]|, ps[k + 1..], max)
  {
    assert ps[..k + 1][..k] == ps[..k];
    assert ps[k..][0] == ps[k] && ps[k..][1..] == ps[k + 1..];
  }

  /** `add_group`. */
  method AddGroup(rendered: string, header: string, entries: seq<Candidate>, max: int) returns (text: string, fits: bool)
    ensures var ps := GroupPieces(if rendered != "" then "\n\n" else "", header, entries);
            var n := Fit(|rendered|, ps, max);
            text == rendered + Join(ps[..n]) && fits == (n == |ps|)
  {
    hide Fit, Join, Line, GroupPieces;
    var separator := if rendered != "" then "\n\n" else "";
    ghost var ps := GroupPieces(separator, header, entries);
    GroupParts(separator, header, entries);
    NothingYet(rendered, ps);
    text := rendered;
    if entries == [] { return text, true; }
    NextPiece(rendered, ps, 0, max);
    if |rendered + (separator + header)| > max { return text, false; }
    text := rendered + (separator + header);
    for i := 0 to |entries|
      invariant text == rendered + Join(ps[..i + 1])
      invariant Fit(|rendered|, ps, max) == i + 1 + Fit(|text|, ps[i + 1..], max)
    {
      NextPiece(rendered, ps, i + 1, max);
      var line := Line(entries[i]);
      assert ps[i + 1] == "\n" + line;
      var longer := text + ("\n" + line);
      if |longer| > max { return text, false; }
      text := longer;
    }
    NothingLeft(|text|, ps, max);
    fits := true;
  }

  lemma NothingYet(rendered: string, ps: seq<string>)
    ensures ps[0..] == ps && rendered + Join(ps[..0]) == rendered
  {
  }

  lemma NothingLeft(used: nat, ps: seq<string>, max: int)
    ensures ps[..|ps|] == ps && Fit(used, ps[|ps|..], max) == 0
  {
  }

  /** Two groups, the second tried only when all of the first fits. */
  lemma TwoGroups(a: seq<string>, b: seq<string>, max: int)
    ensures var n := Fit(0, a, max); var all := (a + b)[..Fit(0, a + b, max)];
            if n < |a| then all == a[..n]
            else a[..n] == a && Join(all) == Join(a) + Join(b[..Fit(|Join(a)|, b, max)])
  {
    FitConcat(0, a, b, max);
    var n := Fit(0, a, max);
    if n < |a| {
      assert (a + b)[..n] == a[..n];
    } else {
      var m := Fit(|Join(a)|, b, max);
      assert (a + b)[..|a| + m] == a + b[..m];
      JoinConcat(a, b[..m]);
    }
  }

  /** `_render_operator_constraint_projection`. */
  method RenderProjection(fold: Folding, candidates: seq<Candidate>, max: int) returns (text: string)
    ensures text == Rendering(Ranked(fold, candidates), max)
  {
    hide Fit, Join, GroupPieces, Hard, Descriptive, Ranked, Pieces, HardHeader, DescriptiveHeader;
    var ranked := RankCandidates(fold, candidates);
    var hard, descriptive := Hard(ranked), Descriptive(ranked);
    ghost var a := GroupPieces("", HardHeader(), hard);
    ghost var b := GroupPieces(if hard == [] then "" else "\n\n", DescriptiveHeader(), descriptive);
    PiecesAre(ranked);
    TwoGroups(a, b, max);
    HeaderShows(hard);
    var allHardFit;
    text, allHardFit := AddGroup("", HardHeader(), hard, max);
    if allHardFit { text, allHardFit := AddGroup(text, DescriptiveHeader(), descriptive, max); }
  }

  lemma PiecesAre(ranked: seq<Candidate>)
    ensures Pieces(ranked) ==
            GroupPieces("", HardHeader(), Hard(ranked))
            + GroupPieces(if Hard(ranked) == [] then "" else "\n\n", DescriptiveHeader(), Descriptive(ranked))
  {
    hide GroupPieces, Hard, Descriptive, HardHeader, DescriptiveHeader;
  }

  /** A full first group leaves text behind exactly when it had entries. */
  lemma HeaderShows(hard: seq<Candidate>)
    ensures Join(GroupPieces("", HardHeader(), hard)) != "" <==> hard != []
  {
    hide HardHeader;
    var a := GroupPieces("", HardHeader(), hard);
    if hard != [] { JoinFirst(a); }
  }

  // ---------- what the rendering is ----------

  lemma {:induction false} FitIsLongest(used: nat, pieces: seq<string>, max: int)
    ensures var n := Fit(used, pieces, max);
            && (n > 0 ==> used + |Join(pieces[..n])| <= max)
            && (n < |pieces| ==> used + |Join(pieces[..n + 1])| > max)
    decreases |pieces|
  {
    if pieces != [] {
      var n := Fit(used, pieces, max);
      if n == 0 {
        assert pieces[..1] == [pieces[0]];
        assert Join([pieces[0]]) == Join([]) + pieces[0];
      } else {
        FitIsLongest(used + |pieces[0]|, pieces[1..], max);
        JoinFirst(pieces[..n]);
        assert pieces[..n][1..] == pieces[1..][..n - 1];
        if n < |pieces| {
          JoinFirst(pieces[..n + 1]);
          assert pieces[..n + 1][1..] == pieces[1..][..n];
        }
      }
    }
  }

  /** The rendering is made of whole pieces, as many as fit: it keeps to the budget, and the next
      piece would not have. */
  lemma RenderingFits(ranked: seq<Candidate>, max: int)
    ensures var ps := Pieces(ranked); var n := Fit(0, ps, max);
            && Rendering(ranked, max) == Join(ps[..n])
            && (Rendering(ranked, max) != "" ==> |Rendering(ranked, max)| <= max)
            && (n < |ps| ==> |Join(ps[..n + 1])| > max)
  {
    hide Pieces, Fit;
    FitIsLongest(0, Pieces(ranked), max);
  }

  lemma {:induction false} FitGrows(used: nat, pieces: seq<string>, small: int, large: int)
    requires small <= large
    ensures Fit(used, pieces, small) <= Fit(used, pieces, large)
    decreases |pieces|
  {
    if pieces != [] && used + |pieces[0]| <= small { FitGrows(used + |pieces[0]|, pieces[1..], small, large); }
  }

  /** A larger budget extends the text of a smaller one. */
  lemma LargerBudgetExtends(ranked: seq<Candidate>, small: int, large: int)
    requires small <= large
    ensures Rendering(ranked, small) <= Rendering(ranked, large)
  {
    hide Pieces, Fit, Join;
    var ps := Pieces(ranked);
    FitGrows(0, ps, small, large);
    var m, n := Fit(0, ps, small), Fit(0, ps, large);
    JoinConcat(ps[..m], ps[m..n]);
    assert ps[..n] == ps[..m] + ps[m..n];
  }

  /** The hard entries come first in the ranking, so the pieces follow it: a descriptive piece is
      shown only after every hard one. */
  lemma HardComeFirst(fold: Folding, candidates: seq<Candidate>)
    ensures var ranked := Ranked(fold, candidates); ranked == Hard(ranked) + Descriptive(ranked)
  {
    RankingLaws(fold, candidates);
    ByPriority(fold, Ranked(fold, candidates));
  }

  lemma {:induction false} ByPriority(fold: Folding, cs: seq<Candidate>)
    requires InOrder(fold, cs)
    ensures cs == Hard(cs) + Descriptive(cs)
    ensures cs != [] && cs[|cs| - 1].priority >= HARD_PRIORITY ==> Descriptive(cs) == []
    decreases |cs|
  {
    hide Leq, RankKey, Hard, Descriptive;
    if cs == [] {
      NoneByPriority();
    } else {
      var n := |cs| - 1;
      var front, c := cs[..n], cs[n];
      ByPriority(fold, front);
      LastByPriority(cs);
      if n > 0 {
        assert Leq(RankKey(fold, cs[n - 1]), RankKey(fold, c));
        PriorityFalls(fold, cs[n - 1], c);
      } else {
        NoneByPriority();
      }
      assert cs == front + [c];
    }
  }

  lemma NoneByPriority()
    ensures Hard([]) == [] && Descriptive([]) == []
  {
  }

  lemma LastByPriority(cs: seq<Candidate>)
    requires cs != []
    ensures var n := |cs| - 1; var hard := cs[n].priority >= HARD_PRIORITY;
            && Hard(cs) == Hard(cs[..n]) + (if hard then [cs[n]] else [])
            && Descriptive(cs) == Descriptive(cs[..n]) + if hard then [] else [cs[n]]
  {
  }

  lemma PriorityFalls(fold: Folding, a: Candidate, b: Candidate)
    requires Leq(RankKey(fold, a), RankKey(fold, b))
    ensures a.priority >= b.priority
  {
    var x, y := RankKey(fold, a).items, RankKey(fold, b).items;
    assert Compare(x[0], y[0]) == Sign(-a.priority, -b.priority);
    assert CompareItems(x, y) == Compare(RankKey(fold, a), RankKey(fold, b));
  }

  /** Where the line of the `i`-th ranked entry stands among the pieces: after its headers. */
  function PieceOf(ranked: seq<Candidate>, i: nat): nat {
    i + (if Hard(ranked) != [] then 1 else 0) + (if i >= |Hard(ranked)| then 1 else 0)
  }

  /** Where the second header stands. */
  function SecondHeader(ranked: seq<Candidate>): nat {
    |Hard(ranked)| + if Hard(ranked) != [] then 1 else 0
  }

  /** The pieces are the headers and the ranked entries' lines, in the order of the ranking, and nothing
      else: what a rendering shows is a prefix of the ranking, hard entries before descriptive ones. */
  lemma PiecesFollowRanking(fold: Folding, candidates: seq<Candidate>)
    ensures var ranked := Ranked(fold, candidates); var ps := Pieces(ranked);
            && |ps| == |ranked| + (if Hard(ranked) != [] then 1 else 0) + (if Descriptive(ranked) != [] then 1 else 0)
            && (forall i :: 0 <= i < |ranked| ==>
                  PieceOf(ranked, i) < |ps| && ps[PieceOf(ranked, i)] == "\n- [" + ranked[i].source + "] " + ranked[i].text)
            && (Hard(ranked) != [] ==> ps[0] == "Material operator constraints (ranked; highest priority first):")
            && (Descriptive(ranked) != [] ==>
                  ps[SecondHeader(ranked)] == (if Hard(ranked) != [] then "\n\n" else "")
                                              + "Descriptive operator context signals (not hard constraints):")
  {
    Headers();
    hide Ranked, Pieces, Hard, Descriptive, HardHeader, DescriptiveHeader, Line, GroupPieces;
    HardComeFirst(fold, candidates);
    var ranked := Ranked(fold, candidates);
    PiecesAre(ranked);
    var hard, descriptive := Hard(ranked), Descriptive(ranked);
    var separator := if hard == [] then "" else "\n\n";
    GroupParts("", HardHeader(), hard);
    GroupParts(separator, DescriptiveHeader(), descriptive);
    forall i | 0 <= i < |ranked|
      ensures PieceOf(ranked, i) < |Pieces(ranked)| && Pieces(ranked)[PieceOf(ranked, i)] == "\n" + Line(ranked[i])
    {
      if i >= |hard| { assert ranked[i] == descriptive[i - |hard|]; }
    }
    forall i | 0 <= i < |ranked| ensures "\n" + Line(ranked[i]) == "\n- [" + ranked[i].source + "] " + ranked[i].text {
      LineText(ranked[i]);
    }
  }

  lemma LineText(c: Candidate)
    ensures "\n" + Line(c) == "\n- [" + c.source + "] " + c.text
  {
    assert "\n" + "- [" == "\n- [";
    assert "\n" + ("- [" + c.source + "] " + c.text) == ("\n" + "- [") + c.source + "] " + c.text;
  }

  lemma Headers()
    ensures HardHeader() == "Material operator constraints (ranked; highest priority first):"
    ensures DescriptiveHeader() == "Descriptive operator context signals (not hard constraints):"
  {
  }

  /** Hard entries are those of priority 50 and more, the others are descriptive. */
  lemma {:induction false} HardByPriority(cs: seq<Candidate>)
    ensures forall c :: c in Hard(cs) <==> c in cs && c.priority >= 50
    ensures forall c :: c in Descriptive(cs) <==> c in cs && c.priority < 50
    decreases |cs|
  {
    if cs != [] {
      var n := |cs| - 1;
      HardByPriority(cs[..n]);
      LastByPriority(cs);
      hide Hard, Descriptive;
      assert cs == cs[..n] + [cs[n]];
    }
  }

  lemma GroupParts(separator: string, header: string, entries: seq<Candidate>)
    ensures var ps := GroupPieces(separator, header, entries);
            && |ps| == (if entries == [] then 0 else |entries| + 1)
            && (entries != [] ==> ps[0] == separator + header)
            && forall i :: 0 <= i < |entries| ==> ps[i + 1] == "\n" + Line(entries[i])
  {
    hide Line;
  }
}
