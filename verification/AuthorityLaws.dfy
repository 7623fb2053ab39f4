/** Order is never authority: what the current answers are, whatever order the records stand in. */
module AuthorityLaws {
  import opened Collections
  import opened Ordering
  import opened Authority

  // ---------- the winner of one question ----------

  /** `r` speaks for the group: it is an answer with text, and either it is alone, or every record is
      timed, none is newer, and those just as new are answers with the same text. */
  predicate Speaks(g: seq<Record>, r: Record) {
    && r in g && r.fields.status == Answered && r.fields.text != ""
    && (|g| == 1 || (AllTimed(g) && forall s :: s in g ==> NotAgainst(r.fields, s.fields)))
  }

  predicate NotAgainst(f: Fields, s: Fields) {
    && f.at.Some? && s.at.Some? && s.at.value <= f.at.value
    && (s.at == f.at ==> s.status == Answered && s.text == f.text)
  }

  lemma {:induction false} NewestLaws(g: seq<Record>)
    requires g != [] && AllTimed(g)
    ensures forall r :: r in g ==> r.fields.at.Some? && r.fields.at.value <= Newest(g)
    ensures exists r :: r in g && r.fields.at == Some(Newest(g))
    decreases |g|
  {
    var n := |g| - 1;
    assert g[n] in g;
    if n > 0 {
      NewestLaws(g[..n]);
      var r :| r in g[..n] && r.fields.at == Some(Newest(g[..n]));
      assert r in g;
    }
  }

  lemma {:induction false} LatestCount(g: seq<Record>, t: int, r: Record)
    ensures multiset(Latest(g, t))[r] == if r.fields.at == Some(t) then multiset(g)[r] else 0
    decreases |g|
  {
    if g != [] {
      LatestCount(g[..|g| - 1], t, r);
      WithoutLast(g);
    }
  }

  lemma LatestMembers(g: seq<Record>, t: int)
    ensures forall r :: r in Latest(g, t) <==> r in g && r.fields.at == Some(t)
  {
    forall r ensures r in Latest(g, t) <==> r in g && r.fields.at == Some(t) {
      LatestCount(g, t, r);
      assert r in multiset(g) <==> r in g;
      assert r in multiset(Latest(g, t)) <==> r in Latest(g, t);
    }
  }

  lemma SortRecordsKeeps(rs: seq<Record>)
    ensures multiset(SortRecords(rs)) == multiset(rs) && |SortRecords(rs)| == |rs|
  {
    var ks := WithKeys(rs);
    SortLaws(ks, Num(0));
    MapKeepsElements((k: Keyed<Record>) => k.item, Sort(ks), ks);
    assert Map((k: Keyed<Record>) => k.item, ks) == rs;
    SameLength(SortRecords(rs), rs);
  }

  lemma SortedKeys(rs: seq<Record>)
    ensures Map(SortKey, SortRecords(rs)) == Keys(Sort(WithKeys(rs)))
    ensures Ascending(Map(SortKey, SortRecords(rs)))
  {
    var ks := WithKeys(rs);
    var t := Sort(ks);
    SortLaws(ks, Num(0));
    hide Leq, SortKey;
    forall i | 0 <= i < |t| ensures t[i].key == SortKey(t[i].item) {
      assert t[i] in multiset(t);
      assert t[i] in ks;
    }
  }

  /** The candidate of a timed group is one of its newest records, and there is one unless these disagree. */
  lemma CandidateOfTimed(g: seq<Record>)
    requires g != [] && AllTimed(g)
    ensures var latest := Latest(g, Newest(g));
            && latest != [] && (Candidate(g).Some? <==> |latest| == 1 || Agree(latest))
            && (Candidate(g).Some? ==> Candidate(g).value in latest)
  {
    NewestLaws(g);
    LatestMembers(g, Newest(g));
    var latest := Latest(g, Newest(g));
    SortRecordsKeeps(latest);
    hide Newest, Latest, AllTimed;
    if |latest| > 1 { assert SortRecords(latest)[0] in multiset(SortRecords(latest)); }
  }

  /** Authority stated without order: a question has a current answer exactly when some record speaks
      for its group, and then the current answer is such a record. */
  lemma WinnerSpeaks(g: seq<Record>)
    ensures Winner(g).Some? <==> exists r :: Speaks(g, r)
    ensures Winner(g).Some? ==> Speaks(g, Winner(g).value)
  {
    if g != [] {
      if AllTimed(g) {
        NewestLaws(g);
        CandidateOfTimed(g);
        LatestMembers(g, Newest(g));
        var latest := Latest(g, Newest(g));
        hide Candidate, Newest, Latest, AllTimed;
        if Winner(g).Some? {
          var w := Winner(g).value;
          forall s | s in g ensures |g| == 1 || NotAgainst(w.fields, s.fields) {
            if s.fields.at == w.fields.at {
              assert s in latest;
              if |latest| == 1 { assert latest[0] == s; } else { AgreeMembers(latest, w, s); }
            }
          }
        }
        if Winner(g).Some? { assert Speaks(g, Winner(g).value); }
        forall r | Speaks(g, r) ensures Winner(g).Some? {
          SpeakerWins(g, r);
        }
      } else {
        assert |g| == 1 ==> forall r :: r in g ==> r == g[0];
        if Winner(g).Some? { assert Speaks(g, g[0]); }
      }
    }
  }

  lemma AgreeMembers(latest: seq<Record>, r: Record, s: Record)
    requires Agree(latest) && r in latest && s in latest
    ensures s.fields.status == Answered && s.fields.text == r.fields.text
  {
  }

  lemma SpeakerWins(g: seq<Record>, r: Record)
    requires g != [] && AllTimed(g) && Speaks(g, r)
    ensures Winner(g).Some?
  {
    NewestLaws(g);
    CandidateOfTimed(g);
    LatestMembers(g, Newest(g));
    var latest := Latest(g, Newest(g));
    hide Candidate, Newest, Latest, AllTimed;
    assert r.fields.at == Some(Newest(g)) by {
      var s :| s in g && s.fields.at == Some(Newest(g));
      if |g| == 1 { assert r == g[0] == s; } else { assert NotAgainst(r.fields, s.fields); }
    }
    forall s | s in latest ensures s.fields.status == Answered && s.fields.text == r.fields.text {
      if |g| == 1 { assert r == g[0] == s; } else { assert NotAgainst(r.fields, s.fields); }
    }
    forall i | 0 <= i < |latest| ensures latest[i].fields.status == Answered && latest[i].fields.text == latest[0].fields.text {
      assert latest[i] in latest && latest[0] in latest;
    }
    assert Agree(latest);
    assert Candidate(g).value in latest;
  }

  /** Among equally new answers that agree, the one with the least identity is the current one. */
  lemma WinnerIsLeast(g: seq<Record>, r: Record)
    requires AllTimed(g) && Winner(g).Some? && r in g && r.fields.at == Winner(g).value.fields.at
    requires forall s :: s in g ==> s.fields.question == r.fields.question
    ensures CompareText(Winner(g).value.fields.id, r.fields.id) <= 0
  {
    NewestLaws(g);
    CandidateOfTimed(g);
    LatestMembers(g, Newest(g));
    var latest := Latest(g, Newest(g));
    hide Newest, Latest, AllTimed, CompareText;
    var w := Winner(g).value;
    assert w in latest && r in latest;
    if |latest| == 1 {
      assert w == r;
      TextOrder(w.fields.id, r.fields.id, r.fields.id);
    } else {
      assert w == SortRecords(latest)[0];
      LeastFirst(latest, r);
      KeysById(w, r);
    }
  }

  lemma LeastFirst(rs: seq<Record>, r: Record)
    requires r in rs
    ensures |SortRecords(rs)| > 0 && Leq(SortKey(SortRecords(rs)[0]), SortKey(r))
  {
    SortRecordsKeeps(rs);
    SortedKeys(rs);
    hide Leq, SortKey, SortRecords;
    var t := SortRecords(rs);
    assert r in multiset(rs) && r in multiset(t);
    var i :| 0 <= i < |t| && t[i] == r;
    var ks := Map(SortKey, t);
    assert ks[0] == SortKey(t[0]) && ks[i] == SortKey(r);
    if i == 0 { OneOfBoth(ks[0], ks[0]); }
  }

  lemma KeysById(a: Record, b: Record)
    requires Leq(SortKey(a), SortKey(b)) && a.fields.question == b.fields.question
    ensures CompareText(a.fields.id, b.fields.id) <= 0
  {
    var x, y := SortKey(a).items, SortKey(b).items;
    TextOrder(a.fields.question, b.fields.question, b.fields.question);
    hide CompareText;
    assert Compare(SortKey(a), SortKey(b)) == CompareItems(x, y);
    assert Compare(x[0], y[0]) == 0;
    assert CompareItems(x, y) == CompareItems(x[1..], y[1..]);
    assert x[1..][0] == Str(a.fields.id) && y[1..][0] == Str(b.fields.id);
    assert Compare(x[1..][0], y[1..][0]) == CompareText(a.fields.id, b.fields.id);
    assert CompareItems(x[1..], y[1..]) <= 0;
  }

  // ---------- order independence ----------

  function FieldsOf(w: Option<Record>): Option<Fields> {
    if w.Some? then Some(w.value.fields) else None
  }

  lemma SameMembers(g: seq<Record>, h: seq<Record>)
    requires multiset(g) == multiset(h)
    ensures |g| == |h| && forall r :: r in g <==> r in h
  {
    SameLength(g, h);
    forall r ensures r in g <==> r in h { assert r in multiset(g) <==> r in multiset(h); }
  }

  lemma SameNewest(g: seq<Record>, h: seq<Record>)
    requires multiset(g) == multiset(h)
    ensures AllTimed(g) == AllTimed(h)
    ensures g != [] && AllTimed(g) ==> h != [] && Newest(g) == Newest(h) && multiset(Latest(g, Newest(g))) == multiset(Latest(h, Newest(h)))
  {
    SameMembers(g, h);
    TimedMembers(g);
    TimedMembers(h);
    hide AllTimed, Newest, Latest;
    if g != [] && AllTimed(g) {
      NewestLaws(g);
      NewestLaws(h);
      var t := Newest(g);
      forall r ensures multiset(Latest(g, t))[r] == multiset(Latest(h, t))[r] {
        LatestCount(g, t, r);
        LatestCount(h, t, r);
      }
    }
  }

  lemma TimedMembers(g: seq<Record>)
    ensures AllTimed(g) <==> forall r :: r in g ==> r.fields.at.Some?
  {
    if forall r :: r in g ==> r.fields.at.Some? {
      forall i | 0 <= i < |g| ensures g[i].fields.at.Some? { assert g[i] in g; }
    }
  }

  lemma SameAgree(a: seq<Record>, b: seq<Record>)
    requires multiset(a) == multiset(b) && Agree(a)
    ensures Agree(b)
  {
    SameMembers(a, b);
    forall i | 0 <= i < |b| ensures b[i].fields.status == Answered && b[i].fields.text == b[0].fields.text {
      assert b[i] in a && b[0] in a;
    }
  }

  lemma SameLeast(a: seq<Record>, b: seq<Record>)
    requires multiset(a) == multiset(b) && a != []
    ensures SortRecords(a) != [] && SortRecords(b) != [] && SortKey(SortRecords(a)[0]) == SortKey(SortRecords(b)[0])
  {
    SameLength(a, b);
    SortRecordsKeeps(a);
    SortRecordsKeeps(b);
    SortedKeys(a);
    SortedKeys(b);
    hide SortKey, SortRecords;
    MapKeepsElements(r => Keyed(SortKey(r), r), a, b);
    SortForgetsOrder(WithKeys(a), WithKeys(b));
    assert Map(SortKey, SortRecords(a))[0] == Map(SortKey, SortRecords(b))[0];
  }

  lemma SameKeySameFields(r: Record, s: Record)
    requires SortKey(r) == SortKey(s) && r.fields.status == s.fields.status
    ensures r.fields == s.fields
  {
    var a, b := SortKey(r).items, SortKey(s).items;
    assert a[0] == b[0] && a[1] == b[1] && a[2] == b[2] && a[3] == b[3];
    if r.fields.at.Some? {
      assert a[2].items[0] == Num(r.fields.at.value);
      assert |b[2].items| == 1;
    }
  }

  /** The winner of a group does not depend on the order of its records, up to normalized fields. */
  lemma WinnerForgetsOrder(g: seq<Record>, h: seq<Record>)
    requires multiset(g) == multiset(h)
    ensures FieldsOf(Winner(g)) == FieldsOf(Winner(h))
  {
    SameMembers(g, h);
    SameNewest(g, h);
    if g == [] {
    } else if !AllTimed(g) {
      if |g| == 1 { assert g[0] in h; }
    } else {
      CandidateOfTimed(g);
      CandidateOfTimed(h);
      var a, b := Latest(g, Newest(g)), Latest(h, Newest(h));
      SameMembers(a, b);
      if Agree(a) { SameAgree(a, b); }
      if Agree(b) { SameAgree(b, a); }
      if |a| == 1 {
        assert a[0] in b;
      } else if Agree(a) {
        SameLeast(a, b);
        SortRecordsKeeps(a);
        SortRecordsKeeps(b);
        hide Newest, Latest, AllTimed, SortRecords, SortKey;
        var r, s := SortRecords(a)[0], SortRecords(b)[0];
        assert r in multiset(SortRecords(a)) && s in multiset(SortRecords(b));
        assert r in a && s in a;
        AgreeMembers(a, r, s);
        AgreeMembers(a, s, r);
        SameKeySameFields(r, s);
        assert Candidate(g) == Some(r) && Candidate(h) == Some(s);
      }
    }
  }

  // ---------- the list of current answers ----------

  lemma {:induction false} GroupCount(rs: seq<Record>, q: string, r: Record)
    ensures multiset(Group(rs, q))[r] == if r.fields.question == q then multiset(rs)[r] else 0
    decreases |rs|
  {
    if rs != [] {
      GroupCount(rs[..|rs| - 1], q, r);
      WithoutLast(rs);
    }
  }

  lemma GroupMembers(rs: seq<Record>, q: string)
    ensures forall r :: r in Group(rs, q) <==> r in rs && r.fields.question == q
  {
    forall r ensures r in Group(rs, q) <==> r in rs && r.fields.question == q {
      GroupCount(rs, q, r);
      assert r in multiset(rs) <==> r in rs;
      assert r in multiset(Group(rs, q)) <==> r in Group(rs, q);
    }
  }

  lemma SameGroup(a: seq<Record>, b: seq<Record>, q: string)
    requires multiset(a) == multiset(b)
    ensures multiset(Group(a, q)) == multiset(Group(b, q))
  {
    hide Group;
    forall r ensures multiset(Group(a, q))[r] == multiset(Group(b, q))[r] {
      GroupCount(a, q, r);
      GroupCount(b, q, r);
    }
  }

  lemma {:induction false} QuestionsLaws(rs: seq<Record>)
    ensures Distinct(Questions(rs))
    ensures forall r :: r in rs && r.fields.question != "" ==> r.fields.question in Questions(rs)
    ensures "" !in Questions(rs)
    decreases |rs|
  {
    if rs != [] {
      QuestionsLaws(rs[..|rs| - 1]);
      WithoutLast(rs);
    }
  }

  /** `w` is the current answer of its own question. */
  predicate IsWinner(rs: seq<Record>, w: Record) {
    Winner(Group(rs, w.fields.question)) == Some(w)
  }

  lemma WinnerIsOwn(rs: seq<Record>, q: string)
    ensures Winner(Group(rs, q)).Some? ==> var w := Winner(Group(rs, q)).value; w.fields.question == q && w in rs && IsWinner(rs, w)
  {
    WinnerSpeaks(Group(rs, q));
    GroupMembers(rs, q);
    hide Winner, Group;
  }

  predicate OnePerQuestion(rs: seq<Record>) {
    forall i, j :: 0 <= i < j < |rs| ==> rs[i].fields.question != rs[j].fields.question
  }

  lemma {:induction false} WinnersLaws(rs: seq<Record>, qs: seq<string>)
    requires Distinct(qs)
    ensures OnePerQuestion(Winners(rs, qs))
    ensures forall w :: w in Winners(rs, qs) <==> w.fields.question in qs && IsWinner(rs, w)
    decreases |qs|
  {
    hide Winner, Group;
    if qs != [] {
      var n := |qs| - 1;
      WinnersLaws(rs, qs[..n]);
      WinnersExtend(rs, qs, Winners(rs, qs[..n]));
    }
  }

  lemma WinnersExtend(rs: seq<Record>, qs: seq<string>, front: seq<Record>)
    requires Distinct(qs) && qs != [] && OnePerQuestion(front)
    requires forall w :: w in front <==> w.fields.question in qs[..|qs| - 1] && IsWinner(rs, w)
    ensures var v := Winner(Group(rs, qs[|qs| - 1])); var all := front + if v.Some? then [v.value] else [];
            OnePerQuestion(all) && forall w :: w in all <==> w.fields.question in qs && IsWinner(rs, w)
  {
    var n := |qs| - 1;
    WinnerIsOwn(rs, qs[n]);
    hide Winner, Group;
    forall i | 0 <= i < |front| ensures front[i].fields.question != qs[n] {
      assert front[i] in front && front[i].fields.question in qs[..n];
      var k :| 0 <= k < n && qs[k] == front[i].fields.question;
    }
    var v := Winner(Group(rs, qs[n]));
    forall w ensures w in front + (if v.Some? then [v.value] else []) <==> w.fields.question in qs && IsWinner(rs, w) {
      assert w.fields.question in qs <==> w.fields.question in qs[..n] || w.fields.question == qs[n];
    }
  }

  predicate Before(f: Fields, g: Fields) {
    CompareText(f.question, g.question) < 0
  }

  /** In strict order of the question. */
  predicate Strict(fs: seq<Fields>) {
    forall i, j :: 0 <= i < j < |fs| ==> Before(fs[i], fs[j])
  }

  function AllFields(rs: seq<Record>): seq<Fields> {
    Map((r: Record) => r.fields, rs)
  }

  lemma SortedIsStrict(rs: seq<Record>)
    requires OnePerQuestion(rs)
    ensures Strict(AllFields(SortRecords(rs)))
  {
    var t := SortRecords(rs);
    SortedKeys(rs);
    SortRecordsKeeps(rs);
    hide SortRecords;
    forall i, j | 0 <= i < j < |t| ensures Before(t[i].fields, t[j].fields) {
      assert Leq(Map(SortKey, t)[i], Map(SortKey, t)[j]);
      FirstPart(t[i], t[j]);
      DistinctStays(rs, t, i, j);
      TextOrder(t[i].fields.question, t[j].fields.question, "");
    }
  }

  lemma FirstPart(r: Record, s: Record)
    requires Leq(SortKey(r), SortKey(s))
    ensures CompareText(r.fields.question, s.fields.question) <= 0
  {
    var x, y := SortKey(r).items, SortKey(s).items;
    assert Compare(x[0], y[0]) == CompareText(r.fields.question, s.fields.question);
    assert CompareItems(x, y) == Compare(SortKey(r), SortKey(s));
  }

  lemma DistinctStays(rs: seq<Record>, t: seq<Record>, i: nat, j: nat)
    requires OnePerQuestion(rs) && multiset(t) == multiset(rs) && i < j < |t|
    ensures t[i].fields.question != t[j].fields.question
  {
    SameMembers(t, rs);
    var a, b := t[i], t[j];
    assert a in rs && b in rs;
    var x :| 0 <= x < |rs| && rs[x] == a;
    var y :| 0 <= y < |rs| && rs[y] == b;
    if a == b {
      TwiceMeansTwo(t, i, j);
      OnceOnly(rs, x);
    }
  }

  lemma TwiceMeansTwo<T>(t: seq<T>, i: nat, j: nat)
    requires i < j < |t| && t[i] == t[j]
    ensures multiset(t)[t[i]] >= 2
  {
    assert t == t[..j] + [t[j]] + t[j + 1..];
    assert t[i] in t[..j];
  }

  lemma OnceOnly(rs: seq<Record>, x: nat)
    requires OnePerQuestion(rs) && x < |rs|
    ensures multiset(rs)[rs[x]] == 1
  {
    assert rs == rs[..x] + [rs[x]] + rs[x + 1..];
    assert rs[x] !in rs[..x];
    assert rs[x] !in rs[x + 1..];
  }

  /** The current answers: strictly in order of the question, so at most one a question, and exactly
      the winners of the questions that have one. */
  lemma CurrentLaws(rs: seq<Record>)
    ensures Strict(AllFields(Current(rs)))
    ensures forall w :: w in Current(rs) <==> w.fields.question != "" && IsWinner(rs, w)
  {
    QuestionsLaws(rs);
    var ws := Winners(rs, Questions(rs));
    WinnersLaws(rs, Questions(rs));
    SortedIsStrict(ws);
    SortRecordsKeeps(ws);
    SameMembers(Current(rs), ws);
    hide Winner, Group, SortRecords, Questions;
    forall w ensures w in Current(rs) <==> w.fields.question != "" && IsWinner(rs, w) {
      if IsWinner(rs, w) { WinnerIsOwn(rs, w.fields.question); }
    }
  }

  lemma {:induction false} StrictUnique(a: seq<Fields>, b: seq<Fields>)
    requires Strict(a) && Strict(b) && forall f :: f in a <==> f in b
    ensures a == b
    decreases |a|
  {
    assert b != [] ==> b[0] in a;
    assert a != [] ==> a[0] in b;
    if a != [] {
      LastsEqual(a, b);
      StrictFront(a);
      StrictFront(b);
      hide Strict;
      var c, d := a[..|a| - 1], b[..|b| - 1];
      forall f ensures f in c <==> f in d {
        assert f in a <==> f in b;
      }
      StrictUnique(c, d);
      assert a == a[..|a| - 1] + [a[|a| - 1]] && b == b[..|b| - 1] + [b[|b| - 1]];
    }
  }

  lemma LastsEqual(a: seq<Fields>, b: seq<Fields>)
    requires Strict(a) && Strict(b) && a != [] && b != [] && forall f :: f in a <==> f in b
    ensures a[|a| - 1] == b[|b| - 1]
  {
    var m, n := |a| - 1, |b| - 1;
    assert a[m] in b && b[n] in a;
    var i :| 0 <= i <= n && b[i] == a[m];
    var j :| 0 <= j <= m && a[j] == b[n];
    NotBoth(a[m], b[n]);
    hide Before;
  }

  lemma NotBoth(f: Fields, g: Fields)
    ensures !(Before(f, g) && Before(g, f)) && !Before(f, f)
  {
    TextOrder(f.question, g.question, "");
    TextOrder(f.question, f.question, "");
  }

  lemma StrictFront(a: seq<Fields>)
    requires Strict(a) && a != []
    ensures Strict(a[..|a| - 1])
    ensures forall f :: f in a[..|a| - 1] <==> f in a && f != a[|a| - 1]
  {
    hide CompareText;
    var m := |a| - 1;
    assert a == a[..m] + [a[m]];
    forall f | f in a[..m] ensures f != a[m] {
      var k :| 0 <= k < m && a[k] == f;
      NotBoth(f, a[m]);
    }
  }

  /** Order is never authority: any rearrangement of the records gives the same current answers, up to
      normalized fields. */
  lemma OrderIsNeverAuthority(a: seq<Record>, b: seq<Record>)
    requires multiset(a) == multiset(b)
    ensures AllFields(Current(a)) == AllFields(Current(b))
  {
    CurrentLaws(a);
    CurrentLaws(b);
    hide Current, Group, Winner;
    forall f ensures f in AllFields(Current(a)) <==> f in AllFields(Current(b)) {
      if f in AllFields(Current(a)) { Carried(a, b, f); }
      if f in AllFields(Current(b)) { Carried(b, a, f); }
    }
    StrictUnique(AllFields(Current(a)), AllFields(Current(b)));
  }

  lemma Carried(a: seq<Record>, b: seq<Record>, f: Fields)
    requires multiset(a) == multiset(b) && f in AllFields(Current(a))
    ensures f in AllFields(Current(b))
  {
    CurrentLaws(a);
    CurrentLaws(b);
    hide Current, Group, Winner;
    var i :| 0 <= i < |Current(a)| && Current(a)[i].fields == f;
    assert Current(a)[i] in Current(a);
    SameGroup(a, b, f.question);
    WinnerForgetsOrder(Group(a, f.question), Group(b, f.question));
    var w := Winner(Group(b, f.question)).value;
    assert w in Current(b);
    var j :| 0 <= j < |Current(b)| && Current(b)[j] == w;
    assert AllFields(Current(b))[j] == f;
  }

  // ---------- adding a record ----------

  lemma GroupAdd(rs: seq<Record>, o: Record, q: string)
    ensures Group(rs + [o], q) == if o.fields.question == q then Group(rs, q) + [o] else Group(rs, q)
  {
    assert (rs + [o])[..|rs|] == rs;
  }

  predicate Older(o: Record, r: Record) {
    o.fields.at.Some? && r.fields.at.Some? && o.fields.at.value < r.fields.at.value
  }

  lemma OlderKeepsCandidate(g: seq<Record>, o: Record, r: Record)
    requires AllTimed(g) && r in g && Older(o, r)
    ensures Winner(g + [o]) == Winner(g)
  {
    var h := g + [o];
    NewestLaws(g);
    assert h[..|g|] == g;
    assert AllTimed(h) by { TimedMembers(g); TimedMembers(h); }
    assert Newest(h) == Newest(g);
    assert Latest(h, Newest(g)) == Latest(g, Newest(g));
    assert Candidate(h) == Candidate(g) by {
      CandidateOfTimed(g);
      hide Newest, Latest, AllTimed, SortRecords;
    }
  }

  /** A record older than one in a fully timed group changes nothing. */
  lemma OlderChangesNothing(rs: seq<Record>, o: Record, r: Record)
    requires r in Group(rs, o.fields.question) && AllTimed(Group(rs, o.fields.question)) && Older(o, r)
    ensures AllFields(Current(rs + [o])) == AllFields(Current(rs))
  {
    var all := rs + [o];
    CurrentLaws(rs);
    CurrentLaws(all);
    hide Current, Winner, Candidate, Group;
    forall w ensures w in Current(all) <==> w in Current(rs) {
      GroupAdd(rs, o, w.fields.question);
      if w.fields.question == o.fields.question { OlderKeepsCandidate(Group(rs, o.fields.question), o, r); }
    }
    SameFields(Current(all), Current(rs));
  }

  lemma SameFields(a: seq<Record>, b: seq<Record>)
    requires Strict(AllFields(a)) && Strict(AllFields(b)) && forall w :: w in a <==> w in b
    ensures AllFields(a) == AllFields(b)
  {
    hide Before;
    forall f ensures f in AllFields(a) <==> f in AllFields(b) {
      if f in AllFields(a) {
        var i :| 0 <= i < |a| && AllFields(a)[i] == f;
        assert a[i] in b;
        var j :| 0 <= j < |b| && b[j] == a[i];
        assert AllFields(b)[j] == f;
      }
      if f in AllFields(b) {
        var i :| 0 <= i < |b| && AllFields(b)[i] == f;
        assert b[i] in a;
        var j :| 0 <= j < |a| && a[j] == b[i];
        assert AllFields(a)[j] == f;
      }
    }
    StrictUnique(AllFields(a), AllFields(b));
  }

  /** A record newer than every other one of its question decides alone: it is the current answer if it
      is an answer with text, and otherwise the question has none; other questions are as before. */
  lemma NewestDecides(rs: seq<Record>, r: Record)
    requires r.fields.at.Some? && r.fields.question != ""
    requires forall s :: s in rs && s.fields.question == r.fields.question ==> Older(s, r)
    ensures var now := Current(rs + [r]);
            forall w :: w in now <==>
              if w.fields.question == r.fields.question then w == r && r.fields.status == Answered && r.fields.text != ""
              else w in Current(rs)
  {
    var all := rs + [r];
    var q := r.fields.question;
    hide Current, Winner, Group, Strict;
    CurrentLaws(rs);
    CurrentLaws(all);
    GroupMembers(rs, q);
    NewestAlone(Group(rs, q), r);
    forall w ensures w in Current(all) <==>
      if w.fields.question == q then w == r && r.fields.status == Answered && r.fields.text != "" else w in Current(rs)
    {
      GroupAdd(rs, r, w.fields.question);
    }
  }

  lemma NewestAlone(g: seq<Record>, r: Record)
    requires r.fields.at.Some? && forall s :: s in g ==> Older(s, r)
    ensures Winner(g + [r]) == if r.fields.status == Answered && r.fields.text != "" then Some(r) else None
  {
    var h := g + [r];
    assert h[..|g|] == g;
    TimedMembers(g);
    TimedMembers(h);
    if g != [] { NewestLaws(g); }
    assert Newest(h) == r.fields.at.value;
    LatestNone(g, r.fields.at.value);
  }

  lemma LatestNone(g: seq<Record>, t: int)
    requires forall s :: s in g ==> s.fields.at != Some(t)
    ensures Latest(g, t) == []
  {
    LatestMembers(g, t);
    assert Latest(g, t) != [] ==> Latest(g, t)[0] in Latest(g, t);
  }
}
