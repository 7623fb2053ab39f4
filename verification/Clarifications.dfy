/** Clarification questions and answers over their life (mas/clarifications.py, mas/api.py). */
module Clarifications {
  import opened Collections
  import opened Text
  import opened Authority
  import opened AuthorityLaws

  datatype Question = Question(id: string, gap: string, status: Status)

  /** A recorded answer; its identity is a digest of the question and the ordinal. */
  datatype Answer = Answer(question: string, ordinal: nat, text: string, status: Status, at: int)

  datatype Desk = Desk(cycles: seq<seq<Question>>, answers: seq<Answer>)

  datatype Refusal = EmptyAnswer | UnknownQuestion | SupersededQuestion

  datatype Result<+T> = Ok(value: T) | Refused(why: Refusal)

  // ---------- looking a question up ----------

  function IndexIn(cycle: seq<Question>, id: string): (k: nat)
    ensures k <= |cycle|
    ensures k < |cycle| ==> cycle[k].id == id
    ensures forall x :: 0 <= x < k ==> cycle[x].id != id
  {
    if cycle == [] || cycle[0].id == id then 0 else 1 + IndexIn(cycle[1..], id)
  }

  /** The cycle of `_find_question`: the last one with such a question. */
  function CycleOf(cycles: seq<seq<Question>>, id: string): Option<nat> {
    if cycles == [] then None
    else
      var n := |cycles| - 1;
      if IndexIn(cycles[n], id) < |cycles[n]| then Some(n) else CycleOf(cycles[..n], id)
  }

  lemma {:induction false} CycleOfLaws(cycles: seq<seq<Question>>, id: string)
    ensures CycleOf(cycles, id).Some? ==>
            CycleOf(cycles, id).value < |cycles| && IndexIn(cycles[CycleOf(cycles, id).value], id) < |cycles[CycleOf(cycles, id).value]|
    decreases |cycles|
  {
    if cycles != [] { CycleOfLaws(cycles[..|cycles| - 1], id); }
  }

  /** `_find_question`: the first question of that id in the last cycle that has one. */
  method FindQuestion(cycles: seq<seq<Question>>, id: string) returns (at: Option<(nat, nat)>)
    ensures at.Some? <==> exists c, k :: 0 <= c < |cycles| && 0 <= k < |cycles[c]| && cycles[c][k].id == id
    ensures at.Some? ==> var (c, k) := at.value;
            && CycleOf(cycles, id) == Some(c) && c < |cycles| && k == IndexIn(cycles[c], id) && k < |cycles[c]| && cycles[c][k].id == id
            && forall d, x :: c < d < |cycles| && 0 <= x < |cycles[d]| ==> cycles[d][x].id != id
    ensures at.None? ==> CycleOf(cycles, id) == None
  {
    var c := |cycles|;
    assert cycles[..c] == cycles;
    while c > 0
      invariant 0 <= c <= |cycles|
      invariant CycleOf(cycles, id) == CycleOf(cycles[..c], id)
      invariant forall d, x :: c <= d < |cycles| && 0 <= x < |cycles[d]| ==> cycles[d][x].id != id
    {
      c := c - 1;
      assert cycles[..c + 1][..c] == cycles[..c];
      var k := IndexIn(cycles[c], id);
      if k < |cycles[c]| {
        return Some((c, k));
      }
    }
    at := None;
  }

  function SetStatus(cycles: seq<seq<Question>>, c: nat, k: nat, status: Status): seq<seq<Question>>
    requires c < |cycles| && k < |cycles[c]|
  {
    cycles[c := cycles[c][k := cycles[c][k].(status := status)]]
  }

  function CountFor(answers: seq<Answer>, id: string): nat {
    if answers == [] then 0
    else CountFor(answers[..|answers| - 1], id) + if answers[|answers| - 1].question == id then 1 else 0
  }

  // ---------- the operations ----------

  /** Answer or waive the question: its status moves and a record is appended. */
  function Resolve(d: Desk, id: string, text: string, status: Status, now: int): Result<Desk> {
    CycleOfLaws(d.cycles, id);
    var c := CycleOf(d.cycles, id);
    if c.None? then Refused(UnknownQuestion)
    else
      var k := IndexIn(d.cycles[c.value], id);
      if d.cycles[c.value][k].status == Superseded then Refused(SupersededQuestion)
      else Ok(Desk(SetStatus(d.cycles, c.value, k, status), d.answers + [Answer(id, 1 + CountFor(d.answers, id), text, status, now)]))
  }

  /** `record_clarification_answer`. */
  function RecordAnswer(d: Desk, id: string, text: string, now: int): Result<Desk> {
    if Strip(text) == "" then Refused(EmptyAnswer) else Resolve(d, id, Strip(text), Answered, now)
  }

  /** `mark_clarification_unavailable`. */
  function MarkUnavailable(d: Desk, id: string, now: int): Result<Desk> {
    Resolve(d, id, "Unavailable", Unavailable, now)
  }

  datatype Draft = Draft(id: string, gap: string)

  function Opened(drafts: seq<Draft>): seq<Question> {
    Map((x: Draft) => Question(x.id, x.gap, Open), drafts)
  }

  /** `same_gap_set`. */
  predicate SameGaps(cycle: seq<Question>, drafts: seq<Draft>) {
    Map((q: Question) => q.gap, cycle) == Map((x: Draft) => x.gap, drafts)
  }

  function Closed(cycle: seq<Question>): seq<Question> {
    Map((q: Question) => if q.status == Open then q.(status := Superseded) else q, cycle)
  }

  /** `create_clarification_cycle`: the same gaps again keep the last cycle; otherwise its open
      questions are superseded, like all others, and a new cycle is appended. */
  function CreateCycle(d: Desk, drafts: seq<Draft>): Desk {
    if d.cycles != [] && SameGaps(d.cycles[|d.cycles| - 1], drafts) then d
    else d.(cycles := Map((cycle: seq<Question>) => Closed(cycle), d.cycles) + [Opened(drafts)])
  }

  datatype Op = Create(drafts: seq<Draft>) | Answering(id: string, text: string, now: int) | Waiving(id: string, now: int)

  /** A refused operation leaves everything as it was. */
  function Apply(d: Desk, op: Op): Desk {
    match op
    case Create(drafts) => CreateCycle(d, drafts)
    case Answering(id, text, now) => var r := RecordAnswer(d, id, text, now); if r.Ok? then r.value else d
    case Waiving(id, now) => var r := MarkUnavailable(d, id, now); if r.Ok? then r.value else d
  }

  function History(d: Desk, ops: seq<Op>): Desk {
    if ops == [] then d else Apply(History(d, ops[..|ops| - 1]), ops[|ops| - 1])
  }

  /** The project's clarification state, assigned field by field. */
  class State {
    var cycles: seq<seq<Question>>
    var answers: seq<Answer>

    function Snapshot(): Desk
      reads this
    {
      Desk.Desk(cycles, answers)
    }

    constructor ()
      ensures Snapshot() == Desk.Desk([], [])
    {
      cycles, answers := [], [];
    }

    /** `_next_answer_id`, as an ordinal. */
    method NextOrdinal(id: string) returns (n: nat)
      ensures n == 1 + CountFor(answers, id)
    {
      n := 1;
      for i := 0 to |answers|
        invariant n == 1 + CountFor(answers[..i], id)
      {
        assert answers[..i + 1][..i] == answers[..i];
        if answers[i].question == id { n := n + 1; }
      }
      assert answers[..|answers|] == answers;
    }

    method ResolveQuestion(id: string, text: string, status: Status, now: int) returns (refusal: Option<Refusal>)
      modifies this
      ensures var r := Resolve(old(Snapshot()), id, text, status, now);
              if r.Ok? then refusal == None && Snapshot() == r.value else refusal == Some(r.why) && Snapshot() == old(Snapshot())
    {
      var found := FindQuestion(cycles, id);
      if found.None? { return Some(UnknownQuestion); }
      var (c, k) := found.value;
      if cycles[c][k].status == Superseded { return Some(SupersededQuestion); }
      var ordinal := NextOrdinal(id);
      cycles := SetStatus(cycles, c, k, status);
      answers := answers + [Answer(id, ordinal, text, status, now)];
      refusal := None;
    }

    method RecordClarificationAnswer(id: string, text: string, now: int) returns (refusal: Option<Refusal>)
      modifies this
      ensures var r := RecordAnswer(old(Snapshot()), id, text, now);
              if r.Ok? then refusal == None && Snapshot() == r.value else refusal == Some(r.why) && Snapshot() == old(Snapshot())
    {
      var clean := Strip(text);
      if clean == "" { return Some(EmptyAnswer); }
      refusal := ResolveQuestion(id, clean, Answered, now);
    }

    method MarkClarificationUnavailable(id: string, now: int) returns (refusal: Option<Refusal>)
      modifies this
      ensures var r := MarkUnavailable(old(Snapshot()), id, now);
              if r.Ok? then refusal == None && Snapshot() == r.value else refusal == Some(r.why) && Snapshot() == old(Snapshot())
    {
      refusal := ResolveQuestion(id, "Unavailable", Unavailable, now);
    }

    /** `supersede_open_questions`. */
    method SupersedeOpenQuestions()
      modifies `cycles
      ensures cycles == Map((cycle: seq<Question>) => Closed(cycle), old(cycles))
    {
      ghost var before := cycles;
      for c := 0 to |cycles|
        invariant |cycles| == |before|
        invariant forall d :: 0 <= d < c ==> cycles[d] == Closed(before[d])
        invariant forall d :: c <= d < |before| ==> cycles[d] == before[d]
      {
        for k := 0 to |cycles[c]|
          invariant |cycles| == |before| && |cycles[c]| == |before[c]|
          invariant forall d :: 0 <= d < c ==> cycles[d] == Closed(before[d])
          invariant forall d :: c < d < |before| ==> cycles[d] == before[d]
          invariant forall x :: 0 <= x < k ==> cycles[c][x] == Closed(before[c])[x]
          invariant forall x :: k <= x < |before[c]| ==> cycles[c][x] == before[c][x]
        {
          if cycles[c][k].status == Open { cycles := SetStatus(cycles, c, k, Superseded); }
        }
        assert cycles[c] == Closed(before[c]);
      }
    }

    /** `create_clarification_cycle`, given the generated questions. */
    method CreateClarificationCycle(drafts: seq<Draft>)
      modifies `cycles
      ensures Snapshot() == CreateCycle(old(Snapshot()), drafts)
    {
      if cycles == [] || !SameGaps(cycles[|cycles| - 1], drafts) {
        SupersedeOpenQuestions();
        cycles := cycles + [Opened(drafts)];
      }
    }
  }

  // ---------- what one operation does ----------

  /** The question an operation speaks of: the first of that id in the last cycle that has one. */
  predicate IsMeant(cycles: seq<seq<Question>>, id: string, c: nat, k: nat) {
    && c < |cycles| && k < |cycles[c]| && cycles[c][k].id == id
    && (forall x :: 0 <= x < k ==> cycles[c][x].id != id)
    && (forall d, x :: c < d < |cycles| && 0 <= x < |cycles[d]| ==> cycles[d][x].id != id)
  }

  /** Exactly the one question moved to the status. */
  ghost predicate OnlyMoved(before: seq<seq<Question>>, after: seq<seq<Question>>, c: nat, k: nat, status: Status)
    requires c < |before| && k < |before[c]|
  {
    && |after| == |before| && (forall d :: 0 <= d < |before| ==> |after[d]| == |before[d]|)
    && after[c][k] == before[c][k].(status := status)
    && forall d, x :: 0 <= d < |before| && 0 <= x < |before[d]| && (d != c || x != k) ==> after[d][x] == before[d][x]
  }

  lemma {:induction false} CycleIsMeant(cycles: seq<seq<Question>>, id: string)
    ensures var c := CycleOf(cycles, id);
            if c.Some? then c.value < |cycles| && IsMeant(cycles, id, c.value, IndexIn(cycles[c.value], id))
            else forall d, x :: 0 <= d < |cycles| && 0 <= x < |cycles[d]| ==> cycles[d][x].id != id
    decreases |cycles|
  {
    if cycles != [] {
      var n := |cycles| - 1;
      CycleIsMeant(cycles[..n], id);
      forall d, x | 0 <= d < n && 0 <= x < |cycles[d]| ensures cycles[..n][d][x] == cycles[d][x] {}
    }
  }

  /** The records of a question, by position. */
  function RecordsOf(answers: seq<Answer>, id: string): set<nat> {
    set i: nat | i < |answers| && answers[i].question == id
  }

  /** Ordinals count the records of the one question. */
  lemma {:induction false} CountsOwn(answers: seq<Answer>, id: string)
    ensures CountFor(answers, id) == |RecordsOf(answers, id)|
    decreases |answers|
  {
    if answers == [] {
      assert RecordsOf(answers, id) == {};
    } else {
      var n := |answers| - 1;
      var front := RecordsOf(answers[..n], id);
      CountsOwn(answers[..n], id);
      assert RecordsOf(answers, id) == front + if answers[n].question == id then {n} else {};
      assert n !in front;
    }
  }

  /** A resolution: without such a question it is refused; a superseded one refuses it; otherwise
      exactly the question that is meant takes the status, and one record is appended. */
  lemma ResolutionMarks(d: Desk, id: string, text: string, status: Status, now: int, c: nat, k: nat)
    requires IsMeant(d.cycles, id, c, k)
    ensures var r := Resolve(d, id, text, status, now);
            if d.cycles[c][k].status == Superseded then r == Refused(SupersededQuestion)
            else
              && r.Ok? && OnlyMoved(d.cycles, r.value.cycles, c, k, status)
              && r.value.answers == d.answers + [Answer(id, 1 + CountFor(d.answers, id), text, status, now)]
  {
    CycleIsMeant(d.cycles, id);
    MeantOnce(d.cycles, id, c, k);
    hide CountFor, CycleOf, IndexIn;
  }

  lemma MeantOnce(cycles: seq<seq<Question>>, id: string, c: nat, k: nat)
    requires IsMeant(cycles, id, c, k)
    ensures CycleOf(cycles, id) == Some(c) && IndexIn(cycles[c], id) == k
  {
    CycleIsMeant(cycles, id);
    hide CycleOf;
  }

  lemma UnknownRefused(d: Desk, id: string, text: string, status: Status, now: int)
    requires forall c, x :: 0 <= c < |d.cycles| && 0 <= x < |d.cycles[c]| ==> d.cycles[c][x].id != id
    ensures Resolve(d, id, text, status, now) == Refused(UnknownQuestion)
  {
    CycleIsMeant(d.cycles, id);
    hide CycleOf, IndexIn;
  }

  /** An answer with text marks its question answered and is kept trimmed; a blank one is refused; a
      waiver marks it unavailable. */
  lemma AnswerMarks(d: Desk, id: string, text: string, now: int, c: nat, k: nat)
    requires IsMeant(d.cycles, id, c, k) && d.cycles[c][k].status != Superseded
    ensures var r := RecordAnswer(d, id, text, now);
            if All(Space, text) then r == Refused(EmptyAnswer)
            else
              && r.Ok? && OnlyMoved(d.cycles, r.value.cycles, c, k, Answered)
              && r.value.answers == d.answers + [Answer(id, 1 + CountFor(d.answers, id), Strip(text), Answered, now)]
    ensures var r := MarkUnavailable(d, id, now);
            && r.Ok? && OnlyMoved(d.cycles, r.value.cycles, c, k, Unavailable)
            && r.value.answers == d.answers + [Answer(id, 1 + CountFor(d.answers, id), "Unavailable", Unavailable, now)]
  {
    BlankStrips(text);
    ResolutionMarks(d, id, Strip(text), Answered, now, c, k);
    ResolutionMarks(d, id, "Unavailable", Unavailable, now, c, k);
    hide Resolve, Strip, OnlyMoved, IsMeant, CountFor;
  }

  lemma BlankStrips(text: string)
    ensures Strip(text) == "" <==> All(Space, text)
  {
    SkipStops(Space, text, 0);
    var f := Skip(Space, text, 0);
    var l := text[f..];
    if Strip(text) == "" { assert l == ""; }
  }

  /** A new cycle: with the gaps of the last one it changes nothing; otherwise it is appended with all
      its questions open, every question open before is superseded, and nothing else moves. */
  lemma CycleOutcome(d: Desk, drafts: seq<Draft>)
    ensures var e := CreateCycle(d, drafts); var n := |d.cycles|;
            && e.answers == d.answers
            && if n > 0 && |d.cycles[n - 1]| == |drafts| && (forall k :: 0 <= k < |drafts| ==> d.cycles[n - 1][k].gap == drafts[k].gap) then e == d
               else
                 && |e.cycles| == n + 1 && |e.cycles[n]| == |drafts|
                 && (forall k :: 0 <= k < |drafts| ==> e.cycles[n][k] == Question(drafts[k].id, drafts[k].gap, Open))
                 && (forall c :: 0 <= c < n ==> |e.cycles[c]| == |d.cycles[c]|)
                 && forall c, k :: 0 <= c < n && 0 <= k < |d.cycles[c]| ==>
                      e.cycles[c][k] == d.cycles[c][k].(status := if d.cycles[c][k].status == Open then Superseded else d.cycles[c][k].status)
  {
    var n := |d.cycles|;
    if n > 0 { GapsByPosition(d.cycles[n - 1], drafts); }
    hide SameGaps;
  }

  lemma GapsByPosition(cycle: seq<Question>, drafts: seq<Draft>)
    ensures SameGaps(cycle, drafts) <==> |cycle| == |drafts| && forall k :: 0 <= k < |drafts| ==> cycle[k].gap == drafts[k].gap
  {
    var a, b := Map((q: Question) => q.gap, cycle), Map((x: Draft) => x.gap, drafts);
    assert |a| == |cycle| && |b| == |drafts|;
    if a == b { forall k | 0 <= k < |drafts| ensures cycle[k].gap == drafts[k].gap { assert a[k] == b[k]; } }
  }

  // ---------- what every history keeps ----------

  /** Open questions lie in the last cycle only. */
  predicate OpenAtTheEnd(d: Desk) {
    forall c, k :: 0 <= c < |d.cycles| - 1 && 0 <= k < |d.cycles[c]| ==> d.cycles[c][k].status != Open
  }

  /** Answers to one question are numbered one after the other. */
  predicate Numbered(answers: seq<Answer>) {
    forall i :: 0 <= i < |answers| ==> answers[i].ordinal == 1 + CountFor(answers[..i], answers[i].question)
  }

  /** Questions only move forward: none goes, changes its text, reopens or comes back from superseded;
      answers are only appended. */
  predicate Advances(d: Desk, e: Desk) {
    && |d.cycles| <= |e.cycles| && d.answers <= e.answers
    && (forall c :: 0 <= c < |d.cycles| ==> |e.cycles[c]| == |d.cycles[c]|)
    && forall c, k :: 0 <= c < |d.cycles| && 0 <= k < |d.cycles[c]| ==> Forward(d.cycles[c][k], e.cycles[c][k])
  }

  predicate Forward(q: Question, r: Question) {
    && r.id == q.id && r.gap == q.gap
    && (q.status == Superseded ==> r.status == Superseded)
    && (r.status == Open ==> q.status == Open)
  }

  lemma ResolveKeeps(d: Desk, id: string, text: string, status: Status, now: int)
    requires OpenAtTheEnd(d) && Numbered(d.answers) && status != Open
    ensures var r := Resolve(d, id, text, status, now);
            r.Ok? ==> OpenAtTheEnd(r.value) && Numbered(r.value.answers) && Advances(d, r.value)
  {
    CycleOfLaws(d.cycles, id);
    var r := Resolve(d, id, text, status, now);
    if r.Ok? {
      var n := |d.answers|;
      forall i | 0 <= i <= n ensures r.value.answers[i].ordinal == 1 + CountFor(r.value.answers[..i], r.value.answers[i].question) {
        assert r.value.answers[..i] == d.answers[..i];
      }
      assert d.answers <= r.value.answers;
    }
  }

  lemma CreateKeeps(d: Desk, drafts: seq<Draft>)
    requires OpenAtTheEnd(d) && Numbered(d.answers)
    ensures var e := CreateCycle(d, drafts); OpenAtTheEnd(e) && Numbered(e.answers) && Advances(d, e)
  {
    hide Numbered;
  }

  lemma StepKeeps(d: Desk, op: Op)
    requires OpenAtTheEnd(d) && Numbered(d.answers)
    ensures OpenAtTheEnd(Apply(d, op)) && Numbered(Apply(d, op).answers) && Advances(d, Apply(d, op))
  {
    hide CreateCycle, Resolve, OpenAtTheEnd, Numbered, Strip;
    Itself(d);
    match op
    case Create(drafts) => CreateKeeps(d, drafts);
    case Answering(id, text, now) => ResolveKeeps(d, id, Strip(text), Answered, now);
    case Waiving(id, now) => ResolveKeeps(d, id, "Unavailable", Unavailable, now);
  }

  lemma Itself(d: Desk)
    ensures Advances(d, d)
  {
  }

  lemma Onward(d: Desk, e: Desk, f: Desk)
    requires Advances(d, e) && Advances(e, f)
    ensures Advances(d, f)
  {
    assert d.answers <= f.answers by {
      assert d.answers == e.answers[..|d.answers|] && e.answers == f.answers[..|e.answers|];
      assert f.answers[..|e.answers|][..|d.answers|] == f.answers[..|d.answers|];
    }
    forall c, k | 0 <= c < |d.cycles| && 0 <= k < |d.cycles[c]|
      ensures Forward(d.cycles[c][k], f.cycles[c][k])
    {
      assert Forward(d.cycles[c][k], e.cycles[c][k]);
      assert Forward(e.cycles[c][k], f.cycles[c][k]);
    }
  }

  lemma {:induction false} HistoryKeeps(d: Desk, ops: seq<Op>)
    requires OpenAtTheEnd(d) && Numbered(d.answers)
    ensures var e := History(d, ops); OpenAtTheEnd(e) && Numbered(e.answers) && Advances(d, e)
    decreases |ops|
  {
    hide Apply, OpenAtTheEnd, Numbered, Advances;
    Itself(d);
    if ops != [] {
      var n := |ops| - 1;
      HistoryKeeps(d, ops[..n]);
      StepKeeps(History(d, ops[..n]), ops[n]);
      Onward(d, History(d, ops[..n]), History(d, ops));
    }
  }

  lemma {:induction false} CountGrows(answers: seq<Answer>, i: nat, j: nat, id: string)
    requires i <= j <= |answers|
    ensures CountFor(answers[..i], id) <= CountFor(answers[..j], id)
    ensures i < j && answers[i].question == id ==> CountFor(answers[..i], id) < CountFor(answers[..j], id)
    decreases j
  {
    if i < j {
      CountGrows(answers, i, j - 1, id);
      assert answers[..j][..j - 1] == answers[..j - 1];
    }
  }

  /** Clarification lifecycle: in every reachable state open questions lie in the last cycle only, a
      superseded question stays so, and no answer identity (question and ordinal) repeats. */
  lemma Lifecycle(ops: seq<Op>, more: seq<Op>)
    ensures var d := History(Desk([], []), ops); var e := History(d, more);
            && OpenAtTheEnd(d)
            && Advances(d, e)
            && forall i, j :: 0 <= i < j < |d.answers| && d.answers[i].question == d.answers[j].question ==>
                 d.answers[i].ordinal < d.answers[j].ordinal
  {
    var d := History(Desk([], []), ops);
    HistoryKeeps(Desk([], []), ops);
    HistoryKeeps(d, more);
    hide History, OpenAtTheEnd, Advances;
    forall i, j | 0 <= i < j < |d.answers| && d.answers[i].question == d.answers[j].question
      ensures d.answers[i].ordinal < d.answers[j].ordinal
    {
      CountGrows(d.answers, i, j, d.answers[i].question);
    }
  }

  // ---------- the lifecycle and authority ----------

  /** Reading a stored answer: `norm` is the text normal form, `digest` the identity. */
  datatype Reader = Reader(norm: string -> string, digest: (string, nat) -> string)

  /** A text that is not blank has a normal form that is not empty. */
  ghost predicate Sane(reader: Reader) {
    forall s :: Strip(s) != "" ==> reader.norm(s) != ""
  }

  function Read(reader: Reader, a: Answer): Record {
    Record(Fields(reader.norm(a.question), reader.norm(reader.digest(a.question, a.ordinal)), reader.norm(a.text), a.status, Some(a.at)),
           a.text)
  }

  function ReadAll(reader: Reader, answers: seq<Answer>): seq<Record> {
    Map(a => Read(reader, a), answers)
  }

  /** Every earlier answer to the question is older. */
  ghost predicate Later(reader: Reader, answers: seq<Answer>, id: string, now: int) {
    forall a :: a in answers && reader.norm(a.question) == reader.norm(id) ==> a.at < now
  }

  /** The current answers after a resolution at a later time: the new record decides its question, and
      the other questions are as before. */
  lemma ResolutionDecides(reader: Reader, d: Desk, id: string, text: string, status: Status, now: int)
    requires Resolve(d, id, text, status, now).Ok? && reader.norm(id) != "" && Later(reader, d.answers, id, now)
    ensures var e := Resolve(d, id, text, status, now).value;
            var r := Read(reader, Answer(id, 1 + CountFor(d.answers, id), text, status, now));
            && ReadAll(reader, e.answers) == ReadAll(reader, d.answers) + [r]
            && forall w :: w in Current(ReadAll(reader, e.answers)) <==>
                 if w.fields.question == reader.norm(id) then w == r && status == Answered && reader.norm(text) != ""
                 else w in Current(ReadAll(reader, d.answers))
  {
    var a := Answer(id, 1 + CountFor(d.answers, id), text, status, now);
    var r := Read(reader, a);
    var rs := ReadAll(reader, d.answers);
    ResolveAppends(d, id, text, status, now);
    hide Current, CountFor, Resolve;
    assert ReadAll(reader, d.answers + [a]) == rs + [r];
    forall s | s in rs && s.fields.question == r.fields.question ensures Older(s, r) {
      var i :| 0 <= i < |rs| && rs[i] == s;
      assert d.answers[i] in d.answers && s == Read(reader, d.answers[i]);
    }
    NewestDecides(rs, r);
  }

  lemma ResolveAppends(d: Desk, id: string, text: string, status: Status, now: int)
    requires Resolve(d, id, text, status, now).Ok?
    ensures Resolve(d, id, text, status, now).value.answers
         == d.answers + [Answer(id, 1 + CountFor(d.answers, id), text, status, now)]
  {
    CycleOfLaws(d.cycles, id);
    hide CountFor;
  }

  /** Recording an answer at a later time makes exactly it current for its question. */
  lemma AnswerBecomesCurrent(reader: Reader, d: Desk, id: string, text: string, now: int)
    requires Sane(reader) && RecordAnswer(d, id, text, now).Ok? && reader.norm(id) != "" && Later(reader, d.answers, id, now)
    ensures var e := RecordAnswer(d, id, text, now).value;
            var r := Read(reader, Answer(id, 1 + CountFor(d.answers, id), Strip(text), Answered, now));
            forall w :: w in Current(ReadAll(reader, e.answers)) <==>
              if w.fields.question == reader.norm(id) then w == r else w in Current(ReadAll(reader, d.answers))
  {
    ResolutionDecides(reader, d, id, Strip(text), Answered, now);
    StripTwice(text);
    hide Current, Resolve, CountFor, Strip;
  }

  lemma StripTwice(s: string)
    ensures Strip(Strip(s)) == Strip(s)
  {
    var l := LStrip(s);
    SkipStops(Space, s, 0);
    var t := RStrip(l);
    if t != "" {
      assert t[0] == l[0];
      assert l[0] == s[Skip(Space, s, 0)];
      assert Skip(Space, t, 0) == 0;
      assert LStrip(t) == t;
    }
  }

  /** Marking the question unavailable at a later time then leaves it without a current answer. */
  lemma UnavailableRemovesAuthority(reader: Reader, d: Desk, id: string, now: int)
    requires MarkUnavailable(d, id, now).Ok? && reader.norm(id) != "" && Later(reader, d.answers, id, now)
    ensures var e := MarkUnavailable(d, id, now).value;
            forall w :: w in Current(ReadAll(reader, e.answers)) <==>
              w.fields.question != reader.norm(id) && w in Current(ReadAll(reader, d.answers))
  {
    ResolutionDecides(reader, d, id, "Unavailable", Unavailable, now);
    hide Current, Resolve, CountFor;
  }
}
