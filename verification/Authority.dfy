/** Which recorded answers are current: one per question at most, never decided by list order
    (mas/clarifications.py). */
module Authority {
  import opened Collections
  import opened Ordering

  datatype Status = Open | Answered | Unavailable | Superseded | OtherStatus(name: string)

  /** A stored answer with its normalized fields; `raw` is the record as it was stored. */
  datatype Record = Record(fields: Fields, raw: string)

  datatype Fields = Fields(question: string, id: string, text: string, status: Status, at: Option<int>)

  /** `_authoritative_answer_sort_key`; a missing time sorts before every time. */
  function SortKey(r: Record): Value {
    var f := r.fields;
    Tuple([Str(f.question), Str(f.id), Tuple(if f.at.Some? then [Num(f.at.value)] else []), Str(f.text)])
  }

  function WithKeys(rs: seq<Record>): seq<Keyed<Record>> {
    Map(r => Keyed(SortKey(r), r), rs)
  }

  function SortRecords(rs: seq<Record>): seq<Record> {
    Map((k: Keyed<Record>) => k.item, Sort(WithKeys(rs)))
  }

  function Group(rs: seq<Record>, question: string): seq<Record> {
    if rs == [] then []
    else Group(rs[..|rs| - 1], question) + if rs[|rs| - 1].fields.question == question then [rs[|rs| - 1]] else []
  }

  predicate AllTimed(g: seq<Record>) {
    forall i :: 0 <= i < |g| ==> g[i].fields.at.Some?
  }

  /** The newest time of a group. */
  function Newest(g: seq<Record>): (t: int)
    requires g != [] && AllTimed(g)
  {
    var n := |g| - 1;
    var t := g[n].fields.at.value;
    if n == 0 then t else if Newest(g[..n]) > t then Newest(g[..n]) else t
  }

  function Latest(g: seq<Record>, t: int): seq<Record> {
    if g == [] then []
    else Latest(g[..|g| - 1], t) + if g[|g| - 1].fields.at == Some(t) then [g[|g| - 1]] else []
  }

  /** Equal-time records agree when all are answers with one text. */
  predicate Agree(latest: seq<Record>) {
    forall i :: 0 <= i < |latest| ==> latest[i].fields.status == Answered && latest[i].fields.text == latest[0].fields.text
  }

  function Candidate(g: seq<Record>): Option<Record>
    requires g != []
  {
    if !AllTimed(g) then if |g| == 1 then Some(g[0]) else None
    else
      var latest := Latest(g, Newest(g));
      if |latest| > 1 && !Agree(latest) then None
      else if latest == [] then None
      else if |latest| == 1 then Some(latest[0]) else Some(SortRecords(latest)[0])
  }

  /** The current answer of one question's records, if any. */
  function Winner(g: seq<Record>): Option<Record> {
    if g == [] then None
    else
      var c := Candidate(g);
      if c.Some? && c.value.fields.status == Answered && c.value.fields.text != "" then c else None
  }

  /** The questions answered, in the order first met; a blank question is none. */
  function Questions(rs: seq<Record>): seq<string> {
    if rs == [] then []
    else
      var front, q := Questions(rs[..|rs| - 1]), rs[|rs| - 1].fields.question;
      if q == "" || q in front then front else front + [q]
  }

  function Winners(rs: seq<Record>, questions: seq<string>): seq<Record> {
    if questions == [] then []
    else
      var n := |questions| - 1;
      var w := Winner(Group(rs, questions[n]));
      Winners(rs, questions[..n]) + if w.Some? then [w.value] else []
  }

  function Current(rs: seq<Record>): seq<Record> {
    SortRecords(Winners(rs, Questions(rs)))
  }

  lemma GroupStep(rs: seq<Record>, i: nat, q: string)
    requires i < |rs|
    ensures Group(rs[..i + 1], q) == Group(rs[..i], q) + if rs[i].fields.question == q then [rs[i]] else []
  {
    assert rs[..i + 1][..i] == rs[..i];
  }

  lemma QuestionsStep(rs: seq<Record>, i: nat)
    requires i < |rs|
    ensures var q := rs[i].fields.question; var front := Questions(rs[..i]);
            Questions(rs[..i + 1]) == if q == "" || q in front then front else front + [q]
  {
    assert rs[..i + 1][..i] == rs[..i];
  }

  /** A question that was not met has no records. */
  lemma {:induction false} Unmet(rs: seq<Record>, q: string)
    ensures q != "" && q !in Questions(rs) ==> Group(rs, q) == []
    ensures "" !in Questions(rs)
    decreases |rs|
  {
    if rs != [] { Unmet(rs[..|rs| - 1], q); }
  }

  /** `current_authoritative_answers`, its grouping loop. */
  method GroupAnswers(records: seq<Record>) returns (order: seq<string>, grouped: map<string, seq<Record>>)
    ensures order == Questions(records)
    ensures forall q :: q in order ==> q in grouped && grouped[q] == Group(records, q)
  {
    order, grouped := [], map[];
    for i := 0 to |records|
      invariant order == Questions(records[..i])
      invariant forall q :: q in grouped <==> q in order
      invariant forall q :: q in grouped ==> grouped[q] == Group(records[..i], q)
    {
      var r := records[i];
      var q := r.fields.question;
      QuestionsStep(records, i);
      Unmet(records[..i], q);
      forall p ensures Group(records[..i + 1], p) == Group(records[..i], p) + if q == p then [r] else [] {
        GroupStep(records, i, p);
      }
      hide Questions, Group;
      if q != "" {
        if q !in grouped {
          order := order + [q];
          grouped := grouped[q := []];
        }
        grouped := grouped[q := grouped[q] + [r]];
      }
    }
    assert records[..|records|] == records;
  }

  /** `current_authoritative_answers`. */
  method CurrentAuthoritativeAnswers(records: seq<Record>) returns (current: seq<Record>)
    ensures current == Current(records)
  {
    var order, grouped := GroupAnswers(records);
    var selected: seq<Record> := [];
    hide Winner;
    for i := 0 to |order|
      invariant selected == Winners(records, order[..i])
    {
      assert order[..i + 1][..i] == order[..i];
      assert order[i] in order;
      var w := Winner(grouped[order[i]]);
      if w.Some? { selected := selected + [w.value]; }
    }
    assert order[..|order|] == order;
    current := SortRecords(selected);
  }
}
