/** What one phase run does to the board, whatever the gate, the evidence and the provider do. */
module PhaseOutcome {
  import opened Collections
  import opened Phases
  import opened Policy
  import opened Workflow
  import opened GatewayLaws

  /** Everything on record about one phase. */
  datatype Entry = Entry(
    status: Status,
    output: Option<string>,
    raw: Option<string>,
    confidence: Option<real>,
    summary: bool,
    completedAt: Option<int>,
    failure: Option<Failure>)

  function Look<V>(m: map<Phase, V>, p: Phase): Option<V> {
    if p in m then Some(m[p]) else None
  }

  function At(b: Board, p: Phase): Entry {
    Entry(StatusOf(b, p), Look(b.output, p), Look(b.raw, p), Look(b.confidence, p), p in b.summaries,
          Look(b.completedAt, p), Look(b.failures, p))
  }

  /** Every phase but `p` is exactly as it was. */
  ghost predicate OnlyAt(b: Board, t: Board, p: Phase) {
    forall q :: q != p ==> At(t, q) == At(b, q)
  }

  /** Every phase but those of `ps` is exactly as it was, and those of `ps` have no output left. */
  ghost predicate Cleared(b: Board, t: Board, ps: seq<Phase>) {
    && (forall q :: q !in ps ==> At(t, q) == At(b, q))
    && (forall q :: q in ps ==> !HasOutput(t, q))
  }

  // ---------- invalidation ----------

  lemma ClearOutputKeeps(b: Board, p: Phase)
    ensures OnlyAt(b, ClearOutput(b, p), p) && !HasOutput(ClearOutput(b, p), p)
  {
  }

  lemma MarkStaleKeeps(b: Board, p: Phase)
    ensures OnlyAt(b, MarkStale(b, p), p) && HasOutput(MarkStale(b, p), p) == HasOutput(b, p)
    ensures StatusOf(MarkStale(b, p), p) == Stale
  {
  }

  lemma InvalidateOneEffect(b: Board, p: Phase)
    ensures OnlyAt(b, InvalidateOne(b, p), p) && !HasOutput(InvalidateOne(b, p), p)
  {
    hide Touched, ClearOutput, MarkStale, At;
    ClearOutputKeeps(b, p);
    MarkStaleKeeps(ClearOutput(b, p), p);
  }

  lemma HasOutputAt(b: Board, t: Board, p: Phase)
    requires At(t, p) == At(b, p)
    ensures HasOutput(t, p) == HasOutput(b, p) && StatusOf(t, p) == StatusOf(b, p)
    ensures Finished(t, p) == Finished(b, p)
  {
  }

  /** `invalidate_downstream`: the phases it goes over lose their output, and no other phase is touched. */
  lemma {:induction false} InvalidateAllEffect(b: Board, ps: seq<Phase>)
    ensures Cleared(b, InvalidateAll(b, ps), ps)
    decreases |ps|
  {
    if ps != [] {
      var n := |ps| - 1;
      var mid := InvalidateAll(b, ps[..n]);
      var t := InvalidateOne(mid, ps[n]);
      InvalidateAllEffect(b, ps[..n]);
      InvalidateOneEffect(mid, ps[n]);
      hide InvalidateOne, HasOutput, At;
      assert ps == ps[..n] + [ps[n]];
      forall q ensures q !in ps ==> At(t, q) == At(b, q)
               ensures q in ps ==> !HasOutput(t, q) {
        if q != ps[n] { HasOutputAt(mid, t, q); }
      }
    }
  }

  lemma {:induction false} TouchedAreAmong(b: Board, ps: seq<Phase>)
    ensures forall q :: q in TouchedOf(b, ps) ==> q in ps
    decreases |ps|
  {
    if ps != [] { TouchedAreAmong(b, ps[..|ps| - 1]); }
  }

  lemma ConeOneEffect(b: Board, p: Phase)
    ensures OnlyAt(b, ConeOne(b, p), p) && !HasOutput(ConeOne(b, p), p)
  {
    ForgetPhaseKeeps(b, p);
    StatusKeeps(ForgetPhase(b, p), p, Stale);
    hide HadLifecycle, ForgetPhase, At;
  }

  lemma ForgetPhaseKeeps(b: Board, p: Phase)
    ensures OnlyAt(b, ForgetPhase(b, p), p) && !HasOutput(ForgetPhase(b, p), p)
  {
  }

  lemma StatusKeeps(b: Board, p: Phase, status: Status)
    ensures var t := b.(status := b.status[p := status]);
            OnlyAt(b, t, p) && HasOutput(t, p) == HasOutput(b, p)
  {
  }

  const CONE: seq<Phase> := [Sqi, Monitor, Report, Strategy]

  /** `invalidate_strategy_dependency_cone`: Strategy and the phases derived from it lose their output. */
  lemma ConeEffect(b: Board)
    ensures Cleared(b, StrategyCone(b), CONE)
  {
    var b1 := ConeOne(b, Sqi);
    var b2 := ConeOne(b1, Monitor);
    var b3 := ConeOne(b2, Report);
    ConeOneEffect(b, Sqi);
    ConeOneEffect(b1, Monitor);
    ConeOneEffect(b2, Report);
    StrategyForgotten(b3);
    hide ConeOne, ForgetPhase, At, HasOutput;
    var t := StrategyCone(b);
    forall q ensures q !in CONE ==> At(t, q) == At(b, q)
             ensures q in CONE ==> !HasOutput(t, q) {
      if q != Sqi { HasOutputAt(b, b1, q); }
      if q != Monitor { HasOutputAt(b1, b2, q); }
      if q != Report { HasOutputAt(b2, b3, q); }
      if q != Strategy { HasOutputAt(b3, t, q); }
    }
  }

  lemma StrategyForgotten(b: Board)
    ensures var t := ForgetPhase(b, Strategy);
            var u := t.(raw := Without(t.raw, Strategy));
            OnlyAt(b, u, Strategy) && !HasOutput(u, Strategy)
  {
  }

  // ---------- the outcome of one phase ----------

  /** The phase is completed: output present, full confidence, no failure on record. */
  predicate Completes(t: Board, p: Phase) {
    && StatusOf(t, p) == Completed && HasOutput(t, p) && p !in t.failures
    && p in t.confidence && t.confidence[p] == 1.0
  }

  /** The phase is failed: a failure on record, zero confidence, and no output it did not have before. */
  predicate Breaks(b: Board, t: Board, p: Phase) {
    && StatusOf(t, p) == Failed && p in t.failures
    && p in t.confidence && t.confidence[p] == 0.0
    && (HasOutput(t, p) ==> HasOutput(b, p))
  }

  ghost predicate Outcome(b: Board, t: Board, p: Phase) {
    (Completes(t, p) || Breaks(b, t, p)) && OnlyAt(b, t, p)
  }

  lemma FailOutcome(b: Board, p: Phase, why: Failure)
    ensures Breaks(b, Fail(b, p, why), p) && OnlyAt(b, Fail(b, p, why), p)
  {
    FailOthers(b, p, why);
    hide OnlyAt;
  }

  lemma FailOthers(b: Board, p: Phase, why: Failure)
    ensures OnlyAt(b, Fail(b, p, why), p)
  {
  }

  lemma RejectOutcome(b: Board, p: Phase, text: string, why: Failure)
    ensures Breaks(b, Reject(b, p, text, why), p) && OnlyAt(b, Reject(b, p, text, why), p)
  {
    FailOutcome(b, p, why);
    KeepRawKeeps(Fail(b, p, why), p, text);
    hide Fail, At, HasOutput;
  }

  lemma SettleOutcome(b: Board, p: Phase, doc: Option<string>, text: string)
    ensures Outcome(b, Settle(b, p, doc, text), p)
  {
    StoreKeeps(b, p, doc);
    var t := Store(b, p, doc);
    hide Store, At;
    if HasOutput(t, p) {
      CompleteKeeps(t, p);
    } else {
      KeepRawKeeps(t, p, text);
      FailOutcome(KeepRaw(t, p, text), p, MissingOutput);
    }
  }

  lemma StoreKeeps(b: Board, p: Phase, doc: Option<string>)
    ensures OnlyAt(b, Store(b, p, doc), p)
  {
  }

  lemma CompleteKeeps(b: Board, p: Phase)
    ensures OnlyAt(b, Complete(b, p), p)
    ensures HasOutput(b, p) ==> Completes(Complete(b, p), p)
  {
  }

  lemma KeepRawKeeps(b: Board, p: Phase, text: string)
    ensures OnlyAt(b, KeepRaw(b, p, text), p) && HasOutput(KeepRaw(b, p, text), p) == HasOutput(b, p)
    ensures KeepRaw(b, p, text) == b.(raw := KeepRaw(b, p, text).raw)
  {
  }

  lemma ConcludeOutcome(b: Board, p: Phase, text: string, reading: Reading)
    ensures Outcome(b, Conclude(b, p, text, reading), p)
  {
    hide Settle, Reject, OnlyAt, Completes, Breaks;
    RejectOutcome(b, p, text, ReadingFailure(reading));
    if reading.Payload? { SettleOutcome(b, p, reading.doc, text); }
  }

  lemma ReportOutcome(b: Board, text: string)
    requires text != ""
    ensures Outcome(b, WriteReport(b, text), Report)
  {
    StoreKeeps(b, Report, Some(text));
    CompleteKeeps(Store(b, Report, Some(text)), Report);
    hide At;
  }

  lemma DecideOutcome(b: Board, p: Phase, r: Reply, r2: Reply)
    ensures Outcome(b, Decide(b, p, r, r2), p)
    ensures !r.ok ==> Breaks(b, Decide(b, p, r, r2), p)
  {
    if !r.ok {
      var k := if p == Strategy && r.text != "" then KeepRaw(b, p, r.text) else b;
      KeepRawKeeps(b, p, r.text);
      FailOutcome(k, p, CallFailure(r));
    } else if p == Report {
      ReportOutcome(b, r.text);
    } else {
      hide Conclude, Reject, OnlyAt, Completes, Breaks;
      ConcludeOutcome(b, p, r.text, r.reading);
      ConcludeOutcome(b, p, r2.text, r2.reading);
      RejectOutcome(b, p, if r.reading.Payload? then r2.text else r.text, ProviderError);
    }
  }

  lemma CloseOutcome(b: Board, t: Board, p: Phase, doneAt: int)
    requires Outcome(b, t, p)
    ensures Outcome(b, Close(t, p, doneAt), p)
    ensures StatusOf(Close(t, p, doneAt), p) == StatusOf(t, p) && p in Close(t, p, doneAt).summaries
    ensures Completes(t, p) ==> p in Close(t, p, doneAt).completedAt && Close(t, p, doneAt).completedAt[p] == doneAt
  {
    CloseKeeps(t, p, doneAt);
    hide Close, At;
  }

  lemma CloseKeeps(t: Board, p: Phase, doneAt: int)
    ensures var u := Close(t, p, doneAt);
            && OnlyAt(t, u, p) && p in u.summaries
            && StatusOf(u, p) == StatusOf(t, p) && HasOutput(u, p) == HasOutput(t, p)
            && u.failures == t.failures && u.confidence == t.confidence
            && (StatusOf(t, p) == Completed ==> p in u.completedAt && u.completedAt[p] == doneAt)
  {
    hide OnlyAt, StatusOf, HasOutput;
    CloseOthers(t, p, doneAt);
    SameOwn(t, Close(t, p, doneAt), p);
  }

  lemma SameOwn(b: Board, t: Board, p: Phase)
    ensures t.status == b.status ==> StatusOf(t, p) == StatusOf(b, p)
    ensures t.output == b.output ==> HasOutput(t, p) == HasOutput(b, p)
  {
  }

  lemma CloseOthers(t: Board, p: Phase, doneAt: int)
    ensures OnlyAt(t, Close(t, p, doneAt), p)
  {
  }

  /** A phase whose prerequisites are missing fails, and everything downstream of it loses its output. */
  lemma PrerequisiteFailureEffect(b: Board, down: seq<Phase>, p: Phase)
    ensures var t := PrerequisiteFailure(b, down, p);
            && Breaks(b, t, p) && !HasOutput(t, p)
            && forall q :: q != p ==> if q in down then !HasOutput(t, q) else At(t, q) == At(b, q)
  {
    var c := ClearOutput(b, p);
    var mid := InvalidateAll(c, down);
    var touched := TouchedOf(c, down);
    var t := DropLifecycle(mid, touched);
    InvalidateAllEffect(c, down);
    TouchedAreAmong(c, down);
    ClearOutputKeeps(b, p);
    FailureEntry(t, p);
    hide InvalidateAll, TouchedOf, ClearOutput, Fail;
    var u := PrerequisiteFailure(b, down, p);
    forall q | q != p ensures if q in down then !HasOutput(u, q) else At(u, q) == At(b, q) {
      DropLifecycleAt(mid, touched, q);
      HasOutputAt(t, u, q);
    }
    DropLifecycleAt(mid, touched, p);
    if p !in down { HasOutputAt(c, mid, p); }
  }

  lemma {:induction false} DropLifecycleAt(b: Board, ps: seq<Phase>, q: Phase)
    ensures q !in ps ==> At(DropLifecycle(b, ps), q) == At(b, q)
    ensures HasOutput(DropLifecycle(b, ps), q) ==> HasOutput(b, q)
    decreases |ps|
  {
    if ps != [] {
      var n := |ps| - 1;
      DropLifecycleAt(b, ps[..n], q);
      DropOneAt(DropLifecycle(b, ps[..n]), ps[n], q);
      hide DropOne, At, HasOutput;
    }
  }

  lemma DropOneAt(b: Board, p: Phase, q: Phase)
    ensures q != p ==> At(DropOne(b, p), q) == At(b, q)
    ensures HasOutput(DropOne(b, p), q) ==> HasOutput(b, q)
  {
  }

  lemma TidyKeeps(t: Board, p: Phase)
    ensures var k := t.(summaries := t.summaries - {p}, completedAt := Without(t.completedAt, p));
            HasOutput(k, p) == HasOutput(t, p) && OnlyAt(t, k, p)
  {
  }

  lemma FailureEntry(t: Board, p: Phase)
    ensures var u := Fail(t.(summaries := t.summaries - {p}, completedAt := Without(t.completedAt, p)), p, PrerequisiteFailed);
            Breaks(t, u, p) && OnlyAt(t, u, p)
  {
    hide Fail, At, HasOutput;
    var k := t.(summaries := t.summaries - {p}, completedAt := Without(t.completedAt, p));
    TidyKeeps(t, p);
    FailOutcome(k, p, PrerequisiteFailed);
  }

  // ---------- one phase run ----------

  /** The run completed the phase and stamped it with a new moment. */
  predicate Done(s: Project, t: Project, p: Phase, w: World) {
    && Completes(t.board, p)
    && p in t.board.summaries && p in t.board.completedAt && t.board.completedAt[p] == w.doneAt
    && t.stamps == s.stamps[p := s.clock] && t.clock == s.clock + 1
  }

  predicate Broken(s: Project, t: Project, p: Phase) {
    Breaks(s.board, t.board, p) && t.stamps == s.stamps && t.clock == s.clock
  }

  /** What a phase run may touch besides its own phase. */
  predicate InReach(s: Project, p: Phase, q: Phase) {
    q in Downstream(s.template, p) || (p == Strategy && q in CONE)
  }

  lemma ExecuteOutcome(s: Project, p: Phase, w: World)
    ensures var t := Execute(s, p, w);
            && (Done(s, t, p, w) || Broken(s, t, p)) && OnlyAt(s.board, t.board, p)
            && t.template == s.template && t.current == s.current
  {
    hide Answer, Called, Calls, Decide, Close, OnlyAt, Completes, Breaks, StatusOf;
    var r := Answer(s.controls, p, w.first);
    var r2 := Answer(Called(s, p, w.first).controls, p, w.second);
    var b := Decide(s.board, p, r, r2);
    DecideOutcome(s.board, p, r, r2);
    CloseOutcome(s.board, b, p, w.doneAt);
    CallsKeep(s, p, w);
    OneOrTheOther(s.board, b, p);
    OneOrTheOther(s.board, Close(b, p, w.doneAt), p);
  }

  lemma OneOrTheOther(b: Board, t: Board, p: Phase)
    ensures Completes(t, p) ==> StatusOf(t, p) == Completed
    ensures Breaks(b, t, p) ==> StatusOf(t, p) != Completed
  {
  }

  lemma CallsKeep(s: Project, p: Phase, w: World)
    ensures var t := Calls(s, p, w);
            && t.board == s.board && t.stamps == s.stamps && t.clock == s.clock
            && t.template == s.template && t.current == s.current
  {
  }

  lemma EnterOutcome(s: Project, p: Phase, w: World)
    ensures var t := Enter(s, p, w);
            && (Done(s, t, p, w) || Broken(s, t, p))
            && (forall q :: q != p && q !in Downstream(s.template, p) ==> At(t.board, q) == At(s.board, q))
            && (forall q :: q != p ==> At(t.board, q) == At(s.board, q) || !HasOutput(t.board, q))
            && t.template == s.template && (t.current == p || t.current == s.current)
  {
    hide Execute, PrerequisiteFailure, Gate, StartClock, Fail, HasOutput, At, Downstream, PrerequisitesMet;
    var down := Downstream(s.template, p);
    PrerequisiteFailureEffect(s.board, down, p);
    var c := StartClock(s.controls, w.now);
    var running := s.board.(status := s.board.status[p := Running]);
    StatusKeeps(s.board, p, Running);
    FailOutcome(s.board, p, PolicyBlocked);
    FailOutcome(running, p, PhaseConfiguration);
    FailOutcome(running, p, EvidenceBlocked);
    ExecuteOutcome(s.(board := running, controls := c, current := p), p, w);
  }

  /** `run_phase_node`, whatever the state, the gate, the evidence and the provider do: the phase comes
      out completed or failed, never running; a phase out of reach is exactly as it was; and any other
      phase in reach is as it was or has lost its output. */
  lemma RunPhaseOutcome(s: Project, p: Phase, w: World)
    ensures var t := RunPhase(s, p, w);
            && (Done(s, t, p, w) || Broken(s, t, p))
            && (forall q :: q != p && !InReach(s, p, q) ==> At(t.board, q) == At(s.board, q))
            && (forall q :: q != p ==> At(t.board, q) == At(s.board, q) || !HasOutput(t.board, q))
            && (p == Strategy ==> forall q :: q in CONE && HasOutput(t.board, q) ==> q == p && Completes(t.board, p))
            && t.template == s.template && (t.current == p || t.current == s.current)
  {
    ConeEffect(s.board);
    EnterOutcome(Replaced(s, p), p, w);
    hide Enter, StrategyCone, HasOutput, At, Downstream;
    var u := RunPhase(s, p, w);
    forall q | q != p
      ensures !InReach(s, p, q) ==> At(u.board, q) == At(s.board, q)
      ensures At(u.board, q) == At(s.board, q) || !HasOutput(u.board, q)
      ensures p == Strategy && q in CONE ==> !HasOutput(u.board, q)
    {
      KeepsOutput(Replaced(s, p).board, u.board, q);
    }
    assert Strategy in CONE;
  }

  lemma KeepsOutput(b: Board, t: Board, q: Phase)
    ensures At(t, q) == At(b, q) ==> HasOutput(t, q) == HasOutput(b, q)
  {
  }

  /** After a Strategy run: completed exactly when structured Strategy output is present, and no
      derived phase has output. */
  lemma StrategyCompletion(s: Project, w: World)
    ensures var t := RunPhase(s, Strategy, w);
            && (StatusOf(t.board, Strategy) == Completed <==> HasOutput(t.board, Strategy))
            && !HasOutput(t.board, Sqi) && !HasOutput(t.board, Monitor) && !HasOutput(t.board, Report)
  {
    RunPhaseOutcome(s, Strategy, w);
    hide RunPhase, At, Downstream;
    assert Sqi in CONE && Monitor in CONE && Report in CONE;
  }

  // ---------- where an output comes from ----------

  /** The document of a usable, valid answer. */
  predicate FromPayload(output: Option<string>, r: Response) {
    r.ok && r.reading.Payload? && r.reading.valid && output == r.reading.doc
  }

  /** The output was there before, or one of the two answers brought it. */
  predicate FromAnswers(b: Board, output: Option<string>, p: Phase, first: Response, second: Response) {
    || output == Look(b.output, p)
    || (p == Report && first.ok && output == Some(first.text))
    || (p != Report && (FromPayload(output, first) || FromPayload(output, second)))
  }

  /** An answer that a provider gave brought the output: a report's text, another phase's document. */
  predicate Brings(output: Option<string>, p: Phase, r: Response) {
    if p == Report then r.ok && output == Some(r.text) else FromPayload(output, r)
  }

  predicate SomeBrings(output: Option<string>, p: Phase, attempts: seq<Attempt>) {
    exists k :: 0 <= k < |attempts| && Brings(output, p, attempts[k].answer)
  }

  /** The output was there before, or a provider's usable answer to one of the phase's calls brought it. */
  predicate Sourced(b: Board, output: Option<string>, p: Phase, w: World) {
    output == Look(b.output, p) || SomeBrings(output, p, w.first) || SomeBrings(output, p, w.second)
  }

  lemma DecideSourced(b: Board, p: Phase, r: Reply, r2: Reply)
    ensures FromAnswers(b, Look(Decide(b, p, r, r2).output, p), p, r, r2)
  {
    if r.ok && p != Report {
      ConcludeSourced(b, p, r.text, r.reading);
      ConcludeSourced(b, p, r2.text, r2.reading);
      hide Conclude;
    }
  }

  lemma ConcludeSourced(b: Board, p: Phase, text: string, reading: Reading)
    ensures var o := Look(Conclude(b, p, text, reading).output, p);
            o == Look(b.output, p) || (reading.Payload? && reading.valid && o == reading.doc)
  {
    hide Accept, Reject;
    RejectKeepsOutput(b, p, text, ReadingFailure(reading));
    if reading.Payload? { AcceptKeepsOutput(Store(b, p, reading.doc), p, text); }
  }

  lemma AcceptKeepsOutput(b: Board, p: Phase, text: string)
    ensures Accept(b, p, text).output == b.output
  {
    hide HasOutput, Without;
    var k := KeepRaw(b, p, text);
    assert k.output == b.output;
    assert Fail(k, p, MissingOutput).output == k.output;
    assert Complete(b, p).output == b.output;
    hide Fail, Complete, KeepRaw;
  }

  lemma RejectKeepsOutput(b: Board, p: Phase, text: string, why: Failure)
    ensures Reject(b, p, text, why).output == b.output
  {
  }

  /** Whatever output a phase run leaves for its phase was there when it started (for Strategy: never),
      or is the document of one of the provider's usable answers. A failed prerequisite leaves none. */
  lemma OutputProvenance(s: Project, p: Phase, w: World)
    ensures var o := Look(RunPhase(s, p, w).board.output, p);
            o == None || Sourced(Replaced(s, p).board, o, p, w)
  {
    hide StrategyCone, PrerequisitesMet, PrerequisiteFailure, Gate, Close, Decide, Sourced, Downstream, Answered;
    var r := Replaced(s, p);
    var t := r.(board := r.board.(status := r.board.status[p := Running]), controls := StartClock(s.controls, w.now), current := p);
    ClearedHere(r.board, Downstream(s.template, p), p);
    var o := Look(RunPhase(s, p, w).board.output, p);
    AnsweredSourced(t, p, w);
    SourcedItself(r.board, p, w);
    SameSource(t.board, r.board, o, p, w);
  }

  lemma ClearedHere(b: Board, down: seq<Phase>, p: Phase)
    ensures Look(PrerequisiteFailure(b, down, p).output, p) == None
  {
    var c := ClearOutput(b, p);
    var touched := TouchedOf(c, down);
    NeverRestored(c, down, p);
    DropsOnly(InvalidateAll(c, down), touched, p);
    hide InvalidateAll, TouchedOf, DropLifecycle;
  }

  lemma {:induction false} NeverRestored(b: Board, ps: seq<Phase>, p: Phase)
    requires p !in b.output
    ensures p !in InvalidateAll(b, ps).output
    decreases |ps|
  {
    hide Touched;
    if ps != [] { NeverRestored(b, ps[..|ps| - 1], p); }
  }

  lemma {:induction false} DropsOnly(b: Board, ps: seq<Phase>, p: Phase)
    requires p !in b.output
    ensures p !in DropLifecycle(b, ps).output
    decreases |ps|
  {
    if ps != [] { DropsOnly(b, ps[..|ps| - 1], p); }
  }

  lemma SameSource(b: Board, t: Board, output: Option<string>, p: Phase, w: World)
    requires t.output == b.output
    ensures Sourced(b, output, p, w) == Sourced(t, output, p, w)
  {
  }

  lemma SourcedItself(b: Board, p: Phase, w: World)
    ensures Sourced(b, Look(b.output, p), p, w)
  {
  }

  lemma AnsweredSourced(s: Project, p: Phase, w: World)
    ensures Sourced(s.board, Look(Answered(s, p, w).board.output, p), p, w)
  {
    hide Decide, Calls, Executed, Called, Answer, SomeBrings, Brings;
    var r := Answer(s.controls, p, w.first);
    var c := Called(s, p, w.first).controls;
    var r2 := Answer(c, p, w.second);
    DecideSourced(s.board, p, r, r2);
    var o := Look(Answered(s, p, w).board.output, p);
    AnswerBrings(s.controls, p, w.first, o);
    AnswerBrings(c, p, w.second, o);
    BringsCases(o, p, r);
    BringsCases(o, p, r2);
  }

  lemma BringsCases(output: Option<string>, p: Phase, r: Response)
    ensures p == Report && r.ok && output == Some(r.text) ==> Brings(output, p, r)
    ensures p != Report && FromPayload(output, r) ==> Brings(output, p, r)
  {
  }

  /** What a call's answer brings, the attempt that ended the call brought. */
  lemma AnswerBrings(c: Controls, p: Phase, attempts: seq<Attempt>, output: Option<string>)
    ensures Brings(output, p, Answer(c, p, attempts)) ==> SomeBrings(output, p, attempts)
  {
    hide Answer, Executed;
    AnswerLaws(c, p, attempts);
    var n := Executed(c, p, attempts);
    if Brings(output, p, Answer(c, p, attempts)) { assert Brings(output, p, attempts[n - 1].answer); }
  }
}
