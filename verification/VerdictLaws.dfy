/** What becomes of a phase, case by case and in terms of what is on record about it: after an
    invalidation, a phase run, the exit gate and the operator's edits. */
module VerdictLaws {
  import opened Collections
  import opened Phases
  import opened Policy
  import opened Workflow
  import opened GatewayLaws
  import opened PhaseOutcome
  import opened WorkflowLaws
  import opened BudgetLaws

  /** A new project has nothing on record but every phase of its template pending. */
  lemma CreatedPending(template: Template, controls: Controls, p: Phase)
    ensures var t := Created(template, controls);
            && At(t.board, p) == Entry(Pending, None, None, None, false, None, None)
            && (p in t.board.status <==> p in Sequence(template))
            && t.controls == controls && t.admitted == [] && t.current == (if template == StrategicAudit then Classify else Scope)
  {
  }

  // ---------- invalidation, entry by entry ----------

  /** Output that counts as material: a report or hypotheses only when not empty, and kept raw text of
      an audit or a strategy. */
  predicate Material(e: Entry, p: Phase) {
    || (e.output.Some? && ((p == Report || p == Hypotheses) ==> e.output.value != ""))
    || ((p == Audit || p == Strategy) && e.raw.Some? && e.raw.value != "")
  }

  /** Anything on record; `listed` says whether the phase has a status entry at all. */
  predicate OnRecord(e: Entry, p: Phase, listed: bool) {
    Material(e, p) || !listed || e.status != Pending || e.summary || e.confidence.Some?
  }

  /** The entry after an invalidation: outputs go; a phase with anything on record becomes stale. */
  function Wiped(e: Entry, p: Phase, listed: bool): Entry {
    if OnRecord(e, p, listed) then Entry(Stale, None, None, None, false, e.completedAt, e.failure)
    else Entry(e.status, None, None, None, false, e.completedAt, e.failure)
  }

  lemma TouchedIsOnRecord(b: Board, p: Phase)
    ensures Touched(b, p) == OnRecord(At(b, p), p, p in b.status)
  {
  }

  lemma InvalidateOneEntry(b: Board, p: Phase)
    ensures At(InvalidateOne(b, p), p) == Wiped(At(b, p), p, p in b.status)
    ensures forall q :: q != p ==> (q in InvalidateOne(b, p).status <==> q in b.status)
  {
    TouchedIsOnRecord(b, p);
    hide Touched, HasMaterial, HasOutput;
  }

  lemma {:induction false} InvalidateAllEntries(b: Board, ps: seq<Phase>, q: Phase)
    requires Distinct(ps)
    ensures var t := InvalidateAll(b, ps);
            if q in ps then At(t, q) == Wiped(At(b, q), q, q in b.status)
            else At(t, q) == At(b, q) && (q in t.status <==> q in b.status)
    decreases |ps|
  {
    hide InvalidateOne, At, Wiped;
    if ps != [] {
      var n := |ps| - 1;
      var mid := InvalidateAll(b, ps[..n]);
      InvalidateAllEntries(b, ps[..n], q);
      InvalidateOneEntry(mid, ps[n]);
      InvalidateOneEffect(mid, ps[n]);
      assert ps == ps[..n] + [ps[n]];
    }
  }

  /** Exactly those with anything on record are reported, in order. */
  lemma {:induction false} ReportedAreRecorded(b: Board, ps: seq<Phase>)
    requires Distinct(ps)
    ensures TouchedOf(b, ps) == Recorded(b, ps)
    decreases |ps|
  {
    hide InvalidateAll, At, OnRecord, Touched;
    if ps != [] {
      var n := |ps| - 1;
      var mid := InvalidateAll(b, ps[..n]);
      ReportedAreRecorded(b, ps[..n]);
      InvalidateAllEntries(b, ps[..n], ps[n]);
      TouchedIsOnRecord(mid, ps[n]);
      assert ps[n] !in ps[..n];
    }
  }

  /** Those of the phases that have anything on record. */
  function Recorded(b: Board, ps: seq<Phase>): seq<Phase> {
    if ps == [] then []
    else
      var n := |ps| - 1;
      Recorded(b, ps[..n]) + if OnRecord(At(b, ps[n]), ps[n], ps[n] in b.status) then [ps[n]] else []
  }

  lemma DownstreamDistinct(t: Template, p: Phase)
    ensures Distinct(Downstream(t, p)) && p !in Downstream(t, p)
  {
    SequenceDistinct(t);
    MapIsDistinct(p);
    MapIsLater(p);
    hide Sequence, InvalidationMap;
  }

  lemma MapIsLater(p: Phase)
    ensures p !in InvalidationMap(p)
  {
  }

  /** `invalidate_downstream` in terms of the template: every later phase is wiped, no other is touched. */
  lemma InvalidationWipes(s: Project, p: Phase)
    ensures var t := InvalidateDownstream(s, p);
            && (forall q :: q in Downstream(s.template, p) ==> At(t.board, q) == Wiped(At(s.board, q), q, q in s.board.status))
            && (forall q :: q !in Downstream(s.template, p) ==> At(t.board, q) == At(s.board, q))
            && t == s.(board := t.board)
            && Invalidated(s, p) == Recorded(s.board, Downstream(s.template, p))
  {
    DownstreamDistinct(s.template, p);
    hide Downstream, At, InvalidateAll, TouchedOf, Recorded, Wiped;
    ReportedAreRecorded(s.board, Downstream(s.template, p));
    var t := InvalidateDownstream(s, p);
    forall q ensures if q in Downstream(s.template, p) then At(t.board, q) == Wiped(At(s.board, q), q, q in s.board.status)
                     else At(t.board, q) == At(s.board, q) {
      InvalidateAllEntries(s.board, Downstream(s.template, p), q);
    }
  }

  /** The entry of a derived phase after its Strategy was replaced. */
  function Forgotten(e: Entry, p: Phase): Entry {
    var had := (e.output.Some? && (p == Report ==> e.output.value != "")) || e.status != Pending
               || e.confidence.Some? || e.summary || e.completedAt.Some? || e.failure.Some?;
    Entry(if had then Stale else e.status, None, e.raw, None, false, None, None)
  }

  lemma ConeOneEntry(b: Board, p: Phase)
    requires p in {Sqi, Monitor, Report}
    ensures At(ConeOne(b, p), p) == Forgotten(At(b, p), p)
  {
  }

  /** `invalidate_strategy_dependency_cone`: the three derived phases are forgotten and stale if they had
      anything on record; of Strategy only the status is left. */
  lemma ConeEntries(b: Board)
    ensures var t := StrategyCone(b);
            && (forall q :: q in {Sqi, Monitor, Report} ==> At(t, q) == Forgotten(At(b, q), q))
            && At(t, Strategy) == Entry(StatusOf(b, Strategy), None, None, None, false, None, None)
            && (forall q :: q !in {Strategy, Sqi, Monitor, Report} ==> At(t, q) == At(b, q))
  {
    hide ConeOne, At, HasOutput, ForgetPhase, Forgotten;
    var b1 := ConeOne(b, Sqi);
    var b2 := ConeOne(b1, Monitor);
    var b3 := ConeOne(b2, Report);
    StrategyForgotten(b3);
    StrategyEntry(b3);
    ConeSteps(b, b1, Sqi);
    ConeSteps(b1, b2, Monitor);
    ConeSteps(b2, b3, Report);
    StatusInEntry(b, b3);
    forall q | q !in {Strategy, Sqi, Monitor, Report} ensures At(StrategyCone(b), q) == At(b, q) {
      assert At(b3, q) == At(b2, q) == At(b1, q) == At(b, q);
    }
  }

  lemma ConeSteps(b: Board, t: Board, p: Phase)
    requires p in {Sqi, Monitor, Report} && t == ConeOne(b, p)
    ensures At(t, p) == Forgotten(At(b, p), p) && OnlyAt(b, t, p)
  {
    ConeOneEntry(b, p);
    ConeOneEffect(b, p);
    hide ConeOne, At, HasOutput, Forgotten;
  }

  lemma StrategyEntry(b: Board)
    ensures var t := ForgetPhase(b, Strategy);
            At(t.(raw := Without(t.raw, Strategy)), Strategy) == Entry(StatusOf(b, Strategy), None, None, None, false, None, None)
  {
  }

  lemma StatusInEntry(b: Board, t: Board)
    ensures At(t, Strategy) == At(b, Strategy) ==> StatusOf(t, Strategy) == StatusOf(b, Strategy)
  {
  }

  // ---------- the verdict on answers ----------

  /** A Strategy or readiness payload that the schema refuses may be asked for again. */
  predicate RepairsSchema(p: Phase) {
    match p
    case Strategy => true
    case Scope => true
    case ScientificInventory => true
    case TrlDiagnosis => true
    case ResearchIndustryAlignment => true
    case IpProtectionAxis => true
    case NextLevelRecommendations => true
    case TechnicalValidationPlan => true
    case IndustrialTransferPlan => true
    case ReadinessRoadmap => true
    case ExecutiveSummary => true
    case _ => false
  }

  /** Asked once more: an answer without a payload, or with one that the schema refuses and may be repaired. */
  predicate AsksAgain(p: Phase, r: Response) {
    r.reading.Payload? ==> !r.reading.valid && RepairsSchema(p)
  }

  lemma AsksIsNeeds(p: Phase, r: Response)
    ensures AsksAgain(p, r) == NeedsRepair(p, r)
  {
    ReadinessByName(p);
    hide IsReadiness, RepairsSchema;
  }

  lemma ReadinessByName(p: Phase)
    ensures RepairsSchema(p) <==> p == Strategy || IsReadiness(p)
  {
    match p
    case Scope => assert READINESS[0] == p;
    case ScientificInventory => assert READINESS[1] == p;
    case TrlDiagnosis => assert READINESS[2] == p;
    case ResearchIndustryAlignment => assert READINESS[3] == p;
    case IpProtectionAxis => assert READINESS[4] == p;
    case NextLevelRecommendations => assert READINESS[5] == p;
    case TechnicalValidationPlan => assert READINESS[6] == p;
    case IndustrialTransferPlan => assert READINESS[7] == p;
    case ReadinessRoadmap => assert READINESS[8] == p;
    case ExecutiveSummary => assert READINESS[9] == p;
    case _ =>
  }

  /** Raw text is kept for an audit and a strategy only. */
  function Kept(e: Entry, p: Phase, text: string): Option<string> {
    if p == Audit || p == Strategy then Some(text) else e.raw
  }

  function FailedEntry(e: Entry, p: Phase, raw: Option<string>, why: Failure): Entry {
    e.(status := Failed, raw := raw, confidence := Some(0.0), failure := Some(why))
  }

  /** What the final reading makes of the entry: a valid payload with something to show completes the
      phase, and each other reading fails it in its own way. */
  function Judged(e: Entry, p: Phase, text: string, reading: Reading): Entry {
    match reading
    case Unparsed => FailedEntry(e, p, Kept(e, p, text), JsonParse)
    case WrongShape => FailedEntry(e, p, Kept(e, p, text), JsonShape)
    case Payload(false, _) => FailedEntry(e, p, Kept(e, p, text), SchemaValidation)
    case Payload(true, doc) =>
      var stored := if doc.Some? then e.(output := doc, raw := None) else e;
      if stored.output.Some? && ((p == Hypotheses || p == Report) ==> stored.output.value != "")
      then stored.(status := Completed, confidence := Some(1.0), failure := None)
      else FailedEntry(stored, p, Kept(stored, p, text), MissingOutput)
  }

  /** The whole verdict, from the first answer and, where it is asked for, the second. */
  function Verdict(e: Entry, p: Phase, r: Response, r2: Response): Entry {
    if !r.ok then
      FailedEntry(e, p, if p == Strategy && r.text != "" then Some(r.text) else e.raw, if r.refused then PolicyBlocked else ProviderError)
    else if p == Report then e.(status := Completed, output := Some(r.text), raw := None, confidence := Some(1.0), failure := None)
    else if !AsksAgain(p, r) then Judged(e, p, r.text, r.reading)
    else if r2.ok then Judged(e, p, r2.text, r2.reading)
    else FailedEntry(e, p, Kept(e, p, if r.reading.Payload? then r2.text else r.text), ProviderError)
  }

  lemma FailEntry(b: Board, p: Phase, why: Failure)
    ensures At(Fail(b, p, why), p) == FailedEntry(At(b, p), p, At(b, p).raw, why)
  {
  }

  lemma KeepRawEntry(b: Board, p: Phase, text: string)
    ensures At(KeepRaw(b, p, text), p) == At(b, p).(raw := Kept(At(b, p), p, text))
  {
  }

  lemma StoreEntry(b: Board, p: Phase, doc: Option<string>)
    ensures At(Store(b, p, doc), p) == if doc.Some? then At(b, p).(output := doc, raw := None) else At(b, p)
  {
  }

  lemma CompleteEntry(b: Board, p: Phase)
    ensures At(Complete(b, p), p) == At(b, p).(status := Completed, confidence := Some(1.0), failure := None)
  {
  }

  lemma OutputInEntry(b: Board, p: Phase)
    ensures var o := At(b, p).output; HasOutput(b, p) <==> o.Some? && ((p == Report || p == Hypotheses) ==> o.value != "")
  {
  }

  lemma RejectEntry(b: Board, p: Phase, text: string, why: Failure)
    ensures At(Reject(b, p, text, why), p) == FailedEntry(At(b, p), p, Kept(At(b, p), p, text), why)
  {
    hide At, Fail, KeepRaw;
    FailEntry(b, p, why);
    KeepRawEntry(Fail(b, p, why), p, text);
  }

  lemma ConcludeEntry(b: Board, p: Phase, text: string, reading: Reading)
    ensures At(Conclude(b, p, text, reading), p) == Judged(At(b, p), p, text, reading)
  {
    hide At, Store, Fail, KeepRaw, Complete, HasOutput, Reject;
    RejectEntry(b, p, text, ReadingFailure(reading));
    if reading.Payload? && reading.valid {
      var t := Store(b, p, reading.doc);
      StoreEntry(b, p, reading.doc);
      OutputInEntry(t, p);
      CompleteEntry(t, p);
      KeepRawEntry(t, p, text);
      FailEntry(KeepRaw(t, p, text), p, MissingOutput);
    }
  }

  /** The state machine decides as the verdict says. */
  lemma DecideIsVerdict(b: Board, p: Phase, r: Reply, r2: Reply)
    ensures At(Decide(b, p, r, r2), p) == Verdict(At(b, p), p, r, r2)
  {
    AsksIsNeeds(p, r);
    hide At, Store, Fail, KeepRaw, Complete, Conclude, Reject, NeedsRepair, AsksAgain, Judged;
    if !r.ok {
      KeepRawEntry(b, p, r.text);
      FailEntry(b, p, CallFailure(r));
      FailEntry(KeepRaw(b, p, r.text), p, CallFailure(r));
    } else if p == Report {
      StoreEntry(b, p, Some(r.text));
      CompleteEntry(Store(b, p, Some(r.text)), p);
    } else {
      ConcludeEntry(b, p, r.text, r.reading);
      ConcludeEntry(b, p, r2.text, r2.reading);
      RejectEntry(b, p, if r.reading.Payload? then r2.text else r.text, ProviderError);
    }
  }

  // ---------- one phase run, case by case ----------

  /** The phases whose output must be finished first, by name. */
  predicate Lacks(b: Board, p: Phase) {
    match p
    case Sqi => !Finished(b, Strategy)
    case Monitor => !Finished(b, Strategy)
    case Report => !Finished(b, Strategy) || !Finished(b, Monitor)
    case _ => false
  }

  lemma LacksIsUnmet(b: Board, p: Phase)
    ensures Lacks(b, p) == !PrerequisitesMet(b, p)
  {
    hide Finished;
    if p == Sqi || p == Monitor { assert Prerequisites(p)[0] == Strategy; assert Strategy in Prerequisites(p); }
    if p == Report { assert Prerequisites(p)[0] == Strategy && Prerequisites(p)[1] == Monitor; assert Strategy in Prerequisites(p) && Monitor in Prerequisites(p); }
  }

  /** The controls once the clock runs. */
  function Clocked(c: Controls, now: real): Controls {
    match c.used.startedAt
    case Some(_) => c
    case None => c.(used := c.used.(startedAt := Some(now)))
  }

  /** The controls after a call: the usage of exactly the attempts that reached a provider, one call
      more, and the failures counted on or started over. */
  function Charged(c: Controls, p: Phase, attempts: seq<Attempt>): Controls {
    var n := Executed(c, p, attempts);
    if n > |attempts| then c
    else
      c.(used := Used(c.used.tokens + Tokens(attempts[..n]), c.used.cost + Cost(attempts[..n]), c.used.startedAt, c.used.calls + 1,
                      if n > 0 && attempts[n - 1].answer.ok then 0 else c.used.failures + 1))
  }

  /** The controls after a phase's calls: the second is made exactly when the verdict asks for it. */
  function ChargedFor(c: Controls, p: Phase, w: World): Controls {
    var r := Answer(c, p, w.first);
    if r.ok && p != Report && AsksAgain(p, r) then Charged(Charged(c, p, w.first), p, w.second) else Charged(c, p, w.first)
  }

  /** An answered phase gets a summary, and a completed one its time. */
  function Closed(e: Entry, answered: bool, doneAt: int): Entry {
    if !answered then e else e.(summary := true, completedAt := if e.status == Completed then Some(doneAt) else e.completedAt)
  }

  /** The entry a run leaves when it gets as far as the model. */
  function Concluded(e: Entry, c: Controls, p: Phase, w: World): Entry {
    var r := Answer(c, p, w.first);
    var r2 := Answer(Charged(c, p, w.first), p, w.second);
    Closed(Verdict(e.(status := Running), p, r, r2), r.ok, w.doneAt)
  }

  /** No call was made: neither counters nor the record of calls moved. */
  predicate NoCall(s: Project, t: Project, c: Controls) {
    t.controls == c && t.admitted == s.admitted
  }

  lemma ChargedIsCalled(s: Project, p: Phase, attempts: seq<Attempt>)
    ensures Called(s, p, attempts).controls == Charged(s.controls, p, attempts)
  {
    CallUses(s, p, attempts);
    hide Called, Executed;
  }

  lemma ExecuteEntry(s: Project, p: Phase, w: World)
    requires StatusOf(s.board, p) == Running
    ensures var t := Execute(s, p, w);
            && At(t.board, p) == Concluded(At(s.board, p), s.controls, p, w)
            && t.controls == ChargedFor(s.controls, p, w)
  {
    var r := Answer(s.controls, p, w.first);
    var m := Called(s, p, w.first);
    var r2 := Answer(m.controls, p, w.second);
    ChargedIsCalled(s, p, w.first);
    ChargedIsCalled(m, p, w.second);
    AsksIsNeeds(p, r);
    ExecuteIsCalls(s, p, w);
    DecideIsVerdict(s.board, p, r, r2);
    RunningEntry(s.board, p);
    hide Answer, Called, Decide, Verdict, Charged, NeedsRepair, AsksAgain, At;
    CloseEntry(Decide(s.board, p, r, r2), p, w.doneAt);
  }

  lemma RunningEntry(b: Board, p: Phase)
    requires StatusOf(b, p) == Running
    ensures At(b, p).(status := Running) == At(b, p)
  {
  }

  lemma CloseEntry(b: Board, p: Phase, doneAt: int)
    ensures At(Close(b, p, doneAt), p) == Closed(At(b, p), true, doneAt)
  {
  }

  lemma MissingEntry(b: Board, down: seq<Phase>, p: Phase)
    requires p !in down
    ensures At(PrerequisiteFailure(b, down, p), p) == Entry(Failed, None, None, Some(0.0), false, None, Some(PrerequisiteFailed))
  {
    var c := ClearOutput(b, p);
    var mid := InvalidateAll(c, down);
    var touched := TouchedOf(c, down);
    var t := DropLifecycle(mid, touched);
    InvalidateAllEffect(c, down);
    TouchedAreAmong(c, down);
    DropLifecycleAt(mid, touched, p);
    hide InvalidateAll, TouchedOf, DropLifecycle;
    NoOutputLeft(b, t, p);
  }

  lemma NoOutputLeft(b: Board, t: Board, p: Phase)
    requires At(t, p) == At(ClearOutput(b, p), p)
    ensures var u := Fail(t.(summaries := t.summaries - {p}, completedAt := Without(t.completedAt, p)), p, PrerequisiteFailed);
            At(u, p) == Entry(Failed, None, None, Some(0.0), false, None, Some(PrerequisiteFailed))
  {
  }

  /** `run_phase_node`, case by case. A named prerequisite that is not finished fails the phase without
      output and without a call; then a closed gate, a phase that is none, and blocked evidence of an
      audit or a strategy each fail it without a call; otherwise the answers decide, and the counters
      take up what they used. */
  lemma RunVerdict(s: Project, p: Phase, w: World)
    ensures var t := RunPhase(s, p, w); var e := At(t.board, p); var before := At(Replaced(s, p).board, p);
            var c := Clocked(s.controls, w.now); var raw := before.raw;
            if Lacks(Replaced(s, p).board, p) then
              e == Entry(Failed, None, None, Some(0.0), false, None, Some(PrerequisiteFailed)) && NoCall(s, t, s.controls)
            else if Gate(c, p, w.now) != Allowed then e == FailedEntry(before, p, raw, PolicyBlocked) && NoCall(s, t, c)
            else if p.Other? then e == FailedEntry(before, p, raw, PhaseConfiguration) && NoCall(s, t, c)
            else if p in {Audit, Strategy} && w.evidenceBlocked then e == FailedEntry(before, p, raw, EvidenceBlocked) && NoCall(s, t, c)
            else e == Concluded(before, c, p, w) && t.controls == ChargedFor(c, p, w)
  {
    var r := Replaced(s, p);
    var c := Clocked(s.controls, w.now);
    LacksIsUnmet(r.board, p);
    ClockStarts(s.controls, w.now);
    hide PrerequisitesMet, Lacks, Gate, StrategyCone, PrerequisiteFailure, Concluded, ChargedFor, At, Fail, Begin, Clocked, StartClock, FailedEntry;
    if Lacks(r.board, p) {
      DownstreamDistinct(s.template, p);
      MissingEntry(r.board, Downstream(s.template, p), p);
    } else if Gate(c, p, w.now) != Allowed {
      FailEntry(r.board, p, PolicyBlocked);
    } else {
      BeginVerdict(r.(controls := c), p, w);
    }
  }

  lemma ClockStarts(c: Controls, now: real)
    ensures StartClock(c, now) == Clocked(c, now)
  {
  }

  /** The phase once the gate has let it through. */
  lemma BeginVerdict(s: Project, p: Phase, w: World)
    ensures var t := Begin(s, p, w); var e := At(t.board, p); var before := At(s.board, p); var c := s.controls;
            if p.Other? then e == FailedEntry(before, p, before.raw, PhaseConfiguration) && NoCall(s, t, c)
            else if p in {Audit, Strategy} && w.evidenceBlocked then e == FailedEntry(before, p, before.raw, EvidenceBlocked) && NoCall(s, t, c)
            else e == Concluded(before, c, p, w) && t.controls == ChargedFor(c, p, w)
  {
    var u := s.(board := s.board.(status := s.board.status[p := Running]), current := p);
    RunningAt(s.board, p);
    hide At, Fail, Execute, Concluded, ChargedFor;
    FailEntry(u.board, p, PhaseConfiguration);
    FailEntry(u.board, p, EvidenceBlocked);
    ExecuteEntry(u, p, w);
    Reentered(At(s.board, p), s.controls, p, w);
  }

  lemma RunningAt(b: Board, p: Phase)
    ensures var t := b.(status := b.status[p := Running]); StatusOf(t, p) == Running && At(t, p) == At(b, p).(status := Running)
  {
  }

  lemma Reentered(e: Entry, c: Controls, p: Phase, w: World)
    ensures Concluded(e.(status := Running), c, p, w) == Concluded(e, c, p, w)
  {
    hide Verdict, Answer, Charged;
  }

  /** So a completed phase had its named prerequisites finished. */
  lemma PrerequisitesByName(s: Project, w: World)
    ensures StatusOf(RunPhase(s, Report, w).board, Report) == Completed ==> Finished(s.board, Strategy) && Finished(s.board, Monitor)
    ensures StatusOf(RunPhase(s, Monitor, w).board, Monitor) == Completed ==> Finished(s.board, Strategy)
    ensures StatusOf(RunPhase(s, Sqi, w).board, Sqi) == Completed ==> Finished(s.board, Strategy)
  {
    hide RunPhase, Finished;
    NotWithout(s, Report, w);
    NotWithout(s, Monitor, w);
    NotWithout(s, Sqi, w);
  }

  lemma NotWithout(s: Project, p: Phase, w: World)
    requires p != Strategy
    ensures Lacks(s.board, p) ==> StatusOf(RunPhase(s, p, w).board, p) == Failed
  {
    hide RunPhase, Concluded, ChargedFor, Gate, Finished, Lacks, NoCall;
    RunVerdict(s, p, w);
  }

  // ---------- the exit gate ----------

  /** The phases that have an exit gate. */
  const GATED: set<Phase> := {
    Classify, Hypotheses, Audit, Strategy, Monitor, Report,
    Scope, ScientificInventory, TrlDiagnosis, ResearchIndustryAlignment, IpProtectionAxis,
    NextLevelRecommendations, TechnicalValidationPlan, IndustrialTransferPlan, ReadinessRoadmap, ExecutiveSummary}

  /** The entry of a completed phase after its exit gate. */
  function Gated(e: Entry, p: Phase, g: ExitGate): Entry {
    if p !in GATED then e
    else if g.passed || !g.structural then e.(confidence := Some(g.confidence))
    else e.(status := Failed, confidence := Some(g.confidence), failure := Some(GateStructural))
  }

  lemma ExitEntry(b: Board, p: Phase, g: ExitGate)
    ensures !p.Other? ==> At(Exit(b, p, g), p) == Gated(At(b, p), p, g)
    ensures p.Other? ==> Exit(b, p, g) == b
    ensures OnlyAt(b, Exit(b, p, g), p)
  {
    hide At, HasGate;
    GatedHasGate(p);
    if HasGate(p) {
      ConfidenceEntry(b, p, g.confidence);
      var t := b.(confidence := b.confidence[p := g.confidence]);
      StructuralEntry(t, p);
    }
  }

  lemma GatedHasGate(p: Phase)
    ensures p in GATED <==> HasGate(p)
    ensures p.Other? ==> !HasGate(p)
  {
  }

  lemma ConfidenceEntry(b: Board, p: Phase, confidence: real)
    ensures var t := b.(confidence := b.confidence[p := confidence]);
            At(t, p) == At(b, p).(confidence := Some(confidence)) && OnlyAt(b, t, p)
  {
  }

  lemma StructuralEntry(b: Board, p: Phase)
    ensures var t := b.(status := b.status[p := Failed], failures := b.failures[p := GateStructural]);
            At(t, p) == At(b, p).(status := Failed, failure := Some(GateStructural)) && OnlyAt(b, t, p)
  {
  }

  /** One turn of the runner: where the phase run completed, the exit gate has the last word. */
  lemma TurnVerdict(s: Project, p: Phase, w: World, g: ExitGate)
    requires !p.Other?
    ensures var u := RunPhase(Started(s, p), p, w); var t := Turn(s, p, w, g);
            && (StatusOf(u.board, p) != Completed ==> t == u)
            && (StatusOf(u.board, p) == Completed ==> At(t.board, p) == Gated(At(u.board, p), p, g))
            && (Finished(t.board, p) <==> StatusOf(u.board, p) == Completed && (p in GATED ==> g.passed || !g.structural))
            && (StatusOf(u.board, p) == Completed && p in GATED && !g.passed && g.structural ==>
                  StatusOf(t.board, p) == Failed && p in t.board.failures && t.board.failures[p] == GateStructural)
  {
    hide RunPhase, At, Exit;
    var u := RunPhase(Started(s, p), p, w);
    var t := Turn(s, p, w, g);
    RunPhaseOutcome(Started(s, p), p, w);
    ExitEntry(u.board, p, g);
    EntryFinished(u.board, p);
    EntryFinished(t.board, p);
    EntryFailure(t.board, p);
  }

  lemma EntryFinished(b: Board, p: Phase)
    ensures var e := At(b, p);
            && StatusOf(b, p) == e.status
            && (Finished(b, p) <==> e.status == Completed && e.output.Some? && ((p == Report || p == Hypotheses) ==> e.output.value != ""))
            && (HasOutput(b, p) <==> e.output.Some? && ((p == Report || p == Hypotheses) ==> e.output.value != ""))
  {
  }

  lemma EntryFailure(b: Board, p: Phase)
    ensures At(b, p).failure.Some? ==> p in b.failures && b.failures[p] == At(b, p).failure.value
  {
  }

  /** A phase that is finished now and was not, only if its exit gate let it. */
  ghost predicate GatesHold(s: Project, t: Project, gates: Phase -> ExitGate) {
    forall p :: p in GATED && Finished(t.board, p) && !Finished(s.board, p) ==> gates(p).passed || !gates(p).structural
  }

  lemma TurnGates(s: Project, p: Phase, w: World, gates: Phase -> ExitGate)
    requires !p.Other?
    ensures GatesHold(s, Turn(s, p, w, gates(p)), gates)
  {
    hide RunPhase, At, Exit, Finished, HasOutput, StatusOf;
    var r := Started(s, p);
    var u := RunPhase(r, p, w);
    var t := Turn(s, p, w, gates(p));
    StatusKeeps(s.board, p, Running);
    RunPhaseOutcome(r, p, w);
    ExitEntry(u.board, p, gates(p));
    TurnVerdict(s, p, w, gates(p));
    forall q | q != p && Finished(t.board, q) ensures Finished(s.board, q) {
      HasOutputAt(u.board, t.board, q);
      NoNewOutput(r.board, u.board, q);
      HasOutputAt(s.board, r.board, q);
    }
  }

  lemma NoNewOutput(b: Board, t: Board, q: Phase)
    requires At(t, q) == At(b, q) || !HasOutput(t, q)
    ensures Finished(t, q) ==> Finished(b, q)
  {
    if At(t, q) == At(b, q) { HasOutputAt(b, t, q); }
  }

  lemma {:induction false} RunFromGates(s: Project, todo: seq<Phase>, world: Phase -> World, gates: Phase -> ExitGate)
    requires forall p :: p in todo ==> !p.Other?
    ensures GatesHold(s, RunFrom(s, todo, world, gates), gates)
    decreases |todo|
  {
    hide Turn, Finished, StatusOf;
    if todo != [] {
      var p := todo[0];
      var t := Turn(s, p, world(p), gates(p));
      TurnGates(s, p, world(p), gates);
      RunFromGates(if Finished(s.board, p) then s else t, todo[1..], world, gates);
    }
  }

  /** The runner never gets past a structural gate: whatever gated phase it newly finished, the gate had
      passed it or found a shortfall only. */
  lemma RunnerHeedsGates(s: Project, world: Phase -> World, gates: Phase -> ExitGate)
    ensures GatesHold(s, RunWorkflow(s, world, gates), gates)
  {
    hide RunFrom, Finished, FirstUnfinished, Sequence;
    var k := FirstUnfinished(s.board, Steps(s));
    if k < |Steps(s)| {
      var t := InvalidateDownstream(s, Steps(s)[k]);
      DownstreamBare(s, Steps(s)[k]);
      NoOtherInTemplate(s.template);
      RunFromGates(t, Steps(s)[k..], world, gates);
    }
  }

  lemma NoOtherInTemplate(t: Template)
    ensures forall p :: p in Sequence(t) ==> !p.Other?
  {
  }

  // ---------- the operator's edits ----------

  /** The first of the phases, or `p` if there is none. */
  function FirstOr(ps: seq<Phase>, p: Phase): Phase {
    if |ps| > 0 then ps[0] else p
  }

  predicate HadAny(b: Board, p: Phase) {
    var e := At(b, p);
    || (e.output.Some? && (p == Report ==> e.output.value != "")) || e.status != Pending
    || e.confidence.Some? || e.summary || e.completedAt.Some? || e.failure.Some?
  }

  lemma ConeReported(b: Board)
    ensures ConeInvalidated(b) ==
            (if HadAny(b, Sqi) then [Sqi] else []) + (if HadAny(b, Monitor) then [Monitor] else []) + (if HadAny(b, Report) then [Report] else [])
  {
    HadAnyIs(b, Sqi);
    HadAnyIs(b, Monitor);
    HadAnyIs(b, Report);
    hide HadAny, HadLifecycle;
  }

  lemma HadAnyIs(b: Board, p: Phase)
    requires p in {Sqi, Monitor, Report}
    ensures HadAny(b, p) == HadLifecycle(b, p)
  {
  }

  /** The document an edit puts in place, and what it does to the rest of the project. */
  lemma EditOutcome(s: Project, p: Phase, doc: string)
    requires !p.Other?
    ensures var t := EditOutput(s, p, doc); var e := At(t.board, p);
            && e == (if p == Strategy then Entry(Completed, Some(doc), None, Some(1.0), true, None, None)
                     else At(s.board, p).(status := Completed, output := Some(doc), raw := if p == Audit then None else At(s.board, p).raw,
                                          confidence := Some(1.0), summary := true))
            && t.controls == s.controls && t.admitted == s.admitted
            && (p != Strategy ==>
                  && (forall q :: q in Downstream(s.template, p) ==> At(t.board, q) == Wiped(At(s.board, q), q, q in s.board.status))
                  && (forall q :: q != p && q !in Downstream(s.template, p) ==> At(t.board, q) == At(s.board, q))
                  && t.current == FirstOr(Recorded(s.board, Downstream(s.template, p)), p))
            && (p == Strategy ==>
                  && (forall q :: q in {Sqi, Monitor, Report} ==> At(t.board, q) == Forgotten(At(s.board, q), q))
                  && (forall q :: q !in {Strategy, Sqi, Monitor, Report} ==> At(t.board, q) == At(s.board, q))
                  && t.current == (if HadAny(s.board, Sqi) then Sqi else if HadAny(s.board, Monitor) then Monitor
                                   else if HadAny(s.board, Report) then Report else Strategy))
  {
    if p == Strategy { StrategyEditOutcome(s, doc); } else { PlainEditOutcome(s, p, doc); }
  }

  lemma StrategyEditOutcome(s: Project, doc: string)
    ensures var t := EditOutput(s, Strategy, doc); var e := At(t.board, Strategy);
            && e == Entry(Completed, Some(doc), None, Some(1.0), true, None, None)
            && t.controls == s.controls && t.admitted == s.admitted
            && (forall q :: q in {Sqi, Monitor, Report} ==> At(t.board, q) == Forgotten(At(s.board, q), q))
            && (forall q :: q !in {Strategy, Sqi, Monitor, Report} ==> At(t.board, q) == At(s.board, q))
            && t.current == (if HadAny(s.board, Sqi) then Sqi else if HadAny(s.board, Monitor) then Monitor
                             else if HadAny(s.board, Report) then Report else Strategy)
  {
    ConeReported(s.board);
    ConeEntries(s.board);
    FinalizeEntry(StrategyCone(s.board), Strategy, doc);
    FinalizeKeeps(StrategyCone(s.board), Strategy, doc);
    hide StrategyCone, Finalize, At, Forgotten, ConeInvalidated;
  }

  lemma FinalizeEntry(b: Board, p: Phase, doc: string)
    ensures At(Finalize(b, p, doc), p) ==
            At(b, p).(status := Completed, output := Some(doc), raw := if p == Audit || p == Strategy then None else At(b, p).raw,
                      confidence := Some(1.0), summary := true)
    ensures forall q :: q != p ==> (q in Finalize(b, p, doc).status <==> q in b.status)
  {
  }

  lemma PlainEditOutcome(s: Project, p: Phase, doc: string)
    requires !p.Other? && p != Strategy
    ensures var t := EditOutput(s, p, doc); var e := At(t.board, p);
            && e == At(s.board, p).(status := Completed, output := Some(doc), raw := if p == Audit then None else At(s.board, p).raw,
                                    confidence := Some(1.0), summary := true)
            && t.controls == s.controls && t.admitted == s.admitted
            && (forall q :: q in Downstream(s.template, p) ==> At(t.board, q) == Wiped(At(s.board, q), q, q in s.board.status))
            && (forall q :: q != p && q !in Downstream(s.template, p) ==> At(t.board, q) == At(s.board, q))
            && t.current == FirstOr(Recorded(s.board, Downstream(s.template, p)), p)
  {
    hide InvalidateDownstream, Finalize, At, Wiped, Invalidated, Recorded, Downstream;
    var b := Finalize(s.board, p, doc);
    var m := Mark(s.(board := b), p);
    FinalizeEntry(s.board, p, doc);
    FinalizeKeeps(s.board, p, doc);
    InvalidationWipes(m, p);
    DownstreamDistinct(s.template, p);
    SameRecorded(s.board, b, Downstream(s.template, p), p);
  }

  lemma {:induction false} SameRecorded(b: Board, t: Board, ps: seq<Phase>, p: Phase)
    requires OnlyAt(b, t, p) && p !in ps && forall q :: q != p ==> (q in t.status <==> q in b.status)
    ensures Recorded(t, ps) == Recorded(b, ps)
    decreases |ps|
  {
    hide At, OnRecord;
    if ps != [] {
      SameRecorded(b, t, ps[..|ps| - 1], p);
      assert ps[|ps| - 1] in ps;
    }
  }

  /** The phase at which an input edit starts over: the template's first for a new brief or new data,
      monitoring for observations or timer logs if the template has it. */
  function Restart(t: Template, e: InputEdit): Phase {
    match t
    case StrategicAudit => if e.BriefOrData? then Classify else Monitor
    case TechnologyReadiness => Scope
  }

  /** The phases an edit other than of the report's configuration reopens. */
  function Reopened(t: Template, e: InputEdit): set<Phase> {
    match t
    case StrategicAudit =>
      if e.BriefOrData? then {Classify, Hypotheses, Gauntlet, Audit, Strategy, Sqi, Monitor, Report} else {Monitor, Report}
    case TechnologyReadiness => {
      Scope, ScientificInventory, TrlDiagnosis, ResearchIndustryAlignment, IpProtectionAxis, NextLevelRecommendations,
      TechnicalValidationPlan, IndustrialTransferPlan, ReadinessRoadmap, ExecutiveSummary}
  }

  /** An edit of the brief, data, observations or timer logs wipes exactly the phases it reopens. */
  lemma InputReopens(s: Project, e: InputEdit)
    requires !e.ReportConfiguration?
    ensures var t := EditInput(s, e); var p := Restart(s.template, e);
            && t.controls == s.controls && t.admitted == s.admitted
            && (forall q :: q in Reopened(s.template, e) ==>
                  At(t.board, q) == Wiped(At(s.board, q), q, q == p || q in s.board.status))
            && (forall q :: q !in Reopened(s.template, e) ==> At(t.board, q) == At(s.board, q))
  {
    RestartByName(s.template, e);
    ReopenedAre(s.template, e);
    hide Reopened, Downstream, InvalidateDownstream, MarkPhaseStale, RestartPhase, Invalidated, At, WouldMark, Wiped, Restart,
         Recorded;
    var p := Restart(s.template, e);
    var m := s.(board := MarkPhaseStale(s.board, p));
    MarkPhaseStaleKeeps(s.board, p);
    MarkPhaseStaleEntry(s.board, p);
    InvalidationWipes(m, p);
    DownstreamDistinct(s.template, p);
  }

  /** The next phase after such an edit: the first that had anything on record. */
  lemma InputRestarts(s: Project, e: InputEdit)
    requires !e.ReportConfiguration?
    ensures var p := Restart(s.template, e);
            EditInput(s, e).current ==
            if OnRecord(At(s.board, p), p, true) then p else FirstOr(Recorded(s.board, Downstream(s.template, p)), p)
  {
    RestartByName(s.template, e);
    var p := Restart(s.template, e);
    WouldMarkIsOnRecord(s.board, p);
    InputCurrent(s, e);
    RecordedAfterMark(s, p);
    hide *;
    NextOf(WouldMark(s.board, p), Invalidated(s.(board := MarkPhaseStale(s.board, p)), p), p);
  }

  lemma InputCurrent(s: Project, e: InputEdit)
    requires !e.ReportConfiguration?
    ensures var p := RestartPhase(s.template, e);
            EditInput(s, e).current ==
            HeadOr((if WouldMark(s.board, p) then [p] else []) + Invalidated(s.(board := MarkPhaseStale(s.board, p)), p), p)
  {
    hide InvalidateDownstream, MarkPhaseStale, RestartPhase, Invalidated, WouldMark;
  }

  lemma NextOf(marked: bool, rest: seq<Phase>, p: Phase)
    ensures HeadOr((if marked then [p] else []) + rest, p) == if marked then p else FirstOr(rest, p)
  {
  }

  lemma RecordedAfterMark(s: Project, p: Phase)
    ensures Invalidated(s.(board := MarkPhaseStale(s.board, p)), p) == Recorded(s.board, Downstream(s.template, p))
  {
    hide Downstream, InvalidateDownstream, MarkPhaseStale, Invalidated, At, Recorded;
    var m := s.(board := MarkPhaseStale(s.board, p));
    MarkPhaseStaleKeeps(s.board, p);
    MarkPhaseStaleEntry(s.board, p);
    InvalidationWipes(m, p);
    DownstreamDistinct(s.template, p);
    SameRecorded(s.board, m.board, Downstream(s.template, p), p);
  }

  /** A new report configuration keeps the report's text and makes it stale, if there is any and it is
      not stale already; nothing else moves. */
  lemma ReportConfigurationStales(s: Project)
    ensures var t := EditInput(s, ReportConfiguration); var e := At(s.board, Report);
            && t.controls == s.controls && t.admitted == s.admitted
            && (forall q :: q != Report ==> At(t.board, q) == At(s.board, q))
            && At(t.board, Report) ==
               (if HasOutput(s.board, Report) && e.status != Stale then e.(status := Stale, confidence := None, summary := false) else e)
            && t.current == if HasOutput(s.board, Report) && e.status != Stale then Report else s.current
  {
    MarkStaleKeeps(s.board, Report);
    MarkStaleEntry(s.board, Report);
    EntryFinished(s.board, Report);
    hide MarkStale, At, HasOutput, StatusOf;
  }

  lemma MarkStaleEntry(b: Board, p: Phase)
    ensures At(MarkStale(b, p), p) == At(b, p).(status := Stale, confidence := None, summary := false)
    ensures forall q :: q != p ==> (q in MarkStale(b, p).status <==> q in b.status)
  {
  }

  lemma ClearOutputEntry(b: Board, p: Phase)
    ensures At(ClearOutput(b, p), p) == At(b, p).(output := None, raw := None)
    ensures ClearOutput(b, p).status == b.status
  {
  }

  lemma WouldMarkIsOnRecord(b: Board, p: Phase)
    ensures WouldMark(b, p) == OnRecord(At(b, p), p, true)
  {
  }

  lemma MarkPhaseStaleEntry(b: Board, p: Phase)
    ensures At(MarkPhaseStale(b, p), p) == Wiped(At(b, p), p, true)
    ensures forall q :: q != p ==> (q in MarkPhaseStale(b, p).status <==> q in b.status)
  {
    WouldMarkIsOnRecord(b, p);
    ClearOutputEntry(b, p);
    MarkStaleEntry(ClearOutput(b, p), p);
    hide WouldMark, ClearOutput, MarkStale, At;
  }

  lemma RestartByName(t: Template, e: InputEdit)
    requires !e.ReportConfiguration?
    ensures RestartPhase(t, e) == Restart(t, e)
  {
  }

  lemma ReopenedAre(t: Template, e: InputEdit)
    requires !e.ReportConfiguration?
    ensures var p := Restart(t, e); forall q :: q in Reopened(t, e) <==> q == p || q in Downstream(t, p)
  {
    AfterClassify();
    AfterMonitor();
    AfterScope();
    hide Downstream;
  }

  lemma AfterClassify()
    ensures Downstream(StrategicAudit, Classify) == [Hypotheses, Gauntlet, Audit, Strategy, Sqi, Monitor, Report]
  {
    assert IndexOf(STRATEGIC, Classify) == 0;
  }

  lemma AfterMonitor()
    ensures Downstream(StrategicAudit, Monitor) == [Report]
  {
    SequenceDistinct(StrategicAudit);
    assert STRATEGIC[6] == Monitor;
    assert IndexOf(STRATEGIC, Monitor) == 6;
  }

  lemma AfterScope()
    ensures Downstream(TechnologyReadiness, Scope) == [
      ScientificInventory, TrlDiagnosis, ResearchIndustryAlignment, IpProtectionAxis, NextLevelRecommendations,
      TechnicalValidationPlan, IndustrialTransferPlan, ReadinessRoadmap, ExecutiveSummary]
  {
    assert IndexOf(READINESS, Scope) == 0;
  }
}
