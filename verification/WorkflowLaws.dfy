/** What every history of runs, edits and kill requests keeps. */
module WorkflowLaws {
  import opened Phases
  import opened Policy
  import opened Workflow
  import opened PhaseOutcome

  // ---------- freshness ----------

  /** A finished phase was completed at a recorded moment, all moments lie in the past, and of two
      finished phases the later one in the template was completed later. */
  ghost predicate Fresh(s: Project) {
    && (forall p :: p in s.stamps ==> s.stamps[p] < s.clock)
    && (forall p :: Finished(s.board, p) ==> p in s.stamps)
    && (forall i, j :: 0 <= i < j < |Steps(s)| && Finished(s.board, Steps(s)[i]) && Finished(s.board, Steps(s)[j])
          ==> s.stamps[Steps(s)[i]] < s.stamps[Steps(s)[j]])
  }

  /** Nothing became finished. */
  ghost predicate Retreats(s: Project, t: Project) {
    && t.template == s.template && t.stamps == s.stamps && t.clock == s.clock
    && forall q :: Finished(t.board, q) ==> Finished(s.board, q)
  }

  /** Only `p` may have become finished, at a new moment, and no later phase of the template is. */
  ghost predicate Finishes(s: Project, t: Project, p: Phase) {
    && t.template == s.template && t.stamps == s.stamps[p := s.clock] && t.clock == s.clock + 1
    && (forall q :: q != p && Finished(t.board, q) ==> Finished(s.board, q))
    && (forall i, j :: 0 <= i < j < |Steps(s)| && Steps(s)[i] == p ==> !Finished(t.board, Steps(s)[j]))
  }

  lemma RetreatKeepsFresh(s: Project, t: Project)
    requires Fresh(s) && Retreats(s, t)
    ensures Fresh(t)
  {
    hide Finished, Sequence;
    assert Steps(t) == Steps(s);
    forall i, j | 0 <= i < j < |Steps(t)| && Finished(t.board, Steps(t)[i]) && Finished(t.board, Steps(t)[j])
      ensures t.stamps[Steps(t)[i]] < t.stamps[Steps(t)[j]] {
      assert Finished(s.board, Steps(s)[i]) && Finished(s.board, Steps(s)[j]);
    }
  }

  lemma FinishKeepsFresh(s: Project, t: Project, p: Phase)
    requires Fresh(s) && Finishes(s, t, p)
    ensures Fresh(t)
  {
    hide Finished, Sequence;
    assert Steps(t) == Steps(s);
    forall i, j | 0 <= i < j < |Steps(t)| && Finished(t.board, Steps(t)[i]) && Finished(t.board, Steps(t)[j])
      ensures t.stamps[Steps(t)[i]] < t.stamps[Steps(t)[j]] {
      var a, b := Steps(s)[i], Steps(s)[j];
      assert a != p;
      if b != p { assert Finished(s.board, a) && Finished(s.board, b); }
    }
  }

  /** No phase of the template after the `i`-th has output. */
  ghost predicate BareAfter(s: Project, i: nat) {
    forall j :: i < j < |Steps(s)| ==> !HasOutput(s.board, Steps(s)[j])
  }

  lemma DownstreamBare(s: Project, p: Phase)
    ensures var t := InvalidateDownstream(s, p);
            && Retreats(s, t)
            && (forall i :: 0 <= i < |Steps(s)| && Steps(s)[i] == p ==> BareAfter(t, i))
            && (forall q :: q !in Downstream(s.template, p) ==> At(t.board, q) == At(s.board, q))
  {
    InvalidateAllEffect(s.board, Downstream(s.template, p));
    var t := InvalidateDownstream(s, p);
    hide InvalidateAll, At, HasOutput, Sequence, Downstream;
    forall i, j | 0 <= i < j < |Steps(s)| && Steps(s)[i] == p ensures !HasOutput(t.board, Steps(s)[j]) {
      DownstreamIsLater(s.template, i, j);
    }
    forall q | Finished(t.board, q) ensures Finished(s.board, q) {
      if q !in Downstream(s.template, p) { HasOutputAt(s.board, t.board, q); }
    }
  }

  /** Nothing after the phase in the template has output. */
  ghost predicate BareFrom(s: Project, p: Phase) {
    forall i :: 0 <= i < |Steps(s)| && Steps(s)[i] == p ==> BareAfter(s, i)
  }

  /** A phase run does not put output behind its phase. */
  lemma RunKeepsBare(s: Project, p: Phase, w: World)
    requires BareFrom(s, p)
    ensures RunPhase(s, p, w).template == s.template && BareFrom(RunPhase(s, p, w), p)
  {
    hide RunPhase, At, HasOutput, Sequence, Downstream;
    RunPhaseOutcome(s, p, w);
    SequenceDistinct(s.template);
    var t := RunPhase(s, p, w);
    forall q | q != p ensures HasOutput(t.board, q) ==> HasOutput(s.board, q) {
      if At(t.board, q) == At(s.board, q) { HasOutputAt(s.board, t.board, q); }
    }
    assert Steps(t) == Steps(s);
    forall i, j | 0 <= i < j < |Steps(s)| && Steps(s)[i] == p ensures !HasOutput(t.board, Steps(s)[j]) {
      assert BareAfter(s, i);
    }
  }

  /** And then completion times stay in template order. */
  lemma RunKeepsFresh(s: Project, p: Phase, w: World)
    requires Fresh(s) && BareFrom(s, p)
    ensures Fresh(RunPhase(s, p, w))
  {
    hide RunPhase, At, HasOutput, Sequence, Downstream;
    RunPhaseOutcome(s, p, w);
    SequenceDistinct(s.template);
    var t := RunPhase(s, p, w);
    forall q | q != p ensures HasOutput(t.board, q) ==> HasOutput(s.board, q) && StatusOf(t.board, q) == StatusOf(s.board, q) {
      if At(t.board, q) == At(s.board, q) { HasOutputAt(s.board, t.board, q); }
    }
    if Done(s, t, p, w) { FinishKeepsFresh(s, t, p); } else { RetreatKeepsFresh(s, t); }
  }

  lemma ManualKeepsFresh(s: Project, p: Phase, w: World)
    requires Fresh(s)
    ensures Fresh(RunManually(s, p, w)) && RunManually(s, p, w).template == s.template
  {
    RunPhaseOutcome(InvalidateDownstream(s, p), p, w);
    hide InvalidateDownstream, RunPhase, Fresh, Sequence;
    DownstreamBare(s, p);
    RetreatKeepsFresh(s, InvalidateDownstream(s, p));
    RunKeepsFresh(InvalidateDownstream(s, p), p, w);
  }

  // ---------- edits ----------

  lemma FinalizeKeeps(b: Board, p: Phase, doc: string)
    ensures OnlyAt(b, Finalize(b, p, doc), p) && StatusOf(Finalize(b, p, doc), p) == Completed
  {
  }

  lemma MarkPhaseStaleKeeps(b: Board, p: Phase)
    ensures OnlyAt(b, MarkPhaseStale(b, p), p) && !HasOutput(MarkPhaseStale(b, p), p)
  {
    ClearOutputKeeps(b, p);
    MarkStaleKeeps(ClearOutput(b, p), p);
    hide WouldMark, ClearOutput, MarkStale, At;
  }

  /** A hand edit finishes its phase now; whatever depends on it is cleared in the same step. */
  lemma EditFinishes(s: Project, p: Phase, doc: string)
    requires !p.Other?
    ensures Finishes(s, EditOutput(s, p, doc), p)
  {
    if p == Strategy { StrategyEditFinishes(s, doc); } else { PlainEditFinishes(s, p, doc); }
  }

  lemma StrategyEditFinishes(s: Project, doc: string)
    ensures Finishes(s, EditOutput(s, Strategy, doc), Strategy)
  {
    var b := StrategyCone(s.board);
    ConeEffect(s.board);
    FinalizeKeeps(b, Strategy, doc);
    AfterStrategy(s.template);
    hide StrategyCone, Finalize, At, HasOutput, ConeInvalidated, Sequence;
    var t := EditOutput(s, Strategy, doc);
    forall q | q != Strategy ensures Finished(t.board, q) ==> q !in CONE && Finished(s.board, q) {
      HasOutputAt(b, t.board, q);
      if q !in CONE { HasOutputAt(s.board, b, q); }
    }
  }

  lemma PlainEditFinishes(s: Project, p: Phase, doc: string)
    requires !p.Other? && p != Strategy
    ensures Finishes(s, EditOutput(s, p, doc), p)
  {
    FinalizeKeeps(s.board, p, doc);
    var m := Mark(s.(board := Finalize(s.board, p, doc)), p);
    DownstreamBare(m, p);
    hide InvalidateDownstream, Finalize, At, HasOutput, Sequence, Downstream, Invalidated;
    forall q | q != p ensures Finished(m.board, q) ==> Finished(s.board, q) {
      HasOutputAt(s.board, m.board, q);
    }
    var t := InvalidateDownstream(m, p);
    assert Steps(m) == Steps(s);
    assert EditOutput(s, p, doc).board == t.board;
    forall i, j | 0 <= i < j < |Steps(s)| && Steps(s)[i] == p ensures !Finished(t.board, Steps(s)[j]) {
      assert Steps(t) == Steps(s);
      assert BareAfter(t, i);
      assert !HasOutput(t.board, Steps(t)[j]);
    }
  }

  lemma AfterStrategy(t: Template)
    ensures forall i, j :: 0 <= i < j < |Sequence(t)| && Sequence(t)[i] == Strategy ==> Sequence(t)[j] in CONE
    ensures forall i, j :: 0 <= j < i < |Sequence(t)| && Sequence(t)[i] == Strategy ==> Sequence(t)[j] !in CONE
  {
  }

  lemma InputRetreats(s: Project, e: InputEdit)
    ensures Retreats(s, EditInput(s, e))
  {
    if e.ReportConfiguration? {
      MarkStaleKeeps(s.board, Report);
      hide MarkStale, At;
      forall q | q != Report ensures Finished(MarkStale(s.board, Report), q) ==> Finished(s.board, q) {
        HasOutputAt(s.board, MarkStale(s.board, Report), q);
      }
    } else {
      var p := RestartPhase(s.template, e);
      MarkPhaseStaleKeeps(s.board, p);
      var m := s.(board := MarkPhaseStale(s.board, p));
      DownstreamBare(m, p);
      hide InvalidateDownstream, MarkPhaseStale, At, WouldMark, Invalidated, RestartPhase;
      forall q ensures Finished(m.board, q) ==> Finished(s.board, q) {
        if q != p { HasOutputAt(s.board, m.board, q); }
      }
    }
  }

  // ---------- the runner ----------

  /** Every phase of the template before the `k`-th is finished. */
  ghost predicate FinishedBefore(s: Project, k: nat) {
    forall j :: 0 <= j < k && j < |Steps(s)| ==> Finished(s.board, Steps(s)[j])
  }

  /** The phase failed, with a failure on record. */
  predicate Halts(s: Project, p: Phase) {
    StatusOf(s.board, p) == Failed && p in s.board.failures && s.current == p
  }

  lemma ExitEffect(b: Board, p: Phase, g: ExitGate)
    requires Finished(b, p)
    ensures var t := Exit(b, p, g);
            OnlyAt(b, t, p) && (Finished(t, p) || (StatusOf(t, p) == Failed && p in t.failures))
  {
  }

  /** One turn of the loop: the phase comes out finished or halts the run, earlier phases stay
      finished, and later ones stay without output. */
  lemma TurnOutcome(s: Project, k: nat, w: World, g: ExitGate)
    requires k < |Steps(s)| && FinishedBefore(s, k) && BareAfter(s, k)
    ensures var p := Steps(s)[k]; var t := Turn(s, p, w, g);
            && t.template == s.template && FinishedBefore(t, k) && BareAfter(t, k)
            && t.current == p && (Finished(t.board, p) || Halts(t, p))
  {
    hide RunPhase, At, HasOutput, Sequence, Downstream, Exit;
    var p := Steps(s)[k];
    SequenceDistinct(s.template);
    var r := Started(s, p);
    StatusKeeps(s.board, p, Running);
    var u := RunPhase(r, p, w);
    RunPhaseOutcome(r, p, w);
    AfterStrategy(s.template);
    forall q | q != p ensures HasOutput(r.board, q) == HasOutput(s.board, q) && Finished(r.board, q) == Finished(s.board, q) {
      HasOutputAt(s.board, r.board, q);
    }
    RunKeepsBare(r, p, w);
    forall j | 0 <= j < k ensures Finished(u.board, Steps(s)[j]) {
      DownstreamIsLater(s.template, k, j);
      HasOutputAt(r.board, u.board, Steps(s)[j]);
    }
    if StatusOf(u.board, p) == Completed {
      var t := Turn(s, p, w, g);
      ExitEffect(u.board, p, g);
      forall q | q != p ensures HasOutput(t.board, q) == HasOutput(u.board, q) && Finished(t.board, q) == Finished(u.board, q) {
        HasOutputAt(u.board, t.board, q);
      }
      assert Steps(t) == Steps(u) == Steps(r) == Steps(s) && BareAfter(u, k);
      forall j | k < j < |Steps(s)| ensures !HasOutput(t.board, Steps(s)[j]) {
        assert Steps(s)[j] != p && !HasOutput(u.board, Steps(u)[j]);
      }
    }
  }

  /** And completion times stay in order, if they were. */
  lemma TurnKeepsFresh(s: Project, k: nat, w: World, g: ExitGate)
    requires k < |Steps(s)| && Fresh(s) && BareAfter(s, k)
    ensures Fresh(Turn(s, Steps(s)[k], w, g))
  {
    hide RunPhase, At, HasOutput, Sequence, Downstream, Exit, Fresh;
    var p := Steps(s)[k];
    SequenceDistinct(s.template);
    var r := Started(s, p);
    StatusKeeps(s.board, p, Running);
    forall q | q != p ensures HasOutput(r.board, q) == HasOutput(s.board, q) && Finished(r.board, q) == Finished(s.board, q) {
      HasOutputAt(s.board, r.board, q);
    }
    RetreatKeepsFresh(s, r);
    RunKeepsFresh(r, p, w);
    var u := RunPhase(r, p, w);
    if StatusOf(u.board, p) == Completed {
      var t := Turn(s, p, w, g);
      RunPhaseOutcome(r, p, w);
      ExitEffect(u.board, p, g);
      forall q | Finished(t.board, q) ensures Finished(u.board, q) { if q != p { HasOutputAt(u.board, t.board, q); } }
      RetreatKeepsFresh(u, t);
    }
  }

  /** Where a run stops: all phases finished, or halted at the first unfinished one with nothing after it. */
  ghost predicate Settled(t: Project) {
    var f := FirstUnfinished(t.board, Steps(t));
    IsComplete(t) || (Halts(t, Steps(t)[f]) && BareAfter(t, f))
  }

  lemma FirstUnfinishedAt(s: Project, k: nat)
    requires k < |Steps(s)| && FinishedBefore(s, k) && !Finished(s.board, Steps(s)[k])
    ensures FirstUnfinished(s.board, Steps(s)) == k
  {
    hide Finished, Sequence;
  }

  lemma {:induction false} RunFromSettles(s: Project, k: nat, world: Phase -> World, gates: Phase -> ExitGate)
    requires k <= |Steps(s)| && FinishedBefore(s, k) && BareAfter(s, k)
    ensures var t := RunFrom(s, Steps(s)[k..], world, gates);
            t.template == s.template && Settled(t) && (Fresh(s) ==> Fresh(t))
    decreases |Steps(s)| - k
  {
    hide Turn, Fresh, HasOutput, StatusOf, Sequence;
    if k == |Steps(s)| {
    } else {
      var p := Steps(s)[k];
      assert Steps(s)[k..][1..] == Steps(s)[k + 1..];
      if Finished(s.board, p) {
        RunFromSettles(s, k + 1, world, gates);
      } else {
        var t := Turn(s, p, world(p), gates(p));
        TurnOutcome(s, k, world(p), gates(p));
        if Fresh(s) { TurnKeepsFresh(s, k, world(p), gates(p)); }
        if StatusOf(t.board, p) == Completed {
          assert Finished(t.board, p);
          RunFromSettles(t, k + 1, world, gates);
        } else {
          FirstUnfinishedAt(t, k);
        }
      }
    }
  }

  /** The resumable runner, from whatever state was stored: it returns a complete workflow or a state
      whose first unfinished phase is the one that halted it, failed, with no output after it. It keeps
      completion times in order if they were. */
  lemma RunWorkflowSettles(s: Project, world: Phase -> World, gates: Phase -> ExitGate)
    ensures var t := RunWorkflow(s, world, gates);
            t.template == s.template && Settled(t) && (Fresh(s) ==> Fresh(t))
  {
    var k := FirstUnfinished(s.board, Steps(s));
    if k < |Steps(s)| {
      var p := Steps(s)[k];
      var t := InvalidateDownstream(s, p);
      DownstreamBare(s, p);
      hide InvalidateDownstream, Fresh, HasOutput, At, Sequence, Downstream;
      if Fresh(s) { RetreatKeepsFresh(s, t); }
      forall j | 0 <= j < k ensures Finished(t.board, Steps(s)[j]) {
        DownstreamIsLater(s.template, k, j);
        HasOutputAt(s.board, t.board, Steps(s)[j]);
      }
      RunFromSettles(t, k, world, gates);
    }
  }

  // ---------- histories ----------

  lemma StepKeepsFresh(s: Project, op: Op)
    requires Fresh(s)
    ensures Fresh(Apply(s, op)) && Apply(s, op).template == s.template
  {
    hide RunWorkflow, RunManually, EditOutput, EditInput, Fresh;
    match op
    case Workflow(world, gates) => RunWorkflowSettles(s, world, gates);
    case Manual(p, w) => ManualKeepsFresh(s, p, w);
    case Output(q, doc) =>
      if q.Other? { OtherIsRefused(s, q, doc); }
      else { EditFinishes(s, q, doc); FinishKeepsFresh(s, EditOutput(s, q, doc), q); }
    case Input(e) => InputRetreats(s, e); RetreatKeepsFresh(s, EditInput(s, e));
    case KillSwitch => RetreatKeepsFresh(s, Kill(s));
  }

  lemma OtherIsRefused(s: Project, q: Phase, doc: string)
    requires q.Other?
    ensures EditOutput(s, q, doc) == s
  {
  }

  lemma {:induction false} HistoryIsFresh(s: Project, ops: seq<Op>)
    requires Fresh(s)
    ensures Fresh(History(s, ops)) && History(s, ops).template == s.template
    decreases |ops|
  {
    hide Apply, Fresh;
    if ops != [] {
      HistoryIsFresh(s, ops[..|ops| - 1]);
      StepKeepsFresh(History(s, ops[..|ops| - 1]), ops[|ops| - 1]);
    }
  }

  /** Freshness over all histories: whatever runs, manual runs, output edits, input edits and kill
      requests a project goes through, a finished phase was completed after every finished phase
      before it in the template. */
  lemma Freshness(template: Template, controls: Controls, ops: seq<Op>, i: nat, j: nat)
    requires i < j < |Sequence(template)|
    ensures var t := History(Created(template, controls), ops); var p := Sequence(template)[i]; var q := Sequence(template)[j];
            Finished(t.board, p) && Finished(t.board, q) ==> p in t.stamps && q in t.stamps && t.stamps[p] < t.stamps[q]
  {
    var s := Created(template, controls);
    CreatedIsFresh(template, controls);
    HistoryIsFresh(s, ops);
    hide History, Finished, Created;
    var t := History(s, ops);
    assert Steps(t) == Sequence(template);
    assert Fresh(t);
  }

  lemma CreatedIsFresh(template: Template, controls: Controls)
    ensures Fresh(Created(template, controls)) && Created(template, controls).template == template
  {
  }

  /** The same in the words of the invalidation map: of two finished phases, the one that a change of
      the other invalidates was completed later. */
  lemma FreshnessOfTheMap(controls: Controls, ops: seq<Op>, p: Phase, q: Phase)
    requires q in InvalidationMap(p)
    ensures var t := History(Created(StrategicAudit, controls), ops);
            Finished(t.board, p) && Finished(t.board, q) ==> p in t.stamps && q in t.stamps && t.stamps[p] < t.stamps[q]
  {
    var i, j := MapFollowsTemplate(p, q);
    Freshness(StrategicAudit, controls, ops, i, j);
  }

  lemma MapFollowsTemplate(p: Phase, q: Phase) returns (i: nat, j: nat)
    requires q in InvalidationMap(p)
    ensures i < j < |STRATEGIC| && STRATEGIC[i] == p && STRATEGIC[j] == q
  {
    i := Rank(p);
    j := Rank(q);
  }

  function Rank(p: Phase): nat {
    match p
    case Classify => 0
    case Hypotheses => 1
    case Gauntlet => 2
    case Audit => 3
    case Strategy => 4
    case Sqi => 5
    case Monitor => 6
    case _ => 7
  }
}
