/** What one phase run, one turn of the runner and a manual run leave on record about the other phases,
    and which phase the project stands at afterwards. */
module ReachLaws {
  import opened Collections
  import opened Phases
  import opened Policy
  import opened Workflow
  import opened PhaseOutcome
  import opened VerdictLaws

  /** The entry of a later phase after a prerequisite failed: wiped, and if anything was on record its
      failure and completion time go too. */
  function Dropped(e: Entry, p: Phase, listed: bool): Entry {
    if OnRecord(e, p, listed) then Entry(Stale, None, None, None, false, None, None)
    else Entry(e.status, None, None, None, false, e.completedAt, e.failure)
  }

  lemma DroppedEntries(b: Board, down: seq<Phase>, p: Phase, q: Phase)
    requires Distinct(down) && p !in down && q != p
    ensures At(PrerequisiteFailure(b, down, p), q) ==
            if q in down then Dropped(At(b, q), q, q in b.status) else At(b, q)
  {
    var c := ClearOutput(b, p);
    var mid := InvalidateAll(c, down);
    var touched := TouchedOf(c, down);
    ClearOutputEntry(b, p);
    ClearOutputKeeps(b, p);
    InvalidateAllEntries(c, down, q);
    ReportedAreRecorded(c, down);
    InRecorded(c, down, q);
    DropLifecycleEntry(mid, touched, q);
    OthersStay(DropLifecycle(mid, touched), p);
    WipedThenDropped(At(c, q), q, q in c.status);
    hide InvalidateAll, TouchedOf, DropLifecycle, ClearOutput, At, OnRecord, Recorded, Fail, Wiped, Dropped, Distinct;
  }

  lemma WipedThenDropped(e: Entry, p: Phase, listed: bool)
    ensures var w := Wiped(e, p, listed);
            Dropped(e, p, listed) == if OnRecord(e, p, listed) then w.(output := None, raw := None, failure := None, completedAt := None) else w
  {
    hide OnRecord;
  }

  lemma {:induction false} InRecorded(b: Board, ps: seq<Phase>, q: Phase)
    ensures q in Recorded(b, ps) <==> q in ps && OnRecord(At(b, q), q, q in b.status)
    decreases |ps|
  {
    hide At, OnRecord;
    if ps != [] {
      InRecorded(b, ps[..|ps| - 1], q);
      assert ps == ps[..|ps| - 1] + [ps[|ps| - 1]];
    }
  }

  lemma {:induction false} DropLifecycleEntry(b: Board, ps: seq<Phase>, q: Phase)
    ensures At(DropLifecycle(b, ps), q) ==
            if q in ps then At(b, q).(output := None, raw := None, failure := None, completedAt := None) else At(b, q)
    decreases |ps|
  {
    hide At, DropOne;
    if ps != [] {
      DropLifecycleEntry(b, ps[..|ps| - 1], q);
      DropOneEntry(DropLifecycle(b, ps[..|ps| - 1]), ps[|ps| - 1], q);
      assert ps == ps[..|ps| - 1] + [ps[|ps| - 1]];
    }
  }

  lemma DropOneEntry(b: Board, p: Phase, q: Phase)
    ensures At(DropOne(b, p), q) ==
            if q == p then At(b, q).(output := None, raw := None, failure := None, completedAt := None) else At(b, q)
  {
  }

  lemma OthersStay(t: Board, p: Phase)
    ensures OnlyAt(t, Fail(t.(summaries := t.summaries - {p}, completedAt := Without(t.completedAt, p)), p, PrerequisiteFailed), p)
  {
  }

  /** The entry of another phase after a run of `p`, from what was on record before: a Strategy run makes
      its derived phases forget, a missing prerequisite drops the later ones, and nothing else moves. */
  function Elsewhere(s: Project, p: Phase, q: Phase): Entry {
    var e := At(s.board, q);
    if p == Strategy && q in {Sqi, Monitor, Report} then Forgotten(e, q)
    else if Lacks(s.board, p) && q in Downstream(s.template, p) then Dropped(e, q, q in s.board.status)
    else e
  }

  /** `run_phase_node` seen from the other phases; the project moves to the phase once the gate lets it in. */
  lemma RunElsewhere(s: Project, p: Phase, w: World)
    ensures var t := RunPhase(s, p, w);
            && (forall q :: q != p ==> At(t.board, q) == Elsewhere(s, p, q))
            && t.current == (if Lacks(s.board, p) || Gate(Clocked(s.controls, w.now), p, w.now) != Allowed then s.current else p)
            && t.template == s.template
  {
    var r := Replaced(s, p);
    var t := RunPhase(s, p, w);
    ReplacedElsewhere(s, p);
    LacksIsUnmet(r.board, p);
    DownstreamDistinct(s.template, p);
    ClockStarts(s.controls, w.now);
    hide PrerequisitesMet, Lacks, Gate, StrategyCone, PrerequisiteFailure, At, Fail, Begin, Clocked, StartClock, Forgotten, Dropped, Downstream;
    forall q | q != p ensures At(t.board, q) == Elsewhere(s, p, q) {
      DroppedEntries(r.board, Downstream(s.template, p), p, q);
      FailOthers(r.board, p, PolicyBlocked);
      BeginElsewhere(r.(controls := Clocked(s.controls, w.now)), p, w);
    }
    BeginElsewhere(r.(controls := Clocked(s.controls, w.now)), p, w);
  }

  lemma ReplacedElsewhere(s: Project, p: Phase)
    ensures var r := Replaced(s, p);
            && (forall q :: q != p ==> At(r.board, q) == if p == Strategy && q in {Sqi, Monitor, Report} then Forgotten(At(s.board, q), q) else At(s.board, q))
            && (p == Strategy ==> !Lacks(s.board, p) && !Lacks(r.board, p)) && (p != Strategy ==> r == s)
  {
    ConeEntries(s.board);
    hide StrategyCone, At, Forgotten, Finished;
  }

  lemma BeginElsewhere(s: Project, p: Phase, w: World)
    ensures var t := Begin(s, p, w); OnlyAt(s.board, t.board, p) && t.current == p && t.template == s.template
  {
    var u := s.(board := s.board.(status := s.board.status[p := Running]), current := p);
    RunningElsewhere(s.board, p);
    FailOthers(u.board, p, PhaseConfiguration);
    FailOthers(u.board, p, EvidenceBlocked);
    hide At, Fail, Execute, HasOutput, StatusOf;
    ExecuteOutcome(u, p, w);
  }

  lemma RunningElsewhere(b: Board, p: Phase)
    ensures OnlyAt(b, b.(status := b.status[p := Running]), p)
  {
  }

  // ---------- a turn of the runner, a manual run ----------

  /** A turn of the runner seen from the other phases; the project stands at its phase in any case. */
  lemma TurnElsewhere(s: Project, p: Phase, w: World, g: ExitGate)
    requires !p.Other?
    ensures var t := Turn(s, p, w, g);
            (forall q :: q != p ==> At(t.board, q) == Elsewhere(s, p, q)) && t.current == p && t.template == s.template
  {
    var r := Started(s, p);
    var u := RunPhase(r, p, w);
    RunElsewhere(r, p, w);
    ExitEntry(u.board, p, g);
    hide RunPhase, At, Exit, StatusOf, Elsewhere, Lacks, Gate, Clocked, HasGate;
    forall q | q != p ensures At(Turn(s, p, w, g).board, q) == Elsewhere(s, p, q) { StartedElsewhere(s, p, q); }
  }

  lemma StartedElsewhere(s: Project, p: Phase, q: Phase)
    requires q != p
    ensures Elsewhere(Started(s, p), p, q) == Elsewhere(s, p, q)
  {
    var r := Started(s, p);
    RunningElsewhere(s.board, p);
    PrerequisitesAreEarlier(s.template, p);
    LacksOthers(s.board, r.board, p);
    hide At, Lacks, Forgotten, Dropped, Downstream, Prerequisites;
  }

  /** Whether a prerequisite is missing depends on other phases only. */
  lemma LacksOthers(b: Board, t: Board, p: Phase)
    requires forall q :: q in Prerequisites(p) ==> At(t, q) == At(b, q)
    ensures Lacks(b, p) == Lacks(t, p)
  {
    LacksIsUnmet(b, p);
    LacksIsUnmet(t, p);
    hide Lacks, At, Prerequisites, StatusOf, HasOutput;
    forall q | q in Prerequisites(p) ensures Finished(b, q) == Finished(t, q) {
      EntryFinished(b, q);
      EntryFinished(t, q);
    }
  }

  /** The later phases by name. */
  lemma LaterByName(t: Template)
    ensures Downstream(t, Strategy) == [Sqi, Monitor, Report]
    ensures Downstream(t, Sqi) == if t == StrategicAudit then [Monitor, Report] else []
    ensures Downstream(t, Monitor) == [Report] && Downstream(t, Report) == []
  {
    hide Downstream;
    match t
    case StrategicAudit =>
      AfterPosition(4);
      AfterPosition(5);
      AfterPosition(6);
      AfterPosition(7);
    case TechnologyReadiness =>
      NotInReadiness(Strategy);
      NotInReadiness(Sqi);
      NotInReadiness(Monitor);
      NotInReadiness(Report);
  }

  lemma AfterPosition(i: nat)
    requires i < 8
    ensures Downstream(StrategicAudit, STRATEGIC[i]) == if i == 7 then [] else STRATEGIC[i + 1..]
  {
    SequenceDistinct(StrategicAudit);
    NothingAfterLast(StrategicAudit);
    hide Distinct, IndexOf, InvalidationMap;
    AfterIsLater(STRATEGIC, i, 0);
  }

  lemma NotInReadiness(p: Phase)
    requires p in {Strategy, Sqi, Monitor, Report}
    ensures Downstream(TechnologyReadiness, p) == InvalidationMap(p)
  {
    hide IndexOf, InvalidationMap;
    assert p !in READINESS;
  }

  lemma PrerequisitesAreEarlier(t: Template, p: Phase)
    ensures forall q :: q in Prerequisites(p) ==> q != p && q !in Downstream(t, p)
  {
    LaterByName(t);
    hide Downstream;
  }

  /** `run_single_phase_endpoint` seen from the other phases: the later ones are wiped first, then the
      run does what it does to them; no other phase moves. */
  lemma ManualElsewhere(s: Project, p: Phase, w: World)
    ensures var t := RunManually(s, p, w); var down := Downstream(s.template, p);
            && (forall q :: q != p && q !in down ==> At(t.board, q) == At(s.board, q))
            && (forall q :: q in down ==>
                  var e := Wiped(At(s.board, q), q, q in s.board.status);
                  At(t.board, q) == if p == Strategy && q in {Sqi, Monitor, Report} then Forgotten(e, q)
                                    else if Lacks(s.board, p) then Dropped(e, q, true) else e)
  {
    hide RunManually, At, Wiped, Forgotten, Dropped, Lacks, Downstream;
    var down := Downstream(s.template, p);
    DownstreamDistinct(s.template, p);
    hide Distinct;
    forall q | q != p
      ensures At(RunManually(s, p, w).board, q) ==
              var e := Wiped(At(s.board, q), q, q in s.board.status);
              if q !in down then At(s.board, q)
              else if p == Strategy && q in {Sqi, Monitor, Report} then Forgotten(e, q)
              else if Lacks(s.board, p) then Dropped(e, q, true) else e
    {
      ManualEntry(s, p, w, q);
    }
  }

  lemma ManualEntry(s: Project, p: Phase, w: World, q: Phase)
    requires q != p
    ensures At(RunManually(s, p, w).board, q) ==
            var e := Wiped(At(s.board, q), q, q in s.board.status);
            if q !in Downstream(s.template, p) then At(s.board, q)
            else if p == Strategy && q in {Sqi, Monitor, Report} then Forgotten(e, q)
            else if Lacks(s.board, p) then Dropped(e, q, true) else e
  {
    var r := InvalidateDownstream(s, p);
    LacksLater(s, p);
    LaterByName(s.template);
    WipedAt(s, p, q);
    ElsewhereAt(r, p, w, q);
    hide RunPhase, At, Elsewhere, Lacks, Forgotten, Dropped, Downstream, InvalidateDownstream, Wiped;
    if q in Downstream(s.template, p) { ListedAfter(s, p, q); }
    ElsewhereListed(r, p, q);
  }

  lemma WipedAt(s: Project, p: Phase, q: Phase)
    ensures At(InvalidateDownstream(s, p).board, q) ==
            if q in Downstream(s.template, p) then Wiped(At(s.board, q), q, q in s.board.status) else At(s.board, q)
    ensures InvalidateDownstream(s, p).template == s.template
  {
    InvalidationWipes(s, p);
    hide At, Downstream, InvalidateAll, Wiped;
  }

  lemma ElsewhereAt(s: Project, p: Phase, w: World, q: Phase)
    requires q != p
    ensures At(RunPhase(s, p, w).board, q) == Elsewhere(s, p, q)
  {
    hide RunPhase, At, Elsewhere;
    RunElsewhere(s, p, w);
  }

  lemma LacksLater(s: Project, p: Phase)
    ensures Lacks(InvalidateDownstream(s, p).board, p) == Lacks(s.board, p)
  {
    PrerequisitesAreEarlier(s.template, p);
    InvalidationWipes(s, p);
    hide At, Downstream, Lacks, Wiped, InvalidateDownstream, Prerequisites;
    LacksOthers(s.board, InvalidateDownstream(s, p).board, p);
  }

  lemma ElsewhereListed(s: Project, p: Phase, q: Phase)
    requires q in Downstream(s.template, p) ==> q in s.board.status
    ensures Elsewhere(s, p, q) ==
            var e := At(s.board, q);
            if p == Strategy && q in {Sqi, Monitor, Report} then Forgotten(e, q)
            else if Lacks(s.board, p) && q in Downstream(s.template, p) then Dropped(e, q, true) else e
  {
    hide At, Lacks, Forgotten, Dropped, Downstream;
  }

  lemma ListedAfter(s: Project, p: Phase, q: Phase)
    requires q in Downstream(s.template, p)
    ensures q in InvalidateDownstream(s, p).board.status
  {
    hide Downstream;
    WipedIsListed(s.board, Downstream(s.template, p), q);
  }

  /** A phase that was wiped has a status entry: without one it counts as touched. */
  lemma {:induction false} WipedIsListed(b: Board, ps: seq<Phase>, q: Phase)
    requires q in ps
    ensures q in InvalidateAll(b, ps).status
    decreases |ps|
  {
    hide HasMaterial;
    var n := |ps| - 1;
    assert ps == ps[..n] + [ps[n]];
    if q in ps[..n] { WipedIsListed(b, ps[..n], q); }
  }
}
