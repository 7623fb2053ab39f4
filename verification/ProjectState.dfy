/** The project state as the program keeps it: an object whose operations assign its fields, proved
    against the state machine of module Workflow. */
module ProjectState {
  import opened Collections
  import opened Phases
  import opened Policy
  import opened Workflow
  import opened PhaseOutcome

  class State {
    const template: Template
    var phaseStatus: map<Phase, Status>
    var outputs: map<Phase, string>
    var rawOutputs: map<Phase, string>
    var phaseConfidence: map<Phase, real>
    var phaseSummaries: set<Phase>
    var phaseRunCompletedAt: map<Phase, int>
    var phaseFailureDetails: map<Phase, Failure>
    var currentPhase: Phase
    var killSwitchActive: bool
    const caps: Caps
    var totalTokens: int
    var totalCost: real
    var startedAt: Option<real>
    var llmCallCount: int
    var consecutiveFailures: int
    const openBreakers: set<Phase>
    const approvals: set<Phase>
    const risk: Risk
    ghost var admitted: seq<Admission>
    ghost var stamps: map<Phase, nat>
    ghost var clock: nat

    function BoardNow(): Board
      reads this
    {
      Board(phaseStatus, outputs, rawOutputs, phaseConfidence, phaseSummaries, phaseRunCompletedAt, phaseFailureDetails)
    }

    function ControlsNow(): Controls
      reads this
    {
      Controls(killSwitchActive, caps, Used(totalTokens, totalCost, startedAt, llmCallCount, consecutiveFailures),
               openBreakers, approvals, risk)
    }

    ghost function Snapshot(): Project
      reads this
    {
      Project(template, BoardNow(), currentPhase, ControlsNow(), admitted, stamps, clock)
    }

    constructor (template: Template, controls: Controls)
      ensures Snapshot() == Created(template, controls)
    {
      this.template := template;
      SequenceDistinct(template);
      phaseStatus := map p | p in Sequence(template) :: Pending;
      outputs, rawOutputs, phaseConfidence, phaseSummaries := map[], map[], map[], {};
      phaseRunCompletedAt, phaseFailureDetails := map[], map[];
      currentPhase := Sequence(template)[0];
      killSwitchActive := controls.killed;
      caps := controls.caps;
      totalTokens, totalCost, startedAt := controls.used.tokens, controls.used.cost, controls.used.startedAt;
      llmCallCount, consecutiveFailures := controls.used.calls, controls.used.failures;
      openBreakers, approvals, risk := controls.openBreakers, controls.approvals, controls.risk;
      admitted, stamps, clock := [], map[], 0;
    }

    // ---------- invalidation ----------

    method ClearPhaseOutput(p: Phase)
      modifies `outputs, `rawOutputs
      ensures BoardNow() == ClearOutput(old(BoardNow()), p)
    {
      outputs := Without(outputs, p);
      rawOutputs := Without(rawOutputs, p);
    }

    method MarkStaleNow(p: Phase)
      modifies `phaseStatus, `phaseConfidence, `phaseSummaries
      ensures BoardNow() == MarkStale(old(BoardNow()), p)
    {
      phaseStatus := phaseStatus[p := Stale];
      phaseConfidence := Without(phaseConfidence, p);
      phaseSummaries := phaseSummaries - {p};
    }

    /** `invalidate_downstream`: the phases it reports are those that had anything on record. */
    method InvalidateDownstream(changed: Phase) returns (invalidated: seq<Phase>)
      modifies `outputs, `rawOutputs, `phaseStatus, `phaseConfidence, `phaseSummaries
      ensures Snapshot() == Workflow.InvalidateDownstream(old(Snapshot()), changed)
      ensures invalidated == Invalidated(old(Snapshot()), changed)
    {
      var ps := Downstream(template, changed);
      invalidated := [];
      InvalidateNone(BoardNow());
      hide InvalidateAll, TouchedOf, Touched, ClearOutput, MarkStale, Downstream;
      for i := 0 to |ps|
        invariant BoardNow() == InvalidateAll(old(BoardNow()), ps[..i])
        invariant invalidated == TouchedOf(old(BoardNow()), ps[..i])
      {
        var p := ps[i];
        InvalidateStep(old(BoardNow()), ps, i);
        var touched := Touched(BoardNow(), p);
        ClearPhaseOutput(p);
        if touched {
          MarkStaleNow(p);
          invalidated := invalidated + [p];
        }
      }
      assert ps[..|ps|] == ps;
    }

    method ForgetPhaseNow(p: Phase)
      modifies `outputs, `phaseConfidence, `phaseSummaries, `phaseRunCompletedAt, `phaseFailureDetails
      ensures BoardNow() == ForgetPhase(old(BoardNow()), p)
    {
      outputs := Without(outputs, p);
      phaseConfidence := Without(phaseConfidence, p);
      phaseSummaries := phaseSummaries - {p};
      phaseRunCompletedAt := Without(phaseRunCompletedAt, p);
      phaseFailureDetails := Without(phaseFailureDetails, p);
    }

    method ConeOneNow(p: Phase) returns (had: bool)
      modifies `outputs, `phaseStatus, `phaseConfidence, `phaseSummaries, `phaseRunCompletedAt, `phaseFailureDetails
      ensures BoardNow() == ConeOne(old(BoardNow()), p) && had == HadLifecycle(old(BoardNow()), p)
    {
      hide ForgetPhase, HadLifecycle;
      had := HadLifecycle(BoardNow(), p);
      ForgetPhaseNow(p);
      if had { phaseStatus := phaseStatus[p := Stale]; }
    }

    /** `invalidate_strategy_dependency_cone`. */
    method InvalidateStrategyDependencyCone() returns (invalidated: seq<Phase>)
      modifies `outputs, `rawOutputs, `phaseStatus, `phaseConfidence, `phaseSummaries, `phaseRunCompletedAt, `phaseFailureDetails
      ensures BoardNow() == StrategyCone(old(BoardNow()))
      ensures invalidated == ConeInvalidated(old(BoardNow()))
    {
      ghost var b := BoardNow();
      ConeEnds(b);
      hide ConeOne, HadLifecycle, ConeSoFar, ConeHits, ForgetPhase, StrategyCone, ConeInvalidated;
      invalidated := [];
      for i := 0 to |DERIVED|
        invariant BoardNow() == ConeSoFar(b, i)
        invariant invalidated == ConeHits(b, i)
      {
        ConeStep(b, i);
        var had := ConeOneNow(DERIVED[i]);
        if had { invalidated := invalidated + [DERIVED[i]]; }
      }
      ForgetPhaseNow(Strategy);
      rawOutputs := Without(rawOutputs, Strategy);
    }

    // ---------- the gate and the model ----------

    /** `trigger_kill_switch`. */
    method TriggerKillSwitch()
      modifies `killSwitchActive
      ensures Snapshot() == Kill(old(Snapshot()))
    {
      killSwitchActive := true;
    }

    /** `start_wall_clock`. */
    method StartWallClock(now: real)
      modifies `startedAt
      ensures ControlsNow() == StartClock(old(ControlsNow()), now)
    {
      if startedAt.None? { startedAt := Some(now); }
    }

    /** `record_consumption_to_state`. */
    method RecordConsumption(tokens: nat, cost: real, success: bool)
      modifies `totalTokens, `totalCost, `llmCallCount, `consecutiveFailures
      ensures ControlsNow() == old(ControlsNow()).(used := Consume(old(ControlsNow()).used, tokens, cost, success))
    {
      totalTokens := totalTokens + tokens;
      totalCost := totalCost + cost;
      llmCallCount := llmCallCount + 1;
      consecutiveFailures := if success then 0 else consecutiveFailures + 1;
    }

    /** The provider gateway's loop: one attempt after the other, the gate asked before each. */
    method RunAttempts(p: Phase, attempts: seq<Attempt>) returns (r: Reply, executed: nat)
      ensures r == Answer(ControlsNow(), p, attempts) && executed == Executed(ControlsNow(), p, attempts)
    {
      hide PolicyGate, ActionClass;
      var tokens: nat, cost: real := 0, 0.0;
      executed := 0;
      assert attempts[0..] == attempts;
      while executed < |attempts|
        invariant executed <= |attempts|
        invariant Answer(ControlsNow(), p, attempts) == Gateway(ControlsNow(), p, attempts[executed..], tokens, cost)
        invariant Executed(ControlsNow(), p, attempts) == executed + Executed(ControlsNow(), p, attempts[executed..])
      {
        var a := attempts[executed];
        assert attempts[executed..][0] == a && attempts[executed..][1..] == attempts[executed + 1..];
        if Gate(ControlsNow(), p, a.at) != Allowed {
          return Response(false, true, "", tokens, cost, Unparsed), executed;
        }
        executed := executed + 1;
        tokens, cost := tokens + a.answer.tokens, cost + a.answer.cost;
        if a.answer.ok || a.final {
          return a.answer.(refused := false, tokens := tokens, cost := cost), executed;
        }
      }
      r := Response(false, false, "", tokens, cost, Unparsed);
    }

    /** One logical model call; the consumption of an answer, an error or a refusal is recorded. */
    method CallModel(p: Phase, attempts: seq<Attempt>) returns (r: Reply)
      modifies `totalTokens, `totalCost, `llmCallCount, `consecutiveFailures, `admitted
      ensures r == Answer(old(ControlsNow()), p, attempts)
      ensures Snapshot() == Called(old(Snapshot()), p, attempts)
    {
      hide Gateway, Executed, Ready;
      var executed;
      r, executed := RunAttempts(p, attempts);
      if executed > 0 { admitted := admitted + [Admission(p, Ready(Snapshot(), p), r.tokens, r.cost)]; }
      RecordConsumption(r.tokens, r.cost, r.ok);
    }

    // ---------- one phase ----------

    method FailPhase(p: Phase, why: Failure)
      modifies `phaseStatus, `phaseConfidence, `phaseFailureDetails
      ensures BoardNow() == Fail(old(BoardNow()), p, why)
    {
      phaseStatus := phaseStatus[p := Failed];
      phaseConfidence := phaseConfidence[p := 0.0];
      phaseFailureDetails := phaseFailureDetails[p := why];
    }

    method CompletePhase(p: Phase)
      modifies `phaseStatus, `phaseConfidence, `phaseFailureDetails
      ensures BoardNow() == Complete(old(BoardNow()), p)
    {
      phaseStatus := phaseStatus[p := Completed];
      phaseConfidence := phaseConfidence[p := 1.0];
      phaseFailureDetails := Without(phaseFailureDetails, p);
    }

    method KeepRawText(p: Phase, text: string)
      modifies `rawOutputs
      ensures BoardNow() == KeepRaw(old(BoardNow()), p, text)
    {
      if p == Audit || p == Strategy { rawOutputs := rawOutputs[p := text]; }
    }

    method StorePhaseOutput(p: Phase, doc: Option<string>)
      modifies `outputs, `rawOutputs
      ensures BoardNow() == Store(old(BoardNow()), p, doc)
    {
      if doc.Some? {
        outputs := outputs[p := doc.value];
        rawOutputs := Without(rawOutputs, p);
      }
    }

    /** `_phase_prerequisites_met`. */
    method PhasePrerequisitesMet(p: Phase) returns (met: bool)
      ensures met == PrerequisitesMet(BoardNow(), p)
    {
      met := true;
      var ps := Prerequisites(p);
      for i := 0 to |ps|
        invariant met == forall k :: 0 <= k < i ==> Finished(BoardNow(), ps[k])
      {
        if !Finished(BoardNow(), ps[i]) { met := false; }
      }
    }

    /** A phase that was just invalidated loses its output and its lifecycle. */
    method DropOneNow(q: Phase)
      modifies `outputs, `rawOutputs, `phaseRunCompletedAt, `phaseFailureDetails
      ensures BoardNow() == DropOne(old(BoardNow()), q)
    {
      outputs := Without(outputs, q);
      rawOutputs := Without(rawOutputs, q);
      phaseFailureDetails := Without(phaseFailureDetails, q);
      phaseRunCompletedAt := Without(phaseRunCompletedAt, q);
    }

    /** `_record_prerequisite_failure`. */
    method RecordPrerequisiteFailure(p: Phase)
      modifies this
      ensures Snapshot() == old(Snapshot()).(board := PrerequisiteFailure(old(BoardNow()), Downstream(template, p), p))
    {
      hide InvalidateAll, TouchedOf, ClearOutput, Downstream, DropLifecycle, DropOne, Fail;
      ClearPhaseOutput(p);
      var downstream := InvalidateDownstream(p);
      DropEach(downstream);
      phaseSummaries := phaseSummaries - {p};
      phaseRunCompletedAt := Without(phaseRunCompletedAt, p);
      FailPhase(p, PrerequisiteFailed);
    }

    method DropEach(ps: seq<Phase>)
      modifies `outputs, `rawOutputs, `phaseRunCompletedAt, `phaseFailureDetails
      ensures BoardNow() == DropLifecycle(old(BoardNow()), ps)
    {
      DropNone(BoardNow());
      hide DropLifecycle, DropOne;
      for i := 0 to |ps|
        invariant BoardNow() == DropLifecycle(old(BoardNow()), ps[..i])
      {
        DropStep(old(BoardNow()), ps, i);
        DropOneNow(ps[i]);
      }
      assert ps[..|ps|] == ps;
    }

    method AcceptStored(p: Phase, text: string)
      modifies `rawOutputs, `phaseStatus, `phaseConfidence, `phaseFailureDetails
      ensures BoardNow() == Accept(old(BoardNow()), p, text)
    {
      hide Fail, Complete, KeepRaw, HasOutput;
      if HasOutput(BoardNow(), p) {
        CompletePhase(p);
      } else {
        KeepRawText(p, text);
        FailPhase(p, MissingOutput);
      }
    }

    method RejectAnswer(p: Phase, text: string, why: Failure)
      modifies `rawOutputs, `phaseStatus, `phaseConfidence, `phaseFailureDetails
      ensures BoardNow() == Reject(old(BoardNow()), p, text, why)
    {
      hide Fail, KeepRaw;
      FailPhase(p, why);
      KeepRawText(p, text);
    }

    method FinishAnswer(p: Phase, stored: bool, response: Reply, failure: Option<Failure>)
      modifies this
      ensures Snapshot() == old(Snapshot()).(board := Finish(old(BoardNow()), p, stored, response, failure))
    {
      hide Accept, Reject;
      if stored {
        AcceptStored(p, response.text);
      } else {
        RejectAnswer(p, response.text, if failure.Some? then failure.value else ReadingFailure(response.reading));
      }
    }

    /** An answer without a payload is asked for once more. */
    method RepairUnread(p: Phase, w: World, first: Reply) returns (response: Reply, failure: Option<Failure>)
      modifies this
      ensures UnreadStep(old(Snapshot()), Snapshot(), p, w, first, response, failure)
    {
      hide Called, Answer;
      response, failure := first, None;
      if !first.reading.Payload? {
        var retry := CallModel(p, w.second);
        if retry.ok { response := retry; } else { failure := Some(ProviderError); }
      }
    }

    method StoreValid(p: Phase, reading: Reading) returns (stored: bool)
      modifies this
      ensures stored == (reading.Payload? && reading.valid)
      ensures Snapshot() == old(Snapshot()).(board := if stored then Store(old(BoardNow()), p, reading.doc) else old(BoardNow()))
    {
      hide Store;
      stored := reading.Payload? && reading.valid;
      if stored { StorePhaseOutput(p, reading.doc); }
    }

    method AskAgain(p: Phase, w: World) returns (response: Reply, stored: bool)
      modifies this
      ensures response == Answer(old(ControlsNow()), p, w.second)
      ensures stored == (response.ok && response.reading.Payload? && response.reading.valid)
      ensures Snapshot() == Called(old(Snapshot()), p, w.second)
                            .(board := if stored then Store(old(BoardNow()), p, response.reading.doc) else old(BoardNow()))
    {
      hide Called, Answer, Store;
      CalledBoard(Snapshot(), p, w.second);
      response := CallModel(p, w.second);
      stored := false;
      if response.ok { stored := StoreValid(p, response.reading); }
    }

    /** A payload is stored if the schema takes it; a refused one may be asked for once more. */
    method StoreOrRepair(p: Phase, w: World, first: Reply, repaired: bool)
      returns (response: Reply, stored: bool, failure: Option<Failure>)
      modifies this
      ensures StoreStep(old(Snapshot()), Snapshot(), p, w, first, repaired, response, stored, failure)
    {
      hide Called, Answer, Store;
      response, failure := first, None;
      if first.reading.Payload? && !first.reading.valid && MayRepairSchema(p) && !repaired {
        response, stored := AskAgain(p, w);
        if !response.ok { failure := Some(ProviderError); }
      } else {
        stored := StoreValid(p, first.reading);
      }
    }

    /** The answer of a phase other than the report, from its first usable text on: parse, repair once,
        match the shape, store, and settle the status. */
    method AcceptAnswer(p: Phase, w: World, first: Reply)
      requires first.ok && p != Report
      modifies this
      ensures Snapshot() == Accepted(old(Snapshot()), p, w, first)
    {
      hide Called, Answer, Accepted, Finish, UnreadStep, StoreStep;
      ghost var s := Snapshot();
      var response, failure := RepairUnread(p, w, first);
      ghost var t := Snapshot();
      var answer, stored, refused := StoreOrRepair(p, w, response, !first.reading.Payload?);
      StepsAccept(s, t, Snapshot(), p, w, first, response, failure, answer, stored, refused);
      FinishAnswer(p, stored, answer, if failure.Some? then failure else refused);
    }

    /** The summary and, for a completed phase, the completion time; a completed phase is stamped. */
    method ClosePhase(p: Phase, doneAt: int)
      modifies `phaseSummaries, `phaseRunCompletedAt
      ensures BoardNow() == Close(old(BoardNow()), p, doneAt)
    {
      phaseSummaries := phaseSummaries + {p};
      if StatusOf(BoardNow(), p) == Completed { phaseRunCompletedAt := phaseRunCompletedAt[p := doneAt]; }
    }

    ghost method Stamp(p: Phase)
      modifies `stamps, `clock
      ensures Snapshot() == Mark(old(Snapshot()), p)
    {
      if StatusOf(BoardNow(), p) == Completed { stamps, clock := stamps[p := clock], clock + 1; }
    }

    method RefuseAnswer(p: Phase, r: Reply)
      modifies `phaseStatus, `phaseConfidence, `phaseFailureDetails, `rawOutputs
      ensures BoardNow() == Refuse(old(BoardNow()), p, r)
    {
      hide CallFailure;
      FailPhase(p, CallFailure(r));
      if p == Strategy && r.text != "" { KeepRawText(p, r.text); }
    }

    method WriteReportText(text: string)
      modifies `phaseStatus, `phaseConfidence, `phaseFailureDetails, `outputs, `rawOutputs
      ensures BoardNow() == WriteReport(old(BoardNow()), text)
    {
      hide Store, Complete;
      StorePhaseOutput(Report, Some(text));
      CompletePhase(Report);
    }

    method TakeAnswer(p: Phase, w: World, response: Reply)
      requires response.ok
      modifies this
      ensures Snapshot() == Taken(old(Snapshot()), p, w, response)
    {
      hide Accepted, WriteReport, Close;
      if p == Report { WriteReportText(response.text); } else { AcceptAnswer(p, w, response); }
      ClosePhase(p, w.doneAt);
    }

    /** The phase from its model call on. */
    method ExecutePhase(p: Phase, w: World)
      modifies this
      ensures Snapshot() == Execute(old(Snapshot()), p, w)
    {
      hide Called, Answer, Taken, Refuse, Mark, Answered;
      AnsweredSteps(Snapshot(), p, w);
      var response := CallModel(p, w.first);
      if response.ok { TakeAnswer(p, w, response); } else { RefuseAnswer(p, response); }
      Stamp(p);
    }

    method BeginPhase(p: Phase, w: World)
      modifies this
      ensures Snapshot() == Begin(old(Snapshot()), p, w)
    {
      hide Fail, Execute;
      phaseStatus := phaseStatus[p := Running];
      currentPhase := p;
      if p.Other? {
        FailPhase(p, PhaseConfiguration);
      } else if (p == Audit || p == Strategy) && w.evidenceBlocked {
        FailPhase(p, EvidenceBlocked);
      } else {
        ExecutePhase(p, w);
      }
    }

    method EnterPhase(p: Phase, w: World)
      modifies this
      ensures Snapshot() == Enter(old(Snapshot()), p, w)
    {
      hide PrerequisitesMet, PrerequisiteFailure, StartClock, PolicyGate, ActionClass, Fail, Begin, Downstream;
      var met := PhasePrerequisitesMet(p);
      if !met {
        RecordPrerequisiteFailure(p);
      } else {
        StartWallClock(w.now);
        if Gate(ControlsNow(), p, w.now) != Allowed {
          FailPhase(p, PolicyBlocked);
        } else {
          BeginPhase(p, w);
        }
      }
    }

    /** `run_phase_node`. */
    method RunPhaseNode(p: Phase, w: World)
      modifies this
      ensures Snapshot() == RunPhase(old(Snapshot()), p, w)
    {
      hide StrategyCone, Enter;
      if p == Strategy { var _ := InvalidateStrategyDependencyCone(); }
      EnterPhase(p, w);
    }

    // ---------- the runner ----------

    /** `get_first_unfinished_phase`, as a position in the template. */
    method GetFirstUnfinishedPhase() returns (at: nat)
      ensures at == FirstUnfinished(BoardNow(), Sequence(template))
    {
      var steps := Sequence(template);
      at := 0;
      hide Finished, Sequence;
      while at < |steps| && Finished(BoardNow(), steps[at])
        invariant at <= |steps|
        invariant FirstUnfinished(BoardNow(), steps) == at + FirstUnfinished(BoardNow(), steps[at..])
      {
        assert steps[at..][1..] == steps[at + 1..];
        at := at + 1;
      }
    }

    method MarkRunning(p: Phase)
      modifies `currentPhase, `phaseStatus
      ensures Snapshot() == Started(old(Snapshot()), p)
    {
      currentPhase := p;
      phaseStatus := phaseStatus[p := Running];
    }

    /** The exit gate: a structural failure fails the phase, a quality shortfall only lowers its confidence. */
    method PassExitGate(p: Phase, g: ExitGate)
      modifies `phaseConfidence, `phaseStatus, `phaseFailureDetails
      ensures BoardNow() == Exit(old(BoardNow()), p, g)
    {
      if HasGate(p) {
        phaseConfidence := phaseConfidence[p := g.confidence];
        if !g.passed && g.structural {
          phaseStatus := phaseStatus[p := Failed];
          phaseFailureDetails := phaseFailureDetails[p := GateStructural];
        }
      }
    }

    method RunTurn(p: Phase, w: World, g: ExitGate)
      modifies this
      ensures Snapshot() == Turn(old(Snapshot()), p, w, g)
    {
      hide RunPhase, Exit, StatusOf;
      MarkRunning(p);
      RunPhaseNode(p, w);
      if StatusOf(BoardNow(), p) == Completed { PassExitGate(p, g); }
    }

    /** `run_workflow_sequence`. */
    method RunWorkflowSequence(world: Phase -> World, gates: Phase -> ExitGate)
      modifies this
      ensures Snapshot() == RunWorkflow(old(Snapshot()), world, gates)
    {
      hide Turn, Workflow.InvalidateDownstream, Invalidated, Sequence, Finished, StatusOf, FirstUnfinished;
      var steps := Sequence(template);
      var start := GetFirstUnfinishedPhase();
      if start == |steps| { return; }
      var _ := InvalidateDownstream(steps[start]);
      ghost var begun := Snapshot();
      var i := start;
      while i < |steps|
        invariant start <= i <= |steps|
        invariant RunFrom(begun, steps[start..], world, gates) == RunFrom(Snapshot(), steps[i..], world, gates)
      {
        var p := steps[i];
        assert steps[i..][1..] == steps[i + 1..];
        if !Finished(BoardNow(), p) {
          RunTurn(p, world(p), gates(p));
          if StatusOf(BoardNow(), p) != Completed { return; }
        }
        i := i + 1;
      }
    }

    // ---------- the operator's endpoints ----------

    /** `run_single_phase_endpoint`. */
    method RunSinglePhase(p: Phase, w: World)
      modifies this
      ensures Snapshot() == RunManually(old(Snapshot()), p, w)
    {
      hide Workflow.InvalidateDownstream, Invalidated, RunPhase;
      var _ := InvalidateDownstream(p);
      RunPhaseNode(p, w);
    }

    /** `_mark_phase_stale`. */
    method MarkPhaseStaleNow(p: Phase) returns (marked: bool)
      modifies `outputs, `rawOutputs, `phaseStatus, `phaseConfidence, `phaseSummaries
      ensures BoardNow() == MarkPhaseStale(old(BoardNow()), p) && marked == WouldMark(old(BoardNow()), p)
    {
      hide ClearOutput, MarkStale, WouldMark;
      marked := WouldMark(BoardNow(), p);
      ClearPhaseOutput(p);
      if marked { MarkStaleNow(p); }
    }

    /** `patch_project_input`, once a field has changed. */
    method PatchProjectInput(e: InputEdit)
      modifies this
      ensures Snapshot() == EditInput(old(Snapshot()), e)
    {
      hide MarkStale, MarkPhaseStale, WouldMark, Workflow.InvalidateDownstream, Invalidated, HasOutput, StatusOf, RestartPhase;
      if e.ReportConfiguration? {
        if HasOutput(BoardNow(), Report) && StatusOf(BoardNow(), Report) != Stale {
          MarkStaleNow(Report);
          currentPhase := Report;
        }
      } else {
        var p := RestartPhase(template, e);
        var marked := MarkPhaseStaleNow(p);
        var rest := InvalidateDownstream(p);
        currentPhase := HeadOr((if marked then [p] else []) + rest, p);
      }
    }

    /** `_apply_phase_output` and `_finalize_phase_output_edit`. */
    method FinalizePhaseOutputEdit(p: Phase, doc: string)
      modifies `outputs, `rawOutputs, `phaseStatus, `phaseConfidence, `phaseSummaries
      ensures BoardNow() == Finalize(old(BoardNow()), p, doc)
    {
      outputs := outputs[p := doc];
      if p == Audit || p == Strategy { rawOutputs := Without(rawOutputs, p); }
      phaseStatus := phaseStatus[p := Completed];
      phaseConfidence := phaseConfidence[p := 1.0];
      phaseSummaries := phaseSummaries + {p};
    }

    method ReplaceStrategyOutput(doc: string)
      modifies this
      ensures Snapshot() == EditOutput(old(Snapshot()), Strategy, doc)
    {
      hide StrategyCone, ConeInvalidated, Finalize, Mark, Workflow.InvalidateDownstream, Invalidated;
      ghost var b := BoardNow();
      ghost var s := Snapshot();
      var invalidated := InvalidateStrategyDependencyCone();
      FinalizePhaseOutputEdit(Strategy, doc);
      currentPhase := HeadOr(invalidated, Strategy);
      ghost var t := s.(board := Finalize(StrategyCone(b), Strategy, doc), current := HeadOr(ConeInvalidated(b), Strategy));
      assert Snapshot() == t;
      Stamp(Strategy);
    }

    method ReplaceOutput(p: Phase, doc: string)
      requires !p.Other? && p != Strategy
      modifies this
      ensures Snapshot() == EditOutput(old(Snapshot()), p, doc)
    {
      hide StrategyCone, ConeInvalidated, Finalize, Mark, Workflow.InvalidateDownstream, Invalidated;
      ghost var s := Snapshot();
      FinalizePhaseOutputEdit(p, doc);
      assert Snapshot() == s.(board := Finalize(s.board, p, doc));
      Stamp(p);
      assert Snapshot() == Mark(s.(board := Finalize(s.board, p, doc)), p);
      ghost var t := Snapshot();
      var invalidated := InvalidateDownstream(p);
      assert Snapshot() == Workflow.InvalidateDownstream(t, p);
      currentPhase := HeadOr(invalidated, p);
    }

    /** `patch_phase_output`, once the payload has been validated: a Strategy edit clears its cone
        first, any other edit clears what comes after. */
    method PatchPhaseOutput(p: Phase, doc: string)
      modifies this
      ensures Snapshot() == EditOutput(old(Snapshot()), p, doc)
    {
      hide EditOutput;
      if p.Other? {
        EditRefused(Snapshot(), p, doc);
      } else if p == Strategy {
        ReplaceStrategyOutput(doc);
      } else {
        ReplaceOutput(p, doc);
      }
    }
  }

  lemma EditRefused(s: Project, p: Phase, doc: string)
    requires p.Other?
    ensures EditOutput(s, p, doc) == s
  {
  }

  /** The project once a usable answer has been taken in. */
  function Taken(s: Project, p: Phase, w: World, r: Reply): Project {
    var t := if p == Report then s.(board := WriteReport(s.board, r.text)) else Accepted(s, p, w, r);
    t.(board := Close(t.board, p, w.doneAt))
  }

  lemma AnsweredSteps(s: Project, p: Phase, w: World)
    ensures var r := Answer(s.controls, p, w.first); var t := Called(s, p, w.first);
            && t.board == s.board
            && Answered(s, p, w) == if r.ok then Taken(t, p, w, r) else t.(board := Refuse(s.board, p, r))
  {
    CalledBoard(s, p, w.first);
    CalledBoard(Called(s, p, w.first), p, w.second);
    hide Called, Answer, Close, NeedsRepair, AfterRepair, Conclude, WriteReport, Refuse;
  }

  /** What asking once more for an unread answer does. */
  predicate UnreadStep(s: Project, t: Project, p: Phase, w: World, first: Reply, response: Reply, failure: Option<Failure>) {
    var r2 := Answer(s.controls, p, w.second);
    if first.reading.Payload? then t == s && response == first && failure == None
    else
      && t == Called(s, p, w.second)
      && response == (if r2.ok then r2 else first) && failure == (if r2.ok then None else Some(ProviderError))
  }

  /** What storing a payload, or asking once more for a refused one, does. */
  predicate StoreStep(s: Project, t: Project, p: Phase, w: World, first: Reply, repaired: bool,
                      response: Reply, stored: bool, failure: Option<Failure>) {
    var r2 := Answer(s.controls, p, w.second);
    var again := first.reading.Payload? && !first.reading.valid && MayRepairSchema(p) && !repaired;
    if again then
      && response == r2 && stored == (r2.ok && r2.reading.Payload? && r2.reading.valid)
      && failure == (if r2.ok then None else Some(ProviderError))
      && t == Called(s, p, w.second).(board := if stored then Store(s.board, p, r2.reading.doc) else s.board)
    else
      && response == first && stored == (first.reading.Payload? && first.reading.valid) && failure == None
      && t == s.(board := if stored then Store(s.board, p, first.reading.doc) else s.board)
  }

  /** The two steps and the final one make up the whole answer. */
  lemma StepsAccept(s: Project, t: Project, u: Project, p: Phase, w: World, first: Reply, response: Reply,
                    failure: Option<Failure>, answer: Reply, stored: bool, refused: Option<Failure>)
    requires first.ok && p != Report
    requires UnreadStep(s, t, p, w, first, response, failure)
    requires StoreStep(t, u, p, w, response, !first.reading.Payload?, answer, stored, refused)
    ensures u.(board := Finish(u.board, p, stored, answer, if failure.Some? then failure else refused)) == Accepted(s, p, w, first)
  {
    CalledBoard(s, p, w.second);
    hide Called, Answer, Store, Accept, Reject;
  }

  function Finish(b: Board, p: Phase, stored: bool, response: Response, failure: Option<Failure>): Board {
    if stored then Accept(b, p, response.text)
    else Reject(b, p, response.text, if failure.Some? then failure.value else ReadingFailure(response.reading))
  }

  /** The project after an answer that was usable: its repair call if it needs one, and its board. */
  function Accepted(s: Project, p: Phase, w: World, first: Reply): Project {
    var t := if NeedsRepair(p, first) then Called(s, p, w.second) else s;
    t.(board := Decide(s.board, p, first, Answer(s.controls, p, w.second)))
  }

  lemma DropNone(b: Board)
    ensures DropLifecycle(b, []) == b
  {
  }

  lemma DropStep(b: Board, ps: seq<Phase>, i: nat)
    requires i < |ps|
    ensures DropLifecycle(b, ps[..i + 1]) == DropOne(DropLifecycle(b, ps[..i]), ps[i])
  {
    assert ps[..i + 1][..i] == ps[..i];
    hide DropOne;
  }

  lemma CalledBoard(s: Project, p: Phase, attempts: seq<Attempt>)
    ensures Called(s, p, attempts).board == s.board
  {
  }

  lemma InvalidateNone(b: Board)
    ensures InvalidateAll(b, []) == b && TouchedOf(b, []) == []
  {
  }

  lemma InvalidateStep(b: Board, ps: seq<Phase>, i: nat)
    requires i < |ps|
    ensures var t := InvalidateAll(b, ps[..i]);
            && InvalidateAll(b, ps[..i + 1]) == InvalidateOne(t, ps[i])
            && TouchedOf(b, ps[..i + 1]) == TouchedOf(b, ps[..i]) + if Touched(t, ps[i]) then [ps[i]] else []
  {
    assert ps[..i + 1][..i] == ps[..i];
    hide InvalidateOne, Touched;
  }

  /** The board after the first `n` derived phases. */
  function ConeSoFar(b: Board, n: nat): Board
    requires n <= 3
  {
    var b1 := ConeOne(b, Sqi);
    var b2 := ConeOne(b1, Monitor);
    if n == 0 then b else if n == 1 then b1 else if n == 2 then b2 else ConeOne(b2, Report)
  }

  function ConeHits(b: Board, n: nat): seq<Phase>
    requires n <= 3
  {
    (if n > 0 && HadLifecycle(b, Sqi) then [Sqi] else [])
    + (if n > 1 && HadLifecycle(b, Monitor) then [Monitor] else [])
    + (if n > 2 && HadLifecycle(b, Report) then [Report] else [])
  }

  lemma ConeEnds(b: Board)
    ensures ConeSoFar(b, 0) == b && ConeHits(b, 0) == []
    ensures var t := ForgetPhase(ConeSoFar(b, 3), Strategy); StrategyCone(b) == t.(raw := Without(t.raw, Strategy))
    ensures ConeHits(b, 3) == ConeInvalidated(b)
  {
    hide ConeOne, HadLifecycle, ForgetPhase;
  }

  /** The loop's step: the next derived phase goes, and it counts if it had anything on record, which
      clearing the earlier ones has not changed. */
  lemma ConeStep(b: Board, i: nat)
    requires i < 3
    ensures ConeSoFar(b, i + 1) == ConeOne(ConeSoFar(b, i), DERIVED[i])
    ensures ConeHits(b, i + 1) == ConeHits(b, i) + if HadLifecycle(ConeSoFar(b, i), DERIVED[i]) then [DERIVED[i]] else []
  {
    ConeLeavesLater(b, i);
    hide ConeOne, HadLifecycle;
  }

  /** Clearing a derived phase does not change what the later ones had on record. */
  lemma ConeLeavesLater(b: Board, i: nat)
    requires i < 3
    ensures HadLifecycle(ConeSoFar(b, i), DERIVED[i]) == HadLifecycle(b, DERIVED[i])
  {
    if i > 0 { ConeLeaves(b, Sqi, DERIVED[i]); }
    if i > 1 { ConeLeaves(ConeOne(b, Sqi), Monitor, DERIVED[i]); }
    hide ConeOne, HadLifecycle;
  }

  lemma ConeLeaves(b: Board, p: Phase, q: Phase)
    requires q != p
    ensures HadLifecycle(ConeOne(b, p), q) == HadLifecycle(b, q)
  {
    ConeOneEffect(b, p);
    LifecycleOfEntry(b, ConeOne(b, p), q);
    hide ConeOne, HadLifecycle, At;
  }

  lemma LifecycleOfEntry(b: Board, t: Board, q: Phase)
    requires At(t, q) == At(b, q)
    ensures HadLifecycle(t, q) == HadLifecycle(b, q)
  {
  }
}
