/** One project's workflow as a state machine: what each operation does to the project state
    (mas/orchestrator.py, mas/api.py, mas/state.py, mas/tools/scoring.py). */
module Workflow {
  import opened Collections
  import opened Phases
  import opened Policy

  datatype Status = Pending | Running | Completed | Failed | Stale

  datatype Failure =
    | PrerequisiteFailed | PolicyBlocked | PhaseConfiguration | EvidenceBlocked | ProviderError
    | JsonParse | JsonShape | SchemaValidation | MissingOutput | GateStructural

  /** A model call the gate let through: for which phase, whether every earlier phase of the template
      was finished at that moment, and what its attempts used. */
  datatype Admission = Admission(phase: Phase, ready: bool, tokens: nat, cost: real)

  /** What the project records about its phases. */
  datatype Board = Board(
    status: map<Phase, Status>,
    output: map<Phase, string>,
    raw: map<Phase, string>,
    confidence: map<Phase, real>,
    summaries: set<Phase>,
    completedAt: map<Phase, int>,
    failures: map<Phase, Failure>)

  /** The project state. `admitted`, `stamps` and `clock` only record the history: the model calls
      let through, and the moment at which each phase was last completed. */
  datatype Project = Project(
    template: Template,
    board: Board,
    current: Phase,
    controls: Controls,
    admitted: seq<Admission>,
    stamps: map<Phase, nat>,
    clock: nat)

  function Without<V>(m: map<Phase, V>, p: Phase): map<Phase, V> {
    map q | q in m && q != p :: m[q]
  }

  function StatusOf(b: Board, p: Phase): Status {
    if p in b.status then b.status[p] else Pending
  }

  /** `_phase_has_output`: report and hypotheses count only when they are not empty. */
  predicate HasOutput(b: Board, p: Phase) {
    p in b.output && (p == Report || p == Hypotheses ==> b.output[p] != "")
  }

  predicate HasMaterial(b: Board, p: Phase) {
    HasOutput(b, p) || ((p == Audit || p == Strategy) && p in b.raw && b.raw[p] != "")
  }

  predicate Finished(b: Board, p: Phase) {
    StatusOf(b, p) == Completed && HasOutput(b, p)
  }

  function Steps(s: Project): seq<Phase> {
    Sequence(s.template)
  }

  // ---------- invalidation ----------

  /** Drop the outputs of a phase. */
  function ClearOutput(b: Board, p: Phase): Board {
    b.(output := Without(b.output, p), raw := Without(b.raw, p))
  }

  function MarkStale(b: Board, p: Phase): Board {
    b.(status := b.status[p := Stale], confidence := Without(b.confidence, p), summaries := b.summaries - {p})
  }

  /** One turn of `invalidate_downstream`; a phase with no status entry counts as touched. */
  predicate Touched(b: Board, p: Phase) {
    HasMaterial(b, p) || !(p in b.status && b.status[p] == Pending) || p in b.summaries || p in b.confidence
  }

  function InvalidateOne(b: Board, p: Phase): Board {
    if Touched(b, p) then MarkStale(ClearOutput(b, p), p) else ClearOutput(b, p)
  }

  function InvalidateAll(b: Board, ps: seq<Phase>): Board {
    if ps == [] then b else InvalidateOne(InvalidateAll(b, ps[..|ps| - 1]), ps[|ps| - 1])
  }

  function TouchedOf(b: Board, ps: seq<Phase>): seq<Phase> {
    if ps == [] then []
    else
      var n := |ps| - 1;
      TouchedOf(b, ps[..n]) + if Touched(InvalidateAll(b, ps[..n]), ps[n]) then [ps[n]] else []
  }

  function InvalidateDownstream(s: Project, p: Phase): Project {
    s.(board := InvalidateAll(s.board, Downstream(s.template, p)))
  }

  function Invalidated(s: Project, p: Phase): seq<Phase> {
    TouchedOf(s.board, Downstream(s.template, p))
  }

  const DERIVED: seq<Phase> := [Sqi, Monitor, Report]

  /** `invalidate_strategy_dependency_cone`, one derived phase. */
  predicate HadLifecycle(b: Board, p: Phase) {
    || HasOutput(b, p) || StatusOf(b, p) != Pending
    || p in b.confidence || p in b.summaries || p in b.completedAt || p in b.failures
  }

  function ForgetPhase(b: Board, p: Phase): Board {
    b.(output := Without(b.output, p), confidence := Without(b.confidence, p), summaries := b.summaries - {p},
       completedAt := Without(b.completedAt, p), failures := Without(b.failures, p))
  }

  function ConeOne(b: Board, p: Phase): Board {
    var t := ForgetPhase(b, p);
    if HadLifecycle(b, p) then t.(status := t.status[p := Stale]) else t
  }

  function StrategyCone(b: Board): Board {
    var t := ForgetPhase(ConeOne(ConeOne(ConeOne(b, Sqi), Monitor), Report), Strategy);
    t.(raw := Without(t.raw, Strategy))
  }

  function ConeInvalidated(b: Board): seq<Phase> {
    (if HadLifecycle(b, Sqi) then [Sqi] else [])
    + (if HadLifecycle(b, Monitor) then [Monitor] else [])
    + (if HadLifecycle(b, Report) then [Report] else [])
  }

  // ---------- running one phase ----------

  predicate PrerequisitesMet(b: Board, p: Phase) {
    forall q :: q in Prerequisites(p) ==> Finished(b, q)
  }

  function Fail(b: Board, p: Phase, why: Failure): Board {
    b.(status := b.status[p := Failed], confidence := b.confidence[p := 0.0], failures := b.failures[p := why])
  }

  /** Forget the outputs and the lifecycle of the phases that were just invalidated. */
  function DropOne(b: Board, q: Phase): Board {
    b.(output := Without(b.output, q), raw := Without(b.raw, q),
       failures := Without(b.failures, q), completedAt := Without(b.completedAt, q))
  }

  function DropLifecycle(b: Board, ps: seq<Phase>): Board {
    if ps == [] then b else DropOne(DropLifecycle(b, ps[..|ps| - 1]), ps[|ps| - 1])
  }

  /** `_record_prerequisite_failure`. */
  function PrerequisiteFailure(b: Board, down: seq<Phase>, p: Phase): Board {
    var cleared := ClearOutput(b, p);
    var t := DropLifecycle(InvalidateAll(cleared, down), TouchedOf(cleared, down));
    Fail(t.(summaries := t.summaries - {p}, completedAt := Without(t.completedAt, p)), p, PrerequisiteFailed)
  }

  function StartClock(c: Controls, now: real): Controls {
    if c.used.startedAt.None? then c.(used := c.used.(startedAt := Some(now))) else c
  }

  function Gate(c: Controls, p: Phase, now: real): Decision {
    PolicyGate(c, p, ActionClass(p), now, 0, 0.0)
  }

  /** What a response text amounts to once parsed, repaired and matched against the phase's shape. */
  datatype Reading =
    | Unparsed
    | WrongShape
    | Payload(valid: bool, doc: Option<string>)

  /** The outcome of one logical model call. */
  datatype Response = Response(ok: bool, refused: bool, text: string, tokens: nat, cost: real, reading: Reading)

  /** A successful response carries usable text (mas/llm_client.py:299-343). */
  type Reply = r: Response | r.ok ==> r.text != "" witness Response(false, false, "", 0, 0.0, Unparsed)

  /** One request to a provider, if the call gets that far: when, whether an error ends the call, and
      what the provider would say. */
  datatype Attempt = Attempt(at: real, final: bool, answer: Reply)

  /** Everything one phase run meets outside the state: times, evidence, and the attempts of its calls. */
  datatype World = World(now: real, doneAt: int, evidenceBlocked: bool, first: seq<Attempt>, second: seq<Attempt>)

  /** Every earlier phase of the template is finished. */
  predicate Ready(s: Project, p: Phase) {
    var i := IndexOf(Steps(s), p);
    forall k :: 0 <= k < i < |Steps(s)| ==> Finished(s.board, Steps(s)[k])
  }

  /** The provider gateway over the attempts left, with what earlier ones have used: the gate is asked
      before each; a refusal, a usable answer or a final error ends the call, another error tries on.
      Whatever ends it carries the usage of all attempts made. */
  function Gateway(c: Controls, p: Phase, attempts: seq<Attempt>, tokens: nat, cost: real): Reply {
    if attempts == [] then Response(false, false, "", tokens, cost, Unparsed)
    else
      var a := attempts[0];
      if Gate(c, p, a.at) != Allowed then Response(false, true, "", tokens, cost, Unparsed)
      else if a.answer.ok || a.final then
        a.answer.(refused := false, tokens := tokens + a.answer.tokens, cost := cost + a.answer.cost)
      else Gateway(c, p, attempts[1..], tokens + a.answer.tokens, cost + a.answer.cost)
  }

  /** How many attempts reach a provider. */
  function Executed(c: Controls, p: Phase, attempts: seq<Attempt>): nat {
    if attempts == [] || Gate(c, p, attempts[0].at) != Allowed then 0
    else if attempts[0].answer.ok || attempts[0].final then 1
    else 1 + Executed(c, p, attempts[1..])
  }

  /** What the caller sees of a logical model call. */
  function Answer(c: Controls, p: Phase, attempts: seq<Attempt>): Reply {
    Gateway(c, p, attempts, 0, 0.0)
  }

  /** The state after a logical model call: let through if an attempt reached a provider, and its
      consumption recorded either way. */
  function Called(s: Project, p: Phase, attempts: seq<Attempt>): Project {
    var r := Answer(s.controls, p, attempts);
    s.(admitted := if Executed(s.controls, p, attempts) > 0 then s.admitted + [Admission(p, Ready(s, p), r.tokens, r.cost)] else s.admitted,
       controls := s.controls.(used := Consume(s.controls.used, r.tokens, r.cost, r.ok)))
  }

  function CallFailure(r: Response): Failure {
    if r.refused then PolicyBlocked else ProviderError
  }

  /** Keep the raw text of a failed audit or strategy for diagnosis. */
  function KeepRaw(b: Board, p: Phase, text: string): Board {
    if p == Audit || p == Strategy then b.(raw := b.raw[p := text]) else b
  }

  /** `_store_phase_output` accepting a payload; hypotheses without a valid item store nothing. */
  function Store(b: Board, p: Phase, doc: Option<string>): Board {
    if doc.None? then b else b.(output := b.output[p := doc.value], raw := Without(b.raw, p))
  }

  function Complete(b: Board, p: Phase): Board {
    b.(status := b.status[p := Completed], confidence := b.confidence[p := 1.0], failures := Without(b.failures, p))
  }

  /** A stored payload completes the phase only if the state now shows output for it. */
  function Accept(b: Board, p: Phase, text: string): Board {
    if HasOutput(b, p) then Complete(b, p) else Fail(KeepRaw(b, p, text), p, MissingOutput)
  }

  function Settle(b: Board, p: Phase, doc: Option<string>, text: string): Board {
    Accept(Store(b, p, doc), p, text)
  }

  function Reject(b: Board, p: Phase, text: string, why: Failure): Board {
    KeepRaw(Fail(b, p, why), p, text)
  }

  function ReadingFailure(r: Reading): Failure {
    match r
    case Unparsed => JsonParse
    case WrongShape => JsonShape
    case Payload(_, _) => SchemaValidation
  }

  /** The reading of the final text, when no further call may be made. */
  function Conclude(b: Board, p: Phase, text: string, reading: Reading): Board {
    match reading
    case Payload(true, doc) => Settle(b, p, doc, text)
    case _ => Reject(b, p, text, ReadingFailure(reading))
  }

  predicate MayRepairSchema(p: Phase) {
    p == Strategy || IsReadiness(p)
  }

  /** Whether a first usable answer leads to the one repair call: no payload, or a payload the schema
      refuses in a phase that may repair it. */
  predicate NeedsRepair(p: Phase, r: Response) {
    match r.reading
    case Payload(valid, _) => !valid && MayRepairSchema(p)
    case _ => true
  }

  /** What the phase makes of the repair call's answer. */
  function AfterRepair(b: Board, p: Phase, first: Response, r: Response): Board {
    if r.ok then Conclude(b, p, r.text, r.reading)
    else Reject(b, p, if first.reading.Payload? then r.text else first.text, ProviderError)
  }

  /** A first call that brought no usable answer. */
  function Refuse(b: Board, p: Phase, r: Response): Board {
    Fail(if p == Strategy && r.text != "" then KeepRaw(b, p, r.text) else b, p, CallFailure(r))
  }

  function WriteReport(b: Board, text: string): Board {
    Complete(Store(b, Report, Some(text)), Report)
  }

  /** The phase's board after its call or calls: `r` is the first answer, `r2` the repair's. */
  function Decide(b: Board, p: Phase, r: Response, r2: Response): Board {
    if !r.ok then Refuse(b, p, r)
    else if p == Report then WriteReport(b, r.text)
    else if NeedsRepair(p, r) then AfterRepair(b, p, r, r2)
    else Conclude(b, p, r.text, r.reading)
  }

  /** Summary and completion time, written by every run whose first call was answered. */
  function Close(b: Board, p: Phase, doneAt: int): Board {
    var t := b.(summaries := b.summaries + {p});
    if StatusOf(t, p) == Completed then t.(completedAt := t.completedAt[p := doneAt]) else t
  }

  /** The calls of a phase run: one, or two when the first answer needs repair. */
  function Calls(s: Project, p: Phase, w: World): Project {
    var r := Answer(s.controls, p, w.first);
    var t := Called(s, p, w.first);
    if r.ok && p != Report && NeedsRepair(p, r) then Called(t, p, w.second) else t
  }

  /** The phase from its model call on, up to the history mark. */
  function Answered(s: Project, p: Phase, w: World): Project {
    var r := Answer(s.controls, p, w.first);
    var r2 := Answer(Called(s, p, w.first).controls, p, w.second);
    var b := Decide(s.board, p, r, r2);
    Calls(s, p, w).(board := if r.ok then Close(b, p, w.doneAt) else b)
  }

  function Execute(s: Project, p: Phase, w: World): Project {
    Mark(Answered(s, p, w), p)
  }

  /** Completing a phase stamps it with the next moment. */
  function Mark(s: Project, p: Phase): Project {
    if StatusOf(s.board, p) == Completed then s.(stamps := s.stamps[p := s.clock], clock := s.clock + 1) else s
  }

  /** A Strategy run is a replacement: its dependency cone goes before anything that can fail. */
  function Replaced(s: Project, p: Phase): Project {
    if p == Strategy then s.(board := StrategyCone(s.board)) else s
  }

  /** The phase once the gate has let it through. */
  function Begin(s: Project, p: Phase, w: World): Project {
    var t := s.(board := s.board.(status := s.board.status[p := Running]), current := p);
    if p.Other? then t.(board := Fail(t.board, p, PhaseConfiguration))
    else if (p == Audit || p == Strategy) && w.evidenceBlocked then t.(board := Fail(t.board, p, EvidenceBlocked))
    else Execute(t, p, w)
  }

  /** The phase from its prerequisites and gate on. */
  function Enter(s: Project, p: Phase, w: World): Project {
    if !PrerequisitesMet(s.board, p) then s.(board := PrerequisiteFailure(s.board, Downstream(s.template, p), p))
    else
      var t := s.(controls := StartClock(s.controls, w.now));
      if Gate(t.controls, p, w.now) != Allowed then t.(board := Fail(t.board, p, PolicyBlocked)) else Begin(t, p, w)
  }

  /** `run_phase_node`. */
  function RunPhase(s: Project, p: Phase, w: World): Project {
    Enter(Replaced(s, p), p, w)
  }

  // ---------- the sequential runner ----------

  /** The position of the first unfinished phase, or the number of phases. */
  function FirstUnfinished(b: Board, steps: seq<Phase>): (i: nat)
    ensures i <= |steps|
    ensures forall k :: 0 <= k < i ==> Finished(b, steps[k])
    ensures i < |steps| ==> !Finished(b, steps[i])
  {
    if steps == [] || !Finished(b, steps[0]) then 0 else 1 + FirstUnfinished(b, steps[1..])
  }

  predicate IsComplete(s: Project) {
    FirstUnfinished(s.board, Steps(s)) == |Steps(s)|
  }

  /** The exit gate of a phase, as `check_gate` may answer. */
  datatype ExitGate = ExitGate(passed: bool, structural: bool, confidence: real)

  predicate HasGate(p: Phase) {
    p != Gauntlet && p != Sqi && !p.Other?
  }

  function Exit(b: Board, p: Phase, g: ExitGate): Board {
    if !HasGate(p) then b
    else
      var t := b.(confidence := b.confidence[p := g.confidence]);
      if !g.passed && g.structural then t.(status := t.status[p := Failed], failures := t.failures[p := GateStructural])
      else t
  }

  /** The runner announces a phase before it enters it. */
  function Started(s: Project, p: Phase): Project {
    s.(current := p, board := s.board.(status := s.board.status[p := Running]))
  }

  /** One turn of the runner's loop on an unfinished phase. */
  function Turn(s: Project, p: Phase, w: World, g: ExitGate): Project {
    var t := RunPhase(Started(s, p), p, w);
    if StatusOf(t.board, p) != Completed then t else t.(board := Exit(t.board, p, g))
  }

  /** The runner over the phases still to do; it stops at the first that does not come out completed. */
  function RunFrom(s: Project, todo: seq<Phase>, world: Phase -> World, gates: Phase -> ExitGate): Project
    decreases |todo|
  {
    if todo == [] then s
    else
      var p := todo[0];
      if Finished(s.board, p) then RunFrom(s, todo[1..], world, gates)
      else
        var t := Turn(s, p, world(p), gates(p));
        if StatusOf(t.board, p) != Completed then t else RunFrom(t, todo[1..], world, gates)
  }

  /** `run_workflow_sequence`. */
  function RunWorkflow(s: Project, world: Phase -> World, gates: Phase -> ExitGate): Project {
    var start := FirstUnfinished(s.board, Steps(s));
    if start == |Steps(s)| then s
    else RunFrom(InvalidateDownstream(s, Steps(s)[start]), Steps(s)[start..], world, gates)
  }

  // ---------- the operator's endpoints ----------

  /** `run_single_phase_endpoint`. */
  function RunManually(s: Project, p: Phase, w: World): Project {
    RunPhase(InvalidateDownstream(s, p), p, w)
  }

  /** `_mark_phase_stale`; here a phase with no status entry counts as pending. */
  predicate WouldMark(b: Board, p: Phase) {
    HasMaterial(b, p) || StatusOf(b, p) != Pending || p in b.summaries || p in b.confidence
  }

  function MarkPhaseStale(b: Board, p: Phase): Board {
    if WouldMark(b, p) then MarkStale(ClearOutput(b, p), p) else ClearOutput(b, p)
  }

  datatype InputEdit = BriefOrData | ObservationsOrTimers | ReportConfiguration

  function RestartPhase(t: Template, e: InputEdit): Phase {
    SequenceDistinct(t);
    var wanted := if e.BriefOrData? then Classify else Monitor;
    if wanted in Sequence(t) then wanted else Sequence(t)[0]
  }

  function HeadOr(ps: seq<Phase>, p: Phase): Phase {
    if ps == [] then p else ps[0]
  }

  /** `patch_project_input`, for an edit that changed something. */
  function EditInput(s: Project, e: InputEdit): Project {
    if e.ReportConfiguration? then
      if HasOutput(s.board, Report) && StatusOf(s.board, Report) != Stale then
        s.(board := MarkStale(s.board, Report), current := Report)
      else s
    else
      var p := RestartPhase(s.template, e);
      var t := s.(board := MarkPhaseStale(s.board, p));
      var hit := (if WouldMark(s.board, p) then [p] else []) + Invalidated(t, p);
      InvalidateDownstream(t, p).(current := HeadOr(hit, p))
  }

  /** `_apply_phase_output` and `_finalize_phase_output_edit`: a hand-edited output completes its phase. */
  function Finalize(b: Board, p: Phase, doc: string): Board {
    b.(output := b.output[p := doc],
       raw := if p == Audit || p == Strategy then Without(b.raw, p) else b.raw,
       status := b.status[p := Completed], confidence := b.confidence[p := 1.0], summaries := b.summaries + {p})
  }

  /** `patch_phase_output` with a valid payload; other names are refused. */
  function EditOutput(s: Project, p: Phase, doc: string): Project {
    if p.Other? then s
    else if p == Strategy then
      Mark(s.(board := Finalize(StrategyCone(s.board), p, doc), current := HeadOr(ConeInvalidated(s.board), p)), p)
    else
      var t := Mark(s.(board := Finalize(s.board, p, doc)), p);
      InvalidateDownstream(t, p).(current := HeadOr(Invalidated(t, p), p))
  }

  /** `trigger_kill_switch`. */
  function Kill(s: Project): Project {
    s.(controls := s.controls.(killed := true))
  }

  datatype Op =
    | Workflow(world: Phase -> World, gates: Phase -> ExitGate)
    | Manual(p: Phase, w: World)
    | Output(q: Phase, doc: string)
    | Input(e: InputEdit)
    | KillSwitch

  function Apply(s: Project, op: Op): Project {
    match op
    case Workflow(world, gates) => RunWorkflow(s, world, gates)
    case Manual(p, w) => RunManually(s, p, w)
    case Output(q, doc) => EditOutput(s, q, doc)
    case Input(e) => EditInput(s, e)
    case KillSwitch => Kill(s)
  }

  function History(s: Project, ops: seq<Op>): Project {
    if ops == [] then s else Apply(History(s, ops[..|ops| - 1]), ops[|ops| - 1])
  }

  /** A project as it is created: every phase of its template pending. */
  function Created(template: Template, controls: Controls): Project {
    SequenceDistinct(template);
    Project(template, Board(map p | p in Sequence(template) :: Pending, map[], map[], map[], {}, map[], map[]),
            Sequence(template)[0], controls, [], map[], 0)
  }
}
