/** What a replayed projection holds, field by field: the value the last event gave that speaks of it. */
module ReplayLaws {
  import opened Collections
  import opened Replay

  function Look<K, V>(m: map<K, V>, k: K): Option<V> {
    if k in m then Some(m[k]) else None
  }

  /** A payload entry, or the empty text. */
  function OrEmpty(e: Event, key: string): Val {
    if key in e.payload then e.payload[key] else Text("")
  }

  // ---------- single values ----------

  predicate IsSingle(f: Field) {
    f in {ProjectId, ProjectName, ProjectType, CurrentPhase, KillActive, KillReason, KillBy, Risk, RiskRationale, RiskSetBy}
  }

  /** The event concerns this phase: by its payload, or else by its envelope. */
  predicate Concerns(e: Event, phase: string) {
    && phase != ""
    && if "phase" in e.payload && e.payload["phase"].Text? && e.payload["phase"].s != "" then e.payload["phase"].s == phase
       else e.phase == phase
  }

  /** The phase an event concerns, if any. */
  function Concerned(e: Event): Option<string> {
    if "phase" in e.payload && e.payload["phase"].Text? && e.payload["phase"].s != "" then Some(e.payload["phase"].s)
    else if e.phase != "" then Some(e.phase) else None
  }

  /** The value the event gives the field. */
  function Gives(f: Field, e: Event): Option<Val> {
    match f
    case ProjectName => if e.eventType == "project.created" then Look(e.payload, "project_name") else None
    case ProjectType => if e.eventType == "project.created" then Look(e.payload, "project_type") else None
    case Risk =>
      if e.eventType == "project.created" then Look(e.payload, "risk_classification")
      else if e.eventType == "policy.risk_classification_set" then Look(e.payload, "classification")
      else None
    case RiskRationale => if e.eventType == "policy.risk_classification_set" then Some(OrEmpty(e, "rationale")) else None
    case RiskSetBy => if e.eventType == "policy.risk_classification_set" then Some(OrEmpty(e, "set_by")) else None
    case KillActive => if e.eventType == "policy.kill_switch_triggered" then Some(Flag(true)) else None
    case KillReason => if e.eventType == "policy.kill_switch_triggered" then Some(OrEmpty(e, "reason")) else None
    case KillBy => if e.eventType == "policy.kill_switch_triggered" then Some(OrEmpty(e, "triggered_by")) else None
    case CurrentPhase =>
      if e.eventType == "phase.started" && Concerned(e).Some? then Some(Text(Concerned(e).value)) else None
    case _ => None
  }

  /** The last value given. */
  function LastGiven(f: Field, events: seq<Event>): Option<Val> {
    if events == [] then None
    else
      var g := Gives(f, events[|events| - 1]);
      if g.Some? then g else LastGiven(f, events[..|events| - 1])
  }

  lemma PhaseConcerned(e: Event)
    ensures EventPhase(e) == if Concerned(e).Some? then Concerned(e).value else ""
    ensures forall p :: Concerns(e, p) <==> Concerned(e) == Some(p)
    ensures Concerned(e).Some? ==> Concerned(e).value != ""
  {
  }

  /** One event gives a single value, or leaves it, or, where it names a field without a value, leaves
      what was there or nothing. */
  lemma ApplyGives(p: Projection, e: Event, f: Field)
    requires IsSingle(f)
    ensures Look(Apply(p, e), f) ==
            if Gives(f, e).Some? then Gives(f, e)
            else if f in p then Some(p[f])
            else if f in Writes(e) then Some(Absent) else None
  {
    if e.eventType == "project.created" { CreatedGives(p, e, f); }
    else if e.eventType == "phase.started" { StartedGives(p, e, f); }
    else if e.eventType == "policy.kill_switch_triggered" { KillGives(p, e, f); }
    else if e.eventType == "policy.risk_classification_set" { RiskGives(p, e, f); }
    else { OthersGive(p, e, f); }
  }

  predicate GivesAsSaid(p: Projection, e: Event, f: Field) {
    Look(Apply(p, e), f) ==
      if Gives(f, e).Some? then Gives(f, e) else if f in p then Some(p[f]) else if f in Writes(e) then Some(Absent) else None
  }

  lemma CreatedGives(p: Projection, e: Event, f: Field)
    requires IsSingle(f) && e.eventType == "project.created"
    ensures GivesAsSaid(p, e, f)
  {
    hide Concerned, EventPhase;
  }

  lemma StartedGives(p: Projection, e: Event, f: Field)
    requires IsSingle(f) && e.eventType == "phase.started"
    ensures GivesAsSaid(p, e, f)
  {
    PhaseConcerned(e);
    hide Concerned, EventPhase, RowsOf;
  }

  lemma KillGives(p: Projection, e: Event, f: Field)
    requires IsSingle(f) && e.eventType == "policy.kill_switch_triggered"
    ensures GivesAsSaid(p, e, f)
  {
  }

  lemma RiskGives(p: Projection, e: Event, f: Field)
    requires IsSingle(f) && e.eventType == "policy.risk_classification_set"
    ensures GivesAsSaid(p, e, f)
  {
  }

  /** The event types that speak of single fields. */
  predicate SpeaksOfSingles(eventType: string) {
    eventType in {"project.created", "phase.started", "policy.kill_switch_triggered", "policy.risk_classification_set"}
  }

  /** Every other event leaves the single values alone. */
  lemma OthersGive(p: Projection, e: Event, f: Field)
    requires IsSingle(f) && !SpeaksOfSingles(e.eventType)
    ensures GivesAsSaid(p, e, f)
  {
    OthersKeep(p, e, f);
    OthersKeep(map[], e, f);
    NoneGiven(e, f);
    hide Apply, Gives;
  }

  lemma NoneGiven(e: Event, f: Field)
    requires !SpeaksOfSingles(e.eventType)
    ensures Gives(f, e) == None
  {
    hide Concerned;
  }

  lemma OthersKeep(p: Projection, e: Event, f: Field)
    requires IsSingle(f) && !SpeaksOfSingles(e.eventType)
    ensures Look(Apply(p, e), f) == Look(p, f)
  {
    match e.eventType
    case "phase.completed" => CompletedKeeps(p, e, f);
    case "phase.failed" => FailedKeeps(p, e, f);
    case "policy.approval_granted" => ApprovalKeeps(p, e, f);
    case "policy.budget_caps_updated" => CapsKeep(p, e, f);
    case "outcome.recorded" => OutcomeKeeps(p, e, f);
    case _ => UnknownKeeps(p, e);
  }

  lemma CompletedKeeps(p: Projection, e: Event, f: Field)
    requires e.eventType == "phase.completed" && f != PhaseStatus && f != PhaseConfidence
    ensures Look(Apply(p, e), f) == Look(p, f)
  {
    hide EventPhase, RowsOf;
  }

  lemma FailedKeeps(p: Projection, e: Event, f: Field)
    requires e.eventType == "phase.failed" && f != PhaseStatus
    ensures Look(Apply(p, e), f) == Look(p, f)
  {
    hide EventPhase, RowsOf;
  }

  lemma ApprovalKeeps(p: Projection, e: Event, f: Field)
    requires e.eventType == "policy.approval_granted" && f != Approvals
    ensures Look(Apply(p, e), f) == Look(p, f)
  {
    hide EventPhase, RowsOf;
  }

  lemma CapsKeep(p: Projection, e: Event, f: Field)
    requires e.eventType == "policy.budget_caps_updated" && f != Caps
    ensures Look(Apply(p, e), f) == Look(p, f)
  {
    hide EventPhase, RowsOf, MergeCaps;
  }

  lemma OutcomeKeeps(p: Projection, e: Event, f: Field)
    requires e.eventType == "outcome.recorded" && f != OutcomeCount
    ensures Look(Apply(p, e), f) == Look(p, f)
  {
    hide EventPhase, RowsOf;
  }

  /** The event types the projection knows. */
  predicate IsKnown(eventType: string) {
    eventType in {"project.created", "phase.started", "phase.completed", "phase.failed", "policy.kill_switch_triggered",
      "policy.risk_classification_set", "policy.approval_granted", "policy.budget_caps_updated", "outcome.recorded"}
  }

  lemma UnknownKeeps(p: Projection, e: Event)
    requires !IsKnown(e.eventType)
    ensures Apply(p, e) == p
  {
    hide EventPhase, RowsOf, MergeCaps;
  }

  /** Replay: a single field holds the last value an event gave it; if none did, what it started with;
      and nothing but its name if an event only named it. */
  lemma {:induction false} SingleIsLastGiven(p: Projection, events: seq<Event>, f: Field)
    requires IsSingle(f)
    ensures Look(Project(p, events), f) ==
            if LastGiven(f, events).Some? then LastGiven(f, events)
            else if f in p then Some(p[f])
            else if Written(f, events) then Some(Absent) else None
    decreases |events|
  {
    hide Apply, Gives, Writes;
    if events != [] {
      var n := |events| - 1;
      SingleIsLastGiven(p, events[..n], f);
      ApplyGives(Project(p, events[..n]), events[n], f);
      WrittenMore(f, events);
    }
  }

  lemma WrittenMore(f: Field, events: seq<Event>)
    requires events != []
    ensures Written(f, events) <==> Written(f, events[..|events| - 1]) || f in Writes(events[|events| - 1])
  {
    hide Writes;
    var n := |events| - 1;
    assert events == events[..n] + [events[n]];
    if f in Writes(events[n]) { assert events[n] in events; }
  }

  /** And every view keeps the project it is of. */
  lemma IdentityStays(projectId: string, events: seq<Event>)
    ensures Look(Project(Initial(projectId), events), ProjectId) == Some(Text(projectId))
  {
    hide Project;
    SingleIsLastGiven(Initial(projectId), events, ProjectId);
    NeverGiven(events);
  }

  lemma {:induction false} NeverGiven(events: seq<Event>)
    ensures LastGiven(ProjectId, events) == None
    decreases |events|
  {
    hide Concerned;
    if events != [] { NeverGiven(events[..|events| - 1]); }
  }

  // ---------- rows ----------

  predicate IsTable(f: Field) {
    f in {PhaseStatus, PhaseConfidence, Approvals, Caps}
  }

  /** The row the event gives the table under this key. */
  function GivesRow(f: Field, key: string, e: Event): Option<Val> {
    match f
    case PhaseStatus =>
      if Concerns(e, key) && e.eventType == "phase.started" then Some(Text("running"))
      else if Concerns(e, key) && e.eventType == "phase.completed" then Some(Text("completed"))
      else if Concerns(e, key) && e.eventType == "phase.failed" then Some(Text("failed"))
      else None
    case PhaseConfidence =>
      if Concerns(e, key) && e.eventType == "phase.completed" then Look(e.payload, "confidence") else None
    case Approvals =>
      if e.eventType == "policy.approval_granted" && key != "" && Look(e.payload, "action") == Some(Text(key)) then
        Some(Table(map["approved_by" := OrEmpty(e, "approved_by"), "rationale" := OrEmpty(e, "rationale"), "granted_at" := Count(e.time)]))
      else None
    case Caps =>
      if e.eventType == "policy.budget_caps_updated" && "updates" in e.payload && e.payload["updates"].Table?
         && key in e.payload["updates"].rows && e.payload["updates"].rows[key] != Absent then
        Some(e.payload["updates"].rows[key])
      else None
    case _ => None
  }

  function LastRow(f: Field, key: string, events: seq<Event>): Option<Val> {
    if events == [] then None
    else
      var g := GivesRow(f, key, events[|events| - 1]);
      if g.Some? then g else LastRow(f, key, events[..|events| - 1])
  }

  lemma ApplyGivesRow(p: Projection, e: Event, f: Field, key: string)
    requires IsTable(f)
    ensures Look(RowsOf(Apply(p, e), f), key) == if GivesRow(f, key, e).Some? then GivesRow(f, key, e) else Look(RowsOf(p, f), key)
  {
    match e.eventType
    case "phase.started" => PhaseRow(p, e, f, key);
    case "phase.completed" => PhaseRow(p, e, f, key);
    case "phase.failed" => PhaseRow(p, e, f, key);
    case "policy.approval_granted" => ApprovalRow(p, e, f, key);
    case "policy.budget_caps_updated" => CapsRow(p, e, f, key);
    case _ => OtherRow(p, e, f, key);
  }

  predicate RowAsSaid(p: Projection, e: Event, f: Field, key: string) {
    Look(RowsOf(Apply(p, e), f), key) == if GivesRow(f, key, e).Some? then GivesRow(f, key, e) else Look(RowsOf(p, f), key)
  }

  lemma PhaseRow(p: Projection, e: Event, f: Field, key: string)
    requires IsTable(f) && e.eventType in {"phase.started", "phase.completed", "phase.failed"}
    ensures RowAsSaid(p, e, f, key)
  {
    if e.eventType == "phase.started" { StartedRow(p, e, f, key); }
    else if e.eventType == "phase.completed" { CompletedRow(p, e, f, key); }
    else { FailedRow(p, e, f, key); }
  }

  lemma StartedRow(p: Projection, e: Event, f: Field, key: string)
    requires IsTable(f) && e.eventType == "phase.started"
    ensures RowAsSaid(p, e, f, key)
  {
    PhaseConcerned(e);
    hide EventPhase, Concerns, Concerned;
  }

  lemma CompletedRow(p: Projection, e: Event, f: Field, key: string)
    requires IsTable(f) && e.eventType == "phase.completed"
    ensures RowAsSaid(p, e, f, key)
  {
    PhaseConcerned(e);
    hide EventPhase, Concerns, Concerned;
  }

  lemma FailedRow(p: Projection, e: Event, f: Field, key: string)
    requires IsTable(f) && e.eventType == "phase.failed"
    ensures RowAsSaid(p, e, f, key)
  {
    PhaseConcerned(e);
    hide EventPhase, Concerns, Concerned;
  }

  lemma ApprovalRow(p: Projection, e: Event, f: Field, key: string)
    requires IsTable(f) && e.eventType == "policy.approval_granted"
    ensures RowAsSaid(p, e, f, key)
  {
    hide EventPhase, Concerns;
  }

  lemma CapsRow(p: Projection, e: Event, f: Field, key: string)
    requires IsTable(f) && e.eventType == "policy.budget_caps_updated"
    ensures RowAsSaid(p, e, f, key)
  {
    hide EventPhase, Concerns;
  }

  lemma OtherRow(p: Projection, e: Event, f: Field, key: string)
    requires IsTable(f)
    requires e.eventType !in {"phase.started", "phase.completed", "phase.failed", "policy.approval_granted", "policy.budget_caps_updated"}
    ensures RowAsSaid(p, e, f, key)
  {
    OtherTables(p, e, f);
    hide Apply, Concerns;
  }

  lemma OtherTables(p: Projection, e: Event, f: Field)
    requires IsTable(f)
    requires e.eventType !in {"phase.started", "phase.completed", "phase.failed", "policy.approval_granted", "policy.budget_caps_updated"}
    ensures RowsOf(Apply(p, e), f) == RowsOf(p, f)
  {
    SameRows(p, Apply(p, e), f);
    hide Apply, RowsOf;
    match e.eventType
    case "project.created" => CreatedKeeps(p, e, f);
    case "policy.kill_switch_triggered" => KillKeeps(p, e, f);
    case "policy.risk_classification_set" => RiskKeeps(p, e, f);
    case "outcome.recorded" => OutcomeKeeps(p, e, f);
    case _ => UnknownKeeps(p, e);
  }

  lemma SameRows(p: Projection, q: Projection, f: Field)
    ensures Look(p, f) == Look(q, f) ==> RowsOf(p, f) == RowsOf(q, f)
  {
  }

  lemma CreatedKeeps(p: Projection, e: Event, f: Field)
    requires IsTable(f) && e.eventType == "project.created"
    ensures Look(Apply(p, e), f) == Look(p, f)
  {
    hide Lookup, Field0;
  }

  lemma KillKeeps(p: Projection, e: Event, f: Field)
    requires IsTable(f) && e.eventType == "policy.kill_switch_triggered"
    ensures Look(Apply(p, e), f) == Look(p, f)
  {
    hide Lookup;
  }

  lemma RiskKeeps(p: Projection, e: Event, f: Field)
    requires IsTable(f) && e.eventType == "policy.risk_classification_set"
    ensures Look(Apply(p, e), f) == Look(p, f)
  {
    hide Lookup, Field0;
  }

  /** Replay: a phase's status and confidence, an action's approval and a cap are the last ones given. */
  lemma {:induction false} RowIsLastGiven(p: Projection, events: seq<Event>, f: Field, key: string)
    requires IsTable(f)
    ensures Look(RowsOf(Project(p, events), f), key) ==
            if LastRow(f, key, events).Some? then LastRow(f, key, events) else Look(RowsOf(p, f), key)
    decreases |events|
  {
    hide Apply, GivesRow, RowsOf;
    if events != [] {
      var n := |events| - 1;
      RowIsLastGiven(p, events[..n], f, key);
      ApplyGivesRow(Project(p, events[..n]), events[n], f, key);
    }
  }

  // ---------- the count ----------

  function Outcomes(events: seq<Event>): nat {
    if events == [] then 0
    else Outcomes(events[..|events| - 1]) + if events[|events| - 1].eventType == "outcome.recorded" then 1 else 0
  }

  lemma ApplyCounts(p: Projection, e: Event)
    ensures Look(Apply(p, e), OutcomeCount) ==
            if e.eventType != "outcome.recorded" then Look(p, OutcomeCount)
            else Some(Count(1 + if OutcomeCount in p && p[OutcomeCount].Count? then p[OutcomeCount].n else 0))
  {
    hide EventPhase, RowsOf, MergeCaps;
    match e.eventType
    case "phase.completed" => CompletedKeeps(p, e, OutcomeCount);
    case "phase.failed" => FailedKeeps(p, e, OutcomeCount);
    case "policy.approval_granted" => ApprovalKeeps(p, e, OutcomeCount);
    case "policy.budget_caps_updated" => CapsKeep(p, e, OutcomeCount);
    case "outcome.recorded" =>
    case _ =>
  }

  /** Replay: the outcomes are counted. */
  lemma {:induction false} OutcomesAreCounted(projectId: string, events: seq<Event>)
    ensures Look(Project(Initial(projectId), events), OutcomeCount) ==
            if Outcomes(events) == 0 then None else Some(Count(Outcomes(events)))
    decreases |events|
  {
    hide Apply;
    if events != [] {
      var n := |events| - 1;
      OutcomesAreCounted(projectId, events[..n]);
      ApplyCounts(Project(Initial(projectId), events[..n]), events[n]);
    }
  }
}
