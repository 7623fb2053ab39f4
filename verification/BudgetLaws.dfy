/** The policy gate over whole histories: budget bounds, the kill switch, and calls in order. */
module BudgetLaws {
  import opened Phases
  import opened Policy
  import opened Workflow
  import opened GatewayLaws
  import opened PhaseOutcome
  import opened WorkflowLaws

  // ---------- one phase run ----------

  /** The calls let through between two states: all for `p`, at most two, each marked `ready`. */
  predicate AdmitsUpToTwo(s: Project, t: Project, p: Phase, ready: bool) {
    && s.admitted <= t.admitted && |t.admitted| <= |s.admitted| + 2
    && forall k :: |s.admitted| <= k < |t.admitted| ==> t.admitted[k].phase == p && t.admitted[k].ready == ready
  }

  /** The calls counted between two states: at most two, and at least the ones let through. */
  predicate CountsUpToTwo(s: Project, t: Project) {
    && 0 <= t.controls.used.calls - s.controls.used.calls <= 2
    && |t.admitted| - |s.admitted| <= t.controls.used.calls - s.controls.used.calls
  }

  /** Nothing but the counters and the start of the clock moved. */
  predicate SamePolicy(c: Controls, d: Controls) {
    && d.killed == c.killed && d.caps == c.caps && d.openBreakers == c.openBreakers
    && d.approvals == c.approvals && d.risk == c.risk
  }

  /** The record of a call that was let through. */
  function AdmissionOf(s: Project, p: Phase, attempts: seq<Attempt>): Admission {
    var r := Answer(s.controls, p, attempts);
    Admission(p, Ready(s, p), r.tokens, r.cost)
  }

  lemma CalledAdmits(s: Project, p: Phase, attempts: seq<Attempt>)
    ensures var t := Called(s, p, attempts); var allowed := Executed(s.controls, p, attempts) > 0;
            && t.admitted == s.admitted + (if allowed then [AdmissionOf(s, p, attempts)] else [])
            && t.template == s.template && t.board == s.board && SamePolicy(s.controls, t.controls)
            && (s.controls.killed ==> !allowed) && t.controls.used.calls == s.controls.used.calls + 1
  {
    NoneOnceKilled(s.controls, p, attempts);
    hide Ready, Answer, Executed;
  }

  lemma CallsAdmit(s: Project, p: Phase, w: World)
    ensures var t := Calls(s, p, w);
            && AdmitsUpToTwo(s, t, p, Ready(s, p)) && CountsUpToTwo(s, t) && SamePolicy(s.controls, t.controls)
            && (s.controls.killed ==> t.admitted == s.admitted)
  {
    hide NeedsRepair, Called, Answer, Executed, Ready, AdmitsUpToTwo, CountsUpToTwo;
    var m := Called(s, p, w.first);
    CalledAdmits(s, p, w.first);
    CalledAdmits(m, p, w.second);
    SameReady(s, m, p);
    var first := if Executed(s.controls, p, w.first) > 0 then [AdmissionOf(s, p, w.first)] else [];
    TwoCalls(s, m, m, p, Ready(s, p), first, []);
    TwoCalls(s, m, Called(m, p, w.second), p, Ready(s, p), first,
             if Executed(m.controls, p, w.second) > 0 then [AdmissionOf(m, p, w.second)] else []);
  }

  lemma SameReady(s: Project, t: Project, p: Phase)
    requires t.template == s.template && t.board == s.board
    ensures Ready(t, p) == Ready(s, p)
  {
    hide Finished;
  }

  lemma TwoCalls(s: Project, m: Project, t: Project, p: Phase, ready: bool, first: seq<Admission>, second: seq<Admission>)
    requires |first| <= 1 && |second| <= 1
    requires forall a :: a in first + second ==> a.phase == p && a.ready == ready
    requires m.admitted == s.admitted + first && t.admitted == m.admitted + second
    requires m.controls.used.calls == s.controls.used.calls + 1
    requires t.controls.used.calls == m.controls.used.calls + if t == m then 0 else 1
    requires t == m ==> second == []
    ensures AdmitsUpToTwo(s, t, p, ready) && CountsUpToTwo(s, t)
  {
    assert s.admitted + first + second == s.admitted + (first + second);
    forall k | |s.admitted| <= k < |t.admitted| ensures t.admitted[k].phase == p && t.admitted[k].ready == ready {
      assert t.admitted[k] == (first + second)[k - |s.admitted|];
    }
  }

  lemma ExecuteIsCalls(s: Project, p: Phase, w: World)
    ensures var t := Execute(s, p, w); var u := Calls(s, p, w);
            t.admitted == u.admitted && t.controls == u.controls
  {
    hide Calls, Called, Decide, Close, Answer;
  }

  /** Readiness depends on the earlier phases only, and neither the running mark nor the Strategy
      cone touches those. */
  lemma ReadyKept(s: Project, t: Project, p: Phase)
    requires t.template == s.template
    requires forall q :: q != p && !(p == Strategy && q in CONE) ==> At(t.board, q) == At(s.board, q)
    ensures Ready(t, p) == Ready(s, p)
  {
    AfterStrategy(s.template);
    hide At, Finished, Sequence;
    var i := IndexOf(Steps(s), p);
    forall k | 0 <= k < i < |Steps(s)| ensures Finished(t.board, Steps(s)[k]) == Finished(s.board, Steps(s)[k]) {
      HasOutputAt(s.board, t.board, Steps(s)[k]);
    }
  }

  /** `run_phase_node` makes at most two model calls, counting refused ones, and lets none through once
      the kill switch is set. */
  lemma RunPhaseAdmits(s: Project, p: Phase, w: World)
    ensures var t := RunPhase(s, p, w);
            && AdmitsUpToTwo(s, t, p, Ready(s, p)) && CountsUpToTwo(s, t) && SamePolicy(s.controls, t.controls)
            && (s.controls.killed ==> t.admitted == s.admitted)
  {
    var r := Replaced(s, p);
    var u := r.(board := r.board.(status := r.board.status[p := Running]), controls := StartClock(s.controls, w.now), current := p);
    ConeEffect(s.board);
    StatusKeeps(r.board, p, Running);
    hide Calls, Execute, StrategyCone, PrerequisiteFailure, Ready, At, Finished, HasOutput, Downstream, Fail, PrerequisitesMet;
    CallsAdmit(u, p, w);
    ExecuteIsCalls(u, p, w);
    ReadyKept(s, u, p);
  }

  /** No run completes a phase on its own word: its prerequisites were finished, the gate was open at
      its entry and again at its call, and at least one model call was let through. */
  lemma CompletionIsEarned(s: Project, p: Phase, w: World)
    ensures var t := RunPhase(s, p, w); var c := StartClock(s.controls, w.now);
            StatusOf(t.board, p) == Completed ==>
              && PrerequisitesMet(Replaced(s, p).board, p)
              && Gate(c, p, w.now) == Allowed && Executed(c, p, w.first) > 0
              && |t.admitted| > |s.admitted|
  {
    hide StrategyCone, PrerequisitesMet, PrerequisiteFailure, Downstream, Gate, Execute, Executed, At, HasOutput, Ready;
    var r := Replaced(s, p);
    var u := r.(board := r.board.(status := r.board.status[p := Running]), controls := StartClock(s.controls, w.now), current := p);
    PrerequisiteFailureEffect(r.board, Downstream(s.template, p), p);
    FailOutcome(r.board, p, PolicyBlocked);
    FailOutcome(u.board, p, PhaseConfiguration);
    FailOutcome(u.board, p, EvidenceBlocked);
    RefusedFails(u, p, w);
    ExecuteIsCalls(u, p, w);
    FirstCallCounts(u, p, w);
    hide Calls, Fail;
  }

  lemma RefusedFails(s: Project, p: Phase, w: World)
    ensures StatusOf(Execute(s, p, w).board, p) == Completed ==> Executed(s.controls, p, w.first) > 0
  {
    hide Decide, Close, Calls, Called, Executed, Answer;
    AnswerLaws(s.controls, p, w.first);
    var r := Answer(s.controls, p, w.first);
    var r2 := Answer(Called(s, p, w.first).controls, p, w.second);
    DecideOutcome(s.board, p, r, r2);
  }

  lemma FirstCallCounts(s: Project, p: Phase, w: World)
    ensures Executed(s.controls, p, w.first) > 0 ==> |Calls(s, p, w).admitted| > |s.admitted|
  {
    hide Called, Answer, Executed, Ready, NeedsRepair;
    CalledAdmits(s, p, w.first);
    CalledAdmits(Called(s, p, w.first), p, w.second);
  }

  // ---------- the runner calls in order ----------

  /** Every call admitted since the first `n` was for a phase whose predecessors were all finished. */
  predicate ReadySince(s: Project, n: nat) {
    n <= |s.admitted| && forall k :: n <= k < |s.admitted| ==> s.admitted[k].ready
  }

  lemma ReadyIsFinishedBefore(s: Project, k: nat)
    requires k < |Steps(s)|
    ensures FinishedBefore(s, k) ==> Ready(s, Steps(s)[k])
  {
    hide Finished, Sequence;
    SequenceDistinct(s.template);
    assert IndexOf(Steps(s), Steps(s)[k]) == k;
  }

  lemma TurnAdmits(s: Project, k: nat, w: World, g: ExitGate, n: nat)
    requires k < |Steps(s)| && FinishedBefore(s, k) && ReadySince(s, n)
    ensures ReadySince(Turn(s, Steps(s)[k], w, g), n)
  {
    hide RunPhase, Ready, At, Finished, HasOutput, StatusOf, Exit, Sequence, CountsUpToTwo, SamePolicy;
    var p := Steps(s)[k];
    var r := Started(s, p);
    StatusKeeps(s.board, p, Running);
    ReadyKept(s, r, p);
    ReadyIsFinishedBefore(s, k);
    RunPhaseAdmits(r, p, w);
  }

  lemma {:induction false} RunFromAdmits(s: Project, k: nat, world: Phase -> World, gates: Phase -> ExitGate, n: nat)
    requires k <= |Steps(s)| && FinishedBefore(s, k) && BareAfter(s, k) && ReadySince(s, n)
    ensures ReadySince(RunFrom(s, Steps(s)[k..], world, gates), n)
    decreases |Steps(s)| - k
  {
    hide Turn, HasOutput, StatusOf, Sequence, ReadySince;
    if k < |Steps(s)| {
      var p := Steps(s)[k];
      assert Steps(s)[k..][1..] == Steps(s)[k + 1..];
      if Finished(s.board, p) {
        RunFromAdmits(s, k + 1, world, gates, n);
      } else {
        var t := Turn(s, p, world(p), gates(p));
        TurnOutcome(s, k, world(p), gates(p));
        TurnAdmits(s, k, world(p), gates(p), n);
        if StatusOf(t.board, p) == Completed { RunFromAdmits(t, k + 1, world, gates, n); }
      }
    }
  }

  /** The runner never calls a model for a phase while an earlier phase of the template is unfinished. */
  lemma RunnerCallsInOrder(s: Project, world: Phase -> World, gates: Phase -> ExitGate)
    ensures var t := RunWorkflow(s, world, gates);
            && |s.admitted| <= |t.admitted|
            && forall k :: |s.admitted| <= k < |t.admitted| ==> t.admitted[k].ready
  {
    var k := FirstUnfinished(s.board, Steps(s));
    if k < |Steps(s)| {
      var p := Steps(s)[k];
      var t := InvalidateDownstream(s, p);
      DownstreamBare(s, p);
      assert t.admitted == s.admitted;
      hide InvalidateDownstream, HasOutput, At, Sequence, Downstream;
      forall j | 0 <= j < k ensures Finished(t.board, Steps(s)[j]) {
        DownstreamIsLater(s.template, k, j);
        HasOutputAt(s.board, t.board, Steps(s)[j]);
      }
      RunFromAdmits(t, k, world, gates, |s.admitted|);
    }
  }

  // ---------- budget bounds ----------

  /** The most one logical call may use, over all its attempts. */
  datatype Ceiling = Ceiling(tokens: nat, cost: real)

  /** However many attempts a call makes, they use no more than that. */
  predicate ModestCall(attempts: seq<Attempt>, most: Ceiling) {
    forall n :: 0 <= n <= |attempts| ==> Tokens(attempts[..n]) <= most.tokens && Cost(attempts[..n]) <= most.cost
  }

  predicate Modest(w: World, most: Ceiling) {
    ModestCall(w.first, most) && ModestCall(w.second, most)
  }

  /** The bounds: `base` is the number of calls counted before the history began. */
  predicate Held(s: Project, base: int, most: Ceiling) {
    var used := s.controls.used; var caps := s.controls.caps;
    && base + |s.admitted| <= used.calls <= caps.maxCalls + 1
    && base + |s.admitted| <= caps.maxCalls
    && 0 <= used.failures <= caps.maxFailures
    && used.tokens <= caps.maxTokens + most.tokens
    && used.cost <= caps.maxCost + most.cost
  }

  /** A call that the gate lets through, or whose refusal is counted, stays in bounds if the counters
      were strictly within them. */
  lemma CalledHeld(s: Project, p: Phase, attempts: seq<Attempt>, base: int, most: Ceiling)
    requires Held(s, base, most) && ModestCall(attempts, most)
    requires s.controls.used.failures < s.controls.caps.maxFailures && s.controls.used.calls <= s.controls.caps.maxCalls
    ensures Held(Called(s, p, attempts), base, most)
    ensures Called(s, p, attempts).controls.used.calls == s.controls.used.calls + 1
    ensures Answer(s.controls, p, attempts).ok ==> Called(s, p, attempts).controls.used.failures == 0
  {
    hide Ready, Answer;
    AnswerLaws(s.controls, p, attempts);
    OpenForSome(s.controls, p, attempts);
    var n := Executed(s.controls, p, attempts);
    hide Executed;
    assert Tokens(attempts[..n]) <= most.tokens && Cost(attempts[..n]) <= most.cost;
    if n == 0 { assert attempts[..n] == []; }
  }

  lemma OpenForSome(c: Controls, p: Phase, attempts: seq<Attempt>)
    ensures Executed(c, p, attempts) > 0 ==>
      c.used.calls < c.caps.maxCalls && c.used.tokens <= c.caps.maxTokens && c.used.cost <= c.caps.maxCost
  {
  }

  lemma CallsHeld(s: Project, p: Phase, w: World, base: int, most: Ceiling)
    requires Held(s, base, most) && Modest(w, most) && Gate(s.controls, p, w.now) == Allowed
    ensures Held(Calls(s, p, w), base, most)
  {
    hide Called, Answer, NeedsRepair;
    CalledHeld(s, p, w.first, base, most);
    var t := Called(s, p, w.first);
    CalledPolicy(s, p, w.first);
    if Answer(s.controls, p, w.first).ok { CalledHeld(t, p, w.second, base, most); }
  }

  lemma CalledPolicy(s: Project, p: Phase, attempts: seq<Attempt>)
    ensures SamePolicy(s.controls, Called(s, p, attempts).controls)
  {
    hide Ready;
  }

  lemma RunPhaseHeld(s: Project, p: Phase, w: World, base: int, most: Ceiling)
    requires Held(s, base, most) && Modest(w, most)
    ensures Held(RunPhase(s, p, w), base, most)
  {
    var r := Replaced(s, p);
    var u := r.(board := r.board.(status := r.board.status[p := Running]), controls := StartClock(s.controls, w.now), current := p);
    hide Calls, Execute, StrategyCone, PrerequisiteFailure, Ready, Downstream, Fail, PrerequisitesMet, Gate;
    ExecuteIsCalls(u, p, w);
    if Gate(u.controls, p, w.now) == Allowed { CallsHeld(u, p, w, base, most); }
  }

  ghost predicate ModestOp(op: Op, most: Ceiling) {
    match op
    case Workflow(world, _) => forall p :: Modest(world(p), most)
    case Manual(_, w) => Modest(w, most)
    case _ => true
  }

  /** In bounds, under the same policy, and silent if the kill switch was set. */
  ghost predicate Governed(s: Project, t: Project, base: int, most: Ceiling, modest: bool) {
    && (modest && Held(s, base, most) ==> Held(t, base, most))
    && t.controls.caps == s.controls.caps && (s.controls.killed ==> t.controls.killed && t.admitted == s.admitted)
  }

  lemma {:induction false} RunFromGoverned(s: Project, todo: seq<Phase>, world: Phase -> World, gates: Phase -> ExitGate,
                                           base: int, most: Ceiling, modest: bool)
    requires modest ==> forall p :: Modest(world(p), most)
    ensures Governed(s, RunFrom(s, todo, world, gates), base, most, modest)
    decreases |todo|
  {
    hide RunPhase, Held, Finished, StatusOf, Exit, AdmitsUpToTwo, CountsUpToTwo, Ready, Modest;
    if todo != [] {
      var p := todo[0];
      if Finished(s.board, p) {
        RunFromGoverned(s, todo[1..], world, gates, base, most, modest);
      } else {
        var t := Turn(s, p, world(p), gates(p));
        TurnGoverned(s, p, world(p), gates(p), base, most, modest);
        if StatusOf(t.board, p) == Completed { RunFromGoverned(t, todo[1..], world, gates, base, most, modest); }
      }
    }
  }

  lemma TurnGoverned(s: Project, p: Phase, w: World, g: ExitGate, base: int, most: Ceiling, modest: bool)
    requires modest ==> Modest(w, most)
    ensures Governed(s, Turn(s, p, w, g), base, most, modest)
  {
    hide RunPhase, StatusOf, Exit, AdmitsUpToTwo, CountsUpToTwo, Ready, Modest;
    var r := Started(s, p);
    RunPhaseAdmits(r, p, w);
    if modest && Held(s, base, most) { RunPhaseHeld(r, p, w, base, most); }
  }

  lemma StepGoverned(s: Project, op: Op, base: int, most: Ceiling, modest: bool)
    requires modest ==> ModestOp(op, most)
    ensures Governed(s, Apply(s, op), base, most, modest)
  {
    hide RunWorkflow, RunManually, EditOutput, EditInput, Modest, Governed, Held;
    match op
    case Workflow(world, gates) => WorkflowGoverned(s, world, gates, base, most, modest);
    case Manual(p, w) => ManualGoverned(s, p, w, base, most, modest);
    case Output(q, doc) =>
      EditKeepsLedger(s, q, doc);
      SilentGoverned(s, EditOutput(s, q, doc), base, most, modest);
    case Input(e) =>
      InputKeepsLedger(s, e);
      SilentGoverned(s, EditInput(s, e), base, most, modest);
    case KillSwitch => SilentGoverned(s, Kill(s), base, most, modest);
  }

  lemma WorkflowGoverned(s: Project, world: Phase -> World, gates: Phase -> ExitGate, base: int, most: Ceiling, modest: bool)
    requires modest ==> forall p :: Modest(world(p), most)
    ensures Governed(s, RunWorkflow(s, world, gates), base, most, modest)
  {
    hide FirstUnfinished, InvalidateAll, Held, RunFrom, Modest, Sequence;
    var k := FirstUnfinished(s.board, Steps(s));
    if k < |Steps(s)| {
      var t := InvalidateDownstream(s, Steps(s)[k]);
      SameLedger(s, t, base, most);
      RunFromGoverned(t, Steps(s)[k..], world, gates, base, most, modest);
    }
  }

  lemma ManualGoverned(s: Project, p: Phase, w: World, base: int, most: Ceiling, modest: bool)
    requires modest ==> Modest(w, most)
    ensures Governed(s, RunManually(s, p, w), base, most, modest)
  {
    hide InvalidateAll, RunPhase, AdmitsUpToTwo, CountsUpToTwo, Ready, Modest, Held;
    var t := InvalidateDownstream(s, p);
    SameLedger(s, t, base, most);
    RunPhaseAdmits(t, p, w);
    if modest && Held(s, base, most) { RunPhaseHeld(t, p, w, base, most); }
  }

  /** An operation that calls no model moves neither counters nor the record of calls. */
  predicate KeepsLedger(s: Project, t: Project) {
    t.controls.(killed := s.controls.killed) == s.controls && (s.controls.killed ==> t.controls.killed) && t.admitted == s.admitted
  }

  lemma EditKeepsLedger(s: Project, p: Phase, doc: string)
    ensures KeepsLedger(s, EditOutput(s, p, doc))
  {
    hide InvalidateAll, StrategyCone, Finalize, HadLifecycle, Sequence;
  }

  lemma InputKeepsLedger(s: Project, e: InputEdit)
    ensures KeepsLedger(s, EditInput(s, e))
  {
    hide InvalidateAll, MarkPhaseStale, MarkStale, RestartPhase, WouldMark, Sequence;
  }

  lemma SilentGoverned(s: Project, t: Project, base: int, most: Ceiling, modest: bool)
    requires KeepsLedger(s, t)
    ensures Governed(s, t, base, most, modest)
  {
  }

  lemma SameLedger(s: Project, t: Project, base: int, most: Ceiling)
    requires t.controls == s.controls && t.admitted == s.admitted
    ensures Held(s, base, most) == Held(t, base, most)
  {
  }

  lemma {:induction false} HistoryGoverned(s: Project, ops: seq<Op>, base: int, most: Ceiling, modest: bool)
    requires modest ==> forall op :: op in ops ==> ModestOp(op, most)
    ensures Governed(s, History(s, ops), base, most, modest)
    decreases |ops|
  {
    hide Apply, Held, ModestOp;
    if ops != [] {
      var n := |ops| - 1;
      HistoryGoverned(s, ops[..n], base, most, modest);
      assert ops[n] in ops;
      StepGoverned(History(s, ops[..n]), ops[n], base, most, modest);
    }
  }

  // ---------- what was spent ----------

  function SpentTokens(calls: seq<Admission>): nat {
    if calls == [] then 0 else SpentTokens(calls[..|calls| - 1]) + calls[|calls| - 1].tokens
  }

  function SpentCost(calls: seq<Admission>): real {
    if calls == [] then 0.0 else SpentCost(calls[..|calls| - 1]) + calls[|calls| - 1].cost
  }

  /** The counters moved by exactly what the calls let through in between used. */
  predicate Conserves(s: Project, t: Project) {
    && t.controls.used.tokens - SpentTokens(t.admitted) == s.controls.used.tokens - SpentTokens(s.admitted)
    && t.controls.used.cost - SpentCost(t.admitted) == s.controls.used.cost - SpentCost(s.admitted)
  }

  /** One call: the counters take up what exactly the attempts that reached a provider used, and so does
      the record of the call; it counts, refused or not; and only a success ends a run of failures. */
  lemma CallUses(s: Project, p: Phase, attempts: seq<Attempt>)
    ensures var n := Executed(s.controls, p, attempts); var t := Called(s, p, attempts); var used := s.controls.used;
            && n <= |attempts|
            && t.controls == s.controls.(used := Used(used.tokens + Tokens(attempts[..n]), used.cost + Cost(attempts[..n]), used.startedAt,
                 used.calls + 1, if n > 0 && attempts[n - 1].answer.ok then 0 else used.failures + 1))
            && t.admitted == s.admitted + (if n > 0 then [Admission(p, Ready(s, p), Tokens(attempts[..n]), Cost(attempts[..n]))] else [])
  {
    hide Ready, Answer, Executed;
    AnswerLaws(s.controls, p, attempts);
  }

  lemma CallConserves(s: Project, p: Phase, attempts: seq<Attempt>)
    ensures Conserves(s, Called(s, p, attempts))
  {
    hide Called, Executed, Ready;
    CallUses(s, p, attempts);
    var t := Called(s, p, attempts);
    var n := Executed(s.controls, p, attempts);
    if n > 0 {
      assert t.admitted[..|s.admitted|] == s.admitted;
    } else {
      assert attempts[..n] == [] && s.admitted + [] == s.admitted;
    }
  }

  lemma RunPhaseConserves(s: Project, p: Phase, w: World)
    ensures Conserves(s, RunPhase(s, p, w))
  {
    var r := Replaced(s, p);
    var u := r.(board := r.board.(status := r.board.status[p := Running]), controls := StartClock(s.controls, w.now), current := p);
    ExecuteIsCalls(u, p, w);
    hide Execute, StrategyCone, PrerequisiteFailure, Downstream, Fail, PrerequisitesMet, Gate, SpentTokens, SpentCost, Called, Answer, NeedsRepair;
    CallConserves(u, p, w.first);
    CallConserves(Called(u, p, w.first), p, w.second);
  }

  lemma TurnConserves(s: Project, p: Phase, w: World, g: ExitGate)
    ensures Conserves(s, Turn(s, p, w, g))
  {
    hide RunPhase, StatusOf, Exit, SpentTokens, SpentCost;
    RunPhaseConserves(Started(s, p), p, w);
  }

  lemma {:induction false} RunFromConserves(s: Project, todo: seq<Phase>, world: Phase -> World, gates: Phase -> ExitGate)
    ensures Conserves(s, RunFrom(s, todo, world, gates))
    decreases |todo|
  {
    hide Turn, Finished, StatusOf, SpentTokens, SpentCost;
    if todo != [] {
      var p := todo[0];
      var t := Turn(s, p, world(p), gates(p));
      TurnConserves(s, p, world(p), gates(p));
      RunFromConserves(if Finished(s.board, p) then s else t, todo[1..], world, gates);
    }
  }

  lemma StepConserves(s: Project, op: Op)
    ensures Conserves(s, Apply(s, op))
  {
    hide EditOutput, EditInput, RunFrom, RunPhase, SpentTokens, SpentCost, FirstUnfinished, InvalidateAll, Sequence;
    match op
    case Workflow(world, gates) =>
      var k := FirstUnfinished(s.board, Steps(s));
      if k < |Steps(s)| { RunFromConserves(InvalidateDownstream(s, Steps(s)[k]), Steps(s)[k..], world, gates); }
    case Manual(p, w) => RunPhaseConserves(InvalidateDownstream(s, p), p, w);
    case Output(q, doc) => EditKeepsLedger(s, q, doc);
    case Input(e) => InputKeepsLedger(s, e);
    case KillSwitch =>
  }

  /** Over every history the token and cost counters have moved by exactly what the calls let through used. */
  lemma {:induction false} UsageIsConserved(s: Project, ops: seq<Op>)
    ensures Conserves(s, History(s, ops))
    decreases |ops|
  {
    hide Apply, SpentTokens, SpentCost;
    if ops != [] {
      UsageIsConserved(s, ops[..|ops| - 1]);
      StepConserves(History(s, ops[..|ops| - 1]), ops[|ops| - 1]);
    }
  }

  /** Budget bounds over whole histories of a new project whose counters start within their caps:
      at most as many model calls are let through as the cap leaves; the call counter ends at most
      one above it, because a refused repair call is still counted; consecutive failures never pass
      their cap; and what the calls used in tokens and cost passes what their caps leave by at most
      one call. */
  lemma BudgetBounds(template: Template, controls: Controls, ops: seq<Op>, most: Ceiling)
    requires most.cost >= 0.0 && forall op :: op in ops ==> ModestOp(op, most)
    requires 0 <= controls.used.calls <= controls.caps.maxCalls && 0 <= controls.used.failures <= controls.caps.maxFailures
    requires controls.used.tokens <= controls.caps.maxTokens && controls.used.cost <= controls.caps.maxCost
    ensures var t := History(Created(template, controls), ops);
            && |t.admitted| <= controls.caps.maxCalls - controls.used.calls
            && controls.used.calls + |t.admitted| <= t.controls.used.calls <= controls.caps.maxCalls + 1
            && 0 <= t.controls.used.failures <= controls.caps.maxFailures
            && t.controls.used.tokens == controls.used.tokens + SpentTokens(t.admitted)
            && t.controls.used.cost == controls.used.cost + SpentCost(t.admitted)
            && SpentTokens(t.admitted) <= controls.caps.maxTokens - controls.used.tokens + most.tokens
            && SpentCost(t.admitted) <= controls.caps.maxCost - controls.used.cost + most.cost
  {
    hide History, ModestOp;
    HistoryGoverned(Created(template, controls), ops, controls.used.calls, most, true);
    UsageIsConserved(Created(template, controls), ops);
  }

  /** Once the kill switch is set no history lets a model call through, and none clears the switch. */
  lemma KilledStaysSilent(s: Project, ops: seq<Op>)
    requires s.controls.killed
    ensures History(s, ops).admitted == s.admitted && History(s, ops).controls.killed
  {
    hide History, ModestOp;
    HistoryGoverned(s, ops, 0, Ceiling(0, 0.0), false);
  }

  /** A history in which the kill switch is triggered lets no call through from there on. */
  lemma KillStops(s: Project, ops: seq<Op>, more: seq<Op>)
    ensures var t := History(s, ops + [Op.KillSwitch] + more);
            t.admitted == History(s, ops).admitted && t.controls.killed
  {
    var u := History(s, ops);
    HistoryTurn(s, ops, Op.KillSwitch);
    HistoryConcat(s, ops + [Op.KillSwitch], more);
    hide History;
    KilledStaysSilent(u.(controls := u.controls.(killed := true)), more);
  }

  lemma HistoryTurn(s: Project, ops: seq<Op>, op: Op)
    ensures History(s, ops + [op]) == Apply(History(s, ops), op)
  {
    hide Apply;
    assert (ops + [op])[..|ops|] == ops;
  }

  lemma {:induction false} HistoryConcat(s: Project, a: seq<Op>, b: seq<Op>)
    ensures History(s, a + b) == History(History(s, a), b)
    decreases |b|
  {
    hide Apply;
    if b == [] {
      assert a + b == a;
    } else {
      var n := |b| - 1;
      HistoryConcat(s, a, b[..n]);
      assert (a + b)[..|a + b| - 1] == a + b[..n];
    }
  }
}
