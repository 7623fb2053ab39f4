/** The policy gate in front of every phase and model call (mas/policy.py). */
module Policy {
  import opened Collections
  import opened Phases

  datatype Reversibility = ReadOnly | ReversibleInternal | IrreversibleInternal | IrreversibleExternal

  datatype Risk = MinimalRisk | LimitedRisk | HighRisk | OtherRisk

  datatype Caps = Caps(maxTokens: int, maxCost: real, maxSeconds: real, maxCalls: int, maxFailures: int)

  datatype Used = Used(tokens: int, cost: real, startedAt: Option<real>, calls: int, failures: int)

  datatype Denial = KillSwitch | TokenCap | CostCap | ClockCap | CallCap | FailureCap | OpenBreaker | NeedsApproval

  datatype Decision = Allowed | Denied(why: Denial)

  /** What the gate looks at. */
  datatype Controls = Controls(
    killed: bool,
    caps: Caps,
    used: Used,
    openBreakers: set<Phase>,
    approvals: set<Phase>,
    risk: Risk)

  function Elapsed(used: Used, now: real): real {
    if used.startedAt.None? then 0.0 else now - used.startedAt.value
  }

  predicate RequiresApproval(reversibility: Reversibility, risk: Risk) {
    match reversibility
    case IrreversibleExternal => true
    case IrreversibleInternal => risk == HighRisk || risk == LimitedRisk
    case _ => false
  }

  /** All five caps hold; the time counts from the recorded start, and is nothing before there is one. */
  predicate WithinBudget(c: Controls, now: real, tokens: int, cost: real) {
    && c.used.tokens + tokens <= c.caps.maxTokens
    && c.used.cost + cost <= c.caps.maxCost
    && InTime(c, now)
    && c.used.calls < c.caps.maxCalls
    && c.used.failures < c.caps.maxFailures
  }

  predicate InTime(c: Controls, now: real) {
    match c.used.startedAt
    case Some(start) => now <= start + c.caps.maxSeconds
    case None => c.caps.maxSeconds >= 0.0
  }

  /** `check_budget`: the first breached cap, in the source's order. */
  function CheckBudget(c: Controls, now: real, tokens: int, cost: real): (d: Decision)
    ensures d == Allowed <==> WithinBudget(c, now, tokens, cost)
    ensures d == Denied(TokenCap) <==> c.used.tokens + tokens > c.caps.maxTokens
    ensures d == Denied(CostCap) <==> c.used.tokens + tokens <= c.caps.maxTokens && c.used.cost + cost > c.caps.maxCost
    ensures d == Denied(ClockCap) ==> !InTime(c, now)
    ensures d == Denied(CallCap) ==> InTime(c, now) && c.used.calls >= c.caps.maxCalls
    ensures d == Denied(FailureCap) ==> InTime(c, now) && c.used.calls < c.caps.maxCalls && c.used.failures >= c.caps.maxFailures
    ensures d !in {Denied(KillSwitch), Denied(OpenBreaker), Denied(NeedsApproval)}
  {
    if c.used.tokens + tokens > c.caps.maxTokens then Denied(TokenCap)
    else if c.used.cost + cost > c.caps.maxCost then Denied(CostCap)
    else if Elapsed(c.used, now) > c.caps.maxSeconds then Denied(ClockCap)
    else if c.used.calls >= c.caps.maxCalls then Denied(CallCap)
    else if c.used.failures >= c.caps.maxFailures then Denied(FailureCap)
    else Allowed
  }

  /** `policy_gate`: allowed exactly when the four promises of the gate all hold. */
  function PolicyGate(c: Controls, action: Phase, reversibility: Reversibility, now: real, tokens: int, cost: real): (d: Decision)
    ensures d == Allowed <==>
            && !c.killed
            && WithinBudget(c, now, tokens, cost)
            && action !in c.openBreakers
            && (reversibility == IrreversibleExternal ==> action in c.approvals)
            && (reversibility == IrreversibleInternal && (c.risk == HighRisk || c.risk == LimitedRisk) ==> action in c.approvals)
    ensures d == Denied(KillSwitch) <==> c.killed
    ensures d == Denied(OpenBreaker) <==> !c.killed && WithinBudget(c, now, tokens, cost) && action in c.openBreakers
    ensures d == Denied(NeedsApproval) ==> action !in c.openBreakers && action !in c.approvals
  {
    if c.killed then Denied(KillSwitch)
    else if CheckBudget(c, now, tokens, cost) != Allowed then CheckBudget(c, now, tokens, cost)
    else if action in c.openBreakers then Denied(OpenBreaker)
    else if RequiresApproval(reversibility, c.risk) && action !in c.approvals then Denied(NeedsApproval)
    else Allowed
  }

  /** Every phase of both templates is reversible; sealing and calibration writes are not. */
  function ActionClass(action: Phase): Reversibility {
    if action == Other("seal_project") || action == Other("write_calibration_snapshot") then IrreversibleInternal
    else ReversibleInternal
  }

  /** A phase never needs approval: its gate is open exactly when the project is not killed, within its
      budget, and the phase's breaker is closed. Sealing and calibration writes of a project at risk do. */
  lemma PhaseGate(c: Controls, p: Phase, now: real)
    ensures var open := PolicyGate(c, p, ActionClass(p), now, 0, 0.0) == Allowed;
            var clear := !c.killed && WithinBudget(c, now, 0, 0.0) && p !in c.openBreakers;
            if p in {Other("seal_project"), Other("write_calibration_snapshot")} && c.risk in {HighRisk, LimitedRisk}
            then open <==> clear && p in c.approvals
            else open <==> clear
  {
    hide WithinBudget;
  }

  /** `record_consumption_to_state`: every logical call counts, admitted or refused. */
  function Consume(used: Used, tokens: int, cost: real, ok: bool): Used {
    Used(used.tokens + tokens, used.cost + cost, used.startedAt, used.calls + 1, if ok then 0 else used.failures + 1)
  }
}
