/** Replaying the event log into a bounded projection, and comparing two moments (mas/decision_events.py). */
module Replay {
  import opened Collections

  /** The values a projection or a payload holds. */
  datatype Val = Absent | Text(s: string) | Flag(b: bool) | Count(n: int) | Table(rows: map<string, Val>)

  /** The fields the projection models; all of them are surfaced. */
  datatype Field =
    | ProjectId | ProjectName | ProjectType | CurrentPhase | PhaseStatus | PhaseConfidence
    | KillActive | KillReason | KillBy
    | Risk | RiskRationale | RiskSetBy
    | Approvals | Caps | OutcomeCount

  type Projection = map<Field, Val>

  /** An event: `time` stands for the ISO timestamp, compared by order only. */
  datatype Event = Event(id: string, eventType: string, time: int, phase: string, payload: map<string, Val>)

  function Lookup(m: map<string, Val>, key: string, default: Val): Val {
    if key in m then m[key] else default
  }

  function Field0(p: Projection, f: Field, default: Val): Val {
    if f in p then p[f] else default
  }

  function RowsOf(p: Projection, f: Field): map<string, Val> {
    match Field0(p, f, Table(map[]))
    case Table(rows) => rows
    case _ => map[]
  }

  /** `payload.get("phase") or event.get("phase") or ""`. */
  function EventPhase(e: Event): string {
    match Lookup(e.payload, "phase", Absent)
    case Text(s) => if s != "" then s else e.phase
    case _ => e.phase
  }

  function WithRow(p: Projection, f: Field, key: string, v: Val): Projection {
    p[f := Table(RowsOf(p, f)[key := v])]
  }

  /** The cap updates that carry a value, over the caps there are. */
  function MergeCaps(caps: map<string, Val>, updates: map<string, Val>): map<string, Val> {
    caps + map k | k in updates && updates[k] != Absent :: updates[k]
  }

  /** `_apply_event_to_projection`. */
  function Apply(p: Projection, e: Event): Projection {
    match e.eventType
    case "project.created" =>
      var q := p[ProjectType := Lookup(e.payload, "project_type", Field0(p, ProjectType, Absent))]
                [ProjectName := Lookup(e.payload, "project_name", Field0(p, ProjectName, Absent))];
      if "risk_classification" in e.payload then q[Risk := e.payload["risk_classification"]] else q
    case "phase.started" =>
      if EventPhase(e) == "" then p
      else WithRow(p, PhaseStatus, EventPhase(e), Text("running"))[CurrentPhase := Text(EventPhase(e))]
    case "phase.completed" =>
      if EventPhase(e) == "" then p
      else
        var q := WithRow(p, PhaseStatus, EventPhase(e), Text("completed"));
        if "confidence" in e.payload then WithRow(q, PhaseConfidence, EventPhase(e), e.payload["confidence"]) else q
    case "phase.failed" =>
      if EventPhase(e) == "" then p else WithRow(p, PhaseStatus, EventPhase(e), Text("failed"))
    case "policy.kill_switch_triggered" =>
      p[KillActive := Flag(true)]
       [KillReason := Lookup(e.payload, "reason", Text(""))]
       [KillBy := Lookup(e.payload, "triggered_by", Text(""))]
    case "policy.risk_classification_set" =>
      p[Risk := Lookup(e.payload, "classification", Field0(p, Risk, Absent))]
       [RiskRationale := Lookup(e.payload, "rationale", Text(""))]
       [RiskSetBy := Lookup(e.payload, "set_by", Text(""))]
    case "policy.approval_granted" =>
      (match Lookup(e.payload, "action", Text(""))
       case Text(action) =>
         if action == "" then p
         else WithRow(p, Approvals, action, Table(map[
           "approved_by" := Lookup(e.payload, "approved_by", Text("")),
           "rationale" := Lookup(e.payload, "rationale", Text("")),
           "granted_at" := Count(e.time)]))
       case _ => p)
    case "policy.budget_caps_updated" =>
      var updates := match Lookup(e.payload, "updates", Table(map[])) case Table(rows) => rows case _ => map[];
      p[Caps := Table(MergeCaps(RowsOf(p, Caps), updates))]
    case "outcome.recorded" =>
      var n := match Field0(p, OutcomeCount, Count(0)) case Count(k) => k case _ => 0;
      p[OutcomeCount := Count(n + 1)]
    case _ => p
  }

  function Project(p: Projection, events: seq<Event>): Projection {
    if events == [] then p else Apply(Project(p, events[..|events| - 1]), events[|events| - 1])
  }

  /** Replay composes: projecting a longer log continues from the projection of its beginning. */
  lemma {:induction false} ProjectConcat(p: Projection, a: seq<Event>, b: seq<Event>)
    ensures Project(p, a + b) == Project(Project(p, a), b)
    decreases |b|
  {
    if b == [] {
      assert a + b == a;
    } else {
      var n := |b| - 1;
      ProjectConcat(p, a, b[..n]);
      assert (a + b)[..|a + b| - 1] == a + b[..n];
    }
  }

  /** The fields an event writes, whatever was there before. */
  function Writes(e: Event): set<Field> {
    Apply(map[], e).Keys
  }

  lemma ApplyWrites(p: Projection, e: Event)
    ensures Apply(p, e).Keys == p.Keys + Writes(e)
  {
    hide Lookup, Field0, RowsOf, EventPhase, MergeCaps;
  }

  /** Some event of the log writes the field. */
  ghost predicate Written(f: Field, events: seq<Event>) {
    exists e :: e in events && f in Writes(e)
  }

  /** A projection has exactly the fields it started with and those some event writes; so no event
      ever removes a field. */
  lemma {:induction false} ProjectKeeps(p: Projection, events: seq<Event>)
    ensures forall f :: f in Project(p, events) <==> f in p || Written(f, events)
    decreases |events|
  {
    hide Writes, Apply;
    if events != [] {
      var n := |events| - 1;
      ProjectKeeps(p, events[..n]);
      ApplyWrites(Project(p, events[..n]), events[n]);
      forall f ensures Written(f, events) <==> Written(f, events[..n]) || f in Writes(events[n]) {
        assert events == events[..n] + [events[n]];
        if f in Writes(events[n]) { assert events[n] in events; }
      }
    }
  }

  // ---------- state at a boundary ----------

  datatype Boundary = AtEvent(id: string) | AtTime(t: int) | Everything

  datatype View = View(fields: Projection, asOf: Option<(string, int)>, applied: nat)

  /** The events up to and including the first with the id; all of them if it is not there. */
  function UpTo(events: seq<Event>, id: string): seq<Event> {
    if events == [] then []
    else if events[0].id == id then [events[0]]
    else [events[0]] + UpTo(events[1..], id)
  }

  function NotAfter(events: seq<Event>, t: int): seq<Event> {
    if events == [] then []
    else
      var front := NotAfter(events[..|events| - 1], t);
      if events[|events| - 1].time <= t then front + [events[|events| - 1]] else front
  }

  function Selected(events: seq<Event>, b: Boundary): seq<Event> {
    match b
    case AtEvent(id) => UpTo(events, id)
    case AtTime(t) => NotAfter(events, t)
    case Everything => events
  }

  function Initial(projectId: string): Projection {
    map[ProjectId := Text(projectId)]
  }

  function ViewOf(projectId: string, events: seq<Event>): View {
    View(Project(Initial(projectId), events),
         if events == [] then None else Some((events[|events| - 1].id, events[|events| - 1].time)),
         |events|)
  }

  /** The truncation loop of `state_at`. */
  method Truncate(events: seq<Event>, id: string) returns (truncated: seq<Event>)
    ensures truncated == UpTo(events, id)
  {
    truncated := [];
    for i := 0 to |events|
      invariant UpTo(events, id) == truncated + UpTo(events[i..], id)
    {
      var e := events[i];
      assert events[i..][0] == e && events[i..][1..] == events[i + 1..];
      truncated := truncated + [e];
      if e.id == id {
        return;
      }
    }
  }

  /** `state_at`. */
  method StateAt(projectId: string, events: seq<Event>, b: Boundary) returns (v: View)
    ensures v == ViewOf(projectId, Selected(events, b))
  {
    hide Apply;
    var chosen := events;
    match b {
      case AtEvent(id) =>
        chosen := Truncate(events, id);
      case AtTime(t) =>
        chosen := NotAfter(events, t);
      case Everything =>
    }
    var projection := Initial(projectId);
    for i := 0 to |chosen|
      invariant projection == Project(Initial(projectId), chosen[..i])
    {
      assert chosen[..i + 1][..i] == chosen[..i];
      projection := Apply(projection, chosen[i]);
    }
    assert chosen[..|chosen|] == chosen;
    v := View(projection,
              if chosen == [] then None else Some((chosen[|chosen| - 1].id, chosen[|chosen| - 1].time)),
              |chosen|);
  }

  // ---------- differences ----------

  datatype Diff = Diff(
    added: Projection,
    removed: Projection,
    changed: map<Field, (Val, Val)>,
    between: seq<Event>)

  predicate Between(e: Event, before: View, after: View) {
    && (before.asOf.Some? ==> before.asOf.value.1 < e.time)
    && (after.asOf.Some? ==> e.time <= after.asOf.value.1)
  }

  function Window(events: seq<Event>, before: View, after: View): seq<Event> {
    if events == [] then []
    else
      var front := Window(events[..|events| - 1], before, after);
      var e := events[|events| - 1];
      if Between(e, before, after) then front + [e] else front
  }

  function Compare(before: View, after: View, events: seq<Event>): Diff {
    Diff(
      map k | k in after.fields && k !in before.fields :: after.fields[k],
      map k | k in before.fields && k !in after.fields :: before.fields[k],
      map k | k in before.fields && k in after.fields && before.fields[k] != after.fields[k] :: (before.fields[k], after.fields[k]),
      Window(events, before, after))
  }

  /** `diff_states`. */
  method DiffStates(projectId: string, events: seq<Event>, from: Boundary, to: Boundary) returns (d: Diff)
    ensures d == Compare(ViewOf(projectId, Selected(events, from)), ViewOf(projectId, Selected(events, to)), events)
  {
    var before := StateAt(projectId, events, from);
    var after := StateAt(projectId, events, to);
    d := Compare(before, after, events);
  }

  /** Applying a difference: drop what was removed, then set what was added or changed. */
  function Patch(p: Projection, d: Diff): Projection {
    (p - d.removed.Keys) + d.added + map k | k in d.changed :: d.changed[k].1
  }

  /** The difference of any two views leads from one to the other, and records the old values. */
  lemma DiffPatches(before: View, after: View, events: seq<Event>)
    ensures var d := Compare(before, after, events);
            && Patch(before.fields, d) == after.fields
            && (forall k :: k in d.changed ==> k in before.fields && d.changed[k].0 == before.fields[k] != d.changed[k].1)
            && (forall k :: k in d.added ==> k !in before.fields)
            && (forall k :: k in d.removed ==> k in before.fields && d.removed[k] == before.fields[k])
  {
  }

  /** On any log and between any two boundaries, exactly the fields are added that an event selected
      for the second writes and none selected for the first, and removed the other way round. */
  lemma AddedAndRemoved(projectId: string, events: seq<Event>, from: Boundary, to: Boundary)
    ensures var a, b := Selected(events, from), Selected(events, to);
            var d := Compare(ViewOf(projectId, a), ViewOf(projectId, b), events);
            && (forall f :: f in d.added <==> f != ProjectId && Written(f, b) && !Written(f, a))
            && (forall f :: f in d.removed <==> f != ProjectId && Written(f, a) && !Written(f, b))
  {
    hide Written, Project, Selected, Window;
    ProjectKeeps(Initial(projectId), Selected(events, from));
    ProjectKeeps(Initial(projectId), Selected(events, to));
  }

  // ---------- boundaries by event and by time ----------

  predicate DistinctIds(events: seq<Event>) {
    forall i, j :: 0 <= i < j < |events| ==> events[i].id != events[j].id
  }

  /** Oldest first, as the log is read. */
  predicate Ordered(events: seq<Event>) {
    forall i, j :: 0 <= i < j < |events| ==> events[i].time <= events[j].time
  }

  predicate Increasing(events: seq<Event>) {
    forall i, j :: 0 <= i < j < |events| ==> events[i].time < events[j].time
  }

  lemma {:induction false} UpToIsPrefix(events: seq<Event>, k: nat)
    requires DistinctIds(events) && k < |events|
    ensures UpTo(events, events[k].id) == events[..k + 1]
    decreases k
  {
    if k > 0 {
      assert events[1..][k - 1] == events[k];
      UpToIsPrefix(events[1..], k - 1);
      assert events[..k + 1] == [events[0]] + events[1..][..k];
    } else {
      assert events[..1] == [events[0]];
    }
  }

  /** How many events are not after `t`. */
  function CountUntil(events: seq<Event>, t: int): (n: nat)
    ensures n <= |events|
  {
    if events == [] then 0
    else CountUntil(events[..|events| - 1], t) + if events[|events| - 1].time <= t then 1 else 0
  }

  lemma OrderedFront(events: seq<Event>, n: nat)
    requires Ordered(events) && n <= |events|
    ensures Ordered(events[..n])
  {
  }

  lemma LastIsLatest(events: seq<Event>)
    requires Ordered(events) && events != []
    ensures forall k :: 0 <= k < |events| ==> events[k].time <= events[|events| - 1].time
  {
  }

  /** In an ordered log these are the first ones. */
  lemma {:induction false} CountUntilLaws(events: seq<Event>, t: int)
    requires Ordered(events)
    ensures forall k :: 0 <= k < |events| ==> (events[k].time <= t <==> k < CountUntil(events, t))
    decreases |events|
  {
    if events != [] {
      var n := |events| - 1;
      OrderedFront(events, n);
      LastIsLatest(events);
      hide Ordered;
      CountUntilLaws(events[..n], t);
      var c := CountUntil(events[..n], t);
      if c < n { assert events[..n][c] == events[c]; }
      forall k | 0 <= k < n ensures events[k].time <= t <==> k < CountUntil(events, t) { assert events[..n][k] == events[k]; }
    }
  }

  lemma CountsAll(events: seq<Event>, t: int)
    requires Ordered(events) && events != [] && events[|events| - 1].time <= t
    ensures CountUntil(events, t) == |events|
  {
    CountUntilLaws(events, t);
  }

  lemma {:induction false} NotAfterIsPrefix(events: seq<Event>, t: int)
    requires Ordered(events)
    ensures NotAfter(events, t) == events[..CountUntil(events, t)]
    decreases |events|
  {
    if events != [] {
      var n := |events| - 1;
      OrderedFront(events, n);
      if events[n].time <= t { CountsAll(events, t); }
      hide Ordered;
      NotAfterIsPrefix(events[..n], t);
      var c := CountUntil(events[..n], t);
      if events[n].time <= t {
        assert events == events[..n] + [events[n]];
      } else {
        assert events[..n][..c] == events[..c];
      }
    }
  }

  /** The event right after the first `k` has the time of the one before it: a cutoff time does not
      tell the two apart. */
  predicate Tied(events: seq<Event>, k: nat) {
    0 < k < |events| && events[k - 1].time == events[k].time
  }

  /** Asking for the state at an event's time is asking for it at the event, exactly when the next
      event does not share the time. */
  lemma TimeBoundaryIsEventBoundary(events: seq<Event>, k: nat)
    requires DistinctIds(events) && Ordered(events) && k < |events|
    ensures Selected(events, AtEvent(events[k].id)) == events[..k + 1]
    ensures Selected(events, AtTime(events[k].time)) == Selected(events, AtEvent(events[k].id)) <==> !Tied(events, k + 1)
  {
    UpToIsPrefix(events, k);
    NotAfterIsPrefix(events, events[k].time);
    CountUntilLaws(events, events[k].time);
    var n := CountUntil(events, events[k].time);
    assert k < n;
    assert k + 1 < |events| ==> events[k].time <= events[k + 1].time;
    assert n == k + 1 <==> !Tied(events, k + 1);
    assert |events[..n]| == n && |events[..k + 1]| == k + 1;
  }

  lemma {:induction false} WindowIsSlice(events: seq<Event>, before: View, after: View, lo: nat, hi: nat)
    requires lo <= |events| && hi <= |events|
    requires forall k :: 0 <= k < |events| ==> (Between(events[k], before, after) <==> lo <= k < hi)
    ensures Window(events, before, after) == if lo <= hi then events[lo..hi] else []
    decreases |events|
  {
    if events != [] {
      var n := |events| - 1;
      var lo', hi' := if lo <= n then lo else n, if hi <= n then hi else n;
      forall k | 0 <= k < n ensures Between(events[..n][k], before, after) <==> lo' <= k < hi' { assert events[..n][k] == events[k]; }
      WindowIsSlice(events[..n], before, after, lo', hi');
      assert Between(events[n], before, after) <==> lo <= n < hi;
      if lo <= n < hi {
        assert events[lo..hi] == events[..n][lo..n] + [events[n]];
      }
    }
  }

  // ---------- differences between boundaries ----------

  /** How many events of an ordered log a boundary takes in. */
  function PositionOf(events: seq<Event>, b: Boundary): nat {
    match b
    case AtEvent(id) => |UpTo(events, id)|
    case AtTime(t) => CountUntil(events, t)
    case Everything => |events|
  }

  /** A boundary before the first event: a time earlier than it. */
  predicate PrecedesAll(b: Boundary, events: seq<Event>) {
    b.AtTime? && events != [] && b.t < events[0].time
  }

  /** A boundary with nothing after it. */
  predicate TakesAll(b: Boundary, events: seq<Event>) {
    match b
    case AtEvent(id) => forall k :: 0 <= k < |events| - 1 ==> events[k].id != id
    case AtTime(t) => events != [] ==> events[|events| - 1].time <= t
    case Everything => true
  }

  lemma {:induction false} UpToLaws(events: seq<Event>, id: string)
    ensures UpTo(events, id) <= events && (events != [] ==> UpTo(events, id) != [])
    ensures UpTo(events, id) == events <==> TakesAll(AtEvent(id), events)
    decreases |events|
  {
    if events != [] && events[0].id != id {
      var tail := events[1..];
      UpToLaws(tail, id);
      assert events == [events[0]] + tail;
      assert UpTo(events, id)[1..] == UpTo(tail, id);
      if TakesAll(AtEvent(id), tail) {
        forall k | 0 <= k < |events| - 1 ensures events[k].id != id { if k > 0 { assert tail[k - 1].id != id; } }
      }
      if TakesAll(AtEvent(id), events) {
        forall k | 0 <= k < |tail| - 1 ensures tail[k].id != id { assert events[k + 1].id != id; }
      }
    }
  }

  /** A boundary of an ordered log selects a prefix: none of it before the first event, all of it
      when nothing follows. */
  lemma SelectedIsPrefix(events: seq<Event>, b: Boundary)
    requires Ordered(events)
    ensures PositionOf(events, b) <= |events| && Selected(events, b) == events[..PositionOf(events, b)]
    ensures PositionOf(events, b) == 0 <==> events == [] || PrecedesAll(b, events)
    ensures PositionOf(events, b) == |events| <==> TakesAll(b, events)
  {
    match b
    case AtEvent(id) => UpToLaws(events, id);
    case AtTime(t) => NotAfterIsPrefix(events, t); CountUntilLaws(events, t);
    case Everything =>
  }

  /** The second boundary takes in every event the first does. */
  ghost predicate Covers(events: seq<Event>, from: Boundary, to: Boundary) {
    forall e :: e in Selected(events, from) ==> e in Selected(events, to)
  }

  /** Then nothing is removed, on any log. */
  lemma ForwardDiffRemovesNothing(projectId: string, events: seq<Event>, from: Boundary, to: Boundary)
    requires Covers(events, from, to)
    ensures Compare(ViewOf(projectId, Selected(events, from)), ViewOf(projectId, Selected(events, to)), events).removed == map[]
  {
    hide Compare, ViewOf, Selected, Writes;
    AddedAndRemoved(projectId, events, from, to);
    forall f ensures Written(f, Selected(events, from)) ==> Written(f, Selected(events, to)) {}
  }

  lemma {:induction false} NotAfterElements(events: seq<Event>, t: int)
    ensures forall e :: e in NotAfter(events, t) <==> e in events && e.time <= t
    decreases |events|
  {
    if events != [] {
      var n := |events| - 1;
      NotAfterElements(events[..n], t);
      assert events == events[..n] + [events[n]];
    }
  }

  /** The second boundary is a later time, a longer run up to an event, or the whole log. */
  predicate NoEarlier(events: seq<Event>, from: Boundary, to: Boundary) {
    || to.Everything?
    || (from.AtTime? && to.AtTime? && from.t <= to.t)
    || (from.AtEvent? && to.AtEvent? && |UpTo(events, from.id)| <= |UpTo(events, to.id)|)
  }

  /** Such a boundary takes in every event the first does, however the events are ordered. */
  lemma LaterCovers(events: seq<Event>, from: Boundary, to: Boundary)
    requires NoEarlier(events, from, to)
    ensures Covers(events, from, to)
  {
    if from.AtEvent? {
      UpToLaws(events, from.id);
      if to.AtEvent? {
        UpToLaws(events, to.id);
        assert UpTo(events, from.id) <= UpTo(events, to.id);
      }
    } else if from.AtTime? {
      NotAfterElements(events, from.t);
      if to.AtTime? { NotAfterElements(events, to.t); }
    }
  }

  /** No event is later than the last of the first `k`. */
  predicate ReachesEnd(events: seq<Event>, k: nat) {
    0 < k <= |events| && events[k - 1].time == events[|events| - 1].time
  }

  /** How many events lie not after the last of the first `k`. */
  function Cutoff(events: seq<Event>, k: nat): nat
    requires k <= |events|
  {
    if k == 0 then 0 else CountUntil(events, events[k - 1].time)
  }

  lemma CutoffLaws(events: seq<Event>, k: nat)
    requires Ordered(events) && k <= |events|
    ensures k <= Cutoff(events, k) <= |events|
    ensures k < Cutoff(events, k) <==> Tied(events, k)
    ensures Cutoff(events, k) == |events| <==> events == [] || ReachesEnd(events, k)
    ensures k > 0 ==> forall x :: 0 <= x < |events| ==> (events[x].time <= events[k - 1].time <==> x < Cutoff(events, k))
  {
    if k > 0 { CountUntilLaws(events, events[k - 1].time); }
  }

  lemma CutoffGrows(events: seq<Event>, i: nat, j: nat)
    requires Ordered(events) && i <= j <= |events|
    ensures Cutoff(events, i) <= Cutoff(events, j)
  {
    CutoffLaws(events, i);
    CutoffLaws(events, j);
  }

  /** The listed events run from the first cutoff time to the second, or to the end of the log if the
      second state has none. */
  lemma WindowOfPrefixes(projectId: string, events: seq<Event>, i: nat, j: nat)
    requires Ordered(events) && i <= |events| && j <= |events|
    ensures var lo, hi := Cutoff(events, i), if j > 0 then Cutoff(events, j) else |events|;
            && lo <= |events| && hi <= |events|
            && Compare(ViewOf(projectId, events[..i]), ViewOf(projectId, events[..j]), events).between
               == if lo <= hi then events[lo..hi] else []
  {
    var before, after := ViewOf(projectId, events[..i]), ViewOf(projectId, events[..j]);
    var lo, hi := Cutoff(events, i), if j > 0 then Cutoff(events, j) else |events|;
    CutoffLaws(events, i);
    CutoffLaws(events, j);
    forall k | 0 <= k < |events| ensures Between(events[k], before, after) <==> lo <= k < hi {
      assert i > 0 ==> before.asOf == Some((events[i - 1].id, events[i - 1].time));
      assert j > 0 ==> after.asOf == Some((events[j - 1].id, events[j - 1].time));
    }
    hide Cutoff, Between, ViewOf;
    WindowIsSlice(events, before, after, lo, hi);
  }

  /** When the events from `lo` to `hi` are those from `i` to `j`. */
  lemma SliceOfPrefixes(events: seq<Event>, i: nat, j: nat)
    requires Ordered(events) && i <= |events| && j <= |events|
    ensures var lo, hi := Cutoff(events, i), if j > 0 then Cutoff(events, j) else |events|;
            && lo <= |events| && hi <= |events|
            && ((if lo <= hi then events[lo..hi] else []) == (if i <= j then events[i..j] else [])
                <==> if j == 0 then events == [] || ReachesEnd(events, i) else j <= i || (!Tied(events, i) && !Tied(events, j)))
  {
    CutoffLaws(events, i);
    CutoffLaws(events, j);
    if i <= j { CutoffGrows(events, i, j); } else { CutoffGrows(events, j, i); }
    if 0 < i < j && Tied(events, i) {
      SliceStartsLater(events, i, j, Cutoff(events, i), Cutoff(events, j));
    }
  }

  /** A slice that starts behind a tie is not the one that starts at it. */
  lemma SliceStartsLater(events: seq<Event>, i: nat, j: nat, lo: nat, hi: nat)
    requires 0 < i < j <= |events| && lo <= hi <= |events| && Tied(events, i)
    requires forall x :: lo <= x < |events| ==> events[x].time > events[i - 1].time
    ensures events[lo..hi] != events[i..j]
  {
    assert events[i..j][0] == events[i];
    if lo < hi { assert events[lo..hi][0] == events[lo]; }
  }

  /** `events_between` is exactly the events after the first boundary and up to the second, if and only
      if: no event that follows either boundary shares its cutoff time, when the second lies behind the
      first; always, when it does not but takes in some event; and when it takes in none, no event is
      later than the first boundary's last. */
  lemma BetweenIsTheSlice(projectId: string, events: seq<Event>, from: Boundary, to: Boundary)
    requires Ordered(events)
    ensures var d := Compare(ViewOf(projectId, Selected(events, from)), ViewOf(projectId, Selected(events, to)), events);
            var i, j := PositionOf(events, from), PositionOf(events, to);
            && i <= |events| && j <= |events|
            && (d.between == (if i <= j then events[i..j] else []) <==>
                  if PrecedesAll(to, events) then ReachesEnd(events, i) else j <= i || (!Tied(events, i) && !Tied(events, j)))
  {
    hide Compare, ViewOf, PositionOf, Selected, TakesAll, Cutoff, Tied, ReachesEnd;
    SelectedIsPrefix(events, from);
    SelectedIsPrefix(events, to);
    WindowOfPrefixes(projectId, events, PositionOf(events, from), PositionOf(events, to));
    SliceOfPrefixes(events, PositionOf(events, from), PositionOf(events, to));
  }

  /** When times increase there are no ties: only a second boundary before every event can go wrong. */
  lemma BetweenWhenIncreasing(projectId: string, events: seq<Event>, from: Boundary, to: Boundary)
    requires Increasing(events)
    ensures var d := Compare(ViewOf(projectId, Selected(events, from)), ViewOf(projectId, Selected(events, to)), events);
            var i, j := PositionOf(events, from), PositionOf(events, to);
            && i <= |events| && j <= |events|
            && (d.between == (if i <= j then events[i..j] else []) <==> !PrecedesAll(to, events) || TakesAll(from, events))
  {
    hide Compare, ViewOf, PositionOf, Selected, TakesAll;
    SelectedIsPrefix(events, from);
    SelectedIsPrefix(events, to);
    BetweenIsTheSlice(projectId, events, from, to);
  }

  /** It does fail: comparing a time before the first event with itself lists every event. */
  lemma ListsEverything(projectId: string, events: seq<Event>, t: int)
    requires Ordered(events) && events != [] && t < events[0].time
    ensures var v := ViewOf(projectId, Selected(events, AtTime(t)));
            Compare(v, v, events).between == events
  {
    hide Apply;
    SelectedIsPrefix(events, AtTime(t));
    var v := ViewOf(projectId, Selected(events, AtTime(t)));
    WindowIsSlice(events, v, v, 0, |events|);
  }

  /** And from an event to the next, with the same time, it lists nothing, though the second state has
      one event more. */
  lemma MissesTies(projectId: string, events: seq<Event>, k: nat)
    requires DistinctIds(events) && Ordered(events) && Tied(events, k)
    ensures var before := ViewOf(projectId, Selected(events, AtEvent(events[k - 1].id)));
            var after := ViewOf(projectId, Selected(events, AtEvent(events[k].id)));
            after.applied == before.applied + 1 && Compare(before, after, events).between == []
  {
    hide Ordered, DistinctIds, UpTo, Window, Apply, Project, Compare, ViewOf, CountUntil;
    UpToIsPrefix(events, k - 1);
    UpToIsPrefix(events, k);
    TiedWindow(projectId, events, k);
    Applied(projectId, events[..k]);
    Applied(projectId, events[..k + 1]);
  }

  lemma TiedWindow(projectId: string, events: seq<Event>, k: nat)
    requires Ordered(events) && Tied(events, k)
    ensures Compare(ViewOf(projectId, events[..k]), ViewOf(projectId, events[..k + 1]), events).between == []
  {
    hide Ordered, CountUntil, Compare, ViewOf;
    WindowOfPrefixes(projectId, events, k, k + 1);
  }

  lemma Applied(projectId: string, events: seq<Event>)
    ensures ViewOf(projectId, events).applied == |events|
  {
  }

  /** Comparing two boundaries of an ordered log, the second neither before the first nor before every
      event, and no event behind either with its cutoff time: nothing is removed, the difference leads
      from the first state to the second, and the listed events are exactly those in between. */
  lemma DiffBetweenBoundaries(projectId: string, events: seq<Event>, from: Boundary, to: Boundary)
    requires Ordered(events) && PositionOf(events, from) <= PositionOf(events, to) && !PrecedesAll(to, events)
    requires !Tied(events, PositionOf(events, from)) && !Tied(events, PositionOf(events, to))
    ensures var before := ViewOf(projectId, Selected(events, from));
            var after := ViewOf(projectId, Selected(events, to));
            var d := Compare(before, after, events);
            && PositionOf(events, to) <= |events|
            && d.removed == map[]
            && Patch(before.fields, d) == after.fields
            && after.fields == Project(before.fields, events[PositionOf(events, from)..PositionOf(events, to)])
            && d.between == events[PositionOf(events, from)..PositionOf(events, to)]
  {
    hide Compare, PositionOf, Selected, TakesAll, Apply, Project, Patch, Tied;
    var i, j := PositionOf(events, from), PositionOf(events, to);
    SelectedIsPrefix(events, from);
    SelectedIsPrefix(events, to);
    assert events[..j] == events[..i] + events[i..j];
    ForwardDiffRemovesNothing(projectId, events, from, to);
    BetweenIsTheSlice(projectId, events, from, to);
    DiffPatches(ViewOf(projectId, Selected(events, from)), ViewOf(projectId, Selected(events, to)), events);
    ProjectConcat(Initial(projectId), events[..i], events[i..j]);
  }

  /** So between two events of the log that share their times with no later one, whether they are named
      by id or by time. */
  lemma DiffBetweenEvents(projectId: string, events: seq<Event>, i: nat, j: nat)
    requires DistinctIds(events) && Ordered(events) && i <= j < |events| && !Tied(events, i + 1) && !Tied(events, j + 1)
    ensures var before := ViewOf(projectId, Selected(events, AtEvent(events[i].id)));
            var after := ViewOf(projectId, Selected(events, AtTime(events[j].time)));
            var d := Compare(before, after, events);
            && d.removed == map[]
            && Patch(before.fields, d) == after.fields == Project(before.fields, events[i + 1..j + 1])
            && d.between == events[i + 1..j + 1]
  {
    hide Apply, Compare, Project, Window, Patch, ViewOf;
    var from, to := AtEvent(events[i].id), AtTime(events[j].time);
    TimeBoundaryIsEventBoundary(events, i);
    TimeBoundaryIsEventBoundary(events, j);
    SelectedIsPrefix(events, from);
    SelectedIsPrefix(events, to);
    assert |events[..i + 1]| == i + 1 && |events[..j + 1]| == j + 1;
    assert PositionOf(events, from) == |Selected(events, from)| && PositionOf(events, to) == |Selected(events, to)|;
    DiffBetweenBoundaries(projectId, events, from, to);
  }
}
