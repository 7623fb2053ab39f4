/** Phases, workflow templates and the invalidation map (mas/config.py, mas/workflow_templates.py,
    mas/tools/scoring.py). */
module Phases {
  import opened Collections

  /** `Other` is any name outside the two templates; the endpoints accept arbitrary phase names. */
  datatype Phase =
    | Classify | Hypotheses | Gauntlet | Audit | Strategy | Sqi | Monitor | Report
    | Scope | ScientificInventory | TrlDiagnosis | ResearchIndustryAlignment | IpProtectionAxis
    | NextLevelRecommendations | TechnicalValidationPlan | IndustrialTransferPlan | ReadinessRoadmap | ExecutiveSummary
    | Other(name: string)

  datatype Template = StrategicAudit | TechnologyReadiness

  const STRATEGIC: seq<Phase> := [Classify, Hypotheses, Gauntlet, Audit, Strategy, Sqi, Monitor, Report]

  const READINESS: seq<Phase> := [
    Scope, ScientificInventory, TrlDiagnosis, ResearchIndustryAlignment, IpProtectionAxis,
    NextLevelRecommendations, TechnicalValidationPlan, IndustrialTransferPlan, ReadinessRoadmap, ExecutiveSummary]

  function Sequence(t: Template): seq<Phase> {
    match t
    case StrategicAudit => STRATEGIC
    case TechnologyReadiness => READINESS
  }

  function InvalidationMap(p: Phase): seq<Phase> {
    match p
    case Classify => [Hypotheses, Gauntlet, Audit, Strategy, Sqi, Monitor, Report]
    case Hypotheses => [Gauntlet, Audit, Strategy, Sqi, Monitor, Report]
    case Gauntlet => [Audit, Strategy, Sqi, Monitor, Report]
    case Audit => [Strategy, Sqi, Monitor, Report]
    case Strategy => [Sqi, Monitor, Report]
    case Sqi => []
    case Monitor => [Report]
    case Report => []
    case _ => []
  }

  /** The position of `p` in `s`, or its length. */
  function IndexOf(s: seq<Phase>, p: Phase): (i: nat)
    ensures i <= |s| && (i < |s| <==> p in s) && (i < |s| ==> s[i] == p)
    ensures forall k :: 0 <= k < i ==> s[k] != p
  {
    if s == [] then 0 else if s[0] == p then 0 else 1 + IndexOf(s[1..], p)
  }

  lemma SequenceDistinct(t: Template)
    ensures Distinct(Sequence(t)) && |Sequence(t)| > 0
  {
  }

  /** `collect_downstream_phases`: breadth-first closure of the map. The map is closed already, so
      the walk returns exactly its entry, in its order. */
  method CollectDownstreamPhases(changed: Phase) returns (ordered: seq<Phase>)
    ensures ordered == InvalidationMap(changed)
  {
    ordered := [];
    var entry := InvalidationMap(changed);
    var queue := entry;
    MapIsDistinct(changed);
    hide InvalidationMap;
    while queue != []
      invariant |ordered| <= |entry| && ordered == entry[..|ordered|]
      invariant |queue| >= |entry| - |ordered| && queue[..|entry| - |ordered|] == entry[|ordered|..]
      invariant forall q :: q in queue ==> q in entry
      decreases |entry| - |ordered|, |queue|
    {
      var phase := queue[0];
      var n := |ordered|;
      assert phase in queue;
      MapIsClosed(changed, phase);
      ghost var left := |entry| - n;
      if left > 0 { assert phase == queue[..left][0] == entry[n]; }
      ghost var tail := queue[1..];
      assert left > 0 ==> tail[..left - 1] == queue[..left][1..] == entry[n + 1..];
      queue := queue[1..];
      if phase !in ordered {
        ordered := ordered + [phase];
        queue := queue + InvalidationMap(phase);
        assert queue[..left - 1] == tail[..left - 1];
      }
    }
  }

  lemma MapIsDistinct(p: Phase)
    ensures Distinct(InvalidationMap(p))
  {
  }

  lemma MapIsClosed(p: Phase, q: Phase)
    requires q in InvalidationMap(p)
    ensures forall r :: r in InvalidationMap(q) ==> r in InvalidationMap(p)
  {
  }

  /** The two templates, phase by phase. */
  lemma TemplateOrder()
    ensures |STRATEGIC| == 8 && STRATEGIC[0] == Classify && STRATEGIC[1] == Hypotheses && STRATEGIC[2] == Gauntlet && STRATEGIC[3] == Audit
    ensures STRATEGIC[4] == Strategy && STRATEGIC[5] == Sqi && STRATEGIC[6] == Monitor && STRATEGIC[7] == Report
    ensures |READINESS| == 10 && READINESS[0] == Scope && READINESS[1] == ScientificInventory && READINESS[2] == TrlDiagnosis
    ensures READINESS[3] == ResearchIndustryAlignment && READINESS[4] == IpProtectionAxis && READINESS[5] == NextLevelRecommendations
    ensures READINESS[6] == TechnicalValidationPlan && READINESS[7] == IndustrialTransferPlan && READINESS[8] == ReadinessRoadmap
    ensures READINESS[9] == ExecutiveSummary
  {
  }

  /** The map holds, for every phase of the strategic audit but one, the rest of the template; the
      advisory phase has nothing that depends on it. */
  lemma MapIsTheRest(i: nat)
    requires i < |STRATEGIC|
    ensures InvalidationMap(STRATEGIC[i]) == if STRATEGIC[i] == Sqi then [] else STRATEGIC[i + 1..]
  {
  }

  /** The phases `invalidate_downstream` goes over: the rest of the template, or the map where the
      template has no rest. */
  function Downstream(t: Template, p: Phase): seq<Phase> {
    var i := IndexOf(Sequence(t), p);
    if i + 1 < |Sequence(t)| then Sequence(t)[i + 1..] else InvalidationMap(p)
  }

  /** Every later phase of the template is downstream, and no earlier one or the phase itself is. */
  lemma DownstreamIsLater(t: Template, i: nat, j: nat)
    requires i < |Sequence(t)| && j < |Sequence(t)|
    ensures Sequence(t)[j] in Downstream(t, Sequence(t)[i]) <==> i < j
  {
    SequenceDistinct(t);
    NothingAfterLast(t);
    hide Sequence, InvalidationMap;
    AfterIsLater(Sequence(t), i, j);
  }

  lemma NothingAfterLast(t: Template)
    ensures |Sequence(t)| > 0 && InvalidationMap(Sequence(t)[|Sequence(t)| - 1]) == []
  {
  }

  lemma AfterIsLater(s: seq<Phase>, i: nat, j: nat)
    requires Distinct(s) && i < |s| && j < |s|
    ensures IndexOf(s, s[i]) == i
    ensures s[j] in s[i + 1..] <==> i < j
  {
    var k := IndexOf(s, s[i]);
    if i < j { assert s[i + 1..][j - i - 1] == s[j]; }
  }

  predicate IsReadiness(p: Phase) {
    p in READINESS
  }

  function Prerequisites(p: Phase): seq<Phase> {
    match p
    case Sqi => [Strategy]
    case Monitor => [Strategy]
    case Report => [Strategy, Monitor]
    case _ => []
  }
}
