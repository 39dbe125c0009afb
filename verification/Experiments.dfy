/** Experiment plans, evidence and evaluation: services/agent_hub/npd_agent_hub/experiments.py. */
module Experiments {
  import opened Rounding
  import opened Wrappers

  datatype Status = Planned | AwaitingApproval | Approved | Rejected | Previewed | Completed | Cancelled

  datatype Direction = Increase | Decrease

  type VariantId = string

  datatype Variant = Variant(id: VariantId, description: string, asset: Option<string>)

  datatype Comparison = AtMost | AtLeast | Below | Above

  datatype Guardrail = Guardrail(metric: string, comparison: Comparison, threshold: real)

  /** The fields of a plan that a draft update may change. */
  datatype Plan = Plan(name: string, hypothesis: string, direction: Direction, baseline: real, targetLift: real,
                       variants: seq<Variant>, guardrails: seq<Guardrail>, stops: seq<string>, windowDays: nat)

  /** Plans pass this validation when they are created and when they are updated. */
  ghost predicate ValidPlan(p: Plan)
  {
    |p.variants| >= 2 && forall i, j :: 0 <= i < j < |p.variants| ==> p.variants[i].id != p.variants[j].id
  }

  datatype Preview = Preview(hypothesis: string, direction: Direction, baseline: real, target: real,
                             variants: seq<Variant>, guardrails: seq<Guardrail>, stops: seq<string>, windowDays: nat)

  datatype SourceState = VerifiedReadOnly | Partial

  datatype QualityState = PendingOwner | Accepted | Refused

  datatype Measurement = Measurement(id: VariantId, samples: nat, conversions: Option<nat>, value: Option<real>,
                                     guards: map<string, real>)

  datatype Observation = Observation(id: string, source: SourceState, collectedAt: int, variants: seq<Measurement>,
                                     quality: QualityState)

  datatype Recommendation = InsufficientData | Continue | WinnerCandidate | StopAndReview | ManualReview

  datatype Evaluation = Evaluation(observation: string, recommendation: Recommendation, winner: Option<VariantId>, lift: Option<real>)

  datatype Experiment = Experiment(plan: Plan, status: Status, preview: Option<Preview>, observations: seq<Observation>,
                                   evaluation: Option<Evaluation>)

  const OBSERVATION_LIMIT: nat := 100

  // ---------------------------------------------------------------------------------------
  // Plan and preview

  datatype DraftUpdate = DraftUpdate(name: Option<string>, hypothesis: Option<string>, direction: Option<Direction>,
                                     baseline: Option<real>, targetLift: Option<real>, variants: Option<seq<Variant>>,
                                     guardrails: Option<seq<Guardrail>>, stops: Option<seq<string>>, windowDays: Option<nat>)

  function Or<T>(changed: Option<T>, current: T): T { if changed.Some? then changed.value else current }

  function Merged(p: Plan, u: DraftUpdate): Plan
  {
    Plan(Or(u.name, p.name), Or(u.hypothesis, p.hypothesis), Or(u.direction, p.direction), Or(u.baseline, p.baseline),
         Or(u.targetLift, p.targetLift), Or(u.variants, p.variants), Or(u.guardrails, p.guardrails), Or(u.stops, p.stops),
         Or(u.windowDays, p.windowDays))
  }

  predicate DraftSafe(s: Status) { s == Planned || s == Previewed }

  /** None stands for a refused call. */
  function UpdateDraft(e: Experiment, u: DraftUpdate): Option<Experiment>
  {
    if !DraftSafe(e.status) then None else Some(e.(plan := Merged(e.plan, u), preview := None, status := Planned))
  }

  function Multiplier(p: Plan): real
  {
    var lift := p.targetLift / 100.0;
    if p.direction == Increase then 1.0 + lift else if lift > 1.0 then 0.0 else 1.0 - lift
  }

  function Target(p: Plan): real { p.baseline * Multiplier(p) }

  function PreviewOf(p: Plan): Preview
  {
    Preview(p.hypothesis, p.direction, p.baseline, Rounded(Target(p), 10000), p.variants, p.guardrails, p.stops,
            p.windowDays)
  }

  function MakePreview(e: Experiment): Option<Experiment>
  {
    if e.status == Rejected || e.status == Cancelled || e.status == Completed then None
    else Some(e.(status := Previewed, preview := Some(PreviewOf(e.plan))))
  }

  function RequestApproval(e: Experiment): Option<Experiment>
  {
    if !DraftSafe(e.status) then None else Some(e.(status := AwaitingApproval))
  }

  function DecideApproval(e: Experiment, approved: bool): Option<Experiment>
  {
    if e.status != AwaitingApproval then None else Some(e.(status := if approved then Approved else Rejected))
  }

  function VariantIds(variants: seq<Variant>): set<VariantId> { set v | v in variants :: v.id }

  function WithAds(variants: seq<Variant>, ads: map<VariantId, string>): (r: seq<Variant>)
    requires ads.Keys == VariantIds(variants)
    ensures |r| == |variants|
  {
    seq(|variants|, i requires 0 <= i < |variants| =>
      assert variants[i] in variants;
      variants[i].(asset := Some("meta_ad:" + ads[variants[i].id])))
  }

  /** `campaignOpen`: the Campaign is still draft or planned. */
  function MapTracking(e: Experiment, campaignOpen: bool, ads: map<VariantId, string>): Option<Experiment>
  {
    if !campaignOpen || !DraftSafe(e.status) || e.observations != [] || ads.Keys != VariantIds(e.plan.variants) then None
    else Some(e.(plan := e.plan.(variants := WithAds(e.plan.variants, ads)), preview := None, evaluation := None, status := Planned))
  }

  // ---------------------------------------------------------------------------------------
  // Observations

  function LastOf<T>(s: seq<T>, n: nat): seq<T> { if |s| <= n then s else s[|s| - n..] }

  function MeasuredIds(m: seq<Measurement>): set<VariantId> { set v | v in m :: v.id }

  function AddObservation(e: Experiment, o: Observation): Option<Experiment>
  {
    var planned, observed := VariantIds(e.plan.variants), MeasuredIds(o.variants);
    if !(observed <= planned) || (o.source == VerifiedReadOnly && observed != planned) then None
    else Some(e.(observations := LastOf(e.observations + [o.(quality := PendingOwner)], OBSERVATION_LIMIT), evaluation := None))
  }

  predicate HasObservation(observations: seq<Observation>, id: string) { exists i :: 0 <= i < |observations| && observations[i].id == id }

  function WithQuality(observations: seq<Observation>, id: string, accepted: bool): (r: seq<Observation>)
    ensures |r| == |observations|
  {
    seq(|observations|, i requires 0 <= i < |observations| =>
      if observations[i].id == id then observations[i].(quality := if accepted then Accepted else Refused) else observations[i])
  }

  function DecideQuality(e: Experiment, id: string, accepted: bool): Option<Experiment>
  {
    if !HasObservation(e.observations, id) then None
    else Some(e.(observations := WithQuality(e.observations, id, accepted), evaluation := None))
  }

  // ---------------------------------------------------------------------------------------
  // Evaluation

  datatype Request = Request(observation: Option<string>, minSample: nat, maxAge: int, alpha: real)

  predicate Wanted(o: Observation, q: Request)
  {
    if q.observation.Some? then o.id == q.observation.value else o.quality == Accepted
  }

  /** The newest observation that the request asks for. */
  function Pick(observations: seq<Observation>, q: Request): (o: Option<Observation>)
    ensures o.Some? ==> o.value in observations && Wanted(o.value, q)
  {
    if observations == [] then None
    else if Wanted(observations[|observations| - 1], q) then Some(observations[|observations| - 1])
    else Pick(observations[..|observations| - 1], q)
  }

  function MetricValue(m: Measurement): real
  {
    if m.conversions.Some? && m.samples > 0 then m.conversions.value as real * 100.0 / m.samples as real
    else Or(m.value, 0.0)
  }

  function Measured(m: seq<Measurement>, id: VariantId): Option<Measurement>
  {
    if m == [] then None else if m[|m| - 1].id == id then Some(m[|m| - 1]) else Measured(m[..|m| - 1], id)
  }

  /** The measurements of the planned challengers that were observed, in plan order. */
  function Challengers(variants: seq<Variant>, m: seq<Measurement>): (r: seq<Measurement>)
    ensures |r| <= |variants|
  {
    if variants == [] then []
    else
      var found := Measured(m, variants[0].id);
      (if found.Some? then [found.value] else []) + Challengers(variants[1..], m)
  }

  predicate Better(d: Direction, a: real, b: real) { if d == Increase then a > b else a < b }

  /** Python's `max` or `min` by value: the first of the best. */
  function Best(d: Direction, ms: seq<Measurement>): (b: Measurement)
    requires ms != []
    ensures b in ms && forall m :: m in ms ==> !Better(d, MetricValue(m), MetricValue(b))
    decreases |ms|
  {
    var n := |ms| - 1;
    if n == 0 then ms[0]
    else
      var before := Best(d, ms[..n]);
      assert ms == ms[..n] + [ms[n]];
      if Better(d, MetricValue(ms[n]), MetricValue(before)) then ms[n] else before
  }

  predicate Respects(g: Guardrail, value: real)
  {
    match g.comparison
    case AtMost => value <= g.threshold
    case AtLeast => value >= g.threshold
    case Below => value < g.threshold
    case Above => value > g.threshold
  }

  predicate Breaches(g: Guardrail, m: Measurement) { g.metric in m.guards && !Respects(g, m.guards[g.metric]) }

  predicate AnyBreach(guardrails: seq<Guardrail>, ms: seq<Measurement>)
  {
    exists i, j :: 0 <= i < |guardrails| && 0 <= j < |ms| && Breaches(guardrails[i], ms[j])
  }

  datatype Breach = Breach(variant: VariantId, guardrail: Guardrail)

  predicate Found(b: Breach, g: Guardrail, m: Measurement) { Breaches(g, m) && b == Breach(m.id, g) }

  ghost predicate FoundAmong(b: Breach, guardrails: seq<Guardrail>, ms: seq<Measurement>)
  {
    exists i, j :: 0 <= i < |guardrails| && 0 <= j < |ms| && Found(b, guardrails[i], ms[j])
  }

  ghost predicate FoundFor(b: Breach, g: Guardrail, ms: seq<Measurement>)
  {
    exists j :: 0 <= j < |ms| && Found(b, g, ms[j])
  }

  /** `_guardrail_breaches`. */
  method GuardrailBreaches(guardrails: seq<Guardrail>, ms: seq<Measurement>) returns (found: seq<Breach>)
    ensures forall b :: b in found <==> FoundAmong(b, guardrails, ms)
    ensures found != [] <==> AnyBreach(guardrails, ms)
  {
    found := [];
    for i := 0 to |guardrails|
      invariant forall b :: b in found <==> FoundAmong(b, guardrails[..i], ms)
    {
      ghost var before := found;
      for j := 0 to |ms|
        invariant forall b :: b in found <==> b in before || FoundFor(b, guardrails[i], ms[..j])
      {
        ghost var earlier, part := found, ms[..j + 1];
        if Breaches(guardrails[i], ms[j]) { found := found + [Breach(ms[j].id, guardrails[i])]; }
        forall b ensures b in found <==> b in before || FoundFor(b, guardrails[i], part) {
          assert part == ms[..j] + [ms[j]];
          FoundForSnoc(b, guardrails[i], ms, j);
        }
      }
      assert ms[..|ms|] == ms;
      ghost var done := guardrails[..i + 1];
      forall b ensures b in found <==> FoundAmong(b, done, ms) { FoundAmongSnoc(b, guardrails, ms, i); }
    }
    assert guardrails[..|guardrails|] == guardrails;
    if AnyBreach(guardrails, ms) {
      ghost var i, j :| 0 <= i < |guardrails| && 0 <= j < |ms| && Breaches(guardrails[i], ms[j]);
      assert Found(Breach(ms[j].id, guardrails[i]), guardrails[i], ms[j]);
      assert Breach(ms[j].id, guardrails[i]) in found;
    }
    if found != [] { assert FoundAmong(found[0], guardrails, ms); }
  }

  lemma FoundForSnoc(b: Breach, g: Guardrail, ms: seq<Measurement>, j: nat)
    requires j < |ms|
    ensures FoundFor(b, g, ms[..j + 1]) <==> FoundFor(b, g, ms[..j]) || Found(b, g, ms[j])
  {
    var shorter, longer := ms[..j], ms[..j + 1];
    if k :| 0 <= k < j && Found(b, g, shorter[k]) { assert Found(b, g, longer[k]); }
    if Found(b, g, ms[j]) { assert Found(b, g, longer[j]); }
    if k :| 0 <= k < j + 1 && Found(b, g, longer[k]) {
      if k < j { assert Found(b, g, shorter[k]); }
    }
  }

  lemma FoundAmongSnoc(b: Breach, guardrails: seq<Guardrail>, ms: seq<Measurement>, i: nat)
    requires i < |guardrails|
    ensures FoundAmong(b, guardrails[..i + 1], ms) <==> FoundAmong(b, guardrails[..i], ms) || FoundFor(b, guardrails[i], ms)
  {
    var longer := guardrails[..i + 1];
    if k, j :| 0 <= k < i && 0 <= j < |ms| && Found(b, guardrails[..i][k], ms[j]) { assert Found(b, longer[k], ms[j]); }
    if j :| 0 <= j < |ms| && Found(b, guardrails[i], ms[j]) { assert Found(b, longer[i], ms[j]); }
    if k, j :| 0 <= k < i + 1 && 0 <= j < |ms| && Found(b, longer[k], ms[j]) {
      if k < i { assert Found(b, guardrails[..i][k], ms[j]); }
    }
  }

  function LiftOf(d: Direction, control: real, compared: real): Option<real>
  {
    if control == 0.0 then None
    else Some((if d == Increase then compared - control else control - compared) * 100.0 / control)
  }

  /** The evaluation of one accepted observation; `pValue` is the two-proportion test. */
  function EvaluationOf(p: Plan, o: Observation, q: Request, now: int, pValue: (Measurement, Measurement) -> Option<real>): Evaluation
    requires ValidPlan(p)
  {
    Judge(p, o, q, now, pValue, AnyBreach(p.guardrails, o.variants))
  }

  function Judge(p: Plan, o: Observation, q: Request, now: int, pValue: (Measurement, Measurement) -> Option<real>,
                 breached: bool): Evaluation
    requires ValidPlan(p)
  {
    var control := Measured(o.variants, p.variants[0].id);
    var challengers := Challengers(p.variants[1..], o.variants);
    if control.None? || |challengers| != |p.variants| - 1 then Evaluation(o.id, InsufficientData, None, None)
    else if now - o.collectedAt > q.maxAge then Evaluation(o.id, ManualReview, None, None)
    else if breached then Evaluation(o.id, StopAndReview, None, None)
    else
      var compared := Best(p.direction, challengers);
      var lift := LiftOf(p.direction, MetricValue(control.value), MetricValue(compared));
      var chance := pValue(control.value, compared);
      var sufficient := control.value.samples >= q.minSample && forall m :: m in challengers ==> m.samples >= q.minSample;
      if o.source == Partial then Evaluation(o.id, ManualReview, None, lift)
      else if !sufficient then Evaluation(o.id, InsufficientData, None, lift)
      else if chance.None? then Evaluation(o.id, ManualReview, None, lift)
      else if lift.Some? && lift.value >= p.targetLift && chance.value <= q.alpha then
        Evaluation(o.id, WinnerCandidate, Some(compared.id), lift)
      else if lift.Some? && lift.value < 0.0 && chance.value <= q.alpha then
        Evaluation(o.id, StopAndReview, Some(control.value.id), lift)
      else Evaluation(o.id, Continue, None, lift)
  }

  function Evaluate(e: Experiment, q: Request, now: int, pValue: (Measurement, Measurement) -> Option<real>): Option<Experiment>
    requires ValidPlan(e.plan)
  {
    var o := Pick(e.observations, q);
    if o.None? || o.value.quality != Accepted then None
    else Some(e.(evaluation := Some(EvaluationOf(e.plan, o.value, q, now, pValue))))
  }

  // ---------------------------------------------------------------------------------------
  // The service

  class ExperimentService {
    var experiments: map<string, Experiment>

    constructor ()
      ensures experiments == map[]
    {
      experiments := map[];
    }

    /** Store the result of a call that was not refused. */
    method Save(id: string, result: Option<Experiment>) returns (ok: bool)
      requires id in experiments
      modifies this
      ensures ok == result.Some?
      ensures experiments == if result.Some? then old(experiments)[id := result.value] else old(experiments)
    {
      ok := result.Some?;
      if ok { experiments := experiments[id := result.value]; }
    }

    method EditDraft(id: string, u: DraftUpdate) returns (ok: bool)
      modifies this
      ensures ok <==> id in old(experiments) && DraftSafe(old(experiments)[id].status)
      ensures experiments == if ok then old(experiments)[id := UpdateDraft(old(experiments)[id], u).value] else old(experiments)
    {
      if id !in experiments || !DraftSafe(experiments[id].status) { return false; }
      var e := experiments[id];
      ok := Save(id, Some(e.(plan := Merged(e.plan, u), preview := None, status := Planned)));
    }

    method ShowPreview(id: string) returns (r: Option<Preview>)
      modifies this
      ensures r.Some? <==> id in old(experiments) && MakePreview(old(experiments)[id]).Some?
      ensures r.Some? ==> r.value == PreviewOf(old(experiments)[id].plan)
      ensures experiments == if r.Some? then old(experiments)[id := MakePreview(old(experiments)[id]).value] else old(experiments)
    {
      if id !in experiments { return None; }
      var e := experiments[id];
      if e.status == Rejected || e.status == Cancelled || e.status == Completed { return None; }
      r := Some(PreviewOf(e.plan));
      var _ := Save(id, Some(e.(status := Previewed, preview := r)));
    }

    method MapMetaTracking(id: string, campaignOpen: bool, ads: map<VariantId, string>) returns (ok: bool)
      modifies this
      ensures ok <==> id in old(experiments) && MapTracking(old(experiments)[id], campaignOpen, ads).Some?
      ensures experiments == if ok then old(experiments)[id := MapTracking(old(experiments)[id], campaignOpen, ads).value] else old(experiments)
    {
      if id !in experiments { return false; }
      var e := experiments[id];
      if !campaignOpen || !DraftSafe(e.status) || e.observations != [] || ads.Keys != VariantIds(e.plan.variants) { return false; }
      var mapped := e.(plan := e.plan.(variants := WithAds(e.plan.variants, ads)), preview := None, evaluation := None, status := Planned);
      ok := Save(id, Some(mapped));
    }

    method AttachObservation(id: string, o: Observation) returns (ok: bool)
      modifies this
      ensures ok <==> id in old(experiments) && AddObservation(old(experiments)[id], o).Some?
      ensures experiments == if ok then old(experiments)[id := AddObservation(old(experiments)[id], o).value] else old(experiments)
    {
      if id !in experiments { return false; }
      var e := experiments[id];
      var planned, observed := VariantIds(e.plan.variants), MeasuredIds(o.variants);
      if !(observed <= planned) { return false; }
      if o.source == VerifiedReadOnly && observed != planned { return false; }
      var longer := e.observations + [o.(quality := PendingOwner)];
      if |longer| > OBSERVATION_LIMIT { longer := longer[|longer| - OBSERVATION_LIMIT..]; }
      ok := Save(id, Some(e.(observations := longer, evaluation := None)));
    }

    /** The comprehension over the stored list, written as its loop. */
    method DecideObservationQuality(id: string, observation: string, accepted: bool) returns (ok: bool)
      modifies this
      ensures ok <==> id in old(experiments) && HasObservation(old(experiments)[id].observations, observation)
      ensures experiments
        == if ok then old(experiments)[id := DecideQuality(old(experiments)[id], observation, accepted).value] else old(experiments)
    {
      if id !in experiments { return false; }
      var e := experiments[id];
      var found, decided := false, [];
      for i := 0 to |e.observations|
        invariant found <==> exists j :: 0 <= j < i && e.observations[j].id == observation
        invariant decided == WithQuality(e.observations[..i], observation, accepted)
      {
        var o := e.observations[i];
        if o.id == observation { found := true; }
        decided := decided + [if o.id == observation then o.(quality := if accepted then Accepted else Refused) else o];
      }
      assert e.observations[..|e.observations|] == e.observations;
      if !found { return false; }
      ok := Save(id, Some(e.(observations := decided, evaluation := None)));
    }

    method EvaluateExperiment(id: string, q: Request, now: int, pValue: (Measurement, Measurement) -> Option<real>)
        returns (r: Option<Evaluation>)
      requires id in experiments ==> ValidPlan(experiments[id].plan)
      modifies this
      ensures r.Some? <==> id in old(experiments) && Evaluate(old(experiments)[id], q, now, pValue).Some?
      ensures r.Some? ==> experiments == old(experiments)[id := Evaluate(old(experiments)[id], q, now, pValue).value]
      ensures r.Some? ==> experiments[id].evaluation == r
      ensures r.None? ==> experiments == old(experiments)
    {
      if id !in experiments { return None; }
      var e := experiments[id];
      var o := Pick(e.observations, q);
      if o.None? || o.value.quality != Accepted { return None; }
      var breaches := GuardrailBreaches(e.plan.guardrails, o.value.variants);
      r := Some(Judge(e.plan, o.value, q, now, pValue, breaches != []));
      var _ := Save(id, Some(e.(evaluation := r)));
    }
  }
}
