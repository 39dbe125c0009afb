/** Experiment evidence over every run of operations on one experiment. */
module ExperimentRuns {
  import opened Experiments
  import opened Wrappers

  type PValue = (Measurement, Measurement) -> Option<real>

  datatype Operation =
    | Update(update: DraftUpdate)
    | Show
    | Submit
    | Approve(approved: bool)
    | Observe(observation: Observation)
    | Judge(id: string, accepted: bool)
    | MapAds(campaignOpen: bool, ads: map<VariantId, string>)
    | Assess(request: Request, now: int)

  /** An update whose variants do not validate never reaches the service. */
  ghost predicate ValidUpdate(u: DraftUpdate)
  {
    u.variants.Some? ==>
      |u.variants.value| >= 2
      && forall i, j :: 0 <= i < j < |u.variants.value| ==> u.variants.value[i].id != u.variants.value[j].id
  }

  /** The result of an operation; None if it is refused. */
  ghost function Attempt(e: Experiment, op: Operation, pValue: PValue): Option<Experiment>
    requires ValidPlan(e.plan)
  {
    match op
    case Update(u) => if ValidUpdate(u) then UpdateDraft(e, u) else None
    case Show => MakePreview(e)
    case Submit => RequestApproval(e)
    case Approve(approved) => DecideApproval(e, approved)
    case Observe(o) => AddObservation(e, o)
    case Judge(id, accepted) => DecideQuality(e, id, accepted)
    case MapAds(campaignOpen, ads) => MapTracking(e, campaignOpen, ads)
    case Assess(q, now) => Evaluate(e, q, now, pValue)
  }

  ghost function After(plan: Plan, ops: seq<Operation>, pValue: PValue): (e: Experiment)
    requires ValidPlan(plan)
    ensures ValidPlan(e.plan)
    decreases |ops|
  {
    if ops == [] then Experiment(plan, Planned, None, [], None)
    else
      var before := After(plan, ops[..|ops| - 1], pValue);
      PlanStaysValid(before, ops[|ops| - 1], pValue);
      Or(Attempt(before, ops[|ops| - 1], pValue), before)
  }

  lemma PlanStaysValid(e: Experiment, op: Operation, pValue: PValue)
    requires ValidPlan(e.plan)
    ensures ValidPlan(Or(Attempt(e, op, pValue), e).plan)
  {
    if op.MapAds? && MapTracking(e, op.campaignOpen, op.ads).Some? {
      var after := WithAds(e.plan.variants, op.ads);
      assert forall i :: 0 <= i < |after| ==> after[i].id == e.plan.variants[i].id;
    }
  }

  // ---------------------------------------------------------------------------------------
  // Evidence is never stale

  /** The preview, if any, is the preview of the plan as it is now; the evaluation, if any, is of an
      accepted observation that is still listed. */
  ghost predicate Current(e: Experiment)
  {
    && (e.preview.Some? ==> e.preview.value == PreviewOf(e.plan))
    && (e.status == Previewed ==> e.preview.Some?)
    && (e.evaluation.Some? ==> Supported(e.observations, e.evaluation.value.observation))
    && |e.observations| <= OBSERVATION_LIMIT
  }

  ghost predicate Supported(observations: seq<Observation>, id: string)
  {
    exists i :: 0 <= i < |observations| && observations[i].id == id && observations[i].quality == Accepted
  }

  lemma EvaluationIsSupported(e: Experiment, q: Request, now: int, pValue: PValue)
    requires ValidPlan(e.plan) && Evaluate(e, q, now, pValue).Some?
    ensures Supported(e.observations, Evaluate(e, q, now, pValue).value.evaluation.value.observation)
  {
    var o := Pick(e.observations, q).value;
    var i :| 0 <= i < |e.observations| && e.observations[i] == o;
    assert EvaluationOf(e.plan, o, q, now, pValue).observation == e.observations[i].id;
  }

  lemma StepStaysCurrent(e: Experiment, op: Operation, pValue: PValue)
    requires ValidPlan(e.plan) && Current(e)
    ensures Current(Or(Attempt(e, op, pValue), e))
  {
    if op.Assess? && Evaluate(e, op.request, op.now, pValue).Some? {
      EvaluationIsSupported(e, op.request, op.now, pValue);
    }
  }

  /** In every reachable state a preview is the preview recomputed from the current plan, and an
      evaluation names an observation that is still listed and accepted. */
  lemma {:induction false} EvidenceIsCurrent(plan: Plan, ops: seq<Operation>, pValue: PValue)
    requires ValidPlan(plan)
    ensures Current(After(plan, ops, pValue))
    decreases |ops|
  {
    if ops != [] {
      EvidenceIsCurrent(plan, ops[..|ops| - 1], pValue);
      StepStaysCurrent(After(plan, ops[..|ops| - 1], pValue), ops[|ops| - 1], pValue);
    }
  }

  // ---------------------------------------------------------------------------------------
  // What an evaluation was made of

  /** The evaluation is that of some listed, accepted observation under the plan `p`. */
  ghost predicate EvaluatedUnder(p: Plan, e: Experiment, pValue: PValue)
    requires ValidPlan(p) && e.evaluation.Some?
  {
    exists i, q, now :: 0 <= i < |e.observations| && e.observations[i].quality == Accepted
                        && e.evaluation.value == EvaluationOf(p, e.observations[i], q, now, pValue)
  }

  /** The plan at the latest evaluation of the run. */
  ghost function EvaluatedPlan(plan: Plan, ops: seq<Operation>, pValue: PValue): (p: Plan)
    requires ValidPlan(plan)
    ensures ValidPlan(p)
    decreases |ops|
  {
    if ops == [] then plan
    else
      var before := After(plan, ops[..|ops| - 1], pValue);
      if ops[|ops| - 1].Assess? && Attempt(before, ops[|ops| - 1], pValue).Some? then before.plan
      else EvaluatedPlan(plan, ops[..|ops| - 1], pValue)
  }

  lemma AssessedUnder(e: Experiment, q: Request, now: int, pValue: PValue)
    requires ValidPlan(e.plan) && Evaluate(e, q, now, pValue).Some?
    ensures EvaluatedUnder(e.plan, Evaluate(e, q, now, pValue).value, pValue)
  {
    var after := Evaluate(e, q, now, pValue).value;
    var o := Pick(e.observations, q).value;
    var i :| 0 <= i < |e.observations| && e.observations[i] == o;
    assert after.evaluation.value == EvaluationOf(e.plan, after.observations[i], q, now, pValue);
  }

  /** An evaluation on record is what its evidence gives under the plan at the time it was made. */
  lemma {:induction false} EvaluationIsOfItsPlan(plan: Plan, ops: seq<Operation>, pValue: PValue)
    requires ValidPlan(plan)
    ensures var e := After(plan, ops, pValue);
      e.evaluation.Some? ==> EvaluatedUnder(EvaluatedPlan(plan, ops, pValue), e, pValue)
    decreases |ops|
  {
    if ops != [] {
      var n := |ops| - 1;
      var before, e := After(plan, ops[..n], pValue), After(plan, ops, pValue);
      EvaluationIsOfItsPlan(plan, ops[..n], pValue);
      if ops[n].Assess? && Attempt(before, ops[n], pValue).Some? { AssessedUnder(before, ops[n].request, ops[n].now, pValue); }
    }
  }

  // ---------------------------------------------------------------------------------------
  // What a named winner means

  /** The first of the best, in plan order: it beats everyone before it and nobody after it beats it. */
  predicate FirstBest(d: Direction, ms: seq<Measurement>, k: int)
  {
    && 0 <= k < |ms|
    && (forall j :: 0 <= j < k ==> Better(d, MetricValue(ms[k]), MetricValue(ms[j])))
    && (forall j :: k < j < |ms| ==> !Better(d, MetricValue(ms[j]), MetricValue(ms[k])))
  }

  lemma BetterThanWorse(d: Direction, a: real, b: real, c: real)
    requires Better(d, a, b) && !Better(d, c, b)
    ensures Better(d, a, c)
  {
  }

  lemma NewFirstBest(d: Direction, ms: seq<Measurement>, k: int)
    requires ms != [] && FirstBest(d, ms[..|ms| - 1], k)
    ensures var n := |ms| - 1;
      FirstBest(d, ms, if Better(d, MetricValue(ms[n]), MetricValue(ms[k])) then n else k)
  {
    var n := |ms| - 1;
    if Better(d, MetricValue(ms[n]), MetricValue(ms[k])) {
      forall j | 0 <= j < n ensures Better(d, MetricValue(ms[n]), MetricValue(ms[j])) {
        assert ms[..n][j] == ms[j] && ms[..n][k] == ms[k];
        if j < k {
          assert Better(d, MetricValue(ms[..n][k]), MetricValue(ms[..n][j]));
        } else if j > k {
          assert !Better(d, MetricValue(ms[..n][j]), MetricValue(ms[..n][k]));
        }
        BetterThanWorse(d, MetricValue(ms[n]), MetricValue(ms[k]), MetricValue(ms[j]));
      }
    } else {
      forall j | 0 <= j < k ensures Better(d, MetricValue(ms[k]), MetricValue(ms[j])) {
        assert Better(d, MetricValue(ms[..n][k]), MetricValue(ms[..n][j]));
      }
      forall j | k < j < n ensures !Better(d, MetricValue(ms[j]), MetricValue(ms[k])) {
        assert !Better(d, MetricValue(ms[..n][j]), MetricValue(ms[..n][k]));
      }
    }
  }

  lemma {:induction false} BestIsFirst(d: Direction, ms: seq<Measurement>) returns (k: nat)
    requires ms != []
    ensures FirstBest(d, ms, k) && Best(d, ms) == ms[k]
    decreases |ms|
  {
    var n := |ms| - 1;
    if n == 0 {
      k := 0;
    } else {
      k := BestIsFirst(d, ms[..n]);
      NewFirstBest(d, ms, k);
      if Better(d, MetricValue(ms[n]), MetricValue(ms[k])) { k := n; }
    }
  }

  lemma LaterIsNotFirst(d: Direction, ms: seq<Measurement>, a: nat, b: nat)
    requires FirstBest(d, ms, a) && a < b < |ms|
    ensures !FirstBest(d, ms, b)
  {
    assert !Better(d, MetricValue(ms[b]), MetricValue(ms[a]));
  }

  lemma FirstBestIsUnique(d: Direction, ms: seq<Measurement>, a: int, b: int)
    requires FirstBest(d, ms, a) && FirstBest(d, ms, b)
    ensures a == b
  {
    if a < b {
      LaterIsNotFirst(d, ms, a, b);
      assert false;
    } else if b < a {
      LaterIsNotFirst(d, ms, b, a);
      assert false;
    }
  }

  /** Every planned variant was observed on a fresh, verified source with enough samples and no
      guardrail broken. */
  predicate Conclusive(p: Plan, o: Observation, q: Request, now: int)
    requires ValidPlan(p)
  {
    var control, challengers := Measured(o.variants, p.variants[0].id), Challengers(p.variants[1..], o.variants);
    && control.Some? && |challengers| == |p.variants| - 1
    && now - o.collectedAt <= q.maxAge && o.source == VerifiedReadOnly && !AnyBreach(p.guardrails, o.variants)
    && control.value.samples >= q.minSample && forall m :: m in challengers ==> m.samples >= q.minSample
  }

  /** Challenger `k` is the first of the best and meets the target lift significantly. */
  predicate WinsAt(p: Plan, o: Observation, q: Request, now: int, pValue: PValue, k: int)
    requires ValidPlan(p)
  {
    Conclusive(p, o, q, now) &&
    var control, challengers := Measured(o.variants, p.variants[0].id).value, Challengers(p.variants[1..], o.variants);
    FirstBest(p.direction, challengers, k) &&
    var lift, chance := LiftOf(p.direction, MetricValue(control), MetricValue(challengers[k])), pValue(control, challengers[k]);
    chance.Some? && chance.value <= q.alpha && lift.Some? && lift.value >= p.targetLift
  }

  lemma JudgeWinsIff(p: Plan, o: Observation, q: Request, now: int, pValue: PValue)
    requires ValidPlan(p) && Conclusive(p, o, q, now)
    ensures var control, challengers := Measured(o.variants, p.variants[0].id).value, Challengers(p.variants[1..], o.variants);
      var best := Best(p.direction, challengers);
      var lift, chance := LiftOf(p.direction, MetricValue(control), MetricValue(best)), pValue(control, best);
      var e := EvaluationOf(p, o, q, now, pValue);
      && (e.recommendation == WinnerCandidate <==>
            chance.Some? && chance.value <= q.alpha && lift.Some? && lift.value >= p.targetLift)
      && e.lift == lift && (e.recommendation == WinnerCandidate ==> e.winner == Some(best.id))
  {
  }

  lemma InconclusiveNamesNone(p: Plan, o: Observation, q: Request, now: int, pValue: PValue)
    requires ValidPlan(p) && !Conclusive(p, o, q, now)
    ensures EvaluationOf(p, o, q, now, pValue).recommendation != WinnerCandidate
  {
  }

  /** A winner is named exactly if the evidence is conclusive and the challenger that is first among
      the best in plan order meets the target lift significantly; it is that challenger. */
  lemma WinnerIff(p: Plan, o: Observation, q: Request, now: int, pValue: PValue)
    requires ValidPlan(p)
    ensures var e := EvaluationOf(p, o, q, now, pValue);
      && (e.recommendation == WinnerCandidate <==> exists k :: WinsAt(p, o, q, now, pValue, k))
      && (forall k :: WinsAt(p, o, q, now, pValue, k) ==> e.winner == Some(Challengers(p.variants[1..], o.variants)[k].id))
  {
    if Conclusive(p, o, q, now) {
      var challengers := Challengers(p.variants[1..], o.variants);
      var best := BestIsFirst(p.direction, challengers);
      JudgeWinsIff(p, o, q, now, pValue);
      forall k | WinsAt(p, o, q, now, pValue, k) ensures k == best { FirstBestIsUnique(p.direction, challengers, k, best); }
      if EvaluationOf(p, o, q, now, pValue).recommendation == WinnerCandidate { assert WinsAt(p, o, q, now, pValue, best); }
    } else {
      InconclusiveNamesNone(p, o, q, now, pValue);
    }
  }

  // ---------------------------------------------------------------------------------------
  // The observation list

  /** The observations accepted into the run, in order, before any quality decision. */
  ghost function Added(plan: Plan, ops: seq<Operation>, pValue: PValue): seq<Observation>
    requires ValidPlan(plan)
    decreases |ops|
  {
    if ops == [] then []
    else
      var n := |ops| - 1;
      var before := Added(plan, ops[..n], pValue);
      if ops[n].Observe? && Attempt(After(plan, ops[..n], pValue), ops[n], pValue).Some?
      then before + [ops[n].observation.(quality := PendingOwner)] else before
  }

  /** `listed` is `added`, in the same order, but for the quality states. */
  ghost predicate UpToQuality(listed: seq<Observation>, added: seq<Observation>)
  {
    |listed| == |added| && forall i :: 0 <= i < |listed| ==> listed[i].(quality := PendingOwner) == added[i].(quality := PendingOwner)
  }

  lemma LastOfSnoc(added: seq<Observation>, o: Observation, n: nat)
    requires n > 0
    ensures LastOf(LastOf(added, n) + [o], n) == LastOf(added + [o], n)
  {
  }

  lemma AddedSnoc(listed: seq<Observation>, added: seq<Observation>, o: Observation)
    requires UpToQuality(listed, LastOf(added, OBSERVATION_LIMIT))
    ensures UpToQuality(LastOf(listed + [o], OBSERVATION_LIMIT), LastOf(added + [o], OBSERVATION_LIMIT))
  {
    LastOfSnoc(added, o, OBSERVATION_LIMIT);
    var last := LastOf(added, OBSERVATION_LIMIT);
    assert UpToQuality(listed + [o], last + [o]);
    SuffixUpToQuality(listed + [o], last + [o], OBSERVATION_LIMIT);
  }

  lemma SuffixUpToQuality(listed: seq<Observation>, added: seq<Observation>, n: nat)
    requires UpToQuality(listed, added)
    ensures UpToQuality(LastOf(listed, n), LastOf(added, n))
  {
  }

  lemma DecisionUpToQuality(listed: seq<Observation>, added: seq<Observation>, id: string, accepted: bool)
    requires UpToQuality(listed, added)
    ensures UpToQuality(WithQuality(listed, id, accepted), added)
  {
  }

  /** The list holds the last hundred observations added, up to quality decisions. */
  lemma {:induction false} ListIsLastAdded(plan: Plan, ops: seq<Operation>, pValue: PValue)
    requires ValidPlan(plan)
    ensures UpToQuality(After(plan, ops, pValue).observations, LastOf(Added(plan, ops, pValue), OBSERVATION_LIMIT))
    decreases |ops|
  {
    if ops != [] {
      var n := |ops| - 1;
      var listed, added := After(plan, ops[..n], pValue).observations, Added(plan, ops[..n], pValue);
      ListIsLastAdded(plan, ops[..n], pValue);
      match ops[n]
      case Observe(o) => AddedSnoc(listed, added, o.(quality := PendingOwner));
      case Judge(id, accepted) => DecisionUpToQuality(listed, LastOf(added, OBSERVATION_LIMIT), id, accepted);
      case _ =>
    }
  }

  /** The owner's latest word on an observation since it was last offered. */
  function LatestDecision(ops: seq<Operation>, id: string): QualityState
    decreases |ops|
  {
    if ops == [] then PendingOwner
    else
      match ops[|ops| - 1]
      case Observe(o) => if o.id == id then PendingOwner else LatestDecision(ops[..|ops| - 1], id)
      case Judge(x, accepted) => if x == id then (if accepted then Accepted else Refused) else LatestDecision(ops[..|ops| - 1], id)
      case _ => LatestDecision(ops[..|ops| - 1], id)
  }

  /** Observation ids are generated and never repeat. */
  ghost predicate FreshIds(ops: seq<Operation>)
  {
    forall i, j :: 0 <= i < j < |ops| && ops[i].Observe? && ops[j].Observe? ==> ops[i].observation.id != ops[j].observation.id
  }

  ghost predicate Offered(ops: seq<Operation>, id: string)
  {
    exists i :: 0 <= i < |ops| && ops[i].Observe? && ops[i].observation.id == id
  }

  ghost predicate QualityRight(ops: seq<Operation>, o: Observation)
  {
    Offered(ops, o.id) && o.quality == LatestDecision(ops, o.id)
  }

  lemma OfferedSnoc(ops: seq<Operation>, n: nat, id: string)
    requires n < |ops|
    ensures Offered(ops[..n + 1], id) <==> Offered(ops[..n], id) || (ops[n].Observe? && ops[n].observation.id == id)
  {
    var shorter, longer := ops[..n], ops[..n + 1];
    if i :| 0 <= i < n && shorter[i].Observe? && shorter[i].observation.id == id { assert longer[i].observation.id == id; }
    if ops[n].Observe? { assert longer[n] == ops[n]; }
    if i :| 0 <= i < n + 1 && longer[i].Observe? && longer[i].observation.id == id {
      if i < n { assert shorter[i].observation.id == id; }
    }
  }

  /** Each listed observation has the quality that the owner last decided for it. */
  lemma {:induction false} QualityIsLatestDecision(plan: Plan, ops: seq<Operation>, pValue: PValue)
    requires ValidPlan(plan) && FreshIds(ops)
    ensures forall o :: o in After(plan, ops, pValue).observations ==> QualityRight(ops, o)
    decreases |ops|
  {
    if ops != [] {
      var n := |ops| - 1;
      var before := After(plan, ops[..n], pValue);
      QualityIsLatestDecision(plan, ops[..n], pValue);
      assert ops[..n + 1] == ops;
      forall o | o in After(plan, ops, pValue).observations ensures QualityRight(ops, o) {
        OfferedSnoc(ops, n, o.id);
        OriginOf(before, ops, n, pValue, o);
      }
    }
  }

  /** Where a listed observation comes from: the list before the last operation, or that operation. */
  lemma OriginOf(before: Experiment, ops: seq<Operation>, n: nat, pValue: PValue, o: Observation)
    requires ValidPlan(before.plan) && n < |ops| && FreshIds(ops)
    requires o in Or(Attempt(before, ops[n], pValue), before).observations
    requires forall x :: x in before.observations ==> QualityRight(ops[..n], x)
    ensures var front, op := ops[..n], ops[n];
      || (op.Observe? && o == op.observation.(quality := PendingOwner))
      || (!(op.Observe? && op.observation.id == o.id) && Offered(front, o.id)
          && o.quality == if op.Judge? && op.id == o.id then (if op.accepted then Accepted else Refused) else LatestDecision(front, o.id))
  {
    var op := ops[n];
    var list := Or(Attempt(before, op, pValue), before).observations;
    var i :| 0 <= i < |list| && list[i] == o;
    if op.Judge? && Attempt(before, op, pValue).Some? {
      assert before.observations[i] in before.observations;
    } else if op.Observe? && Attempt(before, op, pValue).Some? {
      if o != op.observation.(quality := PendingOwner) {
        assert o in before.observations;
        NotOfferedAgain(ops, n, o.id);
      }
    } else {
      assert o in before.observations;
      if op.Observe? { NotOfferedAgain(ops, n, o.id); }
      if op.Judge? { assert HasObservation(before.observations, o.id); }
    }
  }

  lemma NotOfferedAgain(ops: seq<Operation>, n: nat, id: string)
    requires n < |ops| && FreshIds(ops) && ops[n].Observe? && Offered(ops[..n], id)
    ensures ops[n].observation.id != id
  {
    var i :| 0 <= i < n && ops[..n][i].Observe? && ops[..n][i].observation.id == id;
    assert ops[i].observation.id != ops[n].observation.id;
  }
}
