/** The rules of an experiment, spelled out: what each call changes, what a preview promises and what
    an evaluation recommends. */
module ExperimentRules {
  import opened Experiments
  import opened ExperimentRuns
  import opened Rounding
  import opened Wrappers

  // ---------------------------------------------------------------------------------------
  // Plan, preview and approval

  predicate Takes<T(==)>(given: Option<T>, before: T, after: T) { after == if given.Some? then given.value else before }

  /** A draft update is accepted before approval only; it sets the fields it gives, and the preview
      goes with the old plan. */
  lemma UpdateRule(e: Experiment, u: DraftUpdate)
    ensures UpdateDraft(e, u).Some? <==> e.status == Planned || e.status == Previewed
    ensures UpdateDraft(e, u).Some? ==>
      var after := UpdateDraft(e, u).value; var p, q := e.plan, after.plan;
      && Takes(u.name, p.name, q.name) && Takes(u.hypothesis, p.hypothesis, q.hypothesis)
      && Takes(u.direction, p.direction, q.direction) && Takes(u.baseline, p.baseline, q.baseline)
      && Takes(u.targetLift, p.targetLift, q.targetLift) && Takes(u.variants, p.variants, q.variants)
      && Takes(u.guardrails, p.guardrails, q.guardrails) && Takes(u.stops, p.stops, q.stops)
      && Takes(u.windowDays, p.windowDays, q.windowDays)
      && after.status == Planned && after.preview == None
      && after.observations == e.observations && after.evaluation == e.evaluation
  {
  }

  /** The baseline moved by the target lift in percent, in the wanted direction and not below nothing. */
  function TargetOf(p: Plan): real
  {
    if p.direction == Increase then p.baseline + p.baseline * p.targetLift / 100.0
    else if p.targetLift >= 100.0 then 0.0
    else p.baseline - p.baseline * p.targetLift / 100.0
  }

  lemma PercentOf(b: real, t: real)
    ensures b * (1.0 + t / 100.0) == b + b * t / 100.0 && b * (1.0 - t / 100.0) == b - b * t / 100.0
  {
    assert b * (t / 100.0) == b * t / 100.0;
  }

  lemma TargetIsMultiple(p: Plan)
    ensures TargetOf(p) == Target(p)
  {
    PercentOf(p.baseline, p.targetLift);
    if p.targetLift == 100.0 { assert p.baseline * (1.0 - 1.0) == 0.0; }
  }

  lemma TargetRule(p: Plan)
    ensures IsRounded(TargetOf(p), 10000, PreviewOf(p).target)
  {
    TargetIsMultiple(p);
    RoundedIff(Target(p), 10000, PreviewOf(p).target);
  }

  /** A preview is shown unless the experiment is rejected, cancelled or completed; it repeats the plan
      with the target to four decimals, and puts the experiment in status PREVIEWED. */
  lemma PreviewRule(e: Experiment)
    ensures MakePreview(e).Some? <==> e.status !in {Rejected, Cancelled, Completed}
    ensures MakePreview(e).Some? ==>
      var after := MakePreview(e).value;
      && after.preview.Some? && after.status == Previewed && after.plan == e.plan
      && after.observations == e.observations && after.evaluation == e.evaluation
      && var v := after.preview.value;
         && v.hypothesis == e.plan.hypothesis && v.direction == e.plan.direction && v.baseline == e.plan.baseline
         && v.variants == e.plan.variants && v.guardrails == e.plan.guardrails && v.stops == e.plan.stops
         && v.windowDays == e.plan.windowDays && IsRounded(TargetOf(e.plan), 10000, v.target)
  {
    TargetRule(e.plan);
  }

  /** Approval is requested for a draft and decided while it is awaited; neither changes anything else. */
  lemma ApprovalRule(e: Experiment, approved: bool)
    ensures RequestApproval(e) == if e.status == Planned || e.status == Previewed then Some(e.(status := AwaitingApproval)) else None
    ensures DecideApproval(e, approved)
      == if e.status == AwaitingApproval then Some(e.(status := if approved then Approved else Rejected)) else None
  {
  }

  /** Advertisements are mapped before any observation, in a draft of an open Campaign, and for exactly
      the planned variants; each variant then names its own, and preview and evaluation are dropped. */
  lemma TrackingRule(e: Experiment, campaignOpen: bool, ads: map<VariantId, string>)
    ensures MapTracking(e, campaignOpen, ads).Some? <==>
      && campaignOpen && (e.status == Planned || e.status == Previewed) && e.observations == []
      && forall id :: id in ads <==> exists i :: 0 <= i < |e.plan.variants| && e.plan.variants[i].id == id
    ensures MapTracking(e, campaignOpen, ads).Some? ==>
      var after := MapTracking(e, campaignOpen, ads).value; var before, mapped := e.plan.variants, after.plan.variants;
      && after.status == Planned && after.preview == None && after.evaluation == None && after.observations == []
      && after.plan == e.plan.(variants := mapped) && |mapped| == |before|
      && forall i :: 0 <= i < |before| ==>
           && mapped[i].id == before[i].id && mapped[i].description == before[i].description
           && before[i].id in ads && mapped[i].asset == Some("meta_ad:" + ads[before[i].id])
  {
    VariantIdsIff(e.plan.variants);
    if ads.Keys == VariantIds(e.plan.variants) {
      forall i | 0 <= i < |e.plan.variants| ensures e.plan.variants[i].id in ads {
        assert e.plan.variants[i] in e.plan.variants;
      }
    }
    if forall id :: id in ads <==> exists i :: 0 <= i < |e.plan.variants| && e.plan.variants[i].id == id {
      assert ads.Keys == VariantIds(e.plan.variants);
    }
  }

  lemma VariantIdsIff(variants: seq<Variant>)
    ensures forall id :: id in VariantIds(variants) <==> exists i :: 0 <= i < |variants| && variants[i].id == id
  {
    forall i | 0 <= i < |variants| ensures variants[i].id in VariantIds(variants) { assert variants[i] in variants; }
  }

  lemma MeasuredIdsIff(ms: seq<Measurement>)
    ensures forall id :: id in MeasuredIds(ms) <==> exists i :: 0 <= i < |ms| && ms[i].id == id
  {
    forall i | 0 <= i < |ms| ensures ms[i].id in MeasuredIds(ms) { assert ms[i] in ms; }
  }

  predicate OfPlan(variants: seq<Variant>, id: VariantId) { exists i :: 0 <= i < |variants| && variants[i].id == id }

  predicate OfMeasurements(ms: seq<Measurement>, id: VariantId) { exists i :: 0 <= i < |ms| && ms[i].id == id }

  /** An observation is attached if it measures planned variants only and, from a verified source, all
      of them. It waits for the owner at the end of the list, whose oldest entry makes room for it, and
      the evaluation is dropped. */
  lemma ObservationRule(e: Experiment, o: Observation)
    ensures AddObservation(e, o).Some? <==>
      && (forall id :: OfMeasurements(o.variants, id) ==> OfPlan(e.plan.variants, id))
      && (o.source == VerifiedReadOnly ==> forall id :: OfPlan(e.plan.variants, id) ==> OfMeasurements(o.variants, id))
    ensures AddObservation(e, o).Some? ==>
      var after := AddObservation(e, o).value;
      var last, all := after.observations, e.observations + [o.(quality := PendingOwner)];
      && after.evaluation == None && after.plan == e.plan && after.status == e.status && after.preview == e.preview
      && |last| == (if |all| > 100 then 100 else |all|)
      && forall i :: 0 <= i < |last| ==> last[i] == all[|all| - |last| + i]
  {
    VariantIdsIff(e.plan.variants);
    MeasuredIdsIff(o.variants);
    forall id ensures id in VariantIds(e.plan.variants) <==> OfPlan(e.plan.variants, id) {}
    forall id ensures id in MeasuredIds(o.variants) <==> OfMeasurements(o.variants, id) {}
  }

  // ---------------------------------------------------------------------------------------
  // Which observation is evaluated

  predicate Asked(o: Observation, q: Request)
  {
    (q.observation == Some(o.id)) || (q.observation == None && o.quality == Accepted)
  }

  /** Observation `i` is the last that is asked for. */
  ghost predicate LastAsked(observations: seq<Observation>, q: Request, i: int)
  {
    0 <= i < |observations| && Asked(observations[i], q) && forall j :: i < j < |observations| ==> !Asked(observations[j], q)
  }

  lemma {:induction false} PickIff(observations: seq<Observation>, q: Request, i: int)
    ensures LastAsked(observations, q, i) ==> Pick(observations, q) == Some(observations[i])
    ensures Pick(observations, q).None? <==> forall j :: 0 <= j < |observations| ==> !Asked(observations[j], q)
    decreases |observations|
  {
    if observations != [] {
      var front := observations[..|observations| - 1];
      PickIff(front, q, i);
      assert forall j :: 0 <= j < |front| ==> front[j] == observations[j];
    }
  }

  /** Evaluated is the last observation asked for, by id or as the last accepted one, and only if it is
      accepted; the result is recorded, and nothing else changes. */
  lemma EvaluateRule(e: Experiment, q: Request, now: int, pValue: PValue, i: int)
    requires ValidPlan(e.plan)
    ensures (forall j :: 0 <= j < |e.observations| ==> !Asked(e.observations[j], q)) ==> Evaluate(e, q, now, pValue) == None
    ensures LastAsked(e.observations, q, i) ==>
      Evaluate(e, q, now, pValue) ==
        if e.observations[i].quality == Accepted
        then Some(e.(evaluation := Some(EvaluationOf(e.plan, e.observations[i], q, now, pValue)))) else None
  {
    PickIff(e.observations, q, i);
  }

  // ---------------------------------------------------------------------------------------
  // What an evaluation recommends

  /** The metric of a variant: its conversion rate in percent where there is one, its reported value
      or else zero where not. */
  predicate MetricIs(m: Measurement, v: real)
  {
    if m.conversions.Some? && m.samples > 0 then v * m.samples as real == 100.0 * m.conversions.value as real
    else if m.value.Some? then v == m.value.value else v == 0.0
  }

  lemma MetricIff(m: Measurement, v: real)
    ensures MetricIs(m, v) <==> v == MetricValue(m)
  {
    if m.conversions.Some? && m.samples > 0 { QuotientIff(v, m.conversions.value as real * 100.0, m.samples as real); }
  }

  /** Higher or lower, as wanted. */
  predicate Beats(d: Direction, a: real, b: real)
  {
    match d
    case Increase => a > b
    case Decrease => a < b
  }

  /** The change against the control in percent, counted as gain in the wanted direction; none against a
      control of zero. */
  predicate LiftIs(d: Direction, control: real, compared: real, lift: Option<real>)
  {
    if control == 0.0 then lift == None
    else lift.Some? && lift.value * control == (if d == Increase then 100.0 * (compared - control) else 100.0 * (control - compared))
  }

  lemma QuotientIff(x: real, y: real, z: real)
    requires z != 0.0
    ensures x * z == y <==> x == y / z
  {
    assert (y / z) * z == y;
    if x * z == y { assert (x - y / z) * z == 0.0; }
  }

  lemma LiftIff(d: Direction, control: real, compared: real, lift: Option<real>)
    ensures LiftIs(d, control, compared, lift) <==> lift == LiftOf(d, control, compared)
  {
    if control != 0.0 && lift.Some? {
      QuotientIff(lift.value, (if d == Increase then compared - control else control - compared) * 100.0, control);
    }
  }

  /** Measurement `i` is the last of its variant. */
  ghost predicate LastMeasured(ms: seq<Measurement>, id: VariantId, m: Measurement)
  {
    exists i :: 0 <= i < |ms| && ms[i] == m && m.id == id && forall j :: i < j < |ms| ==> ms[j].id != id
  }

  lemma {:induction false} MeasuredIff(ms: seq<Measurement>, id: VariantId)
    ensures Measured(ms, id).Some? <==> OfMeasurements(ms, id)
    ensures forall m :: Measured(ms, id) == Some(m) <==> LastMeasured(ms, id, m)
    decreases |ms|
  {
    if ms != [] {
      var front, last := ms[..|ms| - 1], ms[|ms| - 1];
      assert ms == front + [last];
      MeasuredIff(front, id);
      if last.id == id {
        assert LastMeasured(ms, id, last);
        forall m | LastMeasured(ms, id, m) ensures m == last {}
      } else {
        forall m ensures LastMeasured(ms, id, m) <==> LastMeasured(front, id, m) { LastInFront(front, last, id, m); }
        if OfMeasurements(front, id) {
          var i :| 0 <= i < |front| && front[i].id == id;
          assert ms[i].id == id;
        }
      }
    }
  }

  lemma LastInFront(front: seq<Measurement>, last: Measurement, id: VariantId, m: Measurement)
    requires last.id != id
    ensures LastMeasured(front + [last], id, m) <==> LastMeasured(front, id, m)
  {
    var ms := front + [last];
    if LastMeasured(ms, id, m) {
      var i :| 0 <= i < |ms| && ms[i] == m && m.id == id && forall j :: i < j < |ms| ==> ms[j].id != id;
      assert front[i] == m && forall j :: i < j < |front| ==> front[j] == ms[j];
    }
    if LastMeasured(front, id, m) {
      var i :| 0 <= i < |front| && front[i] == m && m.id == id && forall j :: i < j < |front| ==> front[j].id != id;
      assert ms[i] == m;
    }
  }

  predicate Violates(g: Guardrail, x: real)
  {
    match g.comparison
    case AtMost => x > g.threshold
    case AtLeast => x < g.threshold
    case Below => x >= g.threshold
    case Above => x <= g.threshold
  }

  /** Some measured value breaks a guardrail of the plan. */
  ghost predicate GuardrailBroken(p: Plan, o: Observation)
  {
    exists i, j :: 0 <= i < |p.guardrails| && 0 <= j < |o.variants| && p.guardrails[i].metric in o.variants[j].guards
      && Violates(p.guardrails[i], o.variants[j].guards[p.guardrails[i].metric])
  }

  lemma BrokenIff(p: Plan, o: Observation)
    ensures GuardrailBroken(p, o) <==> AnyBreach(p.guardrails, o.variants)
  {
    forall i, j | 0 <= i < |p.guardrails| && 0 <= j < |o.variants|
      ensures Breaches(p.guardrails[i], o.variants[j]) <==>
        p.guardrails[i].metric in o.variants[j].guards
        && Violates(p.guardrails[i], o.variants[j].guards[p.guardrails[i].metric])
    {
    }
  }

  /** Breach `b` is that of measurement `m` against guardrail `g`. */
  predicate BreachBy(b: Breach, g: Guardrail, m: Measurement)
  {
    b.guardrail == g && b.variant == m.id && g.metric in m.guards && Violates(g, m.guards[g.metric])
  }

  /** The breaches found are those of some measurement against some guardrail, and no others. */
  lemma BreachIff(b: Breach, guardrails: seq<Guardrail>, ms: seq<Measurement>)
    ensures FoundAmong(b, guardrails, ms) <==>
      exists i, j :: 0 <= i < |guardrails| && 0 <= j < |ms| && BreachBy(b, guardrails[i], ms[j])
  {
    forall i, j | 0 <= i < |guardrails| && 0 <= j < |ms|
      ensures Found(b, guardrails[i], ms[j]) <==> BreachBy(b, guardrails[i], ms[j])
    {
    }
  }

  /** Every planned variant was measured. */
  ghost predicate Complete(p: Plan, o: Observation)
  {
    forall i :: 0 <= i < |p.variants| ==> OfMeasurements(o.variants, p.variants[i].id)
  }

  /** `m` is the last measurement of planned variant `k`. */
  ghost predicate IsVariant(p: Plan, o: Observation, k: int, m: Measurement)
  {
    0 <= k < |p.variants| && LastMeasured(o.variants, p.variants[k].id, m)
  }

  /** Challenger `k` is the best: no challenger beats it, and it beats those before it in the plan. */
  ghost predicate BestChallenger(p: Plan, o: Observation, k: int, m: Measurement)
  {
    && 1 <= k && IsVariant(p, o, k, m)
    && forall j, x :: 1 <= j && j != k && IsVariant(p, o, j, x) ==> Outdoes(p.direction, m, x, j < k)
  }

  /** `a` beats `b`, or at least `b` does not beat `a`. */
  ghost predicate Outdoes(d: Direction, a: Measurement, b: Measurement, strictly: bool)
  {
    forall x, y :: MetricIs(a, x) && MetricIs(b, y) ==> if strictly then Beats(d, x, y) else !Beats(d, y, x)
  }

  predicate Says(e: Evaluation, recommendation: Recommendation, winner: Option<VariantId>)
  {
    e.recommendation == recommendation && e.winner == winner
  }

  /** Some planned variant was measured on too few samples. */
  ghost predicate Undersampled(p: Plan, o: Observation, least: nat)
  {
    exists k, m :: IsVariant(p, o, k, m) && m.samples < least
  }

  /** The recommendation on complete, fresh evidence without a broken guardrail, for the control and the
      best challenger. */
  ghost predicate Compares(p: Plan, o: Observation, q: Request, control: Measurement, best: Measurement,
                           chance: Option<real>, e: Evaluation)
  {
    if o.source == Partial then Says(e, ManualReview, None)
    else if Undersampled(p, o, q.minSample) then Says(e, InsufficientData, None)
    else if chance == None then Says(e, ManualReview, None)
    else if e.lift != None && e.lift.value >= p.targetLift && chance.value <= q.alpha then Says(e, WinnerCandidate, Some(best.id))
    else if e.lift != None && e.lift.value < 0.0 && chance.value <= q.alpha then Says(e, StopAndReview, Some(control.id))
    else Says(e, Continue, None)
  }

  /** Control and best challenger, the lift between them, and the recommendation that follows. */
  ghost predicate ComparesBest(p: Plan, o: Observation, q: Request, pValue: PValue, control: Measurement, k: int,
                               best: Measurement, e: Evaluation)
  {
    && IsVariant(p, o, 0, control) && BestChallenger(p, o, k, best)
    && (forall x, y :: MetricIs(control, x) && MetricIs(best, y) ==> LiftIs(p.direction, x, y, e.lift))
    && Compares(p, o, q, control, best, pValue(control, best), e)
  }

  /** What is recommended, in all cases. */
  ghost predicate Advises(p: Plan, o: Observation, q: Request, now: int, pValue: PValue, e: Evaluation)
  {
    && e.observation == o.id
    && if !Complete(p, o) then Says(e, InsufficientData, None) && e.lift == None
       else if now - o.collectedAt > q.maxAge then Says(e, ManualReview, None) && e.lift == None
       else if GuardrailBroken(p, o) then Says(e, StopAndReview, None) && e.lift == None
       else exists control, k, best :: ComparesBest(p, o, q, pValue, control, k, best, e)
  }

  lemma {:induction false} ChallengersIff(variants: seq<Variant>, ms: seq<Measurement>)
    ensures |Challengers(variants, ms)| == |variants| <==> forall i :: 0 <= i < |variants| ==> Measured(ms, variants[i].id).Some?
    ensures |Challengers(variants, ms)| == |variants| ==>
      forall i :: 0 <= i < |variants| ==> Measured(ms, variants[i].id) == Some(Challengers(variants, ms)[i])
  {
    if variants != [] {
      ChallengersIff(variants[1..], ms);
      assert forall i :: 0 < i < |variants| ==> variants[1..][i - 1] == variants[i];
    }
  }

  lemma CompleteIff(p: Plan, o: Observation)
    requires ValidPlan(p)
    ensures Complete(p, o) <==>
      Measured(o.variants, p.variants[0].id).Some? && |Challengers(p.variants[1..], o.variants)| == |p.variants| - 1
  {
    var rest := p.variants[1..];
    ChallengersIff(rest, o.variants);
    forall i | 0 <= i < |p.variants|
      ensures OfMeasurements(o.variants, p.variants[i].id) <==> Measured(o.variants, p.variants[i].id).Some?
    {
      MeasuredIff(o.variants, p.variants[i].id);
    }
    assert forall i :: 0 < i < |p.variants| ==> rest[i - 1] == p.variants[i];
  }

  /** In a complete observation the challengers are the variants after the control. */
  lemma ChallengerAt(p: Plan, o: Observation, k: int, m: Measurement)
    requires ValidPlan(p) && Complete(p, o) && 1 <= k < |p.variants|
    ensures |Challengers(p.variants[1..], o.variants)| == |p.variants| - 1
    ensures IsVariant(p, o, k, m) <==> m == Challengers(p.variants[1..], o.variants)[k - 1]
  {
    CompleteIff(p, o);
    ChallengersIff(p.variants[1..], o.variants);
    MeasuredIff(o.variants, p.variants[k].id);
    assert p.variants[1..][k - 1] == p.variants[k];
  }

  lemma OutdoesIff(d: Direction, a: Measurement, b: Measurement)
    ensures Outdoes(d, a, b, true) <==> Better(d, MetricValue(a), MetricValue(b))
    ensures Outdoes(d, a, b, false) <==> !Better(d, MetricValue(b), MetricValue(a))
  {
    forall v ensures MetricIs(a, v) <==> v == MetricValue(a) { MetricIff(a, v); }
    forall v ensures MetricIs(b, v) <==> v == MetricValue(b) { MetricIff(b, v); }
    assert MetricIs(a, MetricValue(a)) && MetricIs(b, MetricValue(b));
  }

  lemma FirstBestIsBest(p: Plan, o: Observation, k: int)
    requires ValidPlan(p) && Complete(p, o)
    requires FirstBest(p.direction, Challengers(p.variants[1..], o.variants), k)
    ensures BestChallenger(p, o, k + 1, Challengers(p.variants[1..], o.variants)[k])
  {
    CompleteIff(p, o);
    var cs := Challengers(p.variants[1..], o.variants);
    ChallengerAt(p, o, k + 1, cs[k]);
    forall j, x | 1 <= j && j != k + 1 && IsVariant(p, o, j, x) ensures Outdoes(p.direction, cs[k], x, j < k + 1) {
      ChallengerAt(p, o, j, x);
      OutdoesIff(p.direction, cs[k], x);
    }
  }

  lemma ControlIsFirst(p: Plan, o: Observation, control: Measurement)
    requires ValidPlan(p)
    ensures IsVariant(p, o, 0, control) <==> Measured(o.variants, p.variants[0].id) == Some(control)
  {
    MeasuredIff(o.variants, p.variants[0].id);
  }

  lemma UndersampledIff(p: Plan, o: Observation, least: nat, control: Measurement)
    requires ValidPlan(p) && Complete(p, o) && IsVariant(p, o, 0, control)
    ensures Undersampled(p, o, least) <==>
      !(control.samples >= least && forall m :: m in Challengers(p.variants[1..], o.variants) ==> m.samples >= least)
  {
    CompleteIff(p, o);
    var cs := Challengers(p.variants[1..], o.variants);
    ControlIsFirst(p, o, control);
    if k, m :| IsVariant(p, o, k, m) && m.samples < least {
      ControlIsFirst(p, o, m);
      if k > 0 {
        ChallengerAt(p, o, k, m);
        assert cs[k - 1] in cs;
      }
    }
    if m :| m in cs && m.samples < least {
      var i :| 0 <= i < |cs| && cs[i] == m;
      ChallengerAt(p, o, i + 1, m);
    }
  }

  lemma LiftBetween(d: Direction, control: Measurement, best: Measurement, lift: Option<real>)
    ensures (forall x, y :: MetricIs(control, x) && MetricIs(best, y) ==> LiftIs(d, x, y, lift)) <==>
      lift == LiftOf(d, MetricValue(control), MetricValue(best))
  {
    MetricIff(control, MetricValue(control));
    MetricIff(best, MetricValue(best));
    LiftIff(d, MetricValue(control), MetricValue(best), lift);
    forall v ensures MetricIs(control, v) <==> v == MetricValue(control) { MetricIff(control, v); }
    forall v ensures MetricIs(best, v) <==> v == MetricValue(best) { MetricIff(best, v); }
  }

  lemma JudgeCompares(p: Plan, o: Observation, q: Request, now: int, pValue: PValue, control: Measurement, best: Measurement)
    requires ValidPlan(p) && Complete(p, o) && now - o.collectedAt <= q.maxAge && !AnyBreach(p.guardrails, o.variants)
    requires IsVariant(p, o, 0, control) && Challengers(p.variants[1..], o.variants) != []
    requires best == Best(p.direction, Challengers(p.variants[1..], o.variants))
    ensures var e := EvaluationOf(p, o, q, now, pValue);
      && Compares(p, o, q, control, best, pValue(control, best), e)
      && e.lift == LiftOf(p.direction, MetricValue(control), MetricValue(best))
  {
    CompleteIff(p, o);
    ControlIsFirst(p, o, control);
    UndersampledIff(p, o, q.minSample, control);
  }

  lemma JudgeRefrains(p: Plan, o: Observation, q: Request, now: int, pValue: PValue)
    requires ValidPlan(p)
    requires !Complete(p, o) || now - o.collectedAt > q.maxAge || AnyBreach(p.guardrails, o.variants)
    ensures var e := EvaluationOf(p, o, q, now, pValue);
      e.lift == None && if !Complete(p, o) then Says(e, InsufficientData, None)
                        else if now - o.collectedAt > q.maxAge then Says(e, ManualReview, None) else Says(e, StopAndReview, None)
  {
    CompleteIff(p, o);
  }

  /** The evaluation of every observation under every plan recommends what it must. */
  lemma EvaluationRule(p: Plan, o: Observation, q: Request, now: int, pValue: PValue)
    requires ValidPlan(p)
    ensures Advises(p, o, q, now, pValue, EvaluationOf(p, o, q, now, pValue))
  {
    var e := EvaluationOf(p, o, q, now, pValue);
    BrokenIff(p, o);
    if !Complete(p, o) || now - o.collectedAt > q.maxAge || AnyBreach(p.guardrails, o.variants) {
      JudgeRefrains(p, o, q, now, pValue);
    } else {
      var control, k, best := JudgeComparesBest(p, o, q, now, pValue);
    }
  }

  lemma JudgeComparesBest(p: Plan, o: Observation, q: Request, now: int, pValue: PValue)
      returns (control: Measurement, k: int, best: Measurement)
    requires ValidPlan(p) && Complete(p, o) && now - o.collectedAt <= q.maxAge && !AnyBreach(p.guardrails, o.variants)
    ensures ComparesBest(p, o, q, pValue, control, k, best, EvaluationOf(p, o, q, now, pValue))
    ensures EvaluationOf(p, o, q, now, pValue).observation == o.id
  {
    CompleteIff(p, o);
    control := Measured(o.variants, p.variants[0].id).value;
    var cs := Challengers(p.variants[1..], o.variants);
    var first := BestIsFirst(p.direction, cs);
    k, best := first + 1, cs[first];
    ControlIsFirst(p, o, control);
    FirstBestIsBest(p, o, first);
    JudgeCompares(p, o, q, now, pValue, control, best);
    LiftBetween(p.direction, control, best, EvaluationOf(p, o, q, now, pValue).lift);
  }

  /** Only one evaluation advises so: the rule determines it. */
  lemma AdviceIsUnique(p: Plan, o: Observation, q: Request, now: int, pValue: PValue, a: Evaluation, b: Evaluation)
    requires ValidPlan(p) && Advises(p, o, q, now, pValue, a) && Advises(p, o, q, now, pValue, b)
    ensures a == b
  {
    if Complete(p, o) && now - o.collectedAt <= q.maxAge && !GuardrailBroken(p, o) {
      var control, k, best :| ComparesBest(p, o, q, pValue, control, k, best, a);
      var other, j, top :| ComparesBest(p, o, q, pValue, other, j, top, b);
      ControlIsFirst(p, o, control);
      ControlIsFirst(p, o, other);
      BestIsUnique(p, o, k, best, j, top);
      LiftBetween(p.direction, control, best, a.lift);
      LiftBetween(p.direction, control, best, b.lift);
    }
  }

  lemma BestIsUnique(p: Plan, o: Observation, k: int, a: Measurement, j: int, b: Measurement)
    requires ValidPlan(p) && Complete(p, o) && BestChallenger(p, o, k, a) && BestChallenger(p, o, j, b)
    ensures k == j && a == b
  {
    OutdoesIff(p.direction, a, b);
    OutdoesIff(p.direction, b, a);
    assert k != j ==> Outdoes(p.direction, a, b, j < k) && Outdoes(p.direction, b, a, k < j);
    ChallengerAt(p, o, k, a);
    ChallengerAt(p, o, j, b);
  }
}
