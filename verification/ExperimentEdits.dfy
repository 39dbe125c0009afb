/** What editing a draft does to an evaluation on record and to an approval, over every run. */
module ExperimentEdits {
  import opened Experiments
  import opened ExperimentRuns
  import opened Wrappers

  // ---------------------------------------------------------------------------------------
  // Draft updates

  const NO_CHANGE := DraftUpdate(None, None, None, None, None, None, None, None, None)

  function Later<T>(first: Option<T>, second: Option<T>): Option<T> { if second.Some? then second else first }

  /** Two updates in one: every field as it was given last. */
  function Combined(u: DraftUpdate, v: DraftUpdate): DraftUpdate
  {
    DraftUpdate(Later(u.name, v.name), Later(u.hypothesis, v.hypothesis), Later(u.direction, v.direction),
                Later(u.baseline, v.baseline), Later(u.targetLift, v.targetLift), Later(u.variants, v.variants),
                Later(u.guardrails, v.guardrails), Later(u.stops, v.stops), Later(u.windowDays, v.windowDays))
  }

  predicate Same<T(==)>(given: Option<T>, current: T) { given.Some? ==> given.value == current }

  /** Every field that the update gives has the value the plan already has. */
  predicate Repeats(u: DraftUpdate, p: Plan)
  {
    && Same(u.name, p.name) && Same(u.hypothesis, p.hypothesis) && Same(u.direction, p.direction)
    && Same(u.baseline, p.baseline) && Same(u.targetLift, p.targetLift) && Same(u.variants, p.variants)
    && Same(u.guardrails, p.guardrails) && Same(u.stops, p.stops) && Same(u.windowDays, p.windowDays)
  }

  lemma MergedIffRepeats(p: Plan, u: DraftUpdate)
    ensures Merged(p, u) == p <==> Repeats(u, p)
  {
  }

  lemma MergedTwice(p: Plan, u: DraftUpdate, v: DraftUpdate)
    ensures Merged(Merged(p, u), v) == Merged(p, Combined(u, v))
  {
  }

  // ---------------------------------------------------------------------------------------
  // The evaluation on record

  ghost predicate Taken(plan: Plan, ops: seq<Operation>, n: nat, pValue: PValue)
    requires ValidPlan(plan) && n < |ops|
  {
    Attempt(After(plan, ops[..n], pValue), ops[n], pValue).Some?
  }

  /** What the draft updates since the latest evaluation gave, last values first. */
  ghost function GivenSince(plan: Plan, ops: seq<Operation>, pValue: PValue): DraftUpdate
    requires ValidPlan(plan)
    decreases |ops|
  {
    if ops == [] then NO_CHANGE
    else
      var n := |ops| - 1;
      var before := GivenSince(plan, ops[..n], pValue);
      if !Taken(plan, ops, n, pValue) then before
      else if ops[n].Assess? then NO_CHANGE
      else if ops[n].Update? then Combined(before, ops[n].update)
      else before
  }

  /** While an evaluation is on record, the plan is the evaluated one with those updates. */
  ghost predicate OffBy(plan: Plan, ops: seq<Operation>, pValue: PValue)
    requires ValidPlan(plan)
  {
    var e := After(plan, ops, pValue);
    e.evaluation.Some? ==> e.plan == Merged(EvaluatedPlan(plan, ops, pValue), GivenSince(plan, ops, pValue))
  }

  lemma StepKeepsOff(e: Experiment, op: Operation, pValue: PValue, evaluated: Plan, given: DraftUpdate)
    requires ValidPlan(e.plan) && Attempt(e, op, pValue).Some? && !op.Assess?
    requires e.evaluation.Some? ==> e.plan == Merged(evaluated, given)
    ensures var after := Attempt(e, op, pValue).value;
      after.evaluation.Some? ==>
        after.plan == Merged(evaluated, if op.Update? then Combined(given, op.update) else given)
  {
    if op.Update? { MergedTwice(evaluated, given, op.update); }
  }

  lemma {:induction false} RunIsOffBy(plan: Plan, ops: seq<Operation>, pValue: PValue)
    requires ValidPlan(plan)
    ensures OffBy(plan, ops, pValue)
    decreases |ops|
  {
    if ops != [] {
      var n := |ops| - 1;
      RunIsOffBy(plan, ops[..n], pValue);
      if Taken(plan, ops, n, pValue) && !ops[n].Assess? {
        StepKeepsOff(After(plan, ops[..n], pValue), ops[n], pValue, EvaluatedPlan(plan, ops[..n], pValue),
                     GivenSince(plan, ops[..n], pValue));
      }
    }
  }

  /** In every reachable state with an evaluation on record: it is of the plan on record exactly if
      every field given by the draft updates accepted since then was last given its evaluated value. */
  lemma EvaluationIsCurrentIff(plan: Plan, ops: seq<Operation>, pValue: PValue)
    requires ValidPlan(plan) && After(plan, ops, pValue).evaluation.Some?
    ensures EvaluatedPlan(plan, ops, pValue) == After(plan, ops, pValue).plan
       <==> Repeats(GivenSince(plan, ops, pValue), EvaluatedPlan(plan, ops, pValue))
  {
    RunIsOffBy(plan, ops, pValue);
    MergedIffRepeats(EvaluatedPlan(plan, ops, pValue), GivenSince(plan, ops, pValue));
  }

  /** The plans agree on all that an evaluation reads. */
  ghost predicate JudgedAlike(p: Plan, q: Plan)
  {
    && p.direction == q.direction && p.targetLift == q.targetLift && p.guardrails == q.guardrails
    && |p.variants| == |q.variants| && forall i :: 0 <= i < |p.variants| ==> p.variants[i].id == q.variants[i].id
  }

  lemma {:induction false} SameChallengers(a: seq<Variant>, b: seq<Variant>, m: seq<Measurement>)
    requires |a| == |b| && forall i :: 0 <= i < |a| ==> a[i].id == b[i].id
    ensures Challengers(a, m) == Challengers(b, m)
    decreases |a|
  {
    if a != [] {
      forall i | 0 <= i < |a| - 1 ensures a[1..][i].id == b[1..][i].id { assert a[i + 1].id == b[i + 1].id; }
      SameChallengers(a[1..], b[1..], m);
    }
  }

  lemma SameEvaluation(p: Plan, r: Plan, o: Observation, q: Request, now: int, pValue: PValue)
    requires ValidPlan(p) && ValidPlan(r) && JudgedAlike(p, r)
    ensures EvaluationOf(p, o, q, now, pValue) == EvaluationOf(r, o, q, now, pValue)
  {
    forall i | 0 <= i < |p.variants| - 1 ensures p.variants[1..][i].id == r.variants[1..][i].id {
      assert p.variants[i + 1].id == r.variants[i + 1].id;
    }
    SameChallengers(p.variants[1..], r.variants[1..], o.variants);
  }

  /** An evaluation on record remains what its evidence gives under the plan on record as long as
      the updates since then touched nothing that it reads. */
  lemma EvaluationStillHolds(plan: Plan, ops: seq<Operation>, pValue: PValue)
    requires ValidPlan(plan) && After(plan, ops, pValue).evaluation.Some?
    requires JudgedAlike(EvaluatedPlan(plan, ops, pValue), After(plan, ops, pValue).plan)
    ensures EvaluatedUnder(After(plan, ops, pValue).plan, After(plan, ops, pValue), pValue)
  {
    EvaluationIsOfItsPlan(plan, ops, pValue);
    var e, p := After(plan, ops, pValue), EvaluatedPlan(plan, ops, pValue);
    var i, q, now :| 0 <= i < |e.observations| && e.observations[i].quality == QualityState.Accepted
      && e.evaluation.value == EvaluationOf(p, e.observations[i], q, now, pValue);
    SameEvaluation(p, e.plan, e.observations[i], q, now, pValue);
    assert e.evaluation.value == EvaluationOf(e.plan, e.observations[i], q, now, pValue);
  }

  // A run that outdates a winner

  function Control(): Measurement { Measurement("control", 1000, Some(100), None, map[]) }

  function Challenger(): Measurement { Measurement("hook-b", 1000, Some(150), None, map[]) }

  function Evidence(): Observation { Observation("obs-1", VerifiedReadOnly, 0, [Control(), Challenger()], PendingOwner) }

  function HookTest(target: real): Plan
  {
    Plan("Hook test", "A stronger hook converts better", Increase, 10.0, target,
         [Variant("control", "current hook", None), Variant("hook-b", "stronger hook", None)], [], [], 14)
  }

  function Weekly(): Request { Request(None, 100, 168, 0.05) }

  function RaisedTarget(): DraftUpdate { NO_CHANGE.(targetLift := Some(60.0)) }

  function WinnerRun(): seq<Operation> { [Observe(Evidence()), Judge("obs-1", true), Assess(Weekly(), 24)] }

  lemma TwoVariants(p: Plan, o: Observation, control: Measurement, other: Measurement)
    requires ValidPlan(p) && |p.variants| == 2 && o.variants == [control, other]
    requires p.variants[0].id == control.id && p.variants[1].id == other.id
    ensures Measured(o.variants, control.id) == Some(control) && Challengers(p.variants[1..], o.variants) == [other]
  {
    assert control.id != other.id;
    assert o.variants[..1] == [control] && Measured([control], control.id) == Some(control);
    assert p.variants[1..][0] == p.variants[1] && p.variants[1..][1..] == [];
    assert Challengers([], o.variants) == [];
  }

  lemma HookValues()
    ensures MetricValue(Control()) == 10.0 && MetricValue(Challenger()) == 15.0
    ensures LiftOf(Increase, 10.0, 15.0) == Some(50.0)
  {
  }

  /** Ten against fifteen per cent: a winner for a target up to fifty per cent, none beyond. */
  lemma HookJudged(target: real, pValue: PValue)
    requires pValue(Control(), Challenger()).Some? && pValue(Control(), Challenger()).value <= 0.05
    ensures ValidPlan(HookTest(target))
    ensures EvaluationOf(HookTest(target), Evidence().(quality := QualityState.Accepted), Weekly(), 24, pValue)
      == if target <= 50.0 then Evaluation("obs-1", WinnerCandidate, Some("hook-b"), Some(50.0))
         else Evaluation("obs-1", Continue, None, Some(50.0))
  {
    var p, o := HookTest(target), Evidence().(quality := QualityState.Accepted);
    TwoVariants(p, o, Control(), Challenger());
    HookValues();
    assert Best(Increase, [Challenger()]) == Challenger();
    assert !AnyBreach(p.guardrails, o.variants);
    JudgedTwo(p, o, Weekly(), 24, pValue, Control(), Challenger());
  }

  lemma JudgedTwo(p: Plan, o: Observation, q: Request, now: int, pValue: PValue, control: Measurement, best: Measurement)
    requires ValidPlan(p) && Measured(o.variants, p.variants[0].id) == Some(control)
    requires Challengers(p.variants[1..], o.variants) == [best] && |p.variants| == 2
    requires now - o.collectedAt <= q.maxAge && o.source == VerifiedReadOnly && !AnyBreach(p.guardrails, o.variants)
    requires control.samples >= q.minSample && best.samples >= q.minSample
    requires pValue(control, best).Some? && pValue(control, best).value <= q.alpha
    requires var lift := LiftOf(p.direction, MetricValue(control), MetricValue(best)); lift.Some? && lift.value >= 0.0
    ensures var lift := LiftOf(p.direction, MetricValue(control), MetricValue(best));
      EvaluationOf(p, o, q, now, pValue)
        == if lift.value >= p.targetLift then Evaluation(o.id, WinnerCandidate, Some(best.id), lift)
           else Evaluation(o.id, Continue, None, lift)
  {
  }

  lemma AfterSnoc(plan: Plan, ops: seq<Operation>, op: Operation, pValue: PValue)
    requires ValidPlan(plan)
    ensures After(plan, ops + [op], pValue) == Or(Attempt(After(plan, ops, pValue), op, pValue), After(plan, ops, pValue))
  {
    assert (ops + [op])[..|ops|] == ops;
  }

  lemma ObservedHook(e: Experiment)
    requires e.plan == HookTest(20.0) && e.observations == []
    ensures AddObservation(e, Evidence()) == Some(e.(observations := [Evidence()], evaluation := None))
  {
    var planned, observed := e.plan.variants, Evidence().variants;
    assert planned[0] in planned && planned[1] in planned && observed[0] in observed && observed[1] in observed;
    assert VariantIds(planned) == {"control", "hook-b"};
    assert MeasuredIds(observed) == {"control", "hook-b"};
    assert e.observations + [Evidence().(quality := PendingOwner)] == [Evidence()];
  }

  lemma JudgedHook(e: Experiment)
    requires e.observations == [Evidence()]
    ensures DecideQuality(e, "obs-1", true)
      == Some(e.(observations := [Evidence().(quality := QualityState.Accepted)], evaluation := None))
  {
    assert e.observations[0].id == "obs-1";
    assert WithQuality(e.observations, "obs-1", true) == [Evidence().(quality := QualityState.Accepted)];
  }

  lemma HookObserved(pValue: PValue)
    requires ValidPlan(HookTest(20.0))
    ensures After(HookTest(20.0), [Observe(Evidence()), Judge("obs-1", true)], pValue)
      == Experiment(HookTest(20.0), Planned, None, [Evidence().(quality := QualityState.Accepted)], None)
  {
    var plan := HookTest(20.0);
    var start := Experiment(plan, Planned, None, [], None);
    AfterSnoc(plan, [], Observe(Evidence()), pValue);
    assert [] + [Observe(Evidence())] == [Observe(Evidence())];
    ObservedHook(start);
    AfterSnoc(plan, [Observe(Evidence())], Judge("obs-1", true), pValue);
    assert [Observe(Evidence())] + [Judge("obs-1", true)] == [Observe(Evidence()), Judge("obs-1", true)];
    JudgedHook(start.(observations := [Evidence()]));
  }

  lemma HookAssessed(e: Experiment, pValue: PValue)
    requires e.plan == HookTest(20.0) && e.observations == [Evidence().(quality := QualityState.Accepted)]
    requires pValue(Control(), Challenger()).Some? && pValue(Control(), Challenger()).value <= 0.05
    ensures ValidPlan(e.plan)
    ensures Evaluate(e, Weekly(), 24, pValue)
      == Some(e.(evaluation := Some(Evaluation("obs-1", WinnerCandidate, Some("hook-b"), Some(50.0)))))
  {
    HookJudged(20.0, pValue);
    assert Pick(e.observations, Weekly()) == Some(e.observations[0]);
  }

  lemma HookRecorded(ops: seq<Operation>, pValue: PValue)
    requires ValidPlan(HookTest(20.0))
    requires After(HookTest(20.0), ops, pValue)
      == Experiment(HookTest(20.0), Planned, None, [Evidence().(quality := QualityState.Accepted)], None)
    requires pValue(Control(), Challenger()).Some? && pValue(Control(), Challenger()).value <= 0.05
    ensures After(HookTest(20.0), ops + [Assess(Weekly(), 24)], pValue)
      == Experiment(HookTest(20.0), Planned, None, [Evidence().(quality := QualityState.Accepted)],
                    Some(Evaluation("obs-1", WinnerCandidate, Some("hook-b"), Some(50.0))))
  {
    AfterSnoc(HookTest(20.0), ops, Assess(Weekly(), 24), pValue);
    HookAssessed(After(HookTest(20.0), ops, pValue), pValue);
  }

  lemma WinnerIsRecorded(pValue: PValue)
    requires pValue(Control(), Challenger()).Some? && pValue(Control(), Challenger()).value <= 0.05
    ensures ValidPlan(HookTest(20.0))
    ensures After(HookTest(20.0), WinnerRun(), pValue)
      == Experiment(HookTest(20.0), Planned, None, [Evidence().(quality := QualityState.Accepted)],
                    Some(Evaluation("obs-1", WinnerCandidate, Some("hook-b"), Some(50.0))))
  {
    HookJudged(20.0, pValue);
    HookObserved(pValue);
    HookRecorded([Observe(Evidence()), Judge("obs-1", true)], pValue);
    assert [Observe(Evidence()), Judge("obs-1", true)] + [Assess(Weekly(), 24)] == WinnerRun();
  }

  /** Raising the target after a winner was found: the evaluation on record still recommends it,
      though the same evidence under the plan on record only says to continue. */
  lemma RecordedWinnerCanBeOutdated(pValue: PValue)
    requires pValue(Control(), Challenger()).Some? && pValue(Control(), Challenger()).value <= 0.05
    ensures ValidPlan(HookTest(20.0)) && ValidPlan(HookTest(60.0))
    ensures var e := After(HookTest(20.0), WinnerRun() + [Update(RaisedTarget())], pValue);
      && e.plan == HookTest(60.0) && e.observations == [Evidence().(quality := QualityState.Accepted)]
      && e.evaluation == Some(Evaluation("obs-1", WinnerCandidate, Some("hook-b"), Some(50.0)))
      && EvaluationOf(e.plan, e.observations[0], Weekly(), 24, pValue).recommendation == Continue
  {
    WinnerIsRecorded(pValue);
    AfterSnoc(HookTest(20.0), WinnerRun(), Update(RaisedTarget()), pValue);
    HookJudged(60.0, pValue);
    assert Merged(HookTest(20.0), RaisedTarget()) == HookTest(60.0);
  }

  // ---------------------------------------------------------------------------------------
  // Approval

  /** An accepted operation that changes the plan. */
  ghost predicate EditsAt(plan: Plan, ops: seq<Operation>, k: nat, pValue: PValue)
    requires ValidPlan(plan) && k < |ops|
  {
    (ops[k].Update? || ops[k].MapAds?) && Taken(plan, ops, k, pValue)
  }

  ghost predicate ShownBetween(ops: seq<Operation>, n: nat, k: nat)
    requires n <= k <= |ops|
  {
    exists j :: n <= j < k && ops[j].Show?
  }

  ghost predicate ApprovedAt(plan: Plan, ops: seq<Operation>, n: nat, pValue: PValue)
    requires ValidPlan(plan) && n <= |ops|
  {
    After(plan, ops[..n], pValue).status == Approved
  }

  lemma AfterStep(plan: Plan, ops: seq<Operation>, n: nat, pValue: PValue)
    requires ValidPlan(plan) && n < |ops|
    ensures After(plan, ops[..n + 1], pValue)
         == Or(Attempt(After(plan, ops[..n], pValue), ops[n], pValue), After(plan, ops[..n], pValue))
  {
    assert ops[..n + 1][..n] == ops[..n];
  }

  /** An approved plan is left, and its plan changed, by nothing but a preview. */
  lemma ApprovedStep(e: Experiment, op: Operation, pValue: PValue)
    requires ValidPlan(e.plan) && e.status == Approved
    ensures var after := Or(Attempt(e, op, pValue), e);
      after.plan == e.plan && (after.status == Approved <==> !op.Show?)
    ensures op.Update? || op.MapAds? ==> Attempt(e, op, pValue).None?
  {
  }

  lemma {:induction false} ApprovedUntilShown(plan: Plan, ops: seq<Operation>, n: nat, k: nat, pValue: PValue)
    requires ValidPlan(plan) && n <= k <= |ops| && ApprovedAt(plan, ops, n, pValue) && !ShownBetween(ops, n, k)
    ensures ApprovedAt(plan, ops, k, pValue)
    decreases k
  {
    if k > n {
      assert !ops[k - 1].Show?;
      ApprovedUntilShown(plan, ops, n, k - 1, pValue);
      AfterStep(plan, ops, k - 1, pValue);
      ApprovedStep(After(plan, ops[..k - 1], pValue), ops[k - 1], pValue);
    }
  }

  lemma {:induction false} FirstShow(ops: seq<Operation>, n: nat, k: nat) returns (j: nat)
    requires n <= k <= |ops| && ShownBetween(ops, n, k)
    ensures n <= j < k && ops[j].Show? && !ShownBetween(ops, n, j)
    decreases k
  {
    if ShownBetween(ops, n, k - 1) { j := FirstShow(ops, n, k - 1); } else { j := k - 1; }
  }

  /** Once approved, an experiment stays approved throughout exactly if no preview is shown. */
  lemma StaysApprovedIff(plan: Plan, ops: seq<Operation>, n: nat, pValue: PValue)
    requires ValidPlan(plan) && n <= |ops| && ApprovedAt(plan, ops, n, pValue)
    ensures (forall m :: n <= m <= |ops| ==> ApprovedAt(plan, ops, m, pValue)) <==> !ShownBetween(ops, n, |ops|)
  {
    if ShownBetween(ops, n, |ops|) {
      var j := FirstShow(ops, n, |ops|);
      ApprovedUntilShown(plan, ops, n, j, pValue);
      AfterStep(plan, ops, j, pValue);
      ApprovedStep(After(plan, ops[..j], pValue), ops[j], pValue);
      assert !ApprovedAt(plan, ops, j + 1, pValue);
    } else {
      forall m | n <= m <= |ops| ensures ApprovedAt(plan, ops, m, pValue) {
        ApprovedUntilShown(plan, ops, n, m, pValue);
      }
    }
  }

  /** No edit is accepted after an approval unless a preview was shown in between. */
  lemma EditNeedsPreview(plan: Plan, ops: seq<Operation>, n: nat, k: nat, pValue: PValue)
    requires ValidPlan(plan) && n <= k < |ops| && ApprovedAt(plan, ops, n, pValue) && EditsAt(plan, ops, k, pValue)
    ensures ShownBetween(ops, n, k)
  {
    if !ShownBetween(ops, n, k) {
      ApprovedUntilShown(plan, ops, n, k, pValue);
      ApprovedStep(After(plan, ops[..k], pValue), ops[k], pValue);
      assert false;
    }
  }

  /** The edit gives the plan what it already has: a draft update its own fields, a mapping the
      assets that its variants carry. */
  ghost predicate RepeatsPlan(op: Operation, p: Plan)
  {
    && (op.Update? ==> Repeats(op.update, p))
    && (op.MapAds? ==> forall v :: v in p.variants && v.id in op.ads ==> v.asset == Some("meta_ad:" + op.ads[v.id]))
  }

  lemma WithAdsIff(p: Plan, ads: map<VariantId, string>)
    requires ads.Keys == VariantIds(p.variants)
    ensures p.(variants := WithAds(p.variants, ads)) == p <==>
      forall v :: v in p.variants && v.id in ads ==> v.asset == Some("meta_ad:" + ads[v.id])
  {
    var after := WithAds(p.variants, ads);
    forall i | 0 <= i < |after|
      ensures p.variants[i].id in ads && after[i] == p.variants[i].(asset := Some("meta_ad:" + ads[p.variants[i].id]))
    {
      assert p.variants[i] in p.variants;
    }
    if after == p.variants {
      forall v | v in p.variants && v.id in ads ensures v.asset == Some("meta_ad:" + ads[v.id]) {
        var i :| 0 <= i < |after| && p.variants[i] == v;
        assert after[i] == v;
      }
    }
  }

  lemma EditStep(e: Experiment, op: Operation, pValue: PValue)
    requires ValidPlan(e.plan) && Attempt(e, op, pValue).Some?
    ensures !(op.Update? || op.MapAds?) ==> Attempt(e, op, pValue).value.plan == e.plan
    ensures op.Update? || op.MapAds? ==> (Attempt(e, op, pValue).value.plan == e.plan <==> RepeatsPlan(op, e.plan))
  {
    if op.Update? { MergedIffRepeats(e.plan, op.update); }
    if op.MapAds? { WithAdsIff(e.plan, op.ads); }
  }

  /** The accepted edits from `n` on all repeat the plan as it was approved. */
  ghost predicate EditsRepeat(plan: Plan, ops: seq<Operation>, n: nat, k: nat, pValue: PValue)
    requires ValidPlan(plan) && n <= k <= |ops|
  {
    forall j :: n <= j < k && EditsAt(plan, ops, j, pValue) ==> RepeatsPlan(ops[j], After(plan, ops[..n], pValue).plan)
  }

  ghost predicate PlanStays(plan: Plan, ops: seq<Operation>, n: nat, k: nat, pValue: PValue)
    requires ValidPlan(plan) && n <= k <= |ops|
  {
    forall m :: n <= m <= k ==> After(plan, ops[..m], pValue).plan == After(plan, ops[..n], pValue).plan
  }

  /** One operation on an experiment whose plan is `p`. */
  lemma OneEdit(e: Experiment, op: Operation, pValue: PValue, p: Plan)
    requires ValidPlan(e.plan) && e.plan == p
    ensures Or(Attempt(e, op, pValue), e).plan == p
       <==> ((op.Update? || op.MapAds?) && Attempt(e, op, pValue).Some? ==> RepeatsPlan(op, p))
  {
    if Attempt(e, op, pValue).Some? { EditStep(e, op, pValue); }
  }

  lemma PlanStaysSnoc(plan: Plan, ops: seq<Operation>, n: nat, k: nat, pValue: PValue)
    requires ValidPlan(plan) && n <= k < |ops| && PlanStays(plan, ops, n, k, pValue)
    ensures After(plan, ops[..k], pValue).plan == After(plan, ops[..n], pValue).plan
    ensures PlanStays(plan, ops, n, k + 1, pValue)
       <==> After(plan, ops[..k + 1], pValue).plan == After(plan, ops[..n], pValue).plan
  {
  }

  lemma PlanStaysStep(plan: Plan, ops: seq<Operation>, n: nat, k: nat, pValue: PValue)
    requires ValidPlan(plan) && n <= k < |ops| && PlanStays(plan, ops, n, k, pValue)
    ensures PlanStays(plan, ops, n, k + 1, pValue)
       <==> (EditsAt(plan, ops, k, pValue) ==> RepeatsPlan(ops[k], After(plan, ops[..n], pValue).plan))
  {
    PlanStaysSnoc(plan, ops, n, k, pValue);
    AfterStep(plan, ops, k, pValue);
    OneEdit(After(plan, ops[..k], pValue), ops[k], pValue, After(plan, ops[..n], pValue).plan);
  }

  lemma {:induction false} PlanStaysIff(plan: Plan, ops: seq<Operation>, n: nat, k: nat, pValue: PValue)
    requires ValidPlan(plan) && n <= k <= |ops|
    ensures PlanStays(plan, ops, n, k, pValue) <==> EditsRepeat(plan, ops, n, k, pValue)
    decreases k
  {
    if k > n {
      PlanStaysIff(plan, ops, n, k - 1, pValue);
      if PlanStays(plan, ops, n, k - 1, pValue) { PlanStaysStep(plan, ops, n, k - 1, pValue); }
    }
  }

  /** From an approval on, the plan stays as it was approved exactly if every accepted edit repeats
      it; and each such edit comes after a preview shown since the approval. */
  lemma ApprovedPlanStaysIff(plan: Plan, ops: seq<Operation>, n: nat, pValue: PValue)
    requires ValidPlan(plan) && n <= |ops| && ApprovedAt(plan, ops, n, pValue)
    ensures PlanStays(plan, ops, n, |ops|, pValue) <==>
      forall k :: n <= k < |ops| && EditsAt(plan, ops, k, pValue) ==> RepeatsPlan(ops[k], After(plan, ops[..n], pValue).plan)
    ensures forall k :: n <= k < |ops| && EditsAt(plan, ops, k, pValue) ==> ShownBetween(ops, n, k)
  {
    PlanStaysIff(plan, ops, n, |ops|, pValue);
    forall k | n <= k < |ops| && EditsAt(plan, ops, k, pValue) ensures ShownBetween(ops, n, k) {
      EditNeedsPreview(plan, ops, n, k, pValue);
    }
  }

  /** And a preview is all it takes: in every reachable approved state, showing one and then sending
      any valid draft update is accepted, and keeps the plan exactly if the update repeats it. */
  lemma ApprovedPlanCanChange(plan: Plan, ops: seq<Operation>, u: DraftUpdate, pValue: PValue)
    requires ValidPlan(plan) && ValidUpdate(u) && After(plan, ops, pValue).status == Approved
    ensures var p, later := After(plan, ops, pValue).plan, After(plan, ops + [Show, Update(u)], pValue);
      later.plan == Merged(p, u) && (later.plan == p <==> Repeats(u, p)) && later.status == Planned
  {
    var e := After(plan, ops, pValue);
    assert (ops + [Show, Update(u)])[..|ops| + 1] == ops + [Show];
    assert (ops + [Show])[..|ops|] == ops;
    assert After(plan, ops + [Show], pValue) == MakePreview(e).value;
    MergedIffRepeats(e.plan, u);
  }
}
