/** What every step of the control plane keeps: the approval budget, the approval list, final states. */
module OrchestratorRuns {
  import opened Orchestrator
  import opened Wrappers

  datatype Operation =
    | PlanTask(task: TaskId, actions: seq<Action>, review: bool)
    | DecideAction(task: TaskId, action: ActionId, approved: bool)
    | ExecuteAction(task: TaskId, action: ActionId, succeeds: bool)
    | AnalyzeTask(task: TaskId, readTools: set<string>, succeeding: set<ActionId>)

  /** What the agents plan: proposed actions with an id each; the review mode plans none. */
  ghost predicate WellPlanned(op: Operation)
    requires op.PlanTask?
  {
    && DistinctIds(op.actions) && (op.review ==> op.actions == [])
    && forall i :: 0 <= i < |op.actions| ==> op.actions[i].status == Proposed
  }

  /** A plan whose ids are new to the audit trail. */
  ghost predicate FreshPlan(h: Hub, op: Operation)
    requires op.PlanTask?
  {
    WellPlanned(op) && forall i :: 0 <= i < |op.actions| ==> NeverMentioned(h.audit, op.task, op.actions[i].id)
  }

  ghost predicate DistinctIds(actions: seq<Action>)
  {
    forall i, j :: 0 <= i < j < |actions| ==> actions[i].id != actions[j].id
  }

  ghost predicate NeverMentioned(audit: seq<AuditEvent>, t: TaskId, id: ActionId)
  {
    Approvals(audit, t, id) == 0 && Dispatches(audit, t, id) == 0 && Successes(audit, t, id) == 0
  }

  ghost function Apply(h: Hub, op: Operation): Hub
  {
    match op
    case PlanTask(t, actions, review) => Plan(h, t, actions, review)
    case DecideAction(t, id, approved) => Decide(h, t, id, approved).1
    case ExecuteAction(t, id, succeeds) => Execute(h, t, id, succeeds).1
    case AnalyzeTask(t, readTools, succeeding) => Analyze(h, t, readTools, succeeding).1
  }

  // ---------------------------------------------------------------------------------------
  // What the audit trail says about one action

  function Approvals(audit: seq<AuditEvent>, t: TaskId, id: ActionId): nat { multiset(audit)[Decided(t, id, true)] }

  function Dispatches(audit: seq<AuditEvent>, t: TaskId, id: ActionId): nat { multiset(audit)[Started(t, id)] }

  function Successes(audit: seq<AuditEvent>, t: TaskId, id: ActionId): nat { multiset(audit)[Finished(t, id, true)] }

  /** The ledger of a guarded action: an approval not yet used is what status APPROVED stands for. */
  ghost predicate Budgeted(audit: seq<AuditEvent>, t: TaskId, a: Action)
  {
    a.guarded ==>
      && Dispatches(audit, t, a.id) + (if a.status == Approved then 1 else 0) <= Approvals(audit, t, a.id)
      && Successes(audit, t, a.id) == (if a.status == Executed then 1 else 0)
  }

  ghost predicate Awaits(r: Report, id: ActionId)
  {
    exists i :: 0 <= i < |r.actions| && r.actions[i].id == id && AwaitsApproval(r.actions[i])
  }

  predicate AwaitsApproval(a: Action) { a.guarded && (a.status == Proposed || a.status == ExecutionFailed) }

  ghost predicate ReportSound(audit: seq<AuditEvent>, t: TaskId, r: Report)
  {
    && DistinctIds(r.actions)
    && (forall i :: 0 <= i < |r.actions| ==> Budgeted(audit, t, r.actions[i]))
    && (forall id :: id in r.required <==> Awaits(r, id))
    && (r.review ==> r.actions == [])
  }

  ghost predicate Sound(h: Hub)
  {
    forall t :: t in h.reports ==> ReportSound(h.audit, t, h.reports[t])
  }

  // ---------------------------------------------------------------------------------------
  // Steps on one report

  lemma IndexOfDistinct(actions: seq<Action>, i: nat)
    requires DistinctIds(actions) && i < |actions|
    ensures IndexOf(actions, actions[i].id) == i
  {
    assert IndexOf(actions, actions[i].id) <= i;
  }

  /** Changing the status of action `i`, and the approval list to match. */
  lemma StatusChanged(r: Report, i: nat, status: Status, required: seq<ActionId>, id: ActionId)
    requires DistinctIds(r.actions) && i < |r.actions|
    requires id in r.required <==> Awaits(r, id)
    requires id != r.actions[i].id ==> (id in required <==> id in r.required)
    requires id == r.actions[i].id ==> (id in required <==> AwaitsApproval(r.actions[i].(status := status)))
    ensures var after := r.(actions := WithStatus(r.actions, i, status), required := required);
      DistinctIds(after.actions) && (id in after.required <==> Awaits(after, id))
  {
    var after := r.(actions := WithStatus(r.actions, i, status), required := required);
    if Awaits(r, id) && id != r.actions[i].id {
      var j :| 0 <= j < |r.actions| && r.actions[j].id == id && AwaitsApproval(r.actions[j]);
      assert after.actions[j] == r.actions[j];
    }
    if Awaits(after, id) {
      var j :| 0 <= j < |after.actions| && after.actions[j].id == id && AwaitsApproval(after.actions[j]);
      if j != i { assert after.actions[j] == r.actions[j] && r.actions[j].id != r.actions[i].id; }
    }
    if id == r.actions[i].id { assert after.actions[i].id == id; }
  }

  /** What a step may do to the audit trail: add events that do not mention the other actions. */
  ghost predicate SameCounts(a: seq<AuditEvent>, b: seq<AuditEvent>, t: TaskId, id: ActionId)
  {
    Approvals(a, t, id) == Approvals(b, t, id) && Dispatches(a, t, id) == Dispatches(b, t, id) && Successes(a, t, id) == Successes(b, t, id)
  }

  lemma DecideKeeps(audit: seq<AuditEvent>, t: TaskId, r: Report, id: ActionId, approved: bool)
    requires ReportSound(audit, t, r)
    ensures var (outcome, after) := DecideReport(r, id, approved);
      outcome == Done ==> ReportSound(audit + [Decided(t, id, approved)], t, after)
  {
    var (outcome, after) := DecideReport(r, id, approved);
    if outcome == Done {
      var i := IndexOf(r.actions, id);
      var longer := audit + [Decided(t, id, approved)];
      forall x ensures DistinctIds(after.actions) && (x in after.required <==> Awaits(after, x)) {
        StatusChanged(r, i, if approved then Approved else Rejected, after.required, x);
      }
      forall j | 0 <= j < |after.actions| ensures Budgeted(longer, t, after.actions[j]) {
        assert Budgeted(audit, t, r.actions[j]);
        if j != i { OtherCounts(audit, t, Decided(t, id, approved), r.actions[j].id); }
      }
    }
  }

  function Mentions(e: AuditEvent): Option<(TaskId, ActionId)>
  {
    match e
    case Decided(t, id, _) => Some((t, id))
    case Started(t, id) => Some((t, id))
    case Finished(t, id, _) => Some((t, id))
    case _ => None
  }

  lemma OtherCounts(audit: seq<AuditEvent>, t: TaskId, e: AuditEvent, id: ActionId)
    requires Mentions(e) != Some((t, id))
    ensures SameCounts(audit, audit + [e], t, id)
  {
  }

  lemma ExecuteKeeps(audit: seq<AuditEvent>, t: TaskId, r: Report, id: ActionId, succeeds: bool)
    requires ReportSound(audit, t, r)
    ensures var (outcome, after) := ExecuteReport(r, id, succeeds);
      outcome == Done ==> ReportSound(audit + [Started(t, id), Finished(t, id, succeeds)], t, after)
  {
    var (outcome, after) := ExecuteReport(r, id, succeeds);
    if outcome == Done {
      var i := IndexOf(r.actions, id);
      var begun := audit + [Started(t, id)];
      assert begun + [Finished(t, id, succeeds)] == audit + [Started(t, id), Finished(t, id, succeeds)];
      forall x ensures DistinctIds(after.actions) && (x in after.required <==> Awaits(after, x)) {
        ExecutedAwaits(r, i, succeeds, x);
        StatusChanged(r, i, if succeeds then Executed else ExecutionFailed, after.required, x);
      }
      forall j | 0 <= j < |after.actions|
        ensures Budgeted(begun + [Finished(t, id, succeeds)], t, after.actions[j])
      {
        assert Budgeted(audit, t, r.actions[j]);
        if j != i {
          OtherCounts(audit, t, Started(t, id), r.actions[j].id);
          OtherCounts(begun, t, Finished(t, id, succeeds), r.actions[j].id);
        }
      }
    }
  }

  /** A dispatched action is not on the approval list, and afterwards it is there exactly if it
      needs a new approval. */
  lemma ExecutedAwaits(r: Report, i: nat, succeeds: bool, id: ActionId)
    requires DistinctIds(r.actions) && i < |r.actions| && Refusal(r.actions[i]).None?
    requires id in r.required <==> Awaits(r, id)
    ensures id == r.actions[i].id ==> id !in r.required
  {
    forall j | 0 <= j < |r.actions| && r.actions[j].id == r.actions[i].id ensures !AwaitsApproval(r.actions[j]) {
      assert i == j;
    }
  }

  // ---------------------------------------------------------------------------------------
  // Analysis

  /** `b` says of every guarded action what `a` says: the same actions, the same statuses. */
  ghost predicate GuardedSame(a: Report, b: Report)
  {
    && |a.actions| == |b.actions| && a.required == b.required
    && forall i :: 0 <= i < |a.actions| ==>
         a.actions[i].id == b.actions[i].id && a.actions[i].guarded == b.actions[i].guarded
         && (a.actions[i].guarded ==> a.actions[i] == b.actions[i])
  }

  ghost predicate UnguardedEvents(t: TaskId, r: Report, events: seq<AuditEvent>)
  {
    forall e :: e in events ==> exists i :: 0 <= i < |r.actions| && !r.actions[i].guarded && Mentions(e) == Some((t, r.actions[i].id))
  }

  /** An allowed read is reset if needed, dispatched, and changes its own status only. */
  lemma ReadStepForm(t: TaskId, r: Report, readTools: set<string>, succeeding: set<ActionId>, i: nat)
    requires DistinctIds(r.actions) && i < |r.actions| && AutoRead(r.actions[i], readTools)
    ensures var id := r.actions[i].id; var succeeds := id in succeeding;
      ReadStep(t, r, readTools, succeeding, i)
        == Analysis(r.(actions := WithStatus(r.actions, i, if succeeds then Executed else ExecutionFailed)),
                    [Started(t, id), Finished(t, id, succeeds)])
  {
    var reset := if r.actions[i].status == Executed then r.(actions := WithStatus(r.actions, i, Proposed)) else r;
    assert DistinctIds(reset.actions);
    IndexOfDistinct(reset.actions, i);
    assert reset.actions[i].id == r.actions[i].id;
  }

  lemma ReadStepKeeps(t: TaskId, r: Report, readTools: set<string>, succeeding: set<ActionId>, i: nat)
    requires DistinctIds(r.actions) && i < |r.actions|
    ensures var Analysis(after, events) := ReadStep(t, r, readTools, succeeding, i);
      GuardedSame(r, after) && UnguardedEvents(t, r, events)
  {
    if AutoRead(r.actions[i], readTools) { ReadStepForm(t, r, readTools, succeeding, i); }
  }

  lemma GuardedSameTransitive(a: Report, b: Report, c: Report)
    requires GuardedSame(a, b) && GuardedSame(b, c)
    ensures GuardedSame(a, c)
  {
  }

  lemma UnguardedMore(t: TaskId, r: Report, before: Report, events: seq<AuditEvent>, more: seq<AuditEvent>)
    requires GuardedSame(r, before) && UnguardedEvents(t, r, events) && UnguardedEvents(t, before, more)
    ensures UnguardedEvents(t, r, events + more)
  {
    forall e | e in more
      ensures exists i :: 0 <= i < |r.actions| && !r.actions[i].guarded && Mentions(e) == Some((t, r.actions[i].id))
    {
      var i :| 0 <= i < |before.actions| && !before.actions[i].guarded && Mentions(e) == Some((t, before.actions[i].id));
      assert !r.actions[i].guarded;
    }
  }

  ghost predicate OnlyReads(t: TaskId, r: Report, a: Analysis)
  {
    GuardedSame(r, a.report) && UnguardedEvents(t, r, a.events)
  }

  lemma OneMoreRead(t: TaskId, r: Report, a: Analysis, readTools: set<string>, succeeding: set<ActionId>, i: nat)
    requires DistinctIds(r.actions) && OnlyReads(t, r, a) && i < |a.report.actions|
    ensures var next := ReadStep(t, a.report, readTools, succeeding, i);
      OnlyReads(t, r, Analysis(next.report, a.events + next.events))
  {
    assert DistinctIds(a.report.actions);
    ReadStepKeeps(t, a.report, readTools, succeeding, i);
    var next := ReadStep(t, a.report, readTools, succeeding, i);
    GuardedSameTransitive(r, a.report, next.report);
    UnguardedMore(t, r, a.report, a.events, next.events);
  }

  lemma {:induction false} ReadsKeep(t: TaskId, r: Report, readTools: set<string>, succeeding: set<ActionId>, n: nat)
    requires DistinctIds(r.actions) && n <= |r.actions|
    ensures OnlyReads(t, r, AnalyzeReads(t, r, readTools, succeeding, n))
  {
    if n > 0 {
      ReadsKeep(t, r, readTools, succeeding, n - 1);
      OneMoreRead(t, r, AnalyzeReads(t, r, readTools, succeeding, n - 1), readTools, succeeding, n - 1);
    }
  }

  lemma {:induction false} ForeignEvents(audit: seq<AuditEvent>, events: seq<AuditEvent>, t: TaskId, id: ActionId)
    requires forall e :: e in events ==> Mentions(e) != Some((t, id))
    ensures SameCounts(audit, audit + events, t, id)
    decreases |events|
  {
    if events == [] {
      assert audit + events == audit;
    } else {
      var n := |events| - 1;
      ForeignEvents(audit, events[..n], t, id);
      OtherCounts(audit + events[..n], t, events[n], id);
      assert audit + events == audit + events[..n] + [events[n]];
    }
  }

  /** Analysing never dispatches a guarded action, nor changes its status or its place in the approval list. */
  lemma AnalyzeLeavesGuarded(h: Hub, t: TaskId, readTools: set<string>, succeeding: set<ActionId>, i: nat)
    requires t in h.reports && DistinctIds(h.reports[t].actions) && !h.reports[t].review
    requires i < |h.reports[t].actions| && h.reports[t].actions[i].guarded
    ensures var after := Analyze(h, t, readTools, succeeding).1; var id := h.reports[t].actions[i].id;
      && GuardedSame(h.reports[t], after.reports[t]) && SameCounts(h.audit, after.audit, t, id)
      && after.reports[t].actions[i] == h.reports[t].actions[i]
  {
    var r := h.reports[t];
    var id := r.actions[i].id;
    ReadsKeep(t, r, readTools, succeeding, |r.actions|);
    var events := AnalyzeReads(t, r, readTools, succeeding, |r.actions|).events;
    forall e | e in events ensures Mentions(e) != Some((t, id)) {
      var j :| 0 <= j < |r.actions| && !r.actions[j].guarded && Mentions(e) == Some((t, r.actions[j].id));
      if j < i { assert r.actions[j].id != r.actions[i].id; }
      if i < j { assert r.actions[i].id != r.actions[j].id; }
    }
    ForeignEvents(h.audit, events, t, id);
    OtherCounts(h.audit + events, t, AnswerGenerated(t), id);
  }

  lemma GuardedSameIsSound(audit: seq<AuditEvent>, later: seq<AuditEvent>, t: TaskId, r: Report, q: Report)
    requires ReportSound(audit, t, r) && GuardedSame(r, q) && q.review == r.review
    requires forall i :: 0 <= i < |r.actions| && r.actions[i].guarded ==> SameCounts(audit, later, t, r.actions[i].id)
    ensures ReportSound(later, t, q)
  {
    forall i | 0 <= i < |q.actions| ensures Budgeted(later, t, q.actions[i]) {
      assert Budgeted(audit, t, r.actions[i]);
    }
    forall id ensures id in q.required <==> Awaits(q, id) { SameAwaits(r, q, id); }
  }

  lemma {:induction false} ReadsKeepReview(t: TaskId, r: Report, readTools: set<string>, succeeding: set<ActionId>, n: nat)
    requires n <= |r.actions|
    ensures AnalyzeReads(t, r, readTools, succeeding, n).report.review == r.review
  {
    if n > 0 { ReadsKeepReview(t, r, readTools, succeeding, n - 1); }
  }

  lemma AnalyzeKeeps(h: Hub, t: TaskId, readTools: set<string>, succeeding: set<ActionId>)
    requires t in h.reports && ReportSound(h.audit, t, h.reports[t])
    ensures var after := Analyze(h, t, readTools, succeeding).1; ReportSound(after.audit, t, after.reports[t])
  {
    var r := h.reports[t];
    var after := Analyze(h, t, readTools, succeeding).1;
    if r.review {
      assert forall id :: !Awaits(after.reports[t], id);
    } else {
      ReadsKeep(t, r, readTools, succeeding, |r.actions|);
      ReadsKeepReview(t, r, readTools, succeeding, |r.actions|);
      forall i | 0 <= i < |r.actions| && r.actions[i].guarded ensures SameCounts(h.audit, after.audit, t, r.actions[i].id) {
        AnalyzeLeavesGuarded(h, t, readTools, succeeding, i);
      }
      GuardedSameIsSound(h.audit, after.audit, t, r, after.reports[t]);
    }
  }

  lemma SameAwaits(a: Report, b: Report, id: ActionId)
    requires GuardedSame(a, b)
    ensures Awaits(a, id) <==> Awaits(b, id)
  {
    if i :| 0 <= i < |a.actions| && a.actions[i].id == id && AwaitsApproval(a.actions[i]) { assert AwaitsApproval(b.actions[i]); }
    if i :| 0 <= i < |b.actions| && b.actions[i].id == id && AwaitsApproval(b.actions[i]) { assert AwaitsApproval(a.actions[i]); }
  }

  // ---------------------------------------------------------------------------------------
  // Steps on the hub

  lemma PlanKeeps(h: Hub, op: Operation)
    requires op.PlanTask? && FreshPlan(h, op)
    ensures var after := Apply(h, op); ReportSound(after.audit, op.task, after.reports[op.task])
  {
    var r := Apply(h, op).reports[op.task];
    forall i | 0 <= i < |r.actions| ensures Budgeted(h.audit + [TaskCreated(op.task)], op.task, r.actions[i]) {
      assert NeverMentioned(h.audit, op.task, op.actions[i].id);
      OtherCounts(h.audit, op.task, TaskCreated(op.task), r.actions[i].id);
    }
    forall id ensures id in r.required <==> Awaits(r, id) {
      if i :| 0 <= i < |r.actions| && r.actions[i].guarded && r.actions[i].id == id { assert AwaitsApproval(r.actions[i]); }
    }
  }

  lemma OwnReportKept(h: Hub, op: Operation)
    requires Sound(h) && op.task in Apply(h, op).reports && (op.PlanTask? ==> FreshPlan(h, op))
    ensures ReportSound(Apply(h, op).audit, op.task, Apply(h, op).reports[op.task])
  {
    var t := op.task;
    match op
    case PlanTask(_, _, _) => PlanKeeps(h, op);
    case DecideAction(_, id, approved) => DecideKeeps(h.audit, t, h.reports[t], id, approved);
    case ExecuteAction(_, id, succeeds) => ExecuteKeeps(h.audit, t, h.reports[t], id, succeeds);
    case AnalyzeTask(_, readTools, succeeding) => AnalyzeKeeps(h, t, readTools, succeeding);
  }

  /** The events of an operation mention actions of its own task only. */
  lemma OwnEvents(h: Hub, op: Operation, t: TaskId, id: ActionId)
    requires Sound(h) && t != op.task
    ensures SameCounts(h.audit, Apply(h, op).audit, t, id)
  {
    match op
    case PlanTask(u, _, _) => OtherCounts(h.audit, t, TaskCreated(u), id);
    case DecideAction(u, a, approved) => OtherCounts(h.audit, t, Decided(u, a, approved), id);
    case ExecuteAction(u, a, succeeds) => ForeignEvents(h.audit, [Started(u, a), Finished(u, a, succeeds)], t, id);
    case AnalyzeTask(u, readTools, succeeding) =>
      if u in h.reports {
        if h.reports[u].review {
          OtherCounts(h.audit, t, AnswerGenerated(u), id);
        } else {
          var r := h.reports[u];
          ReadsKeep(u, r, readTools, succeeding, |r.actions|);
          var events := AnalyzeReads(u, r, readTools, succeeding, |r.actions|).events;
          ForeignEvents(h.audit, events, t, id);
          OtherCounts(h.audit + events, t, AnswerGenerated(u), id);
        }
      }
  }

  lemma OtherReportKept(h: Hub, op: Operation, t: TaskId)
    requires Sound(h) && t in h.reports && t != op.task
    ensures t in Apply(h, op).reports && Apply(h, op).reports[t] == h.reports[t]
    ensures ReportSound(Apply(h, op).audit, t, h.reports[t])
  {
    var r := h.reports[t];
    assert ReportSound(h.audit, t, r);
    forall i | 0 <= i < |r.actions| ensures Budgeted(Apply(h, op).audit, t, r.actions[i]) {
      assert Budgeted(h.audit, t, r.actions[i]);
      OwnEvents(h, op, t, r.actions[i].id);
    }
  }

  lemma StepKeepsSound(h: Hub, op: Operation)
    requires Sound(h) && (op.PlanTask? ==> FreshPlan(h, op))
    ensures Sound(Apply(h, op))
  {
    var after := Apply(h, op);
    forall t | t in after.reports ensures ReportSound(after.audit, t, after.reports[t]) {
      if t == op.task { OwnReportKept(h, op); } else { OtherReportKept(h, op, t); }
    }
  }

  // ---------------------------------------------------------------------------------------
  // Final states

  ghost predicate FinalAt(h: Hub, t: TaskId, i: nat, a: Action)
  {
    t in h.reports && i < |h.reports[t].actions| && h.reports[t].actions[i] == a
  }

  predicate IsFinal(a: Action) { a.guarded && (a.status == Rejected || a.status == Executed) }

  lemma FinalUnderDecideReport(r: Report, i: nat, id: ActionId, approved: bool)
    requires i < |r.actions| && IsFinal(r.actions[i]) && DistinctIds(r.actions)
    ensures var (outcome, after) := DecideReport(r, id, approved);
      |after.actions| == |r.actions| && after.actions[i] == r.actions[i] && (outcome == Done ==> id != r.actions[i].id)
  {
    IndexOfDistinct(r.actions, i);
  }

  lemma FinalUnderDecide(h: Hub, t: TaskId, i: nat, a: Action, id: ActionId, approved: bool)
    requires FinalAt(h, t, i, a) && IsFinal(a) && DistinctIds(h.reports[t].actions)
    ensures var after := Decide(h, t, id, approved).1; FinalAt(after, t, i, a) && SameCounts(h.audit, after.audit, t, a.id)
  {
    FinalUnderDecideReport(h.reports[t], i, id, approved);
    OtherCountsUnless(h.audit, Decided(t, id, approved), t, a.id, id);
  }

  lemma FinalUnderExecute(h: Hub, t: TaskId, i: nat, a: Action, id: ActionId, succeeds: bool)
    requires FinalAt(h, t, i, a) && IsFinal(a) && DistinctIds(h.reports[t].actions)
    ensures var after := Execute(h, t, id, succeeds).1; FinalAt(after, t, i, a) && SameCounts(h.audit, after.audit, t, a.id)
  {
    IndexOfDistinct(h.reports[t].actions, i);
    if id != a.id { ForeignEvents(h.audit, [Started(t, id), Finished(t, id, succeeds)], t, a.id); }
  }

  lemma FinalStep(h: Hub, op: Operation, t: TaskId, i: nat, a: Action)
    requires Sound(h) && FinalAt(h, t, i, a) && IsFinal(a) && !(op.PlanTask? && op.task == t)
    ensures FinalAt(Apply(h, op), t, i, a) && SameCounts(h.audit, Apply(h, op).audit, t, a.id)
  {
    if op.task != t {
      OtherReportKept(h, op, t);
      OwnEvents(h, op, t, a.id);
    } else {
      assert ReportSound(h.audit, t, h.reports[t]);
      match op
      case DecideAction(_, id, approved) => FinalUnderDecide(h, t, i, a, id, approved);
      case ExecuteAction(_, id, succeeds) => FinalUnderExecute(h, t, i, a, id, succeeds);
      case AnalyzeTask(_, readTools, succeeding) => AnalyzeLeavesGuarded(h, t, readTools, succeeding, i);
    }
  }

  lemma OtherCountsUnless(audit: seq<AuditEvent>, e: AuditEvent, t: TaskId, id: ActionId, other: ActionId)
    requires Mentions(e) == Some((t, other))
    ensures id != other ==> SameCounts(audit, audit + [e], t, id)
  {
    if id != other { OtherCounts(audit, t, e, id); }
  }
}
