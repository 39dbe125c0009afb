/** Approvals over every run of the control plane, replanning included. */
module ApprovalRuns {
  import opened Orchestrator
  import opened OrchestratorRuns

  ghost function After(ops: seq<Operation>): Hub
    decreases |ops|
  {
    if ops == [] then Hub(map[], []) else Apply(After(ops[..|ops| - 1]), ops[|ops| - 1])
  }

  lemma AfterSnoc(front: seq<Operation>, op: Operation)
    ensures After(front + [op]) == Apply(After(front), op)
  {
    assert (front + [op])[..|front|] == front;
  }

  // ---------------------------------------------------------------------------------------
  // Generated ids

  predicate HasId(actions: seq<Action>, id: ActionId)
  {
    exists i :: 0 <= i < |actions| && actions[i].id == id
  }

  predicate Plans(op: Operation, t: TaskId, id: ActionId)
  {
    op.PlanTask? && op.task == t && HasId(op.actions, id)
  }

  ghost predicate NoneInCommon(a: Operation, b: Operation)
  {
    forall t, id :: Plans(a, t, id) ==> !Plans(b, t, id)
  }

  /** Every planning of the run names new actions: an id, once planned for a task, is not generated
      for it again. Nothing else is asked of a run; a task may be planned anew at any time. */
  ghost predicate GeneratedIds(ops: seq<Operation>)
  {
    && (forall i :: 0 <= i < |ops| && ops[i].PlanTask? ==> WellPlanned(ops[i]))
    && (forall i, j :: 0 <= i < j < |ops| ==> NoneInCommon(ops[i], ops[j]))
  }

  ghost predicate Planned(ops: seq<Operation>, t: TaskId, id: ActionId)
  {
    exists i :: 0 <= i < |ops| && Plans(ops[i], t, id)
  }

  predicate Listed(h: Hub, t: TaskId, id: ActionId) { t in h.reports && HasId(h.reports[t].actions, id) }

  lemma GeneratedInFront(ops: seq<Operation>)
    requires ops != [] && GeneratedIds(ops)
    ensures var n := |ops| - 1;
      GeneratedIds(ops[..n]) && forall t, id :: Planned(ops[..n], t, id) ==> !Plans(ops[n], t, id)
  {
    var n := |ops| - 1;
    GeneratedInPrefix(ops, n);
    forall t, id | Planned(ops[..n], t, id) ensures !Plans(ops[n], t, id) {
      var i :| 0 <= i < n && Plans(ops[..n][i], t, id);
      assert NoneInCommon(ops[i], ops[n]);
    }
  }

  lemma GeneratedInPrefix(ops: seq<Operation>, n: nat)
    requires n <= |ops| && GeneratedIds(ops)
    ensures GeneratedIds(ops[..n])
  {
    assert forall i :: 0 <= i < n ==> ops[..n][i] == ops[i];
  }

  lemma PlannedSnoc(ops: seq<Operation>, n: nat, t: TaskId, id: ActionId)
    requires n < |ops|
    ensures Planned(ops[..n + 1], t, id) <==> Planned(ops[..n], t, id) || Plans(ops[n], t, id)
  {
    var shorter, longer := ops[..n], ops[..n + 1];
    if i :| 0 <= i < n && Plans(shorter[i], t, id) { assert longer[i] == shorter[i]; }
    if Plans(ops[n], t, id) { assert longer[n] == ops[n]; }
    if i :| 0 <= i < n + 1 && Plans(longer[i], t, id) {
      if i < n { assert shorter[i] == longer[i]; }
    }
  }

  // ---------------------------------------------------------------------------------------
  // One step and the actions that are not listed

  lemma UnlistedDecide(h: Hub, t: TaskId, a: ActionId, approved: bool, id: ActionId)
    requires !Listed(h, t, id)
    ensures var after := Decide(h, t, a, approved).1; SameCounts(h.audit, after.audit, t, id) && !Listed(after, t, id)
  {
    if a != id { OtherCountsUnless(h.audit, Decided(t, a, approved), t, id, a); }
  }

  lemma UnlistedExecute(h: Hub, t: TaskId, a: ActionId, succeeds: bool, id: ActionId)
    requires !Listed(h, t, id)
    ensures var after := Execute(h, t, a, succeeds).1; SameCounts(h.audit, after.audit, t, id) && !Listed(after, t, id)
  {
    if a != id { ForeignEvents(h.audit, [Started(t, a), Finished(t, a, succeeds)], t, id); }
  }

  lemma UnlistedAnalyze(h: Hub, t: TaskId, readTools: set<string>, succeeding: set<ActionId>, id: ActionId)
    requires Sound(h) && !Listed(h, t, id)
    ensures var after := Analyze(h, t, readTools, succeeding).1; SameCounts(h.audit, after.audit, t, id) && !Listed(after, t, id)
  {
    if t in h.reports {
      var r := h.reports[t];
      if r.review {
        OtherCounts(h.audit, t, AnswerGenerated(t), id);
      } else {
        assert ReportSound(h.audit, t, r);
        ReadsKeep(t, r, readTools, succeeding, |r.actions|);
        var events := AnalyzeReads(t, r, readTools, succeeding, |r.actions|).events;
        ForeignEvents(h.audit, events, t, id);
        OtherCounts(h.audit + events, t, AnswerGenerated(t), id);
      }
    }
  }

  /** Nothing happens to an action that is not listed, unless it is planned. */
  lemma UnlistedStep(h: Hub, op: Operation, t: TaskId, id: ActionId)
    requires Sound(h) && !Listed(h, t, id)
    ensures SameCounts(h.audit, Apply(h, op).audit, t, id)
    ensures Listed(Apply(h, op), t, id) <==> Plans(op, t, id)
  {
    if op.task != t {
      OwnEvents(h, op, t, id);
      if t in h.reports { OtherReportKept(h, op, t); }
    } else {
      match op
      case PlanTask(_, _, _) => OtherCounts(h.audit, t, TaskCreated(t), id);
      case DecideAction(_, a, approved) => UnlistedDecide(h, t, a, approved, id);
      case ExecuteAction(_, a, succeeds) => UnlistedExecute(h, t, a, succeeds, id);
      case AnalyzeTask(_, readTools, succeeding) => UnlistedAnalyze(h, t, readTools, succeeding, id);
    }
  }

  // ---------------------------------------------------------------------------------------
  // Runs

  /** Whatever is listed or counted for an action, the action was planned. */
  ghost predicate PlannedOnly(ops: seq<Operation>, h: Hub)
  {
    forall t, id :: !Planned(ops, t, id) ==> !Listed(h, t, id) && NeverMentioned(h.audit, t, id)
  }

  lemma FreshFromGenerated(ops: seq<Operation>)
    requires ops != [] && GeneratedIds(ops) && PlannedOnly(ops[..|ops| - 1], After(ops[..|ops| - 1]))
    ensures ops[|ops| - 1].PlanTask? ==> FreshPlan(After(ops[..|ops| - 1]), ops[|ops| - 1])
  {
    var n := |ops| - 1;
    GeneratedInFront(ops);
    if ops[n].PlanTask? {
      forall i | 0 <= i < |ops[n].actions| ensures NeverMentioned(After(ops[..n]).audit, ops[n].task, ops[n].actions[i].id) {
        assert Plans(ops[n], ops[n].task, ops[n].actions[i].id);
      }
    }
  }

  lemma {:induction false} RunIsSound(ops: seq<Operation>)
    requires GeneratedIds(ops)
    ensures Sound(After(ops)) && PlannedOnly(ops, After(ops))
    decreases |ops|
  {
    if ops != [] {
      var n := |ops| - 1;
      GeneratedInFront(ops);
      RunIsSound(ops[..n]);
      FreshFromGenerated(ops);
      StepKeepsSound(After(ops[..n]), ops[n]);
      assert ops[..n + 1] == ops;
      forall t, id | !Planned(ops, t, id) ensures !Listed(After(ops), t, id) && NeverMentioned(After(ops).audit, t, id) {
        PlannedSnoc(ops, n, t, id);
        UnlistedStep(After(ops[..n]), ops[n], t, id);
      }
    }
  }

  lemma RunStaysSound(ops: seq<Operation>)
    requires GeneratedIds(ops)
    ensures Sound(After(ops))
  {
    RunIsSound(ops);
  }

  /** In every reachable state the approval list of a task holds exactly its guarded actions that
      are proposed or failed. */
  lemma ApprovalListIsExact(ops: seq<Operation>, t: TaskId, i: nat)
    requires GeneratedIds(ops) && t in After(ops).reports && i < |After(ops).reports[t].actions|
    ensures var a := After(ops).reports[t].actions[i]; a.id in After(ops).reports[t].required <==> AwaitsApproval(a)
  {
    RunIsSound(ops);
    var r := After(ops).reports[t];
    assert ReportSound(After(ops).audit, t, r);
    if Awaits(r, r.actions[i].id) {
      var j :| 0 <= j < |r.actions| && r.actions[j].id == r.actions[i].id && AwaitsApproval(r.actions[j]);
      assert i == j;
    }
  }

  ghost predicate WithinBudget(audit: seq<AuditEvent>, t: TaskId, id: ActionId)
  {
    Dispatches(audit, t, id) <= Approvals(audit, t, id) && Successes(audit, t, id) <= 1
  }

  /** The action is within its budget, and guarded as long as it is listed. */
  ghost predicate GuardedLedger(h: Hub, t: TaskId, id: ActionId)
  {
    && WithinBudget(h.audit, t, id)
    && (t in h.reports ==> forall i :: 0 <= i < |h.reports[t].actions| && h.reports[t].actions[i].id == id ==> h.reports[t].actions[i].guarded)
  }

  lemma BudgetedIsWithin(h: Hub, t: TaskId, id: ActionId)
    requires Sound(h) && Listed(h, t, id)
    requires forall i :: 0 <= i < |h.reports[t].actions| && h.reports[t].actions[i].id == id ==> h.reports[t].actions[i].guarded
    ensures GuardedLedger(h, t, id)
  {
    var i :| 0 <= i < |h.reports[t].actions| && h.reports[t].actions[i].id == id;
    assert ReportSound(h.audit, t, h.reports[t]);
    assert Budgeted(h.audit, t, h.reports[t].actions[i]);
  }

  /** Actions keep their ids and stay guarded as long as their task is not planned anew. */
  lemma SameActions(h: Hub, op: Operation, t: TaskId)
    requires Sound(h) && t in h.reports && !(op.PlanTask? && op.task == t)
    ensures t in Apply(h, op).reports
    ensures var a, b := h.reports[t].actions, Apply(h, op).reports[t].actions;
      |a| == |b| && forall i :: 0 <= i < |a| ==> a[i].id == b[i].id && a[i].guarded == b[i].guarded
  {
    if op.task != t {
      OtherReportKept(h, op, t);
    } else if op.AnalyzeTask? {
      var r := h.reports[t];
      assert ReportSound(h.audit, t, r);
      if !r.review { ReadsKeep(t, r, op.readTools, op.succeeding, |r.actions|); }
    }
  }

  lemma LedgerStep(h: Hub, op: Operation, t: TaskId, id: ActionId)
    requires Sound(h) && Sound(Apply(h, op)) && GuardedLedger(h, t, id) && !Plans(op, t, id)
    ensures GuardedLedger(Apply(h, op), t, id)
  {
    if !Listed(h, t, id) {
      UnlistedStep(h, op, t, id);
    } else if op.PlanTask? && op.task == t {
      OtherCounts(h.audit, t, TaskCreated(t), id);
    } else {
      SameActions(h, op, t);
      var i :| 0 <= i < |h.reports[t].actions| && h.reports[t].actions[i].id == id;
      assert Apply(h, op).reports[t].actions[i].id == id;
      BudgetedIsWithin(Apply(h, op), t, id);
    }
  }

  lemma PlannedLedger(ops: seq<Operation>, k: nat, x: nat)
    requires GeneratedIds(ops) && k < |ops| && ops[k].PlanTask?
    requires x < |ops[k].actions| && ops[k].actions[x].guarded
    ensures GuardedLedger(After(ops[..k + 1]), ops[k].task, ops[k].actions[x].id)
  {
    var t, id, h := ops[k].task, ops[k].actions[x].id, After(ops[..k + 1]);
    assert ops[..k + 1][..k] == ops[..k];
    GeneratedInPrefix(ops, k + 1);
    RunIsSound(ops[..k + 1]);
    assert h.reports[t].actions == ops[k].actions;
    assert WellPlanned(ops[k]);
    forall i | 0 <= i < |h.reports[t].actions| && h.reports[t].actions[i].id == id ensures h.reports[t].actions[i].guarded {
      assert i == x;
    }
    assert HasId(h.reports[t].actions, id);
    BudgetedIsWithin(h, t, id);
  }

  lemma LedgerContinues(front: seq<Operation>, op: Operation, t: TaskId, id: ActionId)
    requires Sound(After(front)) && Sound(After(front + [op])) && GuardedLedger(After(front), t, id) && !Plans(op, t, id)
    ensures GuardedLedger(After(front + [op]), t, id)
  {
    AfterSnoc(front, op);
    LedgerStep(After(front), op, t, id);
  }

  lemma PlannedOnce(ops: seq<Operation>, k: nat, x: nat)
    requires GeneratedIds(ops) && k < |ops| - 1 && ops[k].PlanTask? && x < |ops[k].actions|
    ensures !Plans(ops[|ops| - 1], ops[k].task, ops[k].actions[x].id)
  {
    assert Plans(ops[k], ops[k].task, ops[k].actions[x].id) && NoneInCommon(ops[k], ops[|ops| - 1]);
  }

  lemma {:induction false} LedgerIsKept(ops: seq<Operation>, k: nat, x: nat)
    requires GeneratedIds(ops) && k < |ops| && ops[k].PlanTask?
    requires x < |ops[k].actions| && ops[k].actions[x].guarded
    ensures GuardedLedger(After(ops), ops[k].task, ops[k].actions[x].id)
    decreases |ops|
  {
    if k == |ops| - 1 {
      assert ops[..k + 1] == ops;
      PlannedLedger(ops, k, x);
    } else {
      var front, op := ops[..|ops| - 1], ops[|ops| - 1];
      assert ops == front + [op] && front[k] == ops[k];
      GeneratedInPrefix(ops, |ops| - 1);
      LedgerIsKept(front, k, x);
      RunStaysSound(front);
      RunStaysSound(ops);
      PlannedOnce(ops, k, x);
      LedgerContinues(front, op, ops[k].task, ops[k].actions[x].id);
    }
  }

  /** For ever: once a guarded action was planned, in every later state it was dispatched at most as
      often as it was approved, and succeeded at most once, even after its task was planned anew. */
  lemma ApprovalBudget(ops: seq<Operation>, k: nat, x: nat)
    requires GeneratedIds(ops) && k < |ops| && ops[k].PlanTask?
    requires x < |ops[k].actions| && ops[k].actions[x].guarded
    ensures var t, id, audit := ops[k].task, ops[k].actions[x].id, After(ops).audit;
      Dispatches(audit, t, id) <= Approvals(audit, t, id) && Successes(audit, t, id) <= 1
  {
    LedgerIsKept(ops, k, x);
  }

  // ---------------------------------------------------------------------------------------
  // Final states

  /** The action is as it was, or no longer listed. */
  ghost predicate FinalOrGone(h: Hub, t: TaskId, i: nat, a: Action) { FinalAt(h, t, i, a) || !Listed(h, t, a.id) }

  lemma FinalOrGoneStep(h: Hub, op: Operation, t: TaskId, i: nat, a: Action)
    requires Sound(h) && FinalOrGone(h, t, i, a) && IsFinal(a) && !Plans(op, t, a.id)
    ensures FinalOrGone(Apply(h, op), t, i, a) && SameCounts(h.audit, Apply(h, op).audit, t, a.id)
  {
    if !Listed(h, t, a.id) {
      UnlistedStep(h, op, t, a.id);
    } else if op.PlanTask? && op.task == t {
      OtherCounts(h.audit, t, TaskCreated(t), a.id);
    } else {
      FinalStep(h, op, t, i, a);
    }
  }

  lemma FinalWasPlanned(ops: seq<Operation>, n: nat, t: TaskId, i: nat, a: Action)
    requires GeneratedIds(ops) && n < |ops| && FinalAt(After(ops[..n]), t, i, a)
    ensures !Plans(ops[|ops| - 1], t, a.id)
  {
    GeneratedInPrefix(ops, n);
    RunIsSound(ops[..n]);
    assert Listed(After(ops[..n]), t, a.id);
    assert Planned(ops[..n], t, a.id);
    var k :| 0 <= k < n && Plans(ops[..n][k], t, a.id);
    assert Plans(ops[k], t, a.id) && NoneInCommon(ops[k], ops[|ops| - 1]);
  }

  lemma FinalContinues(front: seq<Operation>, op: Operation, t: TaskId, i: nat, a: Action)
    requires Sound(After(front)) && FinalOrGone(After(front), t, i, a) && IsFinal(a) && !Plans(op, t, a.id)
    ensures FinalOrGone(After(front + [op]), t, i, a)
    ensures SameCounts(After(front).audit, After(front + [op]).audit, t, a.id)
  {
    AfterSnoc(front, op);
    FinalOrGoneStep(After(front), op, t, i, a);
  }

  /** REJECTED and EXECUTED are final: whatever follows, planning the task anew included, the guarded
      action is never approved or dispatched again, and it keeps its status as long as it is listed. */
  lemma {:induction false} RejectedAndExecutedAreFinal(ops: seq<Operation>, n: nat, t: TaskId, i: nat, a: Action)
    requires GeneratedIds(ops) && n <= |ops| && FinalAt(After(ops[..n]), t, i, a) && IsFinal(a)
    ensures FinalOrGone(After(ops), t, i, a) && SameCounts(After(ops[..n]).audit, After(ops).audit, t, a.id)
    decreases |ops|
  {
    if n == |ops| {
      assert ops[..n] == ops;
    } else {
      var front, op := ops[..|ops| - 1], ops[|ops| - 1];
      assert ops == front + [op] && front[..n] == ops[..n];
      GeneratedInPrefix(ops, |ops| - 1);
      RejectedAndExecutedAreFinal(front, n, t, i, a);
      RunStaysSound(front);
      FinalWasPlanned(ops, n, t, i, a);
      FinalContinues(front, op, t, i, a);
    }
  }
}
