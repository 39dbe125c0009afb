/** The rules of approval, spelled out: what may be decided and dispatched, and what every call leaves
    behind. */
module OrchestratorRules {
  import opened Orchestrator
  import opened OrchestratorRuns
  import opened Sorting
  import opened Wrappers

  /** Action `i` is the first with the id. */
  ghost predicate FirstAt(actions: seq<Action>, id: ActionId, i: int)
  {
    0 <= i < |actions| && actions[i].id == id && forall j :: 0 <= j < i ==> actions[j].id != id
  }

  ghost predicate Unlisted(actions: seq<Action>, id: ActionId) { forall i :: 0 <= i < |actions| ==> actions[i].id != id }

  lemma IndexIff(actions: seq<Action>, id: ActionId)
    ensures IndexOf(actions, id) == |actions| <==> Unlisted(actions, id)
    ensures forall i :: FirstAt(actions, id, i) <==> i == IndexOf(actions, id) && i < |actions|
  {
    var n := IndexOf(actions, id);
    forall i | FirstAt(actions, id, i) ensures !(i < n) && !(n < i) {}
  }

  /** Action `i` has got another status, and nothing else changed about the actions. */
  predicate Restated(before: seq<Action>, after: seq<Action>, i: int, status: Status)
  {
    && |after| == |before| && 0 <= i < |before|
    && after[i] == Action(before[i].id, before[i].tool, before[i].guarded, status)
    && forall j :: 0 <= j < |before| && j != i ==> after[j] == before[j]
  }

  function OtherThan(id: ActionId): ActionId -> bool { (x: ActionId) => x != id }

  lemma {:induction false} RemovedIff(ids: seq<ActionId>, id: ActionId)
    ensures Removed(ids, id) == Filter(OtherThan(id), ids)
  {
    if ids != [] { RemovedIff(ids[1..], id); }
  }

  /** What remains of the hub when one report and its audit events change. */
  predicate OnlyReport(h: Hub, t: TaskId, r: Report, events: seq<AuditEvent>, after: Hub)
  {
    after.reports == h.reports[t := r] && after.audit == h.audit + events
  }

  // ---------------------------------------------------------------------------------------
  // Planning

  function IsGuarded(): Action -> bool { (a: Action) => a.guarded }

  lemma {:induction false} GuardedIdsIff(actions: seq<Action>)
    ensures var guarded := Filter(IsGuarded(), actions);
      |GuardedIds(actions)| == |guarded| && forall k :: 0 <= k < |guarded| ==> GuardedIds(actions)[k] == guarded[k].id
  {
    if actions != [] { GuardedIdsIff(actions[1..]); }
  }

  /** A new report lists the guarded actions for approval, each once, in the order of the plan. */
  lemma PlanRule(h: Hub, t: TaskId, actions: seq<Action>, review: bool)
    ensures var after := Plan(h, t, actions, review);
      && t in after.reports && OnlyReport(h, t, after.reports[t], [TaskCreated(t)], after)
      && after.reports[t].actions == actions && after.reports[t].review == review
      && var guarded := Filter(IsGuarded(), actions);
         |after.reports[t].required| == |guarded|
         && forall k :: 0 <= k < |guarded| ==> after.reports[t].required[k] == guarded[k].id
  {
    GuardedIdsIff(actions);
  }

  // ---------------------------------------------------------------------------------------
  // Deciding

  /** The owner decides on guarded actions that are proposed, approved or failed. */
  predicate Open(a: Action) { a.guarded && a.status != Rejected && a.status != Executed }

  /** What a decision on action `i` leaves: its status, an approval list without it, one audit event. */
  ghost predicate DecidedAt(h: Hub, t: TaskId, id: ActionId, approved: bool, i: int, after: Hub)
    requires t in h.reports
  {
    var r := h.reports[t];
    && t in after.reports && after.reports[t].review == r.review
    && Restated(r.actions, after.reports[t].actions, i, if approved then Approved else Rejected)
    && after.reports[t].required == Filter(OtherThan(id), r.required)
    && OnlyReport(h, t, after.reports[t], [Decided(t, id, approved)], after)
  }

  lemma DecideRule(h: Hub, t: TaskId, id: ActionId, approved: bool, i: int)
    ensures var (outcome, after) := Decide(h, t, id, approved);
      && (t !in h.reports ==> outcome == NoTask)
      && (t in h.reports && Unlisted(h.reports[t].actions, id) ==> outcome == NoAction)
      && (t in h.reports && FirstAt(h.reports[t].actions, id, i) ==>
            var a := h.reports[t].actions[i];
            if Open(a) then outcome == Done && DecidedAt(h, t, id, approved, i, after)
            else outcome == if a.guarded then WrongStatus(a.status) else NotGuarded)
      && (outcome != Done ==> after == h)
  {
    if t in h.reports {
      IndexIff(h.reports[t].actions, id);
      RemovedIff(h.reports[t].required, id);
    }
  }

  // ---------------------------------------------------------------------------------------
  // Executing

  /** Dispatched are approved actions, and unguarded ones that were neither rejected nor executed. */
  predicate Dispatchable(a: Action)
  {
    a.status == Approved || (!a.guarded && (a.status == Proposed || a.status == ExecutionFailed))
  }

  /** What dispatching action `i` leaves: its new status, the approval list, to which a guarded action
      returns when it fails, and two audit events. */
  ghost predicate ExecutedAt(h: Hub, t: TaskId, id: ActionId, succeeds: bool, i: int, after: Hub)
    requires t in h.reports && 0 <= i < |h.reports[t].actions|
  {
    var r := h.reports[t];
    && t in after.reports && after.reports[t].review == r.review
    && Restated(r.actions, after.reports[t].actions, i, if succeeds then Executed else ExecutionFailed)
    && after.reports[t].required == r.required + (if !succeeds && r.actions[i].guarded && id !in r.required then [id] else [])
    && OnlyReport(h, t, after.reports[t], [Started(t, id), Finished(t, id, succeeds)], after)
  }

  lemma ExecuteRule(h: Hub, t: TaskId, id: ActionId, succeeds: bool, i: int)
    ensures var (outcome, after) := Execute(h, t, id, succeeds);
      && (t !in h.reports ==> outcome == NoTask)
      && (t in h.reports && Unlisted(h.reports[t].actions, id) ==> outcome == NoAction)
      && (t in h.reports && FirstAt(h.reports[t].actions, id, i) ==>
            var a := h.reports[t].actions[i];
            if Dispatchable(a) then outcome == Done && ExecutedAt(h, t, id, succeeds, i, after)
            else outcome == WrongStatus(a.status))
      && (outcome != Done ==> after == h)
  {
    if t in h.reports {
      IndexIff(h.reports[t].actions, id);
      assert h.reports[t].required + [] == h.reports[t].required;
    }
  }

  // ---------------------------------------------------------------------------------------
  // Analysing

  /** An allowed read: unguarded, of a listed tool, not approved or rejected by anybody. */
  predicate Read(a: Action, readTools: set<string>)
  {
    !a.guarded && a.tool in readTools && a.status != Approved && a.status != Rejected
  }

  /** How an analysis leaves an action. */
  function AfterRead(a: Action, readTools: set<string>, succeeding: set<ActionId>): Action
  {
    if Read(a, readTools) then Action(a.id, a.tool, a.guarded, if a.id in succeeding then Executed else ExecutionFailed) else a
  }

  /** The audit events of the reads among the actions, in order. */
  function ReadEvents(t: TaskId, actions: seq<Action>, readTools: set<string>, succeeding: set<ActionId>): seq<AuditEvent>
    decreases |actions|
  {
    if actions == [] then []
    else
      var front, a := actions[..|actions| - 1], actions[|actions| - 1];
      ReadEvents(t, front, readTools, succeeding)
      + if Read(a, readTools) then [Started(t, a.id), Finished(t, a.id, a.id in succeeding)] else []
  }

  /** The first `n` actions were read, if they may be, and nothing else changed. */
  ghost predicate ReadUpTo(t: TaskId, r: Report, readTools: set<string>, succeeding: set<ActionId>, n: nat, a: Analysis)
    requires n <= |r.actions|
  {
    && |a.report.actions| == |r.actions| && a.report.required == r.required && a.report.review == r.review
    && (forall i :: 0 <= i < n ==> a.report.actions[i] == AfterRead(r.actions[i], readTools, succeeding))
    && (forall i :: n <= i < |r.actions| ==> a.report.actions[i] == r.actions[i])
    && a.events == ReadEvents(t, r.actions[..n], readTools, succeeding)
  }

  lemma ReadOneMore(t: TaskId, r: Report, readTools: set<string>, succeeding: set<ActionId>, n: nat, a: Analysis)
    requires DistinctIds(r.actions) && n < |r.actions| && ReadUpTo(t, r, readTools, succeeding, n, a)
    ensures var next := ReadStep(t, a.report, readTools, succeeding, n);
      ReadUpTo(t, r, readTools, succeeding, n + 1, Analysis(next.report, a.events + next.events))
  {
    assert r.actions[..n + 1][..n] == r.actions[..n];
    assert DistinctIds(a.report.actions) by {
      forall i, j | 0 <= i < j < |r.actions| ensures a.report.actions[i].id != a.report.actions[j].id {
        assert a.report.actions[i].id == r.actions[i].id && a.report.actions[j].id == r.actions[j].id;
      }
    }
    if AutoRead(a.report.actions[n], readTools) {
      ReadStepForm(t, a.report, readTools, succeeding, n);
    } else {
      assert a.events + [] == a.events;
    }
  }

  lemma {:induction false} ReadsUpTo(t: TaskId, r: Report, readTools: set<string>, succeeding: set<ActionId>, n: nat)
    requires DistinctIds(r.actions) && n <= |r.actions|
    ensures ReadUpTo(t, r, readTools, succeeding, n, AnalyzeReads(t, r, readTools, succeeding, n))
  {
    if n > 0 {
      ReadsUpTo(t, r, readTools, succeeding, n - 1);
      ReadOneMore(t, r, readTools, succeeding, n - 1, AnalyzeReads(t, r, readTools, succeeding, n - 1));
    } else {
      assert r.actions[..0] == [];
    }
  }

  /** An analysis dispatches each allowed read once, in order, and touches no other action and not the
      approval list; in the local-evidence mode it dispatches nothing and empties both lists. */
  lemma AnalyzeRule(h: Hub, t: TaskId, readTools: set<string>, succeeding: set<ActionId>)
    requires t in h.reports && DistinctIds(h.reports[t].actions)
    ensures var (outcome, after) := Analyze(h, t, readTools, succeeding); var r := h.reports[t];
      && outcome == Done && t in after.reports && after.reports[t].review == r.review
      && if r.review then
           && after.reports[t].actions == [] && after.reports[t].required == []
           && OnlyReport(h, t, after.reports[t], [AnswerGenerated(t)], after)
         else
           && after.reports[t].required == r.required && |after.reports[t].actions| == |r.actions|
           && (forall i :: 0 <= i < |r.actions| ==> after.reports[t].actions[i] == AfterRead(r.actions[i], readTools, succeeding))
           && OnlyReport(h, t, after.reports[t], ReadEvents(t, r.actions, readTools, succeeding) + [AnswerGenerated(t)], after)
  {
    var r := h.reports[t];
    var n := |r.actions|;
    ReadsUpTo(t, r, readTools, succeeding, n);
    assert r.actions[..n] == r.actions;
    var events := AnalyzeReads(t, r, readTools, succeeding, n).events;
    assert (h.audit + events) + [AnswerGenerated(t)] == h.audit + (events + [AnswerGenerated(t)]);
  }
}
