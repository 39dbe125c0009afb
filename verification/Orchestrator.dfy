/** Approval control of services/agent_hub/npd_agent_hub/orchestrator.py: planning, deciding,
    executing and analysing, with non-overlapping calls and an executor that always answers. */
module Orchestrator {
  import opened Wrappers

  datatype Status = Proposed | Approved | Rejected | Executed | ExecutionFailed

  type ActionId = string

  type TaskId = string

  /** `guarded` actions require approval. */
  datatype Action = Action(id: ActionId, tool: string, guarded: bool, status: Status)

  /** `required` lists the ids of the actions awaiting approval; `review` marks the local-evidence mode. */
  datatype Report = Report(actions: seq<Action>, required: seq<ActionId>, review: bool)

  datatype AuditEvent =
    | TaskCreated(task: TaskId)
    | Decided(task: TaskId, action: ActionId, approved: bool)
    | Started(task: TaskId, action: ActionId)
    | Finished(task: TaskId, action: ActionId, succeeded: bool)
    | AnswerGenerated(task: TaskId)

  datatype Hub = Hub(reports: map<TaskId, Report>, audit: seq<AuditEvent>)

  datatype Outcome = Done | NoTask | NoAction | NotGuarded | WrongStatus(status: Status)

  /** `_get_action`: the first action with the id. */
  function IndexOf(actions: seq<Action>, id: ActionId): (i: nat)
    ensures i <= |actions|
    ensures i < |actions| ==> actions[i].id == id
    ensures forall j :: 0 <= j < i ==> actions[j].id != id
  {
    if actions == [] || actions[0].id == id then 0 else 1 + IndexOf(actions[1..], id)
  }

  function WithStatus(actions: seq<Action>, i: nat, status: Status): seq<Action>
    requires i < |actions|
  {
    actions[i := actions[i].(status := status)]
  }

  function Removed(ids: seq<ActionId>, id: ActionId): (r: seq<ActionId>)
    ensures forall x :: x in r <==> x in ids && x != id
  {
    if ids == [] then [] else (if ids[0] == id then [] else [ids[0]]) + Removed(ids[1..], id)
  }

  function GuardedIds(actions: seq<Action>): (r: seq<ActionId>)
    ensures forall x :: x in r <==> exists i :: 0 <= i < |actions| && actions[i].guarded && actions[i].id == x
  {
    if actions == [] then []
    else
      var r := (if actions[0].guarded then [actions[0].id] else []) + GuardedIds(actions[1..]);
      assert forall i :: 0 < i < |actions| ==> actions[1..][i - 1] == actions[i];
      r
  }

  predicate Decidable(status: Status) { status == Proposed || status == Approved || status == ExecutionFailed }

  // ---------------------------------------------------------------------------------------
  // On one report

  function DecideReport(r: Report, id: ActionId, approved: bool): (Outcome, Report)
  {
    var i := IndexOf(r.actions, id);
    if i == |r.actions| then (NoAction, r)
    else if !r.actions[i].guarded then (NotGuarded, r)
    else if !Decidable(r.actions[i].status) then (WrongStatus(r.actions[i].status), r)
    else (Done, r.(actions := WithStatus(r.actions, i, if approved then Approved else Rejected), required := Removed(r.required, id)))
  }

  /** Why an action is not dispatched, if it is not. */
  function Refusal(a: Action): Option<Outcome>
  {
    if a.status == Rejected || a.status == Executed || (a.guarded && a.status != Approved)
    then Some(WrongStatus(a.status)) else None
  }

  function ExecuteReport(r: Report, id: ActionId, succeeds: bool): (Outcome, Report)
  {
    var i := IndexOf(r.actions, id);
    if i == |r.actions| then (NoAction, r)
    else if Refusal(r.actions[i]).Some? then (Refusal(r.actions[i]).value, r)
    else
      var actions := WithStatus(r.actions, i, if succeeds then Executed else ExecutionFailed);
      var again := !succeeds && r.actions[i].guarded && id !in r.required;
      (Done, r.(actions := actions, required := if again then r.required + [id] else r.required))
  }

  predicate AutoRead(a: Action, readTools: set<string>)
  {
    a.tool in readTools && !a.guarded && (a.status == Proposed || a.status == Executed || a.status == ExecutionFailed)
  }

  /** A report in analysis and the audit events written so far. */
  datatype Analysis = Analysis(report: Report, events: seq<AuditEvent>)

  /** One round of the read loop of `analyze`, with the audit events it writes. */
  function ReadStep(t: TaskId, r: Report, readTools: set<string>, succeeding: set<ActionId>, i: nat): (a: Analysis)
    requires i < |r.actions|
    ensures |a.report.actions| == |r.actions|
  {
    var action := r.actions[i];
    if !AutoRead(action, readTools) then Analysis(r, [])
    else
      var reset := if action.status == Executed then r.(actions := WithStatus(r.actions, i, Proposed)) else r;
      var (outcome, after) := ExecuteReport(reset, action.id, action.id in succeeding);
      Analysis(after, if outcome == Done then [Started(t, action.id), Finished(t, action.id, action.id in succeeding)] else [])
  }

  function AnalyzeReads(t: TaskId, r: Report, readTools: set<string>, succeeding: set<ActionId>, n: nat): (a: Analysis)
    requires n <= |r.actions|
    ensures |a.report.actions| == |r.actions|
  {
    if n == 0 then Analysis(r, [])
    else
      var before := AnalyzeReads(t, r, readTools, succeeding, n - 1);
      var after := ReadStep(t, before.report, readTools, succeeding, n - 1);
      Analysis(after.report, before.events + after.events)
  }

  // ---------------------------------------------------------------------------------------
  // On the hub

  function Plan(h: Hub, t: TaskId, actions: seq<Action>, review: bool): Hub
  {
    Hub(h.reports[t := Report(actions, GuardedIds(actions), review)], h.audit + [TaskCreated(t)])
  }

  function Decide(h: Hub, t: TaskId, id: ActionId, approved: bool): (Outcome, Hub)
  {
    if t !in h.reports then (NoTask, h)
    else
      var (outcome, r) := DecideReport(h.reports[t], id, approved);
      (outcome, if outcome == Done then Hub(h.reports[t := r], h.audit + [Decided(t, id, approved)]) else h)
  }

  function Execute(h: Hub, t: TaskId, id: ActionId, succeeds: bool): (Outcome, Hub)
  {
    if t !in h.reports then (NoTask, h)
    else
      var (outcome, r) := ExecuteReport(h.reports[t], id, succeeds);
      (outcome, if outcome == Done then Hub(h.reports[t := r], h.audit + [Started(t, id), Finished(t, id, succeeds)]) else h)
  }

  function Analyze(h: Hub, t: TaskId, readTools: set<string>, succeeding: set<ActionId>): (Outcome, Hub)
  {
    if t !in h.reports then (NoTask, h)
    else if h.reports[t].review then
      (Done, Hub(h.reports[t := h.reports[t].(actions := [], required := [])], h.audit + [AnswerGenerated(t)]))
    else
      var Analysis(r, events) := AnalyzeReads(t, h.reports[t], readTools, succeeding, |h.reports[t].actions|);
      (Done, Hub(h.reports[t := r], h.audit + events + [AnswerGenerated(t)]))
  }

  lemma ConcatAssociates(a: seq<AuditEvent>, b: seq<AuditEvent>, c: seq<AuditEvent>)
    ensures (a + b) + c == a + (b + c)
  {
  }

  /** The control plane. `succeeds` and `succeeding` are what the tool executor answers. */
  class AgentHub {
    var reports: map<TaskId, Report>
    var audit: seq<AuditEvent>

    constructor ()
      ensures reports == map[] && audit == []
    {
      reports, audit := map[], [];
    }

    function Stored(): Hub
      reads this
    {
      Hub(reports, audit)
    }

    method Run(t: TaskId, actions: seq<Action>, review: bool)
      modifies this
      ensures Stored() == Plan(old(Stored()), t, actions, review)
    {
      reports := reports[t := Report(actions, GuardedIds(actions), review)];
      audit := audit + [TaskCreated(t)];
    }

    method DecideAction(t: TaskId, id: ActionId, approved: bool) returns (outcome: Outcome)
      modifies this
      ensures (outcome, Stored()) == Decide(old(Stored()), t, id, approved)
    {
      if t !in reports { return NoTask; }
      var report := reports[t];
      var i := IndexOf(report.actions, id);
      if i == |report.actions| { return NoAction; }
      if !report.actions[i].guarded { return NotGuarded; }
      if !Decidable(report.actions[i].status) { return WrongStatus(report.actions[i].status); }
      var actions := WithStatus(report.actions, i, if approved then Approved else Rejected);
      reports := reports[t := report.(actions := actions, required := Removed(report.required, id))];
      audit := audit + [Decided(t, id, approved)];
      outcome := Done;
    }

    method ExecuteAction(t: TaskId, id: ActionId, succeeds: bool) returns (outcome: Outcome)
      modifies this
      ensures (outcome, Stored()) == Execute(old(Stored()), t, id, succeeds)
    {
      if t !in reports { return NoTask; }
      var report := reports[t];
      var i := IndexOf(report.actions, id);
      if i == |report.actions| { return NoAction; }
      var a := report.actions[i];
      if a.status == Rejected || a.status == Executed { return WrongStatus(a.status); }
      if a.guarded && a.status != Approved { return WrongStatus(a.status); }
      ghost var events := [Started(t, id), Finished(t, id, succeeds)];
      audit := audit + [Started(t, id)];
      report := report.(actions := WithStatus(report.actions, i, if succeeds then Executed else ExecutionFailed));
      if !succeeds && a.guarded && id !in report.required {
        report := report.(required := report.required + [id]);
      }
      reports := reports[t := report];
      audit := audit + [Finished(t, id, succeeds)];
      assert audit == old(audit) + events;
      outcome := Done;
    }

    /** One round of the read loop. */
    method ReadOne(t: TaskId, i: nat, readTools: set<string>, succeeding: set<ActionId>)
      requires t in reports && i < |reports[t].actions|
      modifies this
      ensures t in reports && reports == old(reports)[t := reports[t]]
      ensures reports[t] == ReadStep(t, old(reports)[t], readTools, succeeding, i).report
      ensures audit == old(audit) + ReadStep(t, old(reports)[t], readTools, succeeding, i).events
    {
      var a := reports[t].actions[i];
      assert old(audit) + [] == old(audit);
      if AutoRead(a, readTools) {
        if a.status == Executed {
          reports := reports[t := reports[t].(actions := WithStatus(reports[t].actions, i, Proposed))];
        }
        var _ := ExecuteAction(t, a.id, a.id in succeeding);
      }
    }

    /** The read loop. */
    method ReadActions(t: TaskId, readTools: set<string>, succeeding: set<ActionId>)
      requires t in reports
      modifies this
      ensures reports == old(reports)[t := AnalyzeReads(t, old(reports)[t], readTools, succeeding, |old(reports)[t].actions|).report]
      ensures audit == old(audit) + AnalyzeReads(t, old(reports)[t], readTools, succeeding, |old(reports)[t].actions|).events
    {
      ghost var start := reports[t];
      ghost var done := Analysis(start, []);
      assert old(audit) + [] == old(audit);
      var n := |reports[t].actions|;
      for i := 0 to n
        invariant done == AnalyzeReads(t, start, readTools, succeeding, i)
        invariant t in reports && reports[t] == done.report && reports == old(reports)[t := done.report]
        invariant audit == old(audit) + done.events
      {
        ghost var next := ReadStep(t, done.report, readTools, succeeding, i);
        ReadOne(t, i, readTools, succeeding);
        ConcatAssociates(old(audit), done.events, next.events);
        done := Analysis(next.report, done.events + next.events);
      }
    }

    method AnalyzeTask(t: TaskId, readTools: set<string>, succeeding: set<ActionId>) returns (outcome: Outcome)
      modifies this
      ensures (outcome, Stored()) == Analyze(old(Stored()), t, readTools, succeeding)
    {
      if t !in reports { return NoTask; }
      if reports[t].review {
        reports := reports[t := reports[t].(actions := [], required := [])];
        audit := audit + [AnswerGenerated(t)];
        return Done;
      }
      ReadActions(t, readTools, succeeding);
      audit := audit + [AnswerGenerated(t)];
      outcome := Done;
    }
  }
}
