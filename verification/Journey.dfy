/** The journey projection of services/agent_hub/npd_agent_hub/journeys.py: a replay of one
    subject's touchpoints through a partly linear state machine. */
module Journey {
  import opened Sorting
  import opened TextOrder
  import opened Wrappers

  datatype State =
    | Anonymous | Lead | Engaged | Mql | Sql | Appointment | SiteVisit | Negotiation | Won | Customer
    | Lost | Reengagement

  const STATE_SEQUENCE := [Anonymous, Lead, Engaged, Mql, Sql, Appointment, SiteVisit, Negotiation, Won, Customer]

  const NEGOTIATION_RANK := 7

  predicate Linear(s: State) { s != Lost && s != Reengagement }

  function Rank(s: State): (r: nat)
    requires Linear(s)
    ensures r < 10 && STATE_SEQUENCE[r] == s
  {
    match s
    case Anonymous => 0
    case Lead => 1
    case Engaged => 2
    case Mql => 3
    case Sql => 4
    case Appointment => 5
    case SiteVisit => 6
    case Negotiation => 7
    case Won => 8
    case Customer => 9
  }

  datatype Kind = AdClick | LandingView | FormSubmit | LeadCreated | OpportunityCreated | OpportunityStageChanged | SaleClosed

  datatype Source = EspoCrm | SalesHub | OtherSource

  /** The `journey_evidence` metadata: absent, failing the versioned contract, or declaring a state. */
  datatype Declaration = NotDeclared | Malformed | Declares(state: State)

  datatype Event = Event(id: string, at: int, kind: Kind, source: Source, declaration: Declaration)

  datatype Assessment = NotRequired | Accepted(state: State) | RejectedSource(state: State) | InvalidContract

  predicate SalesState(s: State)
  {
    s == Mql || s == Appointment || s == SiteVisit || s == Lost || s == Customer || s == Reengagement
  }

  /** SOURCE_POLICY. */
  predicate Authoritative(source: Source, s: State)
  {
    source == EspoCrm || (source == SalesHub && s != Lost && s != Customer)
  }

  function Assess(e: Event): Assessment
  {
    if e.declaration.NotDeclared? then NotRequired
    else if e.kind != OpportunityStageChanged && e.kind != SaleClosed then InvalidContract
    else if e.declaration.Malformed? || !SalesState(e.declaration.state) then InvalidContract
    else if !Authoritative(e.source, e.declaration.state) then RejectedSource(e.declaration.state)
    else Accepted(e.declaration.state)
  }

  predicate Untrusted(e: Event) { Assess(e).RejectedSource? || Assess(e).InvalidContract? }

  function Direct(kind: Kind): Option<State>
  {
    match kind
    case FormSubmit => Some(Lead)
    case LeadCreated => Some(Lead)
    case OpportunityCreated => Some(Sql)
    case OpportunityStageChanged => Some(Negotiation)
    case SaleClosed => Some(Won)
    case _ => None
  }

  function TargetOf(e: Event, current: State): Option<State>
  {
    if Untrusted(e) then None
    else if Assess(e).Accepted? then Some(Assess(e).state)
    else if Direct(e.kind).Some? then Direct(e.kind)
    else if Linear(current) && Rank(current) >= Rank(Lead) then Some(Engaged)
    else None
  }

  predicate Allowed(previous: State, target: State)
  {
    if target == Reengagement then previous == Lost || previous == Customer
    else if target == Lost then previous != Lost && previous != Won && previous != Customer && previous != Reengagement
    else if previous == Lost || previous == Reengagement then false
    else Rank(target) > Rank(previous)
  }

  function SkippedStates(previous: State, target: State): seq<State>
  {
    if target == Lost then
      if !Linear(previous) || Rank(previous) >= NEGOTIATION_RANK then []
      else STATE_SEQUENCE[Rank(previous) + 1..NEGOTIATION_RANK + 1]
    else if target == Reengagement || !Linear(previous) || Rank(target) <= Rank(previous) + 1 then []
    else STATE_SEQUENCE[Rank(previous) + 1..Rank(target)]
  }

  datatype Transition = Transition(previous: State, target: State, evidence: Event, skipped: seq<State>)

  /** The replay so far. */
  datatype Replay = Replay(current: State, transitions: seq<Transition>, suppressed: nat)

  const START := Replay(Anonymous, [], 0)

  function Step(r: Replay, e: Event): Replay
  {
    var target := TargetOf(e, r.current);
    if target.None? then r.(suppressed := r.suppressed + if Untrusted(e) then 1 else 0)
    else if !Allowed(r.current, target.value) then r.(suppressed := r.suppressed + 1)
    else
      Replay(target.value, r.transitions + [Transition(r.current, target.value, e, SkippedStates(r.current, target.value))],
             r.suppressed)
  }

  function ReplayOf(events: seq<Event>): Replay
    decreases |events|
  {
    if events == [] then START else Step(ReplayOf(events[..|events| - 1]), events[|events| - 1])
  }

  predicate EventBefore(a: Event, b: Event)
  {
    a.at < b.at || (a.at == b.at && Before(a.id, b.id))
  }

  lemma EventBeforeIsOrder()
    ensures StrictOrder(EventBefore)
  {
    BeforeIsTotal();
  }

  /** The ledger holds each event id once. */
  ghost predicate DistinctIds(rows: seq<Event>)
  {
    forall i, j :: 0 <= i < j < |rows| ==> rows[i].id != rows[j].id
  }

  function Observed(transitions: seq<Transition>): set<State>
  {
    set t | t in transitions :: t.target
  }

  function Skipped(transitions: seq<Transition>): set<State>
  {
    set t, s | t in transitions && s in t.skipped :: s
  }

  /** `missing_signals`: the states from LEAD on that were skipped and not observed, in order. */
  function Missing(transitions: seq<Transition>): seq<State>
  {
    Filter(IsMissing(transitions), STATE_SEQUENCE[1..])
  }

  function IsMissing(transitions: seq<Transition>): State -> bool
  {
    (s: State) => s in Skipped(transitions) && s !in Observed(transitions)
  }

  datatype Projection = Projection(current: State, transitions: seq<Transition>, suppressed: nat, untrusted: nat, missing: seq<State>)

  function CountUntrusted(events: seq<Event>): nat
  {
    if events == [] then 0
    else CountUntrusted(events[..|events| - 1]) + if Untrusted(events[|events| - 1]) then 1 else 0
  }

  function ProjectionOf(events: seq<Event>): Projection
  {
    var r := ReplayOf(events);
    Projection(r.current, r.transitions, r.suppressed, CountUntrusted(events), Missing(r.transitions))
  }

  /** The replay loop over the rows that the ledger listed for the subject, in any order; None for
      a subject without events. */
  method Project(rows: seq<Event>) returns (p: Option<Projection>)
    ensures p.None? <==> rows == []
    ensures p.Some? ==> p.value == ProjectionOf(SortList(EventBefore, rows))
  {
    if rows == [] { return None; }
    var events := SortList(EventBefore, rows);
    var current, transitions, suppressed: nat, untrusted: nat := Anonymous, [], 0, 0;
    for i := 0 to |events|
      invariant Replay(current, transitions, suppressed) == ReplayOf(events[..i])
      invariant untrusted == CountUntrusted(events[..i])
    {
      var e := events[i];
      assert events[..i + 1][..i] == events[..i];
      if Untrusted(e) { untrusted := untrusted + 1; }
      var target := TargetOf(e, current);
      if target.None? {
        if Untrusted(e) { suppressed := suppressed + 1; }
      } else if !Allowed(current, target.value) {
        suppressed := suppressed + 1;
      } else {
        transitions := transitions + [Transition(current, target.value, e, SkippedStates(current, target.value))];
        current := target.value;
      }
    }
    assert events[..|events|] == events;
    p := Some(Projection(current, transitions, suppressed, untrusted, Missing(transitions)));
  }
}
