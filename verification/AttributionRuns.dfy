/** Every run of the attribution service from an empty store. */
module AttributionRuns {
  import opened Wrappers
  import opened Attribution
  import opened AttributionLedger
  import opened Decimals

  datatype Operation =
    | SaveCampaign(campaign: CampaignId, trackingKey: string)
    | RegisterMapping(mapping: Mapping, cap: nat)
    | IngestEvents(events: seq<SourceEvent>, now: int)
    | ReplayIssue(id: EventId, now: int)
    | BackfillRows(rows: seq<Row>)

  /** The events that an operation hands to the ingest loop. */
  function EventsOf(s: State, op: Operation): seq<SourceEvent>
  {
    match op
    case IngestEvents(events, _) => events
    case ReplayIssue(id, _) =>
      if id in s.issues && Replayable(PreviewOf(s, s.issues[id])) then [s.issues[id].event] else []
    case _ => []
  }

  function Apply(s: State, op: Operation): State
  {
    match op
    case SaveCampaign(c, key) => s.(campaigns := s.campaigns[c := key])
    case RegisterMapping(m, cap) => Register(s, m, cap).1
    case IngestEvents(_, now) => IngestAll(s, EventsOf(s, op), now)
    case ReplayIssue(_, now) => IngestAll(s, EventsOf(s, op), now)
    case BackfillRows(rows) => if BackfillAllowed(s, rows) then s.(ledger := AppendRows(s.ledger, rows)) else s
  }

  const EMPTY_STATE := State(map[], [], map[], map[])

  function After(ops: seq<Operation>): State
    decreases |ops|
  {
    if ops == [] then EMPTY_STATE else Apply(After(ops[..|ops| - 1]), ops[|ops| - 1])
  }

  // ---------------------------------------------------------------------------------------
  // Occurrence counts

  function Occurrences(s: State, id: EventId): nat
  {
    if id in s.issues then s.issues[id].occurrences else 0
  }

  function Doubtful(s: State, e: SourceEvent, id: EventId): nat
  {
    if IdOf(e) == id && !Decided(VerdictOf(s, e)) then 1 else 0
  }

  /** How often a batch found an event with this id unknown or in conflict. */
  function BatchDoubts(s: State, events: seq<SourceEvent>, now: int, id: EventId): nat
    decreases |events|
  {
    if events == [] then 0
    else
      var front, e := events[..|events| - 1], events[|events| - 1];
      BatchDoubts(s, front, now, id) + Doubtful(IngestAll(s, front, now), e, id)
  }

  function OperationDoubts(s: State, op: Operation, id: EventId): nat
  {
    if op.IngestEvents? || op.ReplayIssue? then BatchDoubts(s, EventsOf(s, op), op.now, id) else 0
  }

  function Doubts(ops: seq<Operation>, id: EventId): nat
    decreases |ops|
  {
    if ops == [] then 0
    else Doubts(ops[..|ops| - 1], id) + OperationDoubts(After(ops[..|ops| - 1]), ops[|ops| - 1], id)
  }

  lemma EventCounts(s: State, e: SourceEvent, now: int, id: EventId)
    ensures Occurrences(IngestOne(s, e, now), id) == Occurrences(s, id) + Doubtful(s, e, id)
  {
    RecordCounts(s, e, VerdictOf(s, e), Resolve(s, e), now, id);
  }

  lemma RecordCounts(s: State, e: SourceEvent, v: Verdict, r: Resolution, now: int, id: EventId)
    requires Decided(v) ==> |r.campaigns| == 1
    ensures Occurrences(Record(s, e, v, r, now), id)
      == Occurrences(s, id) + (if IdOf(e) == id && !Decided(v) then 1 else 0)
  {
  }

  lemma {:induction false} BatchCounts(s: State, events: seq<SourceEvent>, now: int, id: EventId)
    ensures Occurrences(IngestAll(s, events, now), id) == Occurrences(s, id) + BatchDoubts(s, events, now, id)
    decreases |events|
  {
    if events != [] {
      var n := |events| - 1;
      BatchCounts(s, events[..n], now, id);
      SnapshotSnoc(s, events, n, now);
      assert events[..n + 1] == events;
      EventCounts(IngestAll(s, events[..n], now), events[n], now, id);
    }
  }

  lemma OperationCounts(s: State, op: Operation, id: EventId)
    ensures Occurrences(Apply(s, op), id) == Occurrences(s, id) + OperationDoubts(s, op, id)
  {
    if op.IngestEvents? || op.ReplayIssue? {
      BatchCounts(s, EventsOf(s, op), op.now, id);
    }
  }

  /** In every reachable state an issue's count is the number of times its event was ever found
      unknown or in conflict, and an event never so found has no issue. */
  lemma {:induction false} OccurrencesCountDoubts(ops: seq<Operation>, id: EventId)
    ensures Occurrences(After(ops), id) == Doubts(ops, id)
    ensures id in After(ops).issues <==> Doubts(ops, id) > 0
    decreases |ops|
  {
    RunKeepsIssues(ops);
    if ops != [] {
      OccurrencesCountDoubts(ops[..|ops| - 1], id);
      OperationCounts(After(ops[..|ops| - 1]), ops[|ops| - 1], id);
    }
  }

  // ---------------------------------------------------------------------------------------
  // Issues

  ghost predicate IssueKept(id: EventId, issue: Issue)
  {
    IdOf(issue.event) == id && issue.occurrences > 0 && (issue.resolved <==> issue.campaign.Some?)
  }

  ghost predicate IssuesKept(s: State)
  {
    forall id :: id in s.issues ==> IssueKept(id, s.issues[id])
  }

  lemma RecordKeepsIssues(s: State, e: SourceEvent, v: Verdict, r: Resolution, now: int)
    requires Decided(v) ==> |r.campaigns| == 1
    requires IssuesKept(s)
    ensures IssuesKept(Record(s, e, v, r, now))
  {
    forall id | id in Record(s, e, v, r, now).issues ensures IssueKept(id, Record(s, e, v, r, now).issues[id]) {
      assert id in s.issues ==> IssueKept(id, s.issues[id]);
    }
  }

  lemma {:induction false} BatchKeepsIssues(s: State, events: seq<SourceEvent>, now: int)
    requires IssuesKept(s)
    ensures IssuesKept(IngestAll(s, events, now))
    decreases |events|
  {
    if events != [] {
      var n := |events| - 1;
      BatchKeepsIssues(s, events[..n], now);
      SnapshotSnoc(s, events, n, now);
      assert events[..n + 1] == events;
      var before := IngestAll(s, events[..n], now);
      RecordKeepsIssues(before, events[n], VerdictOf(before, events[n]), Resolve(before, events[n]), now);
    }
  }

  lemma {:induction false} RunKeepsIssues(ops: seq<Operation>)
    ensures IssuesKept(After(ops)) && IssuesKeyed(After(ops))
    decreases |ops|
  {
    if ops != [] {
      var before, op := After(ops[..|ops| - 1]), ops[|ops| - 1];
      RunKeepsIssues(ops[..|ops| - 1]);
      if op.IngestEvents? || op.ReplayIssue? { BatchKeepsIssues(before, EventsOf(before, op), op.now); }
    }
    assert forall id :: id in After(ops).issues ==> IssueKept(id, After(ops).issues[id]);
  }

  lemma ReplayForm(s: State, id: EventId, now: int)
    requires id in s.issues
    ensures Apply(s, ReplayIssue(id, now))
      == if Replayable(PreviewOf(s, s.issues[id])) then IngestAll(s, [s.issues[id].event], now) else s
  {
  }

  /** In every reachable state a replay is carried out exactly where the preview allows it, and
      then does what the preview announced; elsewhere it changes nothing. */
  lemma ReplayInEveryRun(ops: seq<Operation>, id: EventId, now: int)
    requires id in After(ops).issues
    ensures var s := After(ops); var p := PreviewOf(s, s.issues[id]);
      if p.state == Ready || p.state == WouldDuplicate
      then ReplayKept(s, id, Apply(s, ReplayIssue(id, now)), SnapshotOf(s, [s.issues[id].event], now))
      else Apply(s, ReplayIssue(id, now)) == s
  {
    RunKeepsIssues(ops);
    ReplayAt(After(ops), id, now);
  }

  lemma ReplayAt(s: State, id: EventId, now: int)
    requires IssuesKeyed(s) && id in s.issues
    ensures var p := PreviewOf(s, s.issues[id]);
            if p.state == Ready || p.state == WouldDuplicate
            then ReplayKept(s, id, Apply(s, ReplayIssue(id, now)), SnapshotOf(s, [s.issues[id].event], now))
            else Apply(s, ReplayIssue(id, now)) == s
  {
    ReplayForm(s, id, now);
    if Replayable(PreviewOf(s, s.issues[id])) { PreviewPredictsReplay(s, id, now); }
  }

  // ---------------------------------------------------------------------------------------
  // Ledger

  ghost predicate LedgerKeyed(ledger: map<EventId, Row>)
  {
    forall id :: id in ledger ==> ledger[id].touchpoint.id == id
  }

  lemma StepKeepsKeys(s: State, e: SourceEvent, now: int)
    requires LedgerKeyed(s.ledger)
    ensures LedgerKeyed(IngestOne(s, e, now).ledger)
  {
    StepLedger(s, e, now);
  }

  lemma {:induction false} BatchKeepsKeys(s: State, events: seq<SourceEvent>, now: int)
    requires LedgerKeyed(s.ledger)
    ensures LedgerKeyed(IngestAll(s, events, now).ledger)
    decreases |events|
  {
    if events != [] {
      var n := |events| - 1;
      BatchKeepsKeys(s, events[..n], now);
      SnapshotSnoc(s, events, n, now);
      assert events[..n + 1] == events;
      StepKeepsKeys(IngestAll(s, events[..n], now), events[n], now);
    }
  }

  lemma {:induction false} AppendKeepsKeys(ledger: map<EventId, Row>, rows: seq<Row>)
    requires LedgerKeyed(ledger)
    ensures LedgerKeyed(AppendRows(ledger, rows))
    decreases |rows|
  {
    if rows != [] { AppendKeepsKeys(ledger, rows[..|rows| - 1]); }
  }

  lemma {:induction false} RunKeepsKeys(ops: seq<Operation>)
    ensures LedgerKeyed(After(ops).ledger)
    decreases |ops|
  {
    if ops != [] {
      var before, op := After(ops[..|ops| - 1]), ops[|ops| - 1];
      RunKeepsKeys(ops[..|ops| - 1]);
      if op.IngestEvents? || op.ReplayIssue? { BatchKeepsKeys(before, EventsOf(before, op), op.now); }
      if op.BackfillRows? { AppendKeepsKeys(before.ledger, op.rows); }
    }
  }

  lemma OperationGrowsLedger(s: State, op: Operation)
    ensures LedgerGrows(s.ledger, Apply(s, op).ledger)
  {
    if op.IngestEvents? || op.ReplayIssue? { BatchAccounting(s, EventsOf(s, op), op.now); }
    if op.BackfillRows? {
      forall id | id in s.ledger
        ensures id in AppendRows(s.ledger, op.rows) && AppendRows(s.ledger, op.rows)[id] == s.ledger[id]
      {
        LedgerStays(s.ledger, op.rows, id);
      }
    }
  }

  /** The ledger is append-only: no row of any earlier state is ever changed or lost, whatever
      mix of operations follows. */
  lemma {:induction false} LedgerIsAppendOnly(ops: seq<Operation>, n: nat)
    requires n <= |ops|
    ensures LedgerGrows(After(ops[..n]).ledger, After(ops).ledger)
    decreases |ops|
  {
    if n == |ops| {
      assert ops[..n] == ops;
    } else {
      var front := ops[..|ops| - 1];
      assert front[..n] == ops[..n];
      LedgerIsAppendOnly(front, n);
      OperationGrowsLedger(After(front), ops[|ops| - 1]);
      GrowsTransitively(After(ops[..n]).ledger, After(front).ledger, After(ops).ledger);
    }
  }

  // An event of a run, and a changed one that passes for it

  function LaunchEvent(): SourceEvent
  {
    SourceEvent("event-1", Utm, Identity(None, None, None, None, None, Some("launch")), None, 0, true, Some("lead-1"), None, "")
  }

  function ChangedEvent(): SourceEvent
  {
    LaunchEvent().(identity := LaunchEvent().identity.(account := Some("act")), canonical := Some(SECOND_CAMPAIGN))
  }

  lemma LaunchRun()
    ensures After([SaveCampaign(FIRST_CAMPAIGN, "launch"), IngestEvents([LaunchEvent()], 0)])
      == IngestOne(State(map[FIRST_CAMPAIGN := "launch"], [], map[], map[]), LaunchEvent(), 0)
  {
    var save, ingest := SaveCampaign(FIRST_CAMPAIGN, "launch"), IngestEvents([LaunchEvent()], 0);
    AfterSnoc([], save);
    AfterSnoc([save], ingest);
    assert [] + [save] == [save] && [save] + [ingest] == [save, ingest];
    SingleEvent(After([save]), LaunchEvent(), 0);
  }

  /** One Campaign, one ingested event; the same event id with an account and an unknown canonical id
      is then counted as a duplicate. */
  lemma ChangePassesForDuplicate()
    ensures var s := After([SaveCampaign(FIRST_CAMPAIGN, "launch"), IngestEvents([LaunchEvent()], 0)]);
      IdOf(LaunchEvent()) in s.ledger && ChangedEvent() != LaunchEvent() && VerdictOf(s, ChangedEvent()) == Duplicate
  {
    LaunchRun();
    ChangedIsDuplicate(State(map[FIRST_CAMPAIGN := "launch"], [], map[], map[]));
  }

  lemma ChangedIsDuplicate(s: State)
    requires s == State(map[FIRST_CAMPAIGN := "launch"], [], map[], map[])
    ensures var after := IngestOne(s, LaunchEvent(), 0);
      IdOf(LaunchEvent()) in after.ledger && VerdictOf(after, ChangedEvent()) == Duplicate
  {
    LaunchIsInserted(s);
    StepLedger(s, LaunchEvent(), 0);
    UnnoticedChange(s, LaunchEvent(), 0, Some("act"), SECOND_CAMPAIGN);
  }

  lemma LaunchIsInserted(s: State)
    requires s == State(map[FIRST_CAMPAIGN := "launch"], [], map[], map[])
    ensures VerdictOf(s, LaunchEvent()) == Inserted
  {
    assert RegistryMatches(s, LaunchEvent()) == {};
    assert ContractMatches(s, LaunchEvent()) == {FIRST_CAMPAIGN};
    assert Resolve(s, LaunchEvent()).campaigns == {FIRST_CAMPAIGN};
  }

  // ---------------------------------------------------------------------------------------
  // Registry

  /** The registration at step `i` that stored its mapping. */
  ghost predicate StoredAt(ops: seq<Operation>, i: nat)
    requires i < |ops|
  {
    ops[i].RegisterMapping? && Register(After(ops[..i]), ops[i].mapping, ops[i].cap).0 == Registered
  }

  ghost predicate AgreedAt(ops: seq<Operation>, i: nat)
    requires i < |ops|
  {
    StoredAt(ops, i) ==> HiddenAgree(After(ops[..i]).registry, ops[i].mapping, ops[i].cap)
  }

  /** Every registration of the run agreed with the mappings its listing did not show. */
  ghost predicate RegistrationsAgreed(ops: seq<Operation>)
  {
    forall i: nat :: i < |ops| ==> AgreedAt(ops, i)
  }

  lemma AgreedAtInFront(ops: seq<Operation>, n: nat, i: nat)
    requires i < n <= |ops|
    ensures AgreedAt(ops[..n], i) <==> AgreedAt(ops, i)
  {
    assert ops[..n][..i] == ops[..i];
  }

  lemma AgreedInFront(ops: seq<Operation>)
    requires ops != []
    ensures RegistrationsAgreed(ops) <==> RegistrationsAgreed(ops[..|ops| - 1]) && AgreedAt(ops, |ops| - 1)
  {
    var n := |ops| - 1;
    forall i: nat | i < n ensures AgreedAt(ops[..n], i) <==> AgreedAt(ops, i) { AgreedAtInFront(ops, n, i); }
    if RegistrationsAgreed(ops[..n]) && AgreedAt(ops, n) {
      forall i: nat | i < |ops| ensures AgreedAt(ops, i) {
        if i < n { assert AgreedAt(ops[..n], i); }
      }
    }
  }

  lemma AmbiguityStays(registry: seq<Mapping>, m: Mapping)
    requires !Unambiguous(registry)
    ensures !Unambiguous(registry + [m])
  {
    var i, j :| 0 <= i < |registry| && 0 <= j < |registry| && Overlap(registry[i], registry[j])
      && registry[i].campaign != registry[j].campaign;
    assert (registry + [m])[i] == registry[i] && (registry + [m])[j] == registry[j];
  }

  lemma OperationRegistry(s: State, op: Operation)
    ensures Apply(s, op).registry ==
      if op.RegisterMapping? && Register(s, op.mapping, op.cap).0 == Registered then s.registry + [op.mapping]
      else s.registry
  {
    if op.IngestEvents? || op.ReplayIssue? { BatchKeepsContext(s, EventsOf(s, op), op.now); }
  }

  lemma {:induction false} RunIsUnambiguousIff(ops: seq<Operation>)
    ensures Unambiguous(After(ops).registry) <==> RegistrationsAgreed(ops)
    decreases |ops|
  {
    if ops != [] {
      var n := |ops| - 1;
      var before, op := After(ops[..n]), ops[n];
      RunIsUnambiguousIff(ops[..n]);
      AgreedInFront(ops);
      OperationRegistry(before, op);
      if StoredAt(ops, n) {
        if Unambiguous(before.registry) {
          RegisterUnambiguousIff(before, op.mapping, op.cap);
        } else {
          AmbiguityStays(before.registry, op.mapping);
        }
      }
    }
  }

  /** In every reachable state, all registry mappings matching any one source event agree on its
      Campaign exactly if every registration of the run agreed with the mappings beyond its cap. */
  lemma RegistryAgreesIff(ops: seq<Operation>)
    ensures RegistrationsAgreed(ops) <==>
      forall e, a, b :: a in RegistryMatches(After(ops), e) && b in RegistryMatches(After(ops), e) ==> a.campaign == b.campaign
  {
    RunIsUnambiguousIff(ops);
    UnambiguousIff(After(ops));
  }

  /** Every registration of the run listed the whole registry. */
  ghost predicate ListedAll(ops: seq<Operation>)
  {
    forall i :: 0 <= i < |ops| && ops[i].RegisterMapping? ==> |After(ops[..i]).registry| <= ops[i].cap
  }

  /** In particular, they always agree while the registry stays within the cap. */
  lemma RegistryAgreesInEveryRun(ops: seq<Operation>, e: SourceEvent, a: Mapping, b: Mapping)
    requires ListedAll(ops) && a in RegistryMatches(After(ops), e) && b in RegistryMatches(After(ops), e)
    ensures a.campaign == b.campaign
  {
    assert RegistrationsAgreed(ops);
    RegistryAgreesIff(ops);
  }

  // ---------------------------------------------------------------------------------------
  // A run that outgrows the cap

  const FIRST_CAMPAIGN := "CMP-NPD-LAUNCH-202601-01"
  const SECOND_CAMPAIGN := "CMP-NPD-LAUNCH-202601-02"

  function OnlyCampaign(source: Source, account: Option<string>, campaign: string, id: nat, target: CampaignId): Mapping
  {
    Mapping(id, source, Identity(account, Some(campaign), None, None, None, None), target)
  }

  /** The mapping that gets out of sight, and the later one that overlaps it. */
  function Oldest(): Mapping { OnlyCampaign(MetaAds, None, "spring", 0, FIRST_CAMPAIGN) }

  function Latest(cap: nat): Mapping { OnlyCampaign(MetaAds, Some("act"), "spring", cap + 1, SECOND_CAMPAIGN) }

  function Filler(k: nat): Mapping { OnlyCampaign(Ga4, None, Decimal(k), k + 1, SECOND_CAMPAIGN) }

  /** Two Campaigns, one Meta mapping, and then `n` unrelated ones. */
  function FillingRun(cap: nat, n: nat): seq<Operation>
  {
    if n == 0 then
      [SaveCampaign(FIRST_CAMPAIGN, "first"), SaveCampaign(SECOND_CAMPAIGN, "second"), RegisterMapping(Oldest(), cap)]
    else FillingRun(cap, n - 1) + [RegisterMapping(Filler(n - 1), cap)]
  }

  ghost predicate Filled(s: State, n: nat)
  {
    && |s.registry| == n + 1 && s.registry[0] == Oldest()
    && (forall k :: 0 < k <= n ==> s.registry[k] == Filler(k - 1))
    && FIRST_CAMPAIGN in s.campaigns && SECOND_CAMPAIGN in s.campaigns
  }

  lemma AfterSnoc(ops: seq<Operation>, op: Operation)
    ensures After(ops + [op]) == Apply(After(ops), op)
  {
    assert (ops + [op])[..|ops|] == ops;
  }

  lemma FillerIsNew(k: nat, j: nat)
    requires j < k
    ensures !Decides(Filler(j), Filler(k)) && !Decides(Oldest(), Filler(k))
  {
    if Decimal(j) == Decimal(k) { DecimalIsInjective(j, k); }
  }

  lemma FillerIsStored(s: State, cap: nat, n: nat)
    requires Filled(s, n)
    ensures Filled(Register(s, Filler(n), cap).1, n + 1)
  {
    var listed := NewestMappings(s.registry, cap);
    forall i | 0 <= i < |listed| ensures !Decides(listed[i], Filler(n)) {
      assert listed[i] == s.registry[n - i];
      if i < n { FillerIsNew(n, n - i - 1); } else { FillerIsNew(n + 1, n); }
    }
    RegisteredIff(listed, Filler(n));
  }

  lemma FirstSteps(cap: nat)
    ensures Filled(After(FillingRun(cap, 0)), 0)
  {
    var first, second := SaveCampaign(FIRST_CAMPAIGN, "first"), SaveCampaign(SECOND_CAMPAIGN, "second");
    AfterSnoc([], first);
    AfterSnoc([first], second);
    AfterSnoc([first, second], RegisterMapping(Oldest(), cap));
    assert [] + [first] == [first] && [first] + [second] == [first, second];
    assert [first, second] + [RegisterMapping(Oldest(), cap)] == FillingRun(cap, 0);
    assert NewestMappings([], cap) == [];
  }

  lemma {:induction false} RunFills(cap: nat, n: nat)
    ensures Filled(After(FillingRun(cap, n)), n)
    decreases n
  {
    if n == 0 {
      FirstSteps(cap);
    } else {
      RunFills(cap, n - 1);
      FillerIsStored(After(FillingRun(cap, n - 1)), cap, n - 1);
      AfterSnoc(FillingRun(cap, n - 1), RegisterMapping(Filler(n - 1), cap));
    }
  }

  lemma {:induction false} FilledIsUnambiguous(s: State, n: nat)
    requires Filled(s, n)
    ensures Unambiguous(s.registry)
  {
    forall i, j | 0 <= i < |s.registry| && 0 <= j < |s.registry| && Overlap(s.registry[i], s.registry[j])
      ensures s.registry[i].campaign == s.registry[j].campaign
    {
      assert i == 0 || s.registry[i] == Filler(i - 1);
      assert j == 0 || s.registry[j] == Filler(j - 1);
    }
  }

  /** For every cap such a run: after `cap` unrelated mappings, one that overlaps the oldest for
      another Campaign is stored, and the registry, unambiguous until then, no longer is. */
  lemma CapRunIsAmbiguous(cap: nat)
    ensures Unambiguous(After(FillingRun(cap, cap)).registry)
    ensures !Unambiguous(After(FillingRun(cap, cap) + [RegisterMapping(Latest(cap), cap)]).registry)
    ensures !RegistrationsAgreed(FillingRun(cap, cap) + [RegisterMapping(Latest(cap), cap)])
  {
    var run, s := FillingRun(cap, cap), After(FillingRun(cap, cap));
    RunFills(cap, cap);
    FilledIsUnambiguous(s, cap);
    assert Overlap(s.registry[0], Latest(cap));
    forall j | 1 <= j < |s.registry| ensures !Decides(s.registry[j], Latest(cap)) {
      assert s.registry[j] == Filler(j - 1);
    }
    CapLosesUnambiguity(s, Latest(cap), cap, 0);
    AfterSnoc(run, RegisterMapping(Latest(cap), cap));
    RunIsUnambiguousIff(run + [RegisterMapping(Latest(cap), cap)]);
  }
}
