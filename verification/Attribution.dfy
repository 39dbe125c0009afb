/** Identity registry, intake and immutable ledger of
    services/agent_hub/npd_agent_hub/attribution.py. */
module Attribution {
  import opened Folding
  import opened Wrappers

  datatype Source = MetaAds | Ga4 | EspoCrm | Utm

  type CampaignId = string

  /** The six external fields an identity may fix; in a mapping, an absent field matches anything. */
  datatype Identity = Identity(account: Option<string>, campaign: Option<string>, adset: Option<string>,
                               adGroup: Option<string>, ad: Option<string>, utm: Option<string>)
  {
    function Fields(): (f: seq<Option<string>>)
      ensures |f| == 6
    {
      [account, campaign, adset, adGroup, ad, utm]
    }
  }

  datatype Mapping = Mapping(id: nat, source: Source, identity: Identity, campaign: CampaignId)

  predicate SameIdentity(a: Mapping, b: Mapping) { a.source == b.source && a.identity == b.identity }

  predicate Overlap(a: Mapping, b: Mapping)
  {
    && a.source == b.source
    && forall j :: 0 <= j < 6 ==>
         var x, y := a.identity.Fields()[j], b.identity.Fields()[j];
         x.None? || y.None? || x == y
  }

  /** `zoned` says whether the event's time carries a time zone; Python compares no zoned time with
      an unzoned one. `details` stands for the remaining fields as the touchpoint keeps them, the
      time's offset included; identity resolution never reads them. */
  datatype SourceEvent = SourceEvent(ref: string, source: Source, identity: Identity, canonical: Option<CampaignId>,
                                     occurredAt: int, zoned: bool, lead: Option<string>, opportunity: Option<string>,
                                     details: string)

  predicate MatchesEvent(m: Mapping, e: SourceEvent)
  {
    && m.source == e.source
    && forall j :: 0 <= j < 6 ==>
         m.identity.Fields()[j].None? || m.identity.Fields()[j] == e.identity.Fields()[j]
  }

  /** Ledger and issue ids are digests of source and event reference, taken to be injective. */
  datatype EventId = EventId(source: Source, ref: string)

  function IdOf(e: SourceEvent): EventId { EventId(e.source, e.ref) }

  datatype Evidence = CanonicalId | UtmContract | OwnerRegistry

  /** What a touchpoint keeps of its source event: all but the account and the canonical id. */
  function KeptOf(e: SourceEvent): SourceEvent { e.(identity := e.identity.(account := None), canonical := None) }

  datatype Resolution = Resolution(campaigns: set<CampaignId>, evidence: set<Evidence>, mappings: set<nat>)

  datatype Content = FromSource(kept: SourceEvent, evidence: set<Evidence>, mappings: set<nat>) | Backfilled(text: string)

  datatype Touchpoint = Touchpoint(id: EventId, campaign: CampaignId, occurredAt: int, lead: Option<string>,
                                   opportunity: Option<string>, content: Content)

  /** A ledger row: the immutable payload and the time it was first ingested. */
  datatype Row = Row(touchpoint: Touchpoint, ingestedAt: int)

  datatype Doubt = UnknownIdentity | ConflictingEvidence

  datatype Issue = Issue(event: SourceEvent, doubt: Doubt, resolved: bool, candidates: set<CampaignId>,
                         occurrences: nat, campaign: Option<CampaignId>)

  /** The stored state. `campaigns` gives each Campaign's utm tracking key; the registry is in
      order of registration. */
  datatype State = State(campaigns: map<CampaignId, string>, registry: seq<Mapping>,
                         ledger: map<EventId, Row>, issues: map<EventId, Issue>)

  /** Case folding, on ASCII letters. */
  function CaseFold(s: string): string
  {
    seq(|s|, i requires 0 <= i < |s| => if 'A' <= s[i] <= 'Z' then s[i] - 'A' + 'a' else s[i])
  }

  predicate Present(s: Option<string>) { s.Some? && s.value != "" }

  function ContractMatches(s: State, e: SourceEvent): set<CampaignId>
  {
    if !Present(e.identity.utm) then {}
    else set c | c in s.campaigns && CaseFold(s.campaigns[c]) == CaseFold(e.identity.utm.value)
  }

  function RegistryMatches(s: State, e: SourceEvent): set<Mapping>
  {
    set m | m in s.registry && MatchesEvent(m, e)
  }

  function CanonicalMatch(s: State, e: SourceEvent): set<CampaignId>
  {
    if Present(e.canonical) && e.canonical.value in s.campaigns then {e.canonical.value} else {}
  }

  function Resolve(s: State, e: SourceEvent): Resolution
  {
    var canonical := CanonicalMatch(s, e);
    var contract := ContractMatches(s, e);
    var matched := RegistryMatches(s, e);
    Resolution(
      canonical + contract + (set m | m in matched :: m.campaign),
      (if canonical != {} then {CanonicalId} else {}) + (if contract != {} then {UtmContract} else {})
        + (if matched != {} then {OwnerRegistry} else {}),
      set m | m in matched :: m.id)
  }

  function TouchpointOf(e: SourceEvent, campaign: CampaignId, r: Resolution): Touchpoint
  {
    Touchpoint(IdOf(e), campaign, e.occurredAt, e.lead, e.opportunity, FromSource(KeptOf(e), r.evidence, r.mappings))
  }

  function TheOne(campaigns: set<CampaignId>): (c: CampaignId)
    requires |campaigns| == 1
    ensures campaigns == {c}
  {
    assert exists c :: campaigns == {c} by { OneElement(campaigns); }
    var c :| campaigns == {c};
    c
  }

  lemma OneElement(s: set<CampaignId>)
    requires |s| == 1
    ensures exists c :: s == {c}
  {
    var c :| c in s;
    assert |s - {c}| == 0;
    assert s == {c};
  }

  // ---------------------------------------------------------------------------------------
  // Ingest, one event at a time

  datatype Verdict = Inserted | Duplicate | Unknown | Conflict

  function WithIssue(s: State, e: SourceEvent, doubt: Doubt, candidates: set<CampaignId>): State
  {
    var seen := if IdOf(e) in s.issues then s.issues[IdOf(e)].occurrences else 0;
    s.(issues := s.issues[IdOf(e) := Issue(e, doubt, false, candidates, seen + 1, None)])
  }

  function WithResolved(s: State, e: SourceEvent, campaign: CampaignId): State
  {
    if IdOf(e) !in s.issues then s
    else s.(issues := s.issues[IdOf(e) := s.issues[IdOf(e)].(resolved := true, campaign := Some(campaign))])
  }

  function VerdictOf(s: State, e: SourceEvent): Verdict { VerdictFrom(s.ledger, e, Resolve(s, e)) }

  function VerdictFrom(ledger: map<EventId, Row>, e: SourceEvent, r: Resolution): Verdict
  {
    if |r.campaigns| == 0 then Unknown
    else if |r.campaigns| > 1 then Conflict
    else Compared(ledger, e, r)
  }

  /** An event that names one Campaign, against the ledger. */
  function Compared(ledger: map<EventId, Row>, e: SourceEvent, r: Resolution): Verdict
    requires |r.campaigns| == 1
  {
    if IdOf(e) !in ledger then Inserted
    else if ledger[IdOf(e)].touchpoint == TouchpointOf(e, TheOne(r.campaigns), r) then Duplicate
    else Conflict
  }

  predicate Decided(v: Verdict) { v == Inserted || v == Duplicate }

  function IngestOne(s: State, e: SourceEvent, now: int): State
  {
    Record(s, e, VerdictOf(s, e), Resolve(s, e), now)
  }

  function Record(s: State, e: SourceEvent, v: Verdict, r: Resolution, now: int): State
    requires Decided(v) ==> |r.campaigns| == 1
  {
    match v
    case Unknown => WithIssue(s, e, UnknownIdentity, {})
    case Conflict => WithIssue(s, e, ConflictingEvidence, r.campaigns)
    case Duplicate => WithResolved(s, e, TheOne(r.campaigns))
    case Inserted =>
      var c := TheOne(r.campaigns);
      WithResolved(s.(ledger := s.ledger[IdOf(e) := Row(TouchpointOf(e, c, r), now)]), e, c)
  }

  datatype Snapshot = Snapshot(received: nat, resolved: nat, inserted: nat, duplicates: nat, unknown: nat, conflicts: nat)

  const EMPTY_SNAPSHOT := Snapshot(0, 0, 0, 0, 0, 0)

  function Advance(r: Snapshot, v: Verdict, clear: bool): Snapshot
  {
    Snapshot(r.received + 1, r.resolved + (if clear then 1 else 0),
             r.inserted + (if v == Inserted then 1 else 0), r.duplicates + (if v == Duplicate then 1 else 0),
             r.unknown + (if v == Unknown then 1 else 0), r.conflicts + (if v == Conflict then 1 else 0))
  }

  /** A batch in progress: what is stored, what was counted, and how many of the events that named
      one Campaign had a zoned time. */
  datatype Intake = Intake(state: State, counts: Snapshot, zoned: nat)

  function Receive(x: Intake, e: SourceEvent, now: int): Intake
  {
    Intake(IngestOne(x.state, e, now), Advance(x.counts, VerdictOf(x.state, e), Clear(x.state, e)),
           x.zoned + (if Clear(x.state, e) && e.zoned then 1 else 0))
  }

  function Receiving(now: int): (Intake, SourceEvent) -> Intake { (x: Intake, e: SourceEvent) => Receive(x, e, now) }

  function IngestBatch(s: State, events: seq<SourceEvent>, now: int): Intake
  {
    Fold(Receiving(now), Intake(s, EMPTY_SNAPSHOT, 0), events)
  }

  function IngestAll(s: State, events: seq<SourceEvent>, now: int): State { IngestBatch(s, events, now).state }

  /** The counters after a batch. */
  function SnapshotOf(s: State, events: seq<SourceEvent>, now: int): Snapshot { IngestBatch(s, events, now).counts }

  function ZonedIn(s: State, events: seq<SourceEvent>, now: int): nat { IngestBatch(s, events, now).zoned }

  /** The latest time of the batch cannot be taken: some of the times to compare are zoned, not all. */
  predicate Mixed(x: Intake) { 0 < x.zoned < x.counts.resolved }

  predicate MixedTimes(s: State, events: seq<SourceEvent>, now: int) { Mixed(IngestBatch(s, events, now)) }

  // ---------------------------------------------------------------------------------------
  // Registration

  datatype Registration = NoCampaign | AlreadyThere(mapping: Mapping) | Clash | Registered

  /** `list_identity_mappings(limit=cap)`: the newest mappings first. */
  function NewestMappings(registry: seq<Mapping>, cap: nat): seq<Mapping>
  {
    var n := if |registry| <= cap then |registry| else cap;
    seq(n, i requires 0 <= i < n => registry[|registry| - 1 - i])
  }

  /** The first listed mapping that decides the request: same identity, or another Campaign's. */
  predicate Decides(existing: Mapping, m: Mapping)
  {
    SameIdentity(existing, m) || (existing.campaign != m.campaign && Overlap(existing, m))
  }

  function RegistrationOf(listed: seq<Mapping>, m: Mapping): Registration
  {
    if listed == [] then Registered
    else if SameIdentity(listed[0], m) then
      if listed[0].campaign == m.campaign then AlreadyThere(listed[0]) else Clash
    else if listed[0].campaign != m.campaign && Overlap(listed[0], m) then Clash
    else RegistrationOf(listed[1..], m)
  }

  function Register(s: State, m: Mapping, cap: nat): (Registration, State)
  {
    if m.campaign !in s.campaigns then (NoCampaign, s)
    else
      var r := RegistrationOf(NewestMappings(s.registry, cap), m);
      (r, if r.Registered? then s.(registry := s.registry + [m]) else s)
  }

  // ---------------------------------------------------------------------------------------
  // Preview

  datatype PreviewState = StillUnknown | StillConflict | WouldDuplicate | Ready

  datatype Preview = Preview(state: PreviewState, campaigns: set<CampaignId>, ledgerId: EventId, wouldInsert: bool)

  function PreviewOf(s: State, issue: Issue): Preview { PreviewFrom(s.ledger, issue.event, Resolve(s, issue.event)) }

  function PreviewFrom(ledger: map<EventId, Row>, e: SourceEvent, r: Resolution): Preview
  {
    var id := IdOf(e);
    if |r.campaigns| == 0 then Preview(StillUnknown, {}, id, false)
    else if |r.campaigns| > 1 then Preview(StillConflict, r.campaigns, id, false)
    else if id in ledger then
      Preview(if ledger[id].touchpoint == TouchpointOf(e, TheOne(r.campaigns), r) then WouldDuplicate else StillConflict,
              r.campaigns, id, false)
    else Preview(Ready, r.campaigns, id, true)
  }

  predicate Replayable(p: Preview) { p.state == Ready || p.state == WouldDuplicate }

  // ---------------------------------------------------------------------------------------
  // Backfill

  /** The rows of a batch that the ledger does not have yet. */
  function Pending(ledger: map<EventId, Row>, rows: seq<Row>): seq<Row>
    decreases |rows|
  {
    if rows == [] then []
    else
      var before, row := Pending(ledger, rows[..|rows| - 1]), rows[|rows| - 1];
      if row.touchpoint.id in ledger then before else before + [row]
  }

  predicate BackfillAllowed(s: State, rows: seq<Row>)
  {
    && (forall i, j :: 0 <= i < j < |rows| ==> rows[i].touchpoint.id != rows[j].touchpoint.id)
    && (forall i :: 0 <= i < |rows| ==> rows[i].touchpoint.campaign in s.campaigns)
    && (forall i :: 0 <= i < |rows| && rows[i].touchpoint.id in s.ledger ==> s.ledger[rows[i].touchpoint.id] == rows[i])
  }

  function AppendRows(ledger: map<EventId, Row>, rows: seq<Row>): map<EventId, Row>
    decreases |rows|
  {
    if rows == [] then ledger
    else
      var before, row := AppendRows(ledger, rows[..|rows| - 1]), rows[|rows| - 1];
      if row.touchpoint.id in before then before else before[row.touchpoint.id := row]
  }

  class AttributionService {
    var campaigns: map<CampaignId, string>
    var registry: seq<Mapping>
    var ledger: map<EventId, Row>
    var issues: map<EventId, Issue>

    function Stored(): State
      reads this
    {
      State(campaigns, registry, ledger, issues)
    }

    method RegisterIdentityMapping(m: Mapping, cap: nat) returns (r: Registration)
      modifies this`registry
      ensures r == Register(old(Stored()), m, cap).0
      ensures Stored() == Register(old(Stored()), m, cap).1
    {
      if m.campaign !in campaigns { return NoCampaign; }
      var existing := NewestMappings(registry, cap);
      for i := 0 to |existing|
        invariant RegistrationOf(existing, m) == RegistrationOf(existing[i..], m)
      {
        if SameIdentity(existing[i], m) {
          return if existing[i].campaign == m.campaign then AlreadyThere(existing[i]) else Clash;
        }
        if existing[i].campaign != m.campaign && Overlap(existing[i], m) { return Clash; }
        assert existing[i..][1..] == existing[i + 1..];
      }
      registry := registry + [m];
      r := Registered;
    }

    /** The loop keeps the payloads appended during this call beside the ledger itself; `seen`
        never decides anything that the ledger would not decide alone. Taking the latest time
        comes after the loop and fails for mixed times, when the batch is already stored. */
    method IngestSourceTouchpoints(events: seq<SourceEvent>, now: int) returns (r: Option<Snapshot>)
      modifies this`ledger, this`issues
      ensures Stored() == IngestAll(old(Stored()), events, now)
      ensures r == if MixedTimes(old(Stored()), events, now) then None else Some(SnapshotOf(old(Stored()), events, now))
    {
      var counts, zoned: nat := EMPTY_SNAPSHOT, 0;
      var seen: map<EventId, Touchpoint> := map[];
      ghost var start := Stored();
      ghost var x := Intake(start, EMPTY_SNAPSHOT, 0);
      for i := 0 to |events|
        invariant SeenIn(seen, ledger) && counts.received == i
        invariant x == IngestBatch(start, events[..i], now) == Intake(Stored(), counts, zoned)
      {
        FoldSnoc(Receiving(now), Intake(start, EMPTY_SNAPSHOT, 0), events, i);
        x := Receive(x, events[i], now);
        var verdict, clear;
        verdict, clear, seen := IngestEvent(events[i], now, seen);
        counts := Advance(counts, verdict, clear);
        if clear && events[i].zoned { zoned := zoned + 1; }
      }
      assert events[..|events|] == events;
      if 0 < zoned < counts.resolved { return None; }
      r := Some(counts);
    }

    /** One round of the ingest loop; `clear` when the evidence names exactly one Campaign. */
    method IngestEvent(e: SourceEvent, now: int, seen: map<EventId, Touchpoint>)
        returns (verdict: Verdict, clear: bool, nextSeen: map<EventId, Touchpoint>)
      requires SeenIn(seen, ledger)
      modifies this`ledger, this`issues
      ensures Stored() == IngestOne(old(Stored()), e, now) && verdict == VerdictOf(old(Stored()), e)
      ensures clear == Clear(old(Stored()), e)
      ensures SeenIn(nextSeen, ledger)
    {
      verdict, clear, nextSeen := Conclude(e, Resolve(Stored(), e), now, seen);
    }

    /** The rest of a round, once the evidence is resolved. */
    method Conclude(e: SourceEvent, found: Resolution, now: int, seen: map<EventId, Touchpoint>)
        returns (verdict: Verdict, clear: bool, nextSeen: map<EventId, Touchpoint>)
      requires SeenIn(seen, ledger)
      modifies this`ledger, this`issues
      ensures verdict == VerdictFrom(old(ledger), e, found) && Stored() == Record(old(Stored()), e, verdict, found, now)
      ensures clear == (|found.campaigns| == 1)
      ensures SeenIn(nextSeen, ledger)
    {
      nextSeen := seen;
      if |found.campaigns| == 0 {
        RecordIssue(e, UnknownIdentity, {});
        return Unknown, false, seen;
      }
      if |found.campaigns| > 1 {
        RecordIssue(e, ConflictingEvidence, found.campaigns);
        return Conflict, false, seen;
      }
      clear := true;
      verdict, nextSeen := AppendOrCompare(e, found, now, seen);
    }

    /** For an event whose evidence names one Campaign. */
    method AppendOrCompare(e: SourceEvent, found: Resolution, now: int, seen: map<EventId, Touchpoint>)
        returns (verdict: Verdict, nextSeen: map<EventId, Touchpoint>)
      requires SeenIn(seen, ledger) && |found.campaigns| == 1
      modifies this`ledger, this`issues
      ensures verdict == Compared(old(ledger), e, found) && Stored() == Record(old(Stored()), e, verdict, found, now)
      ensures SeenIn(nextSeen, ledger)
    {
      nextSeen := seen;
      var campaign := TheOne(found.campaigns);
      var event := TouchpointOf(e, campaign, found);
      var existing := if event.id in ledger then Some(ledger[event.id].touchpoint) else None;
      var pending := if event.id in seen then Some(seen[event.id]) else None;
      var comparison := if existing.Some? then existing else pending;
      if comparison.Some? {
        if comparison.value == event {
          verdict := Duplicate;
          ResolveIssue(e, campaign);
        } else {
          verdict := Conflict;
          RecordIssue(e, ConflictingEvidence, found.campaigns);
        }
      } else {
        verdict := Inserted;
        ledger := ledger[event.id := Row(event, now)];
        nextSeen := seen[event.id := event];
        ResolveIssue(e, campaign);
      }
    }

    method RecordIssue(e: SourceEvent, doubt: Doubt, candidates: set<CampaignId>)
      modifies this`issues
      ensures Stored() == WithIssue(old(Stored()), e, doubt, candidates)
    {
      var seen := if IdOf(e) in issues then issues[IdOf(e)].occurrences else 0;
      issues := issues[IdOf(e) := Issue(e, doubt, false, candidates, seen + 1, None)];
    }

    method ResolveIssue(e: SourceEvent, campaign: CampaignId)
      modifies this`issues
      ensures Stored() == WithResolved(old(Stored()), e, campaign)
    {
      if IdOf(e) !in issues { return; }
      issues := issues[IdOf(e) := issues[IdOf(e)].(resolved := true, campaign := Some(campaign))];
    }

    /** None when the issue does not exist or its preview does not allow a replay. */
    method ReplayIntakeIssue(id: EventId, now: int) returns (r: Option<Snapshot>)
      modifies this`ledger, this`issues
      ensures r.Some? <==>
        id in old(issues) && var p := PreviewOf(old(Stored()), old(issues)[id]); p.state == Ready || p.state == WouldDuplicate
      ensures r.None? ==> Stored() == old(Stored())
      ensures r.Some? ==> Stored() == IngestAll(old(Stored()), [old(issues)[id].event], now)
      ensures r.Some? ==> r.value == SnapshotOf(old(Stored()), [old(issues)[id].event], now)
    {
      if id !in issues { return None; }
      var preview := PreviewOf(Stored(), issues[id]);
      if !Replayable(preview) { return None; }
      OneTime(Stored(), issues[id].event, now);
      r := IngestSourceTouchpoints([issues[id].event], now);
    }

    /** The validation loop of `backfill`. */
    method CheckBackfill(rows: seq<Row>) returns (ok: bool, pending: seq<Row>, duplicates: nat)
      ensures ok <==> BackfillAllowed(Stored(), rows)
      ensures ok ==> pending == Pending(ledger, rows) && |pending| + duplicates == |rows|
    {
      ok, pending, duplicates := false, [], 0;
      var seen: set<EventId> := {};
      for i := 0 to |rows|
        invariant IdsAre(seen, rows[..i]) && BackfillAllowed(Stored(), rows[..i])
        invariant pending == Pending(ledger, rows[..i]) && |pending| + duplicates == i
      {
        var row := rows[i];
        assert rows[..i + 1] == rows[..i] + [row];
        BackfillStep(Stored(), rows[..i], row, seen);
        if row.touchpoint.id in seen { BackfillPrefix(Stored(), rows, i + 1); return; }
        seen := seen + {row.touchpoint.id};
        if row.touchpoint.campaign !in campaigns { BackfillPrefix(Stored(), rows, i + 1); return; }
        if row.touchpoint.id in ledger {
          if ledger[row.touchpoint.id] != row { BackfillPrefix(Stored(), rows, i + 1); return; }
          duplicates := duplicates + 1;
        } else {
          pending := pending + [row];
        }
      }
      assert rows[..|rows|] == rows;
      ok := true;
    }

    /** All or nothing: the batch is checked completely before anything is appended. */
    method Backfill(rows: seq<Row>) returns (ok: bool, inserted: nat, duplicates: nat)
      modifies this`ledger
      ensures ok <==> BackfillAllowed(old(Stored()), rows)
      ensures !ok ==> Stored() == old(Stored())
      ensures ok ==> Stored() == old(Stored()).(ledger := AppendRows(old(ledger), rows))
      ensures ok ==> inserted + duplicates == |rows|
    {
      inserted := 0;
      var pending;
      ok, pending, duplicates := CheckBackfill(rows);
      if !ok { return; }
      PendingIsFresh(ledger, rows);
      AppendEach(pending);
      AppendPending(old(ledger), rows);
      inserted := |pending|;
    }

    /** The append loop of `backfill`; the store would refuse an id that it already holds. */
    method AppendEach(pending: seq<Row>)
      requires DistinctIds(pending) && forall x :: x in pending ==> x.touchpoint.id !in ledger
      modifies this`ledger
      ensures ledger == AppendRows(old(ledger), pending)
    {
      for j := 0 to |pending|
        invariant ledger == AppendRows(old(ledger), pending[..j])
      {
        assert pending[..j + 1][..j] == pending[..j];
        AppendRowsKeys(old(ledger), pending[..j]);
        assert pending[j].touchpoint.id !in ledger;
        ledger := ledger[pending[j].touchpoint.id := pending[j]];
      }
      assert pending[..|pending|] == pending;
    }
  }

  ghost predicate SeenIn(seen: map<EventId, Touchpoint>, ledger: map<EventId, Row>)
  {
    forall id :: id in seen ==> id in ledger && ledger[id].touchpoint == seen[id]
  }

  predicate Clear(s: State, e: SourceEvent) { |Resolve(s, e).campaigns| == 1 }

  ghost predicate IdsAre(ids: set<EventId>, rows: seq<Row>)
  {
    forall id :: id in ids <==> IdAmong(id, rows)
  }

  ghost predicate IdAmong(id: EventId, rows: seq<Row>)
  {
    exists j :: 0 <= j < |rows| && rows[j].touchpoint.id == id
  }

  lemma BackfillStep(s: State, rows: seq<Row>, row: Row, seen: set<EventId>)
    requires BackfillAllowed(s, rows) && IdsAre(seen, rows)
    ensures IdsAre(seen + {row.touchpoint.id}, rows + [row])
    ensures Pending(s.ledger, rows + [row])
      == if row.touchpoint.id in s.ledger then Pending(s.ledger, rows) else Pending(s.ledger, rows) + [row]
    ensures BackfillAllowed(s, rows + [row]) <==>
      row.touchpoint.id !in seen && row.touchpoint.campaign in s.campaigns
      && (row.touchpoint.id in s.ledger ==> s.ledger[row.touchpoint.id] == row)
  {
    forall id ensures id in seen + {row.touchpoint.id} <==> IdAmong(id, rows + [row]) { IdAmongSnoc(id, rows, row); }
    assert (rows + [row])[..|rows|] == rows;
    AllowedSnoc(s, rows, row);
  }

  lemma IdAmongSnoc(id: EventId, rows: seq<Row>, row: Row)
    ensures IdAmong(id, rows + [row]) <==> IdAmong(id, rows) || row.touchpoint.id == id
  {
    var longer := rows + [row];
    if j :| 0 <= j < |rows| && rows[j].touchpoint.id == id { assert longer[j].touchpoint.id == id; }
    if row.touchpoint.id == id { assert longer[|rows|].touchpoint.id == id; }
    if j :| 0 <= j < |longer| && longer[j].touchpoint.id == id {
      if j < |rows| { assert rows[j].touchpoint.id == id; }
    }
  }

  lemma AllowedSnoc(s: State, rows: seq<Row>, row: Row)
    requires BackfillAllowed(s, rows)
    ensures BackfillAllowed(s, rows + [row]) <==>
      !IdAmong(row.touchpoint.id, rows) && row.touchpoint.campaign in s.campaigns
      && (row.touchpoint.id in s.ledger ==> s.ledger[row.touchpoint.id] == row)
  {
    var longer := rows + [row];
    assert longer[|rows|] == row && forall j :: 0 <= j < |rows| ==> longer[j] == rows[j];
    if j :| 0 <= j < |rows| && rows[j].touchpoint.id == row.touchpoint.id {
      assert longer[j].touchpoint.id == longer[|rows|].touchpoint.id;
    }
  }

  lemma BackfillPrefix(s: State, rows: seq<Row>, n: nat)
    requires n <= |rows| && !BackfillAllowed(s, rows[..n])
    ensures !BackfillAllowed(s, rows)
  {
    assert forall j :: 0 <= j < n ==> rows[..n][j] == rows[j];
  }

  ghost predicate DistinctIds(rows: seq<Row>)
  {
    forall i, j :: 0 <= i < j < |rows| ==> rows[i].touchpoint.id != rows[j].touchpoint.id
  }

  lemma {:induction false} PendingIsFresh(ledger: map<EventId, Row>, rows: seq<Row>)
    requires DistinctIds(rows)
    ensures DistinctIds(Pending(ledger, rows))
    ensures forall x :: x in Pending(ledger, rows) ==> x in rows && x.touchpoint.id !in ledger
    decreases |rows|
  {
    if rows != [] {
      var front, row := rows[..|rows| - 1], rows[|rows| - 1];
      assert forall j :: 0 <= j < |front| ==> front[j] == rows[j];
      PendingIsFresh(ledger, front);
      forall x | x in Pending(ledger, front) ensures x.touchpoint.id != row.touchpoint.id && x in rows {
        var j :| 0 <= j < |front| && front[j] == x;
        assert rows[j].touchpoint.id != rows[|rows| - 1].touchpoint.id;
      }
    }
  }

  lemma {:induction false} AppendRowsKeys(ledger: map<EventId, Row>, rows: seq<Row>)
    ensures forall id :: id in AppendRows(ledger, rows) <==>
      id in ledger || exists j :: 0 <= j < |rows| && rows[j].touchpoint.id == id
    decreases |rows|
  {
    if rows != [] {
      var front := rows[..|rows| - 1];
      AppendRowsKeys(ledger, front);
      forall id | id in AppendRows(ledger, front) && id !in ledger
        ensures exists j :: 0 <= j < |rows| && rows[j].touchpoint.id == id
      {
        var j :| 0 <= j < |front| && front[j].touchpoint.id == id;
        assert rows[j].touchpoint.id == id;
      }
      forall j | 0 <= j < |rows| ensures rows[j].touchpoint.id in AppendRows(ledger, rows) {
        if j < |front| { assert front[j] == rows[j]; }
      }
    }
  }

  /** Appending never changes or drops a row that is already there. */
  lemma {:induction false} LedgerStays(ledger: map<EventId, Row>, rows: seq<Row>, id: EventId)
    requires id in ledger
    ensures id in AppendRows(ledger, rows) && AppendRows(ledger, rows)[id] == ledger[id]
    decreases |rows|
  {
    if rows != [] { LedgerStays(ledger, rows[..|rows| - 1], id); }
  }

  lemma {:induction false} AppendPending(ledger: map<EventId, Row>, rows: seq<Row>)
    ensures AppendRows(ledger, Pending(ledger, rows)) == AppendRows(ledger, rows)
    decreases |rows|
  {
    if rows != [] {
      var front, row := rows[..|rows| - 1], rows[|rows| - 1];
      AppendPending(ledger, front);
      if row.touchpoint.id in ledger {
        LedgerStays(ledger, front, row.touchpoint.id);
      } else {
        var p := Pending(ledger, front);
        assert (p + [row])[..|p|] == p;
      }
    }
  }

  lemma SnapshotSnoc(s: State, events: seq<SourceEvent>, i: nat, now: int)
    requires i < |events|
    ensures IngestAll(s, events[..i + 1], now) == IngestOne(IngestAll(s, events[..i], now), events[i], now)
    ensures var before := IngestAll(s, events[..i], now);
      && SnapshotOf(s, events[..i + 1], now)
         == Advance(SnapshotOf(s, events[..i], now), VerdictOf(before, events[i]), Clear(before, events[i]))
      && ZonedIn(s, events[..i + 1], now)
         == ZonedIn(s, events[..i], now) + if Clear(before, events[i]) && events[i].zoned then 1 else 0
  {
    FoldSnoc(Receiving(now), Intake(s, EMPTY_SNAPSHOT, 0), events, i);
  }

  lemma OneTime(s: State, e: SourceEvent, now: int)
    ensures !MixedTimes(s, [e], now)
  {
    FoldOne(Receiving(now), Intake(s, EMPTY_SNAPSHOT, 0), e);
  }
}
