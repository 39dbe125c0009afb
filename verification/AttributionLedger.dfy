/** What holds of the attribution ledger over every batch and every run. */
module AttributionLedger {
  import opened Folding
  import opened Wrappers
  import opened Attribution

  // ---------------------------------------------------------------------------------------
  // Batches

  ghost predicate SameContext(a: State, b: State)
  {
    a.campaigns == b.campaigns && a.registry == b.registry
  }

  lemma SameResolution(a: State, b: State, e: SourceEvent)
    requires SameContext(a, b)
    ensures Resolve(a, e) == Resolve(b, e)
  {
    assert RegistryMatches(a, e) == RegistryMatches(b, e);
    assert ContractMatches(a, e) == ContractMatches(b, e);
  }

  lemma {:induction false} BatchKeepsContext(s: State, events: seq<SourceEvent>, now: int)
    ensures SameContext(IngestAll(s, events, now), s)
    decreases |events|
  {
    if events != [] {
      BatchKeepsContext(s, events[..|events| - 1], now);
      StepKeeps(IngestAll(s, events[..|events| - 1], now), events[|events| - 1], now);
    }
  }

  ghost predicate LedgerGrows(before: map<EventId, Row>, after: map<EventId, Row>)
  {
    forall id :: id in before ==> id in after && after[id] == before[id]
  }

  /** One event: the context stays, rows stay, and one row is added exactly on insertion. */
  lemma StepKeeps(s: State, e: SourceEvent, now: int)
    ensures SameContext(IngestOne(s, e, now), s)
    ensures LedgerGrows(s.ledger, IngestOne(s, e, now).ledger)
    ensures |IngestOne(s, e, now).ledger| == |s.ledger| + (if VerdictOf(s, e) == Inserted then 1 else 0)
    ensures VerdictOf(s, e) != Inserted ==> IngestOne(s, e, now).ledger == s.ledger
  {
    StepContext(s, e, now);
    StepLedger(s, e, now);
  }

  lemma StepContext(s: State, e: SourceEvent, now: int)
    ensures SameContext(IngestOne(s, e, now), s)
  {
    RecordContext(s, e, VerdictOf(s, e), Resolve(s, e), now);
  }

  lemma RecordContext(s: State, e: SourceEvent, v: Verdict, r: Resolution, now: int)
    requires Decided(v) ==> |r.campaigns| == 1
    ensures SameContext(Record(s, e, v, r, now), s)
  {
  }

  lemma StepLedger(s: State, e: SourceEvent, now: int)
    ensures VerdictOf(s, e) != Inserted ==> IngestOne(s, e, now).ledger == s.ledger
    ensures VerdictOf(s, e) == Inserted ==> Clear(s, e) && IdOf(e) !in s.ledger
    ensures VerdictOf(s, e) == Inserted ==> IngestOne(s, e, now).ledger == s.ledger[IdOf(e) := NewRow(s, e, now)]
  {
    RecordLedger(s, e, VerdictOf(s, e), Resolve(s, e), now);
  }

  lemma RecordLedger(s: State, e: SourceEvent, v: Verdict, r: Resolution, now: int)
    requires Decided(v) ==> |r.campaigns| == 1
    ensures v != Inserted ==> Record(s, e, v, r, now).ledger == s.ledger
    ensures v == Inserted ==>
      Record(s, e, v, r, now).ledger == s.ledger[IdOf(e) := Row(TouchpointOf(e, TheOne(r.campaigns), r), now)]
  {
  }

  /** The row that inserting an event writes. */
  function NewRow(s: State, e: SourceEvent, now: int): Row
    requires Clear(s, e)
  {
    Row(TouchpointOf(e, TheOne(Resolve(s, e).campaigns), Resolve(s, e)), now)
  }

  predicate Balanced(r: Snapshot)
  {
    && r.received == r.inserted + r.duplicates + r.unknown + r.conflicts
    && r.inserted + r.duplicates <= r.resolved <= r.received - r.unknown
  }

  lemma AdvanceStaysBalanced(r: Snapshot, v: Verdict, clear: bool)
    requires Balanced(r) && (clear ==> v != Unknown) && (v == Inserted || v == Duplicate ==> clear)
    ensures Balanced(Advance(r, v, clear))
  {
  }

  /** Accounting of a batch: every event received is inserted, a duplicate, unknown or in conflict;
      the ledger grows by exactly the inserted ones and keeps every earlier row. */
  lemma {:induction false} BatchAccounting(s: State, events: seq<SourceEvent>, now: int)
    ensures var r, after := SnapshotOf(s, events, now), IngestAll(s, events, now);
      && r.received == |events| == r.inserted + r.duplicates + r.unknown + r.conflicts
      && r.inserted + r.duplicates <= r.resolved <= r.received - r.unknown
      && |after.ledger| == |s.ledger| + r.inserted
      && LedgerGrows(s.ledger, after.ledger)
    decreases |events|
  {
    if events != [] {
      var n := |events| - 1;
      BatchAccounting(s, events[..n], now);
      var before := IngestAll(s, events[..n], now);
      SnapshotSnoc(s, events, n, now);
      assert events[..n + 1] == events;
      StepKeeps(before, events[n], now);
      VerdictAndClear(before, events[n]);
      AdvanceStaysBalanced(SnapshotOf(s, events[..n], now), VerdictOf(before, events[n]), Clear(before, events[n]));
    }
  }

  lemma VerdictAndClear(s: State, e: SourceEvent)
    ensures Clear(s, e) ==> VerdictOf(s, e) != Unknown
    ensures VerdictOf(s, e) == Inserted || VerdictOf(s, e) == Duplicate ==> Clear(s, e)
  {
  }

  function Plus(a: Snapshot, b: Snapshot): Snapshot
  {
    Snapshot(a.received + b.received, a.resolved + b.resolved, a.inserted + b.inserted,
             a.duplicates + b.duplicates, a.unknown + b.unknown, a.conflicts + b.conflicts)
  }

  lemma AdvancePlus(a: Snapshot, b: Snapshot, v: Verdict, clear: bool)
    ensures Advance(Plus(a, b), v, clear) == Plus(a, Advance(b, v, clear))
  {
  }

  lemma ShiftStep(x: Intake, counts: Snapshot, zoned: nat, e: SourceEvent, now: int)
    ensures Receive(Intake(x.state, Plus(counts, x.counts), zoned + x.zoned), e, now)
      == Intake(Receive(x, e, now).state, Plus(counts, Receive(x, e, now).counts), zoned + Receive(x, e, now).zoned)
  {
    AdvancePlus(counts, x.counts, VerdictOf(x.state, e), Clear(x.state, e));
  }

  /** The counters never influence what is stored. */
  lemma {:induction false} CountsShift(s: State, counts: Snapshot, zoned: nat, events: seq<SourceEvent>, now: int)
    ensures Fold(Receiving(now), Intake(s, counts, zoned), events)
      == Intake(IngestAll(s, events, now), Plus(counts, SnapshotOf(s, events, now)), zoned + ZonedIn(s, events, now))
    decreases |events|
  {
    if events != [] {
      var front, e := events[..|events| - 1], events[|events| - 1];
      CountsShift(s, counts, zoned, front, now);
      ShiftStep(IngestBatch(s, front, now), counts, zoned, e, now);
    }
  }

  /** Ingesting `a + b` at once is ingesting `a` and then `b`; no payload needs to be remembered
      from one event of a batch to the next but what the ledger holds. */
  lemma BatchesCompose(s: State, a: seq<SourceEvent>, b: seq<SourceEvent>, now: int)
    ensures IngestAll(s, a + b, now) == IngestAll(IngestAll(s, a, now), b, now)
    ensures SnapshotOf(s, a + b, now) == Plus(SnapshotOf(s, a, now), SnapshotOf(IngestAll(s, a, now), b, now))
  {
    FoldAppend(Receiving(now), Intake(s, EMPTY_SNAPSHOT, 0), a, b);
    CountsShift(IngestAll(s, a, now), SnapshotOf(s, a, now), ZonedIn(s, a, now), b, now);
  }

  /** A batch is of mixed times exactly when two of its events that name one Campaign each have
      times of both kinds; that depends on Campaigns and registry alone. */
  lemma MixedTimesIff(s: State, events: seq<SourceEvent>, now: int)
    ensures MixedTimes(s, events, now) <==>
      exists i, j :: 0 <= i < |events| && 0 <= j < |events|
        && Clear(s, events[i]) && Clear(s, events[j]) && events[i].zoned && !events[j].zoned
  {
    ZoneIff(s, events, now, true);
    ZoneIff(s, events, now, false);
    assert MixedTimes(s, events, now) <==> ZoneAmong(s, events, true) && ZoneAmong(s, events, false);
    forall i, zoned ensures 0 <= i < |events| ==> (InZone(s, events[i], zoned) <==> Clear(s, events[i]) && events[i].zoned == zoned) {}
  }

  ghost predicate ZoneAmong(s: State, events: seq<SourceEvent>, zoned: bool)
  {
    exists i :: 0 <= i < |events| && InZone(s, events[i], zoned)
  }

  ghost predicate InZone(s: State, e: SourceEvent, zoned: bool) { Clear(s, e) && e.zoned == zoned }

  lemma ZoneSnoc(s: State, events: seq<SourceEvent>, e: SourceEvent, zoned: bool)
    ensures ZoneAmong(s, events + [e], zoned) <==> ZoneAmong(s, events, zoned) || InZone(s, e, zoned)
  {
    var longer := events + [e];
    assert longer[|events|] == e;
    if i :| 0 <= i < |events| && InZone(s, events[i], zoned) { assert longer[i] == events[i]; }
    if i :| 0 <= i < |longer| && InZone(s, longer[i], zoned) {
      if i < |events| { assert events[i] == longer[i]; }
    }
  }

  /** How many of the times to compare are of the given kind. */
  function TimesOf(x: Intake, zoned: bool): int { if zoned then x.zoned else x.counts.resolved - x.zoned }

  ghost predicate TimesCounted(s: State, events: seq<SourceEvent>, now: int, zoned: bool)
  {
    var n := TimesOf(IngestBatch(s, events, now), zoned);
    n >= 0 && (n > 0 <==> ZoneAmong(s, events, zoned))
  }

  lemma TimesSnoc(s: State, front: seq<SourceEvent>, e: SourceEvent, now: int, zoned: bool)
    requires TimesCounted(s, front, now, zoned)
    ensures TimesCounted(s, front + [e], now, zoned)
  {
    var events, n := front + [e], |front|;
    assert events[..n] == front && events[..n + 1] == events;
    ZoneSnoc(s, front, e, zoned);
    SnapshotSnoc(s, events, n, now);
    BatchKeepsContext(s, front, now);
    SameResolution(IngestAll(s, front, now), s, e);
  }

  lemma NoTimes(s: State, now: int, zoned: bool)
    ensures TimesCounted(s, [], now, zoned)
  {
    assert !ZoneAmong(s, [], zoned);
  }

  lemma {:induction false} ZoneIff(s: State, events: seq<SourceEvent>, now: int, zoned: bool)
    ensures TimesCounted(s, events, now, zoned)
    decreases |events|
  {
    if events == [] {
      NoTimes(s, now, zoned);
    } else {
      var front, e := events[..|events| - 1], events[|events| - 1];
      assert events == front + [e];
      ZoneIff(s, front, now, zoned);
      TimesSnoc(s, front, e, now, zoned);
    }
  }

  // ---------------------------------------------------------------------------------------
  // Ingesting again

  function Repeated(v: Verdict): Verdict { if v == Inserted then Duplicate else v }

  /** A verdict other than insertion is final as long as the ledger only grows. */
  lemma VerdictIsStable(s: State, later: State, e: SourceEvent)
    requires SameContext(s, later) && LedgerGrows(s.ledger, later.ledger) && VerdictOf(s, e) != Inserted
    ensures VerdictOf(later, e) == VerdictOf(s, e)
  {
    SameResolution(s, later, e);
  }

  lemma VerdictOnceStored(before: map<EventId, Row>, after: map<EventId, Row>, e: SourceEvent, r: Resolution, now: int)
    requires VerdictFrom(before, e, r) != Inserted ==> after == before
    requires VerdictFrom(before, e, r) == Inserted ==>
      after == before[IdOf(e) := Row(TouchpointOf(e, TheOne(r.campaigns), r), now)]
    ensures VerdictFrom(after, e, r) == Repeated(VerdictFrom(before, e, r))
  {
  }

  lemma VerdictAfterOwnIngest(s: State, e: SourceEvent, now: int)
    ensures VerdictOf(IngestOne(s, e, now), e) == Repeated(VerdictOf(s, e))
  {
    StepContext(s, e, now);
    StepLedger(s, e, now);
    SameResolution(s, IngestOne(s, e, now), e);
    VerdictOnceStored(s.ledger, IngestOne(s, e, now).ledger, e, Resolve(s, e), now);
  }

  lemma GrowsTransitively(a: map<EventId, Row>, b: map<EventId, Row>, c: map<EventId, Row>)
    requires LedgerGrows(a, b) && LedgerGrows(b, c)
    ensures LedgerGrows(a, c)
  {
  }

  /** What was found for an event stands, in its repeated form, in every later state of the same context. */
  lemma VerdictStands(before: State, e: SourceEvent, now: int, later: State)
    requires SameContext(before, later) && LedgerGrows(IngestOne(before, e, now).ledger, later.ledger)
    ensures VerdictOf(later, e) == Repeated(VerdictOf(before, e)) && Clear(later, e) == Clear(before, e)
  {
    StepContext(before, e, now);
    VerdictAfterOwnIngest(before, e, now);
    VerdictIsStable(IngestOne(before, e, now), later, e);
    SameResolution(before, later, e);
  }

  lemma LaterInBatch(s: State, events: seq<SourceEvent>, now: int, i: nat)
    requires i <= |events|
    ensures var part, whole := IngestAll(s, events[..i], now), IngestAll(s, events, now);
      SameContext(part, whole) && LedgerGrows(part.ledger, whole.ledger)
  {
    assert events == events[..i] + events[i..];
    BatchesCompose(s, events[..i], events[i..], now);
    BatchKeepsContext(IngestAll(s, events[..i], now), events[i..], now);
    BatchAccounting(IngestAll(s, events[..i], now), events[i..], now);
  }

  /** The state of a batch before its event `i`, and every state after the batch. */
  lemma SettledAfterBatch(s: State, events: seq<SourceEvent>, now: int, i: nat, later: State)
    requires i < |events|
    requires SameContext(IngestAll(s, events, now), later) && LedgerGrows(IngestAll(s, events, now).ledger, later.ledger)
    ensures var before := IngestAll(s, events[..i], now);
      VerdictOf(later, events[i]) == Repeated(VerdictOf(before, events[i])) && Clear(later, events[i]) == Clear(before, events[i])
  {
    LaterInBatch(s, events, now, i);
    LaterInBatch(s, events, now, i + 1);
    SnapshotSnoc(s, events, i, now);
    var before := IngestAll(s, events[..i], now);
    GrowsTransitively(IngestOne(before, events[i], now).ledger, IngestAll(s, events, now).ledger, later.ledger);
    VerdictStands(before, events[i], now, later);
  }

  function Again(r: Snapshot): Snapshot
  {
    Snapshot(r.received, r.resolved, 0, r.duplicates + r.inserted, r.unknown, r.conflicts)
  }

  lemma AdvanceAgain(r: Snapshot, v: Verdict, clear: bool)
    ensures Advance(Again(r), Repeated(v), clear) == Again(Advance(r, v, clear))
  {
  }

  lemma SettledLedgerStays(later: State, e: SourceEvent, v: Verdict, now: int)
    requires VerdictOf(later, e) == Repeated(v)
    ensures IngestOne(later, e, now).ledger == later.ledger
  {
    StepLedger(later, e, now);
  }

  /** `base` is a state after the batch: the same context and a ledger that only grew since. */
  ghost predicate AfterBatch(s: State, events: seq<SourceEvent>, now: int, base: State)
  {
    SameContext(IngestAll(s, events, now), base) && LedgerGrows(IngestAll(s, events, now).ledger, base.ledger)
  }

  /** `base` received the first `n` events once more. */
  ghost predicate SettledFor(s: State, base: State, events: seq<SourceEvent>, now: int, again: int, n: nat)
    requires n <= |events|
  {
    && SnapshotOf(base, events[..n], again) == Again(SnapshotOf(s, events[..n], now))
    && IngestAll(base, events[..n], again).ledger == base.ledger
  }

  lemma {:induction false} ReingestPrefix(s: State, base: State, events: seq<SourceEvent>, now: int, again: int, n: nat)
    requires n <= |events| && AfterBatch(s, events, now, base)
    ensures SettledFor(s, base, events, now, again, n)
  {
    if n == 0 {
      assert events[..0] == [];
    } else {
      ReingestPrefix(s, base, events, now, again, n - 1);
      ReingestStep(s, base, events, now, again, n - 1);
    }
  }

  lemma ReingestStep(s: State, base: State, events: seq<SourceEvent>, now: int, again: int, i: nat)
    requires i < |events| && AfterBatch(s, events, now, base)
    requires SettledFor(s, base, events, now, again, i)
    ensures SettledFor(s, base, events, now, again, i + 1)
  {
    var before, later := IngestAll(s, events[..i], now), IngestAll(base, events[..i], again);
    BatchKeepsContext(base, events[..i], again);
    SettledAfterBatch(s, events, now, i, later);
    SnapshotSnoc(base, events, i, again);
    SnapshotSnoc(s, events, i, now);
    AdvanceAgain(SnapshotOf(s, events[..i], now), VerdictOf(before, events[i]), Clear(before, events[i]));
    SettledLedgerStays(later, events[i], VerdictOf(before, events[i]), again);
  }

  /** With registry and Campaigns unchanged, ingesting the same batch again, at once or at any later
      time, leaves the ledger as it is and only turns every insertion into a duplicate. */
  lemma ReingestIsIdempotent(s: State, events: seq<SourceEvent>, now: int, base: State, again: int)
    requires AfterBatch(s, events, now, base)
    ensures SnapshotOf(base, events, again) == Again(SnapshotOf(s, events, now))
    ensures IngestAll(base, events, again).ledger == base.ledger
  {
    ReingestPrefix(s, base, events, now, again, |events|);
    assert events[..|events|] == events;
  }

  /** A later event with the id of an inserted one is a duplicate exactly if all that the touchpoint
      keeps is as it was and the evidence resolves as it did then: the resolution is part of the
      immutable payload, the account and the canonical id are not. */
  lemma DuplicateIff(s: State, e: SourceEvent, now: int, later: State, f: SourceEvent)
    requires VerdictOf(s, e) == Inserted && LedgerGrows(IngestOne(s, e, now).ledger, later.ledger) && IdOf(f) == IdOf(e)
    ensures VerdictOf(later, f) == Duplicate <==> KeptOf(f) == KeptOf(e) && Resolve(later, f) == Resolve(s, e)
    ensures VerdictOf(later, f) != Inserted
  {
    StepLedger(s, e, now);
    assert later.ledger[IdOf(e)] == NewRow(s, e, now);
    ComparedIff(later.ledger, e, f, Resolve(s, e), Resolve(later, f), now);
  }

  lemma ComparedIff(ledger: map<EventId, Row>, e: SourceEvent, f: SourceEvent, r: Resolution, q: Resolution, now: int)
    requires |r.campaigns| == 1 && IdOf(f) == IdOf(e)
    requires IdOf(e) in ledger && ledger[IdOf(e)] == Row(TouchpointOf(e, TheOne(r.campaigns), r), now)
    ensures VerdictFrom(ledger, f, q) == Duplicate <==> KeptOf(f) == KeptOf(e) && q == r
    ensures VerdictFrom(ledger, f, q) != Inserted
  {
    if |q.campaigns| == 1 { SamePayloadIff(e, f, r, q); }
  }

  lemma SamePayloadIff(e: SourceEvent, f: SourceEvent, r: Resolution, q: Resolution)
    requires |r.campaigns| == 1 && |q.campaigns| == 1
    ensures TouchpointOf(f, TheOne(q.campaigns), q) == TouchpointOf(e, TheOne(r.campaigns), r)
       <==> KeptOf(f) == KeptOf(e) && q == r
  {
    assert q.campaigns == {TheOne(q.campaigns)} && r.campaigns == {TheOne(r.campaigns)};
  }

  /** In particular the event itself, redelivered. */
  lemma DuplicateIffResolvedAlike(s: State, e: SourceEvent, now: int, later: State)
    requires VerdictOf(s, e) == Inserted && LedgerGrows(IngestOne(s, e, now).ledger, later.ledger)
    ensures VerdictOf(later, e) == Duplicate <==> Resolve(later, e) == Resolve(s, e)
    ensures VerdictOf(later, e) != Inserted
  {
    DuplicateIff(s, e, now, later, e);
  }

  ghost predicate DistinctMappingIds(registry: seq<Mapping>)
  {
    forall a, b :: a in registry && b in registry && a.id == b.id ==> a == b
  }

  /** The registry was only added to, and the Campaigns stayed. */
  ghost predicate RegistryGrew(s: State, later: State)
  {
    s.campaigns == later.campaigns && s.registry <= later.registry && DistinctMappingIds(later.registry)
  }

  lemma GrownMatches(s: State, later: State, e: SourceEvent)
    requires RegistryGrew(s, later)
    ensures RegistryMatches(s, e) <= RegistryMatches(later, e)
    ensures Resolve(s, e).campaigns <= Resolve(later, e).campaigns
    ensures Resolve(s, e) == Resolve(later, e) <==> RegistryMatches(s, e) == RegistryMatches(later, e)
  {
    forall m | m in RegistryMatches(s, e) ensures m in RegistryMatches(later, e) { assert m in later.registry; }
    assert ContractMatches(s, e) == ContractMatches(later, e);
    if Resolve(s, e).mappings == Resolve(later, e).mappings { MatchesFromIds(s, e, later, e); }
  }

  /** With registrations as the only change, the redelivery of an inserted event is a duplicate
      exactly if the same mappings match it as then, and a conflict otherwise, whatever Campaign
      the additional mappings name. */
  lemma RedeliveryIsDuplicateIff(s: State, e: SourceEvent, now: int, later: State)
    requires VerdictOf(s, e) == Inserted && LedgerGrows(IngestOne(s, e, now).ledger, later.ledger)
    requires RegistryGrew(s, later)
    ensures VerdictOf(later, e) ==
      if RegistryMatches(later, e) == RegistryMatches(s, e) then Duplicate else Conflict
  {
    DuplicateIffResolvedAlike(s, e, now, later);
    GrownMatches(s, later, e);
    assert TheOne(Resolve(s, e).campaigns) in Resolve(later, e).campaigns;
    NotUnknown(later.ledger, e, Resolve(later, e), TheOne(Resolve(s, e).campaigns));
  }

  lemma NotUnknown(ledger: map<EventId, Row>, e: SourceEvent, r: Resolution, c: CampaignId)
    requires c in r.campaigns
    ensures VerdictFrom(ledger, e, r) != Unknown
  {
  }

  /** One more mapping: as soon as a further mapping that matches the event is registered, even
      for the event's own Campaign, the redelivery is a conflict. */
  lemma OneMoreMapping(s: State, e: SourceEvent, now: int, m: Mapping, cap: nat)
    requires VerdictOf(s, e) == Inserted && DistinctMappingIds(s.registry + [m]) && m !in s.registry
    requires MatchesEvent(m, e) && Register(IngestOne(s, e, now), m, cap).0 == Registered
    ensures VerdictOf(Register(IngestOne(s, e, now), m, cap).1, e) == Conflict
  {
    StepContext(s, e, now);
    var later := Register(IngestOne(s, e, now), m, cap).1;
    assert later.registry == s.registry + [m];
    assert m in RegistryMatches(later, e) && m !in RegistryMatches(s, e);
    RedeliveryIsDuplicateIff(s, e, now, later);
  }

  /** Registry evidence alike, canonical evidence alike. */
  ghost predicate SameEvidence(s: State, e: SourceEvent, later: State, f: SourceEvent)
  {
    RegistryMatches(later, f) == RegistryMatches(s, e) && CanonicalMatch(later, f) == CanonicalMatch(s, e)
  }

  lemma MatchesFromIds(s: State, e: SourceEvent, later: State, f: SourceEvent)
    requires RegistryGrew(s, later) && Resolve(later, f).mappings == Resolve(s, e).mappings
    ensures RegistryMatches(later, f) == RegistryMatches(s, e)
  {
    forall m | m in RegistryMatches(later, f) ensures m in RegistryMatches(s, e) {
      assert m.id in Resolve(later, f).mappings;
      var x :| x in RegistryMatches(s, e) && x.id == m.id;
      assert x in later.registry;
    }
    forall m | m in RegistryMatches(s, e) ensures m in RegistryMatches(later, f) {
      assert m.id in Resolve(s, e).mappings && m in later.registry;
      var x :| x in RegistryMatches(later, f) && x.id == m.id;
    }
  }

  lemma CanonicalFromEvidence(s: State, e: SourceEvent, later: State, f: SourceEvent)
    requires Clear(s, e) && Resolve(later, f) == Resolve(s, e)
    ensures CanonicalMatch(later, f) == CanonicalMatch(s, e)
  {
    var c := TheOne(Resolve(s, e).campaigns);
    assert CanonicalId in Resolve(s, e).evidence <==> CanonicalMatch(s, e) != {};
    assert CanonicalId in Resolve(later, f).evidence <==> CanonicalMatch(later, f) != {};
    assert CanonicalMatch(s, e) <= {c} && CanonicalMatch(later, f) <= {c};
  }

  lemma SameEvidenceResolves(s: State, e: SourceEvent, later: State, f: SourceEvent)
    requires s.campaigns == later.campaigns && KeptOf(f) == KeptOf(e) && SameEvidence(s, e, later, f)
    ensures Resolve(later, f) == Resolve(s, e)
  {
    assert f.identity.utm == KeptOf(f).identity.utm == e.identity.utm;
    assert ContractMatches(later, f) == ContractMatches(s, e);
  }

  /** Which redeliveries under a known id are noticed, with registrations as the only change since:
      all but those that repeat what the touchpoint keeps, match the same mappings and name the same
      known Campaign, if any. So a changed account goes unnoticed unless it changes a match. */
  lemma ChangeIsNoticedIff(s: State, e: SourceEvent, now: int, later: State, f: SourceEvent)
    requires VerdictOf(s, e) == Inserted && LedgerGrows(IngestOne(s, e, now).ledger, later.ledger)
    requires RegistryGrew(s, later) && IdOf(f) == IdOf(e)
    ensures VerdictOf(later, f) == Unknown || VerdictOf(later, f) == Conflict
       <==> !(KeptOf(f) == KeptOf(e) && SameEvidence(s, e, later, f))
  {
    DuplicateIff(s, e, now, later, f);
    if Resolve(later, f) == Resolve(s, e) {
      MatchesFromIds(s, e, later, f);
      CanonicalFromEvidence(s, e, later, f);
    }
    if KeptOf(f) == KeptOf(e) && SameEvidence(s, e, later, f) { SameEvidenceResolves(s, e, later, f); }
  }

  /** Two changed redeliveries that the ledger takes for the event itself: another account, where no
      mapping looks at it, and a canonical id that no Campaign has. */
  lemma UnnoticedChange(s: State, e: SourceEvent, now: int, account: Option<string>, canonical: CampaignId)
    requires VerdictOf(s, e) == Inserted && canonical !in s.campaigns && CanonicalMatch(s, e) == {}
    requires forall m :: m in s.registry ==> m.identity.account.None?
    ensures var f := e.(identity := e.identity.(account := account), canonical := Some(canonical));
      VerdictOf(IngestOne(s, e, now), f) == Duplicate
  {
    var later := IngestOne(s, e, now);
    var f := e.(identity := e.identity.(account := account), canonical := Some(canonical));
    StepContext(s, e, now);
    DuplicateIff(s, e, now, later, f);
    forall m | m in s.registry ensures MatchesEvent(m, f) <==> MatchesEvent(m, e) { AccountUnread(m, e, f); }
    assert RegistryMatches(later, f) == RegistryMatches(s, e);
    SameEvidenceResolves(s, e, later, f);
  }

  lemma AccountUnread(m: Mapping, e: SourceEvent, f: SourceEvent)
    requires m.identity.account.None? && f.source == e.source
    requires f.identity.(account := None) == e.identity.(account := None)
    ensures MatchesEvent(m, f) <==> MatchesEvent(m, e)
  {
    assert m.identity.Fields()[0].None?;
    var x, y := f.identity.(account := None), e.identity.(account := None);
    forall j | 1 <= j < 6 ensures f.identity.Fields()[j] == e.identity.Fields()[j] {
      assert f.identity.Fields()[j] == x.Fields()[j] && e.identity.Fields()[j] == y.Fields()[j];
    }
  }

  // ---------------------------------------------------------------------------------------
  // The registry

  ghost predicate Unambiguous(registry: seq<Mapping>)
  {
    forall i, j :: 0 <= i < |registry| && 0 <= j < |registry| && Overlap(registry[i], registry[j]) ==>
      registry[i].campaign == registry[j].campaign
  }

  lemma OverlapIsSymmetric(a: Mapping, b: Mapping)
    ensures Overlap(a, b) <==> Overlap(b, a)
  {
  }

  /** Two mappings that match one event overlap. */
  lemma MatchingMappingsOverlap(a: Mapping, b: Mapping, e: SourceEvent)
    requires MatchesEvent(a, e) && MatchesEvent(b, e)
    ensures Overlap(a, b)
  {
    forall j | 0 <= j < 6
      ensures a.identity.Fields()[j].None? || b.identity.Fields()[j].None?
           || a.identity.Fields()[j] == b.identity.Fields()[j]
    {
      assert a.identity.Fields()[j].None? || a.identity.Fields()[j] == e.identity.Fields()[j];
      assert b.identity.Fields()[j].None? || b.identity.Fields()[j] == e.identity.Fields()[j];
    }
  }

  /** In an unambiguous registry all mappings that match an event name one Campaign. */
  lemma RegistryNamesOneCampaign(s: State, e: SourceEvent, a: Mapping, b: Mapping)
    requires Unambiguous(s.registry) && a in RegistryMatches(s, e) && b in RegistryMatches(s, e)
    ensures a.campaign == b.campaign
  {
    MatchingMappingsOverlap(a, b, e);
    var i :| 0 <= i < |s.registry| && s.registry[i] == a;
    var j :| 0 <= j < |s.registry| && s.registry[j] == b;
  }

  lemma {:induction false} RegisteredIff(listed: seq<Mapping>, m: Mapping)
    ensures RegistrationOf(listed, m).Registered? <==> forall i :: 0 <= i < |listed| ==> !Decides(listed[i], m)
    ensures RegistrationOf(listed, m) != NoCampaign
    ensures RegistrationOf(listed, m).AlreadyThere? ==>
      var x := RegistrationOf(listed, m).mapping; x in listed && SameIdentity(x, m) && x.campaign == m.campaign
    decreases |listed|
  {
    if listed != [] {
      RegisteredIff(listed[1..], m);
      assert forall i :: 0 <= i < |listed[1..]| ==> listed[1..][i] == listed[i + 1];
    }
  }

  /** The mappings out of the listing's sight agree with the new one wherever they overlap it. */
  ghost predicate HiddenAgree(registry: seq<Mapping>, m: Mapping, cap: nat)
  {
    forall i :: 0 <= i < |registry| - cap && Overlap(registry[i], m) ==> registry[i].campaign == m.campaign
  }

  lemma AddUnambiguousIff(registry: seq<Mapping>, m: Mapping)
    requires Unambiguous(registry)
    ensures Unambiguous(registry + [m]) <==>
      forall i :: 0 <= i < |registry| && Overlap(registry[i], m) ==> registry[i].campaign == m.campaign
  {
    var longer := registry + [m];
    assert longer[|registry|] == m && forall i :: 0 <= i < |registry| ==> longer[i] == registry[i];
    if forall i :: 0 <= i < |registry| && Overlap(registry[i], m) ==> registry[i].campaign == m.campaign {
      forall i | 0 <= i < |registry| { OverlapIsSymmetric(registry[i], m); }
    } else {
      var i :| 0 <= i < |registry| && Overlap(registry[i], m) && registry[i].campaign != m.campaign;
      assert Overlap(longer[i], longer[|registry|]);
    }
  }

  /** A mapping that was registered leaves the registry unambiguous exactly when every mapping
      beyond the listing cap that overlaps it names its Campaign. */
  lemma RegisterUnambiguousIff(s: State, m: Mapping, cap: nat)
    requires Unambiguous(s.registry) && Register(s, m, cap).0 == Registered
    ensures Unambiguous(Register(s, m, cap).1.registry) <==> HiddenAgree(s.registry, m, cap)
  {
    var listed, n := NewestMappings(s.registry, cap), |s.registry|;
    RegisteredIff(listed, m);
    AddUnambiguousIff(s.registry, m);
    forall i | 0 <= i < n && n - cap <= i && Overlap(s.registry[i], m) ensures s.registry[i].campaign == m.campaign {
      assert listed[n - 1 - i] == s.registry[i];
      assert !Decides(listed[n - 1 - i], m);
    }
  }

  /** Re-registering a known identity for its Campaign finds it and stores nothing. */
  lemma RegisterIsIdempotent(s: State, m: Mapping, cap: nat, i: nat)
    requires Unambiguous(s.registry) && |s.registry| <= cap && m.campaign in s.campaigns
    requires i < |s.registry| && SameIdentity(s.registry[i], m) && s.registry[i].campaign == m.campaign
    ensures Register(s, m, cap).0.AlreadyThere? && Register(s, m, cap).1 == s
  {
    var listed := NewestMappings(s.registry, cap);
    var n := |s.registry|;
    assert listed[n - 1 - i] == s.registry[i];
    assert Decides(listed[n - 1 - i], m);
    RegisteredIff(listed, m);
    forall x | x in listed ensures x.campaign != m.campaign ==> !Overlap(x, m) {
      var k :| 0 <= k < |listed| && listed[k] == x;
      assert x == s.registry[n - 1 - k];
      if Overlap(x, m) { assert Overlap(x, s.registry[i]); }
    }
    NoClash(listed, m);
    assert RegistrationOf(listed, m).AlreadyThere?;
  }

  lemma {:induction false} NoClash(listed: seq<Mapping>, m: Mapping)
    requires forall x :: x in listed && x.campaign != m.campaign ==> !Overlap(x, m)
    ensures RegistrationOf(listed, m) != Clash
    decreases |listed|
  {
    if listed != [] {
      assert listed[0] in listed && (SameIdentity(listed[0], m) ==> Overlap(listed[0], m));
      NoClash(listed[1..], m);
    }
  }

  lemma FullListingClashes(registry: seq<Mapping>, m: Mapping, i: nat)
    requires Unambiguous(registry) && i < |registry|
    requires Overlap(registry[i], m) && registry[i].campaign != m.campaign
    ensures RegistrationOf(NewestMappings(registry, |registry|), m) == Clash
  {
    var n, all := |registry|, NewestMappings(registry, |registry|);
    RegisteredIff(all, m);
    assert all[n - 1 - i] == registry[i] && Decides(all[n - 1 - i], m);
    forall x | x in all && SameIdentity(x, m) ensures x.campaign != m.campaign {
      var k :| 0 <= k < n && all[k] == x;
      assert registry[n - 1 - k] == x;
      OverlapsAlike(x, m, registry[i]);
    }
  }

  lemma OverlapsAlike(x: Mapping, m: Mapping, y: Mapping)
    requires SameIdentity(x, m)
    ensures Overlap(y, x) <==> Overlap(y, m)
  {
  }

  /** What the cap costs: an overlapping mapping of another Campaign, out of the listing's sight,
      lets a registration pass that a full listing refuses. */
  lemma CapLosesUnambiguity(s: State, m: Mapping, cap: nat, i: nat)
    requires Unambiguous(s.registry) && m.campaign in s.campaigns
    requires i < |s.registry| - cap && Overlap(s.registry[i], m) && s.registry[i].campaign != m.campaign
    requires forall j :: |s.registry| - cap <= j < |s.registry| ==> !Decides(s.registry[j], m)
    ensures Register(s, m, cap).0 == Registered && !Unambiguous(Register(s, m, cap).1.registry)
    ensures Register(s, m, |s.registry|).0 == Clash
  {
    RegisteredIff(NewestMappings(s.registry, cap), m);
    RegisterUnambiguousIff(s, m, cap);
    FullListingClashes(s.registry, m, i);
  }

  function Either(a: Option<string>, b: Option<string>): Option<string> { if a.Some? then a else b }

  /** Every field that one of the two fixes. */
  function Joined(x: Identity, y: Identity): Identity
  {
    Identity(Either(x.account, y.account), Either(x.campaign, y.campaign), Either(x.adset, y.adset),
             Either(x.adGroup, y.adGroup), Either(x.ad, y.ad), Either(x.utm, y.utm))
  }

  lemma JoinedFields(x: Identity, y: Identity, j: nat)
    requires j < 6
    ensures Joined(x, y).Fields()[j] == Either(x.Fields()[j], y.Fields()[j])
  {
  }

  /** Two overlapping mappings both match some event. */
  lemma OverlappingMappingsMeet(a: Mapping, b: Mapping) returns (e: SourceEvent)
    requires Overlap(a, b)
    ensures MatchesEvent(a, e) && MatchesEvent(b, e)
  {
    e := SourceEvent("", a.source, Joined(a.identity, b.identity), None, 0, true, None, None, "");
    forall j | 0 <= j < 6
      ensures a.identity.Fields()[j].None? || a.identity.Fields()[j] == e.identity.Fields()[j]
      ensures b.identity.Fields()[j].None? || b.identity.Fields()[j] == e.identity.Fields()[j]
    {
      JoinedFields(a.identity, b.identity, j);
      var x, y := a.identity.Fields()[j], b.identity.Fields()[j];
      assert x.None? || y.None? || x == y;
    }
  }

  /** Unambiguous means: whatever event comes, all mappings that match it name one Campaign. */
  lemma UnambiguousIff(s: State)
    ensures Unambiguous(s.registry) <==>
      forall e, a, b :: a in RegistryMatches(s, e) && b in RegistryMatches(s, e) ==> a.campaign == b.campaign
  {
    if Unambiguous(s.registry) {
      forall e, a, b | a in RegistryMatches(s, e) && b in RegistryMatches(s, e) ensures a.campaign == b.campaign {
        RegistryNamesOneCampaign(s, e, a, b);
      }
    } else {
      var i, j :| 0 <= i < |s.registry| && 0 <= j < |s.registry| && Overlap(s.registry[i], s.registry[j])
        && s.registry[i].campaign != s.registry[j].campaign;
      var e := OverlappingMappingsMeet(s.registry[i], s.registry[j]);
      assert s.registry[i] in RegistryMatches(s, e) && s.registry[j] in RegistryMatches(s, e);
    }
  }

  // ---------------------------------------------------------------------------------------
  // Preview and replay

  ghost predicate IssuesKeyed(s: State)
  {
    forall id :: id in s.issues ==> IdOf(s.issues[id].event) == id
  }

  /** The preview state that goes with each verdict. */
  function Announced(v: Verdict): PreviewState
  {
    match v
    case Inserted => Ready
    case Duplicate => WouldDuplicate
    case Unknown => StillUnknown
    case Conflict => StillConflict
  }

  /** A preview says exactly what the replay of the issue would find. */
  lemma PreviewIsVerdict(s: State, id: EventId)
    requires IssuesKeyed(s) && id in s.issues
    ensures var p, v := PreviewOf(s, s.issues[id]), VerdictOf(s, s.issues[id].event);
      p.ledgerId == id && p.state == Announced(v) && (p.wouldInsert <==> v == Inserted)
  {
    var e := s.issues[id].event;
    AnnouncedFrom(s.ledger, e, Resolve(s, e));
  }

  lemma AnnouncedFrom(ledger: map<EventId, Row>, e: SourceEvent, r: Resolution)
    ensures var p, v := PreviewFrom(ledger, e, r), VerdictFrom(ledger, e, r);
      p.ledgerId == IdOf(e) && p.state == Announced(v) && (p.wouldInsert <==> v == Inserted)
  {
  }

  lemma SingleEvent(s: State, e: SourceEvent, now: int)
    ensures IngestAll(s, [e], now) == IngestOne(s, e, now)
    ensures SnapshotOf(s, [e], now) == Advance(Snapshot(0, 0, 0, 0, 0, 0), VerdictOf(s, e), Clear(s, e))
  {
    FoldOne(Receiving(now), Intake(s, EMPTY_SNAPSHOT, 0), e);
  }

  /** What a replay of issue `id` that led from `s` to `after` with counters `r` has to achieve:
      one row inserted exactly if the preview said so, the ledger then holding the previewed id for
      the previewed Campaign, the issue resolved for it, and a next preview that says duplicate. */
  ghost predicate ReplayKept(s: State, id: EventId, after: State, r: Snapshot)
    requires id in s.issues
  {
    var p := PreviewOf(s, s.issues[id]);
    && r.inserted == (if p.wouldInsert then 1 else 0) && r.duplicates == 1 - r.inserted
    && |after.ledger| == |s.ledger| + r.inserted
    && id in after.ledger && p.campaigns == {after.ledger[id].touchpoint.campaign}
    && id in after.issues && after.issues[id].resolved
    && after.issues[id].campaign == Some(after.ledger[id].touchpoint.campaign)
    && PreviewOf(after, after.issues[id]).state == WouldDuplicate
  }

  /** Where the preview allows it, the replay does what the preview announced. */
  lemma PreviewPredictsReplay(s: State, id: EventId, now: int)
    requires IssuesKeyed(s) && id in s.issues
    requires var p := PreviewOf(s, s.issues[id]); p.state == Ready || p.state == WouldDuplicate
    ensures var e := s.issues[id].event; ReplayKept(s, id, IngestAll(s, [e], now), SnapshotOf(s, [e], now))
  {
    var e := s.issues[id].event;
    SingleEvent(s, e, now);
    ReplayOneKept(s, id, now, Advance(EMPTY_SNAPSHOT, VerdictOf(s, e), Clear(s, e)));
  }

  lemma ReplayOneKept(s: State, id: EventId, now: int, r: Snapshot)
    requires IssuesKeyed(s) && id in s.issues && Replayable(PreviewOf(s, s.issues[id]))
    requires r.inserted == (if VerdictOf(s, s.issues[id].event) == Inserted then 1 else 0)
    requires r.duplicates == (if VerdictOf(s, s.issues[id].event) == Duplicate then 1 else 0)
    ensures ReplayKept(s, id, IngestOne(s, s.issues[id].event, now), r)
  {
    var e := s.issues[id].event;
    PreviewIsVerdict(s, id);
    StepKeeps(s, e, now);
    ReplayStores(s, e, now);
    var after := IngestOne(s, e, now);
    VerdictAfterOwnIngest(s, e, now);
    PreviewMatchesVerdict(after, after.issues[id]);
  }

  lemma PreviewMatchesVerdict(s: State, issue: Issue)
    ensures PreviewOf(s, issue).state == WouldDuplicate <==> VerdictOf(s, issue.event) == Duplicate
  {
  }

  lemma ReplayStores(s: State, e: SourceEvent, now: int)
    requires IdOf(e) in s.issues && (VerdictOf(s, e) == Inserted || VerdictOf(s, e) == Duplicate)
    ensures var after := IngestOne(s, e, now);
      && IdOf(e) in after.ledger && Resolve(s, e).campaigns == {after.ledger[IdOf(e)].touchpoint.campaign}
      && IdOf(e) in after.issues && after.issues[IdOf(e)].resolved
      && after.issues[IdOf(e)].campaign == Some(after.ledger[IdOf(e)].touchpoint.campaign)
      && after.issues[IdOf(e)].event == s.issues[IdOf(e)].event
  {
  }
}
