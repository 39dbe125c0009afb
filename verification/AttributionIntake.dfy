/** What intake writes down, in terms of the events alone: which Campaigns the evidence names, what
    every ledger row says, and what becomes of the events that name no Campaign or several. */
module AttributionIntake {
  import opened Attribution
  import opened AttributionLedger
  import opened Folding
  import opened Wrappers

  // ---------------------------------------------------------------------------------------
  // Evidence

  predicate SameLetter(a: char, b: char)
  {
    a == b || ('A' <= a <= 'Z' && b as int == a as int + 32) || ('A' <= b <= 'Z' && a as int == b as int + 32)
  }

  /** The same text but for the case of ASCII letters. */
  predicate SameText(a: string, b: string)
  {
    |a| == |b| && forall i :: 0 <= i < |a| ==> SameLetter(a[i], b[i])
  }

  lemma CaseFoldIff(a: string, b: string)
    ensures CaseFold(a) == CaseFold(b) <==> SameText(a, b)
  {
    var x, y := CaseFold(a), CaseFold(b);
    assert |x| == |a| && |y| == |b|;
    if x == y {
      forall i | 0 <= i < |a| ensures SameLetter(a[i], b[i]) { assert x[i] == y[i]; }
    }
    if SameText(a, b) {
      forall i | 0 <= i < |a| ensures x[i] == y[i] { assert SameLetter(a[i], b[i]); }
    }
  }

  predicate Allows(wanted: Option<string>, given: Option<string>) { wanted.None? || wanted == given }

  /** The event is of the mapping's source and has every field that the mapping fixes. */
  predicate Fits(m: Mapping, e: SourceEvent)
  {
    && m.source == e.source
    && Allows(m.identity.account, e.identity.account) && Allows(m.identity.campaign, e.identity.campaign)
    && Allows(m.identity.adset, e.identity.adset) && Allows(m.identity.adGroup, e.identity.adGroup)
    && Allows(m.identity.ad, e.identity.ad) && Allows(m.identity.utm, e.identity.utm)
  }

  lemma FitsIff(m: Mapping, e: SourceEvent)
    ensures MatchesEvent(m, e) <==> Fits(m, e)
  {
    var x, y := m.identity.Fields(), e.identity.Fields();
    assert x[0] == m.identity.account && x[1] == m.identity.campaign && x[2] == m.identity.adset;
    assert x[3] == m.identity.adGroup && x[4] == m.identity.ad && x[5] == m.identity.utm;
    assert y[0] == e.identity.account && y[1] == e.identity.campaign && y[2] == e.identity.adset;
    assert y[3] == e.identity.adGroup && y[4] == e.identity.ad && y[5] == e.identity.utm;
  }

  /** The event carries the id of a stored Campaign. */
  predicate NamedById(s: State, e: SourceEvent, c: CampaignId) { e.canonical == Some(c) && c != "" && c in s.campaigns }

  /** The event carries the tracking key of a stored Campaign, whatever its case. */
  predicate NamedByKey(s: State, e: SourceEvent, c: CampaignId)
  {
    c in s.campaigns && e.identity.utm.Some? && e.identity.utm.value != "" && SameText(s.campaigns[c], e.identity.utm.value)
  }

  /** A registered mapping that the event fits is for the Campaign. */
  ghost predicate NamedByMapping(s: State, e: SourceEvent, c: CampaignId)
  {
    exists m :: m in s.registry && Fits(m, e) && m.campaign == c
  }

  ghost predicate Names(s: State, e: SourceEvent, c: CampaignId)
  {
    NamedById(s, e, c) || NamedByKey(s, e, c) || NamedByMapping(s, e, c)
  }

  ghost predicate NamesOnly(s: State, e: SourceEvent, c: CampaignId)
  {
    Names(s, e, c) && forall d :: Names(s, e, d) ==> d == c
  }

  ghost predicate NamesNone(s: State, e: SourceEvent) { forall c :: !Names(s, e, c) }

  lemma MatchIff(s: State, e: SourceEvent, m: Mapping)
    ensures m in RegistryMatches(s, e) <==> m in s.registry && Fits(m, e)
  {
    FitsIff(m, e);
  }

  lemma NamesIff(s: State, e: SourceEvent, c: CampaignId)
    ensures c in Resolve(s, e).campaigns <==> Names(s, e, c)
  {
    if e.identity.utm.Some? && c in s.campaigns { CaseFoldIff(s.campaigns[c], e.identity.utm.value); }
    assert c in ContractMatches(s, e) <==> NamedByKey(s, e, c);
    assert c in CanonicalMatch(s, e) <==> NamedById(s, e, c);
    if m :| m in RegistryMatches(s, e) && m.campaign == c {
      MatchIff(s, e, m);
      assert NamedByMapping(s, e, c);
    }
    if NamedByMapping(s, e, c) {
      var m :| m in s.registry && Fits(m, e) && m.campaign == c;
      MatchIff(s, e, m);
    }
  }

  lemma NamesOnlyIff(s: State, e: SourceEvent, c: CampaignId)
    ensures NamesOnly(s, e, c) <==> Resolve(s, e).campaigns == {c}
    ensures NamesOnly(s, e, c) ==> Clear(s, e) && TheOne(Resolve(s, e).campaigns) == c
  {
    var found := Resolve(s, e).campaigns;
    forall d ensures d in found <==> Names(s, e, d) { NamesIff(s, e, d); }
    if NamesOnly(s, e, c) { assert found == {c}; }
    if found == {c} { assert c in found; }
  }

  lemma NamesNoneIff(s: State, e: SourceEvent)
    ensures NamesNone(s, e) <==> |Resolve(s, e).campaigns| == 0
  {
    var found := Resolve(s, e).campaigns;
    forall d ensures d in found <==> Names(s, e, d) { NamesIff(s, e, d); }
    if NamesNone(s, e) { assert found == {}; }
  }

  lemma ClearIff(s: State, e: SourceEvent)
    ensures Clear(s, e) <==> exists c :: NamesOnly(s, e, c)
  {
    if Clear(s, e) { NamesOnlyIff(s, e, TheOne(Resolve(s, e).campaigns)); }
    if c :| NamesOnly(s, e, c) { NamesOnlyIff(s, e, c); }
  }

  lemma SameNames(s: State, t: State, e: SourceEvent, c: CampaignId)
    requires SameContext(s, t)
    ensures Names(s, e, c) <==> Names(t, e, c)
    ensures NamesOnly(s, e, c) <==> NamesOnly(t, e, c)
  {
    SameResolution(s, t, e);
    NamesIff(s, e, c);
    NamesIff(t, e, c);
    NamesOnlyIff(s, e, c);
    NamesOnlyIff(t, e, c);
  }

  // ---------------------------------------------------------------------------------------
  // What a row says

  /** The kinds of evidence there were, and the mappings. */
  ghost predicate EvidenceIs(s: State, e: SourceEvent, evidence: set<Evidence>, mappings: set<nat>)
  {
    && (CanonicalId in evidence <==> exists c :: NamedById(s, e, c))
    && (UtmContract in evidence <==> exists c :: NamedByKey(s, e, c))
    && (OwnerRegistry in evidence <==> exists c :: NamedByMapping(s, e, c))
    && forall i :: i in mappings <==> exists m :: m in s.registry && Fits(m, e) && m.id == i
  }

  /** Nothing of the event is lost but its account and its canonical id. */
  predicate KeepsAll(kept: SourceEvent, e: SourceEvent)
  {
    && kept.ref == e.ref && kept.source == e.source && kept.occurredAt == e.occurredAt && kept.zoned == e.zoned
    && kept.lead == e.lead && kept.opportunity == e.opportunity && kept.details == e.details
    && kept.identity.campaign == e.identity.campaign && kept.identity.adset == e.identity.adset
    && kept.identity.adGroup == e.identity.adGroup && kept.identity.ad == e.identity.ad && kept.identity.utm == e.identity.utm
    && kept.identity.account == None && kept.canonical == None
  }

  /** The touchpoint is that of event `e` for Campaign `c`, with the evidence of state `s`. */
  ghost predicate Records(s: State, e: SourceEvent, c: CampaignId, t: Touchpoint)
  {
    && t.id == EventId(e.source, e.ref) && t.campaign == c
    && t.occurredAt == e.occurredAt && t.lead == e.lead && t.opportunity == e.opportunity
    && t.content.FromSource? && KeepsAll(t.content.kept, e)
    && EvidenceIs(s, e, t.content.evidence, t.content.mappings)
  }

  lemma ResolvedEvidence(s: State, e: SourceEvent)
    ensures EvidenceIs(s, e, Resolve(s, e).evidence, Resolve(s, e).mappings)
  {
    var r := Resolve(s, e);
    assert (exists c :: NamedById(s, e, c)) <==> CanonicalMatch(s, e) != {} by {
      if CanonicalMatch(s, e) != {} { assert NamedById(s, e, e.canonical.value); }
    }
    KeyEvidence(s, e);
    MappingEvidence(s, e);
  }

  lemma KeyEvidence(s: State, e: SourceEvent)
    ensures (exists c :: NamedByKey(s, e, c)) <==> ContractMatches(s, e) != {}
  {
    forall c ensures c in ContractMatches(s, e) <==> NamedByKey(s, e, c) {
      if e.identity.utm.Some? && c in s.campaigns { CaseFoldIff(s.campaigns[c], e.identity.utm.value); }
    }
    if ContractMatches(s, e) != {} {
      var c :| c in ContractMatches(s, e);
    }
  }

  lemma MappingEvidence(s: State, e: SourceEvent)
    ensures (exists c :: NamedByMapping(s, e, c)) <==> RegistryMatches(s, e) != {}
    ensures forall i :: i in Resolve(s, e).mappings <==> exists m :: m in s.registry && Fits(m, e) && m.id == i
  {
    forall m ensures m in RegistryMatches(s, e) <==> m in s.registry && Fits(m, e) { MatchIff(s, e, m); }
    if m :| m in RegistryMatches(s, e) { assert NamedByMapping(s, e, m.campaign); }
  }

  lemma TouchpointRecords(s: State, e: SourceEvent, c: CampaignId)
    ensures Records(s, e, c, TouchpointOf(e, c, Resolve(s, e)))
  {
    ResolvedEvidence(s, e);
  }

  lemma EvidenceIsUnique(s: State, e: SourceEvent, a: set<Evidence>, i: set<nat>, b: set<Evidence>, j: set<nat>)
    requires EvidenceIs(s, e, a, i) && EvidenceIs(s, e, b, j)
    ensures a == b && i == j
  {
    forall x: Evidence ensures x in a <==> x in b {
      match x
      case CanonicalId =>
      case UtmContract =>
      case OwnerRegistry =>
    }
    forall x ensures x in i <==> x in j {}
  }

  /** Only one touchpoint records the event. */
  lemma RecordsIff(s: State, e: SourceEvent, c: CampaignId, t: Touchpoint)
    ensures Records(s, e, c, t) <==> t == TouchpointOf(e, c, Resolve(s, e))
  {
    TouchpointRecords(s, e, c);
    if Records(s, e, c, t) {
      var u := TouchpointOf(e, c, Resolve(s, e));
      EvidenceIsUnique(s, e, t.content.evidence, t.content.mappings, u.content.evidence, u.content.mappings);
      assert t.content.kept.identity == u.content.kept.identity;
      assert t.content.kept == u.content.kept;
    }
  }

  // ---------------------------------------------------------------------------------------
  // One event

  /** The verdict on an event: unknown if it names no Campaign, in conflict if it names several or the
      ledger records something else under its id, a duplicate if the ledger records just this. */
  lemma VerdictIff(s: State, e: SourceEvent)
    ensures VerdictOf(s, e) == Unknown <==> NamesNone(s, e)
    ensures VerdictOf(s, e) == Inserted <==> EventId(e.source, e.ref) !in s.ledger && exists c :: NamesOnly(s, e, c)
    ensures VerdictOf(s, e) == Duplicate <==>
      EventId(e.source, e.ref) in s.ledger
      && exists c :: NamesOnly(s, e, c) && Records(s, e, c, s.ledger[EventId(e.source, e.ref)].touchpoint)
  {
    NamesNoneIff(s, e);
    ClearIff(s, e);
    if Clear(s, e) { ClearVerdict(s, e); }
  }

  lemma ClearVerdict(s: State, e: SourceEvent)
    requires Clear(s, e)
    ensures VerdictOf(s, e) == Inserted <==> EventId(e.source, e.ref) !in s.ledger
    ensures VerdictOf(s, e) == Duplicate <==>
      EventId(e.source, e.ref) in s.ledger
      && exists c :: NamesOnly(s, e, c) && Records(s, e, c, s.ledger[EventId(e.source, e.ref)].touchpoint)
  {
    var c := TheOne(Resolve(s, e).campaigns);
    NamesOnlyIff(s, e, c);
    if EventId(e.source, e.ref) in s.ledger {
      var t := s.ledger[EventId(e.source, e.ref)].touchpoint;
      RecordsIff(s, e, c, t);
      if d :| NamesOnly(s, e, d) && Records(s, e, d, t) { assert d == c; }
    }
  }

  lemma InsertedRow(s: State, e: SourceEvent, now: int)
    requires VerdictOf(s, e) == Inserted
    ensures Clear(s, e) && RowRecords(s, e, now, NewRow(s, e, now))
  {
    StepLedger(s, e, now);
    var c := TheOne(Resolve(s, e).campaigns);
    NamesOnlyIff(s, e, c);
    TouchpointRecords(s, e, c);
  }

  /** The ledger after one event: a row that records it, ingested now, if it names one Campaign and its
      id is new; unchanged otherwise. */
  lemma LedgerAfterEvent(s: State, e: SourceEvent, now: int)
    ensures var id, after := EventId(e.source, e.ref), IngestOne(s, e, now).ledger;
      if id !in s.ledger && exists c :: NamesOnly(s, e, c)
      then after.Keys == s.ledger.Keys + {id} && LedgerGrows(s.ledger, after) && RowRecords(s, e, now, after[id])
      else after == s.ledger
  {
    InsertedIff(s, e);
    StepLedger(s, e, now);
    if VerdictOf(s, e) == Inserted {
      InsertedRow(s, e, now);
      OneRowMore(s.ledger, EventId(e.source, e.ref), NewRow(s, e, now));
    }
  }

  lemma InsertedIff(s: State, e: SourceEvent)
    ensures VerdictOf(s, e) == Inserted <==> EventId(e.source, e.ref) !in s.ledger && exists c :: NamesOnly(s, e, c)
  {
    VerdictIff(s, e);
  }

  lemma OneRowMore(ledger: map<EventId, Row>, id: EventId, row: Row)
    requires id !in ledger
    ensures ledger[id := row].Keys == ledger.Keys + {id} && LedgerGrows(ledger, ledger[id := row])
  {
  }

  ghost predicate RowRecords(s: State, e: SourceEvent, now: int, row: Row)
  {
    row.ingestedAt == now && exists c :: NamesOnly(s, e, c) && Records(s, e, c, row.touchpoint)
  }

  /** The issue that a doubtful event leaves: it waits for the owner with every Campaign that the
      evidence named, and counts one occurrence more. */
  ghost predicate Doubted(s: State, e: SourceEvent, issue: Issue)
  {
    var id := EventId(e.source, e.ref);
    && issue.event == e && !issue.resolved && issue.campaign == None
    && issue.doubt == (if NamesNone(s, e) then UnknownIdentity else ConflictingEvidence)
    && (forall c :: c in issue.candidates <==> Names(s, e, c))
    && issue.occurrences == 1 + if id in s.issues then s.issues[id].occurrences else 0
  }

  /** The issue as it is after its event was inserted or found in the ledger. */
  ghost predicate Settled(s: State, e: SourceEvent, before: Issue, after: Issue)
  {
    && after.event == before.event && after.doubt == before.doubt && after.candidates == before.candidates
    && after.occurrences == before.occurrences
    && after.resolved && after.campaign.Some? && NamesOnly(s, e, after.campaign.value)
  }

  function NewIssue(s: State, e: SourceEvent, v: Verdict, r: Resolution): Issue
  {
    var seen := if EventId(e.source, e.ref) in s.issues then s.issues[EventId(e.source, e.ref)].occurrences else 0;
    if v == Unknown then Issue(e, UnknownIdentity, false, {}, seen + 1, None)
    else Issue(e, ConflictingEvidence, false, r.campaigns, seen + 1, None)
  }

  lemma IssueRecorded(s: State, e: SourceEvent, v: Verdict, r: Resolution, now: int)
    requires Decided(v) ==> |r.campaigns| == 1
    ensures var id, after := EventId(e.source, e.ref), Record(s, e, v, r, now).issues;
      && (forall x :: x != id ==> (x in after <==> x in s.issues) && (x in after ==> after[x] == s.issues[x]))
      && (Decided(v) ==> (id in after <==> id in s.issues))
      && (Decided(v) && id in s.issues ==> after[id] == s.issues[id].(resolved := true, campaign := Some(TheOne(r.campaigns))))
      && (!Decided(v) ==> id in after && after[id] == NewIssue(s, e, v, r))
  {
  }

  /** The issue queue after one event: a doubtful event leaves its issue waiting, a clear one settles
      it if there is one, and no other issue changes. */
  lemma IssuesAfterEvent(s: State, e: SourceEvent, now: int)
    ensures var id, after := EventId(e.source, e.ref), IngestOne(s, e, now).issues;
      && (forall x :: x != id ==> (x in after <==> x in s.issues) && (x in after ==> after[x] == s.issues[x]))
      && (Decided(VerdictOf(s, e)) ==>
            (id in after <==> id in s.issues) && (id in after ==> Settled(s, e, s.issues[id], after[id])))
      && (!Decided(VerdictOf(s, e)) ==> id in after && Doubted(s, e, after[id]))
  {
    var v, r := VerdictOf(s, e), Resolve(s, e);
    IssueRecorded(s, e, v, r, now);
    VerdictIff(s, e);
    NamesNoneIff(s, e);
    if Decided(v) { NamesOnlyIff(s, e, TheOne(r.campaigns)); }
    forall c ensures c in r.campaigns <==> Names(s, e, c) { NamesIff(s, e, c); }
  }

  /** A preview of an issue: the Campaigns that its evidence names now, and whether ingesting its event
      again would insert it, find it in the ledger, or leave it in doubt. */
  lemma PreviewIff(s: State, issue: Issue)
    ensures var p, e := PreviewOf(s, issue), issue.event;
      && p.ledgerId == EventId(e.source, e.ref) && (forall c :: c in p.campaigns <==> Names(s, e, c))
      && (p.state == StillUnknown <==> NamesNone(s, e))
      && (p.state == Ready <==> p.ledgerId !in s.ledger && exists c :: NamesOnly(s, e, c))
      && (p.state == WouldDuplicate <==>
            p.ledgerId in s.ledger && exists c :: NamesOnly(s, e, c) && Records(s, e, c, s.ledger[p.ledgerId].touchpoint))
      && (p.wouldInsert <==> p.state == Ready)
  {
    var e := issue.event;
    VerdictIff(s, e);
    AnnouncedFrom(s.ledger, e, Resolve(s, e));
    PreviewCampaigns(s.ledger, e, Resolve(s, e));
    forall c ensures c in Resolve(s, e).campaigns <==> Names(s, e, c) { NamesIff(s, e, c); }
  }

  lemma PreviewCampaigns(ledger: map<EventId, Row>, e: SourceEvent, r: Resolution)
    ensures PreviewFrom(ledger, e, r).campaigns == r.campaigns
  {
    if |r.campaigns| == 0 { assert r.campaigns == {}; }
  }

  // ---------------------------------------------------------------------------------------
  // Batches

  /** Event `i` is the first of the batch with its id that names exactly one Campaign. */
  ghost predicate FirstClear(s: State, events: seq<SourceEvent>, i: nat)
    requires i < |events|
  {
    && (exists c :: NamesOnly(s, events[i], c))
    && forall j :: 0 <= j < i && SameId(events[j], events[i]) ==> forall c :: !NamesOnly(s, events[j], c)
  }

  predicate SameId(a: SourceEvent, b: SourceEvent) { a.source == b.source && a.ref == b.ref }

  /** The row under `id` comes from the first clear event with that id. */
  ghost predicate FromBatch(s: State, events: seq<SourceEvent>, now: int, id: EventId, row: Row)
  {
    exists i :: 0 <= i < |events| && EventId(events[i].source, events[i].ref) == id
                && FirstClear(s, events, i) && RowRecords(s, events[i], now, row)
  }

  ghost predicate ClearAmong(s: State, events: seq<SourceEvent>, id: EventId)
  {
    exists i :: 0 <= i < |events| && EventId(events[i].source, events[i].ref) == id && FirstClear(s, events, i)
  }

  /** The entry of the ledger under `id` after the batch. */
  ghost predicate EntryAfter(s: State, events: seq<SourceEvent>, now: int, id: EventId, after: map<EventId, Row>)
  {
    if id in s.ledger then id in after && after[id] == s.ledger[id]
    else (id in after <==> ClearAmong(s, events, id)) && (id in after ==> FromBatch(s, events, now, id, after[id]))
  }

  lemma FirstClearSnoc(s: State, front: seq<SourceEvent>, e: SourceEvent, i: nat)
    requires i < |front|
    ensures FirstClear(s, front + [e], i) <==> FirstClear(s, front, i)
  {
    var events := front + [e];
    assert forall j :: 0 <= j <= i ==> events[j] == front[j];
    if FirstClear(s, events, i) {
      forall j | 0 <= j < i && SameId(front[j], front[i]) ensures forall c :: !NamesOnly(s, front[j], c) {
        assert SameId(events[j], events[i]);
      }
    }
    if FirstClear(s, front, i) {
      forall j | 0 <= j < i && SameId(events[j], events[i]) ensures forall c :: !NamesOnly(s, events[j], c) {
        assert SameId(front[j], front[i]);
      }
    }
  }

  lemma {:induction false} ClearHasFirst(s: State, events: seq<SourceEvent>, n: nat)
    requires n < |events| && exists c :: NamesOnly(s, events[n], c)
    ensures ClearAmong(s, events, EventId(events[n].source, events[n].ref))
    decreases n
  {
    if !FirstClear(s, events, n) {
      var j :| 0 <= j < n && SameId(events[j], events[n]) && exists c :: NamesOnly(s, events[j], c);
      ClearHasFirst(s, events, j);
    }
  }

  lemma ClearAmongSnoc(s: State, front: seq<SourceEvent>, e: SourceEvent, id: EventId)
    ensures ClearAmong(s, front + [e], id) <==>
      ClearAmong(s, front, id) || (EventId(e.source, e.ref) == id && exists c :: NamesOnly(s, e, c))
    ensures !ClearAmong(s, front, id) && EventId(e.source, e.ref) == id && (exists c :: NamesOnly(s, e, c)) ==>
      FirstClear(s, front + [e], |front|)
  {
    var events := front + [e];
    forall i: nat | i < |front| ensures FirstClear(s, events, i) <==> FirstClear(s, front, i) { FirstClearSnoc(s, front, e, i); }
    if i :| 0 <= i < |front| && EventId(front[i].source, front[i].ref) == id && FirstClear(s, front, i) {
      assert events[i] == front[i];
    }
    if EventId(e.source, e.ref) == id && exists c :: NamesOnly(s, e, c) {
      assert events[|front|] == e;
      ClearHasFirst(s, events, |front|);
      if !ClearAmong(s, front, id) {
        forall j | 0 <= j < |front| && SameId(events[j], e) ensures forall c :: !NamesOnly(s, events[j], c) {
          if exists c :: NamesOnly(s, events[j], c) {
            assert front[j] == events[j];
            ClearHasFirst(s, front, j);
          }
        }
      }
    }
    if i :| 0 <= i < |events| && EventId(events[i].source, events[i].ref) == id && FirstClear(s, events, i) {
      if i < |front| { assert front[i] == events[i]; }
    }
  }

  lemma FromBatchSnoc(s: State, front: seq<SourceEvent>, e: SourceEvent, now: int, id: EventId, row: Row)
    requires FromBatch(s, front, now, id, row)
    ensures FromBatch(s, front + [e], now, id, row)
  {
    var i :| 0 <= i < |front| && EventId(front[i].source, front[i].ref) == id
      && FirstClear(s, front, i) && RowRecords(s, front[i], now, row);
    FirstClearSnoc(s, front, e, i);
    assert (front + [e])[i] == front[i];
  }

  lemma SameRecords(s: State, t: State, e: SourceEvent, now: int, row: Row)
    requires SameContext(s, t) && RowRecords(t, e, now, row)
    ensures RowRecords(s, e, now, row)
  {
    var c :| NamesOnly(t, e, c) && Records(t, e, c, row.touchpoint);
    SameNames(s, t, e, c);
    SameResolution(s, t, e);
    RecordsIff(t, e, c, row.touchpoint);
    RecordsIff(s, e, c, row.touchpoint);
  }

  lemma SameClear(s: State, t: State, e: SourceEvent)
    requires SameContext(s, t)
    ensures (exists c :: NamesOnly(s, e, c)) <==> (exists c :: NamesOnly(t, e, c))
  {
    SameResolution(s, t, e);
    ClearIff(s, e);
    ClearIff(t, e);
  }

  /** One more event, in the state `before` that the events up to it led to. */
  lemma EntryStep(s: State, front: seq<SourceEvent>, e: SourceEvent, now: int, id: EventId, before: State)
    requires SameContext(s, before) && EntryAfter(s, front, now, id, before.ledger)
    ensures EntryAfter(s, front + [e], now, id, IngestOne(before, e, now).ledger)
  {
    LedgerAfterEvent(before, e, now);
    SameClear(s, before, e);
    ClearAmongSnoc(s, front, e, id);
    if id !in s.ledger {
      if id in before.ledger {
        FromBatchSnoc(s, front, e, now, id, before.ledger[id]);
      } else if EventId(e.source, e.ref) == id && exists c :: NamesOnly(s, e, c) {
        SameRecords(s, before, e, now, IngestOne(before, e, now).ledger[id]);
        assert (front + [e])[|front|] == e;
      }
    }
  }

  /** The ledger after a batch: all earlier rows, and one new row for each new id of an event that
      names exactly one Campaign. It records the first such event: its own time, lead and opportunity,
      the one Campaign named, and the time of ingest. */
  lemma {:induction false} BatchLedger(s: State, events: seq<SourceEvent>, now: int, id: EventId)
    ensures EntryAfter(s, events, now, id, IngestAll(s, events, now).ledger)
    decreases |events|
  {
    if events != [] {
      var n := |events| - 1;
      var front, e := events[..n], events[n];
      assert events == front + [e] && events[..n + 1] == events;
      BatchLedger(s, front, now, id);
      SnapshotSnoc(s, events, n, now);
      BatchKeepsContext(s, front, now);
      EntryStep(s, front, e, now, id, IngestAll(s, front, now));
    }
  }
}
