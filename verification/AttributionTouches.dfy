/** Which touches a deal has and whom they credit, in terms of the ledger and of the events it came
    from. */
module AttributionTouches {
  import opened Attribution
  import opened AttributionIntake
  import opened AttributionLedger
  import opened AttributionReport
  import opened AttributionRuns
  import opened Sorting
  import opened Wrappers

  // ---------------------------------------------------------------------------------------
  // The touches of a deal

  predicate OfOpportunity(ledger: Ledger, deal: Deal, id: EventId)
  {
    id in ledger && ledger[id].touchpoint.opportunity == Some(deal.opportunity)
  }

  /** A row that carries the deal's opportunity or, if no row does, one that carries its lead. */
  ghost predicate TouchOf(ledger: Ledger, deal: Deal, id: EventId)
  {
    && id in ledger
    && (|| ledger[id].touchpoint.opportunity == Some(deal.opportunity)
        || (&& deal.lead.Some? && ledger[id].touchpoint.lead == deal.lead
            && forall x :: !OfOpportunity(ledger, deal, x)))
  }

  lemma TouchesIff(ledger: Ledger, deal: Deal, id: EventId)
    ensures id in Touches(ledger, deal) <==> TouchOf(ledger, deal, id)
  {
    var own := OpportunityTouches(ledger, deal);
    forall x ensures x in own <==> OfOpportunity(ledger, deal, x) {}
    if own == {} {
      assert !OfOpportunity(ledger, deal, id);
    } else {
      var x :| x in own;
      assert OfOpportunity(ledger, deal, x);
    }
  }

  /** Touch `a` comes before touch `b`: earlier, or at the same time with the lesser id. */
  predicate TouchedBefore(ledger: Ledger, idBefore: (EventId, EventId) -> bool, a: EventId, b: EventId)
  {
    && a in ledger && b in ledger
    && var x, y := ledger[a].touchpoint.occurredAt, ledger[b].touchpoint.occurredAt;
       x < y || (x == y && idBefore(a, b))
  }

  function CampaignOf(ledger: Ledger, id: EventId): CampaignId
    requires id in ledger
  {
    ledger[id].touchpoint.campaign
  }

  /** `t` are the touches of the deal, each once, in order. */
  ghost predicate TouchList(ledger: Ledger, idBefore: (EventId, EventId) -> bool, deal: Deal, t: seq<EventId>)
  {
    && (forall id :: id in t <==> TouchOf(ledger, deal, id))
    && forall i, j :: 0 <= i < j < |t| ==> TouchedBefore(ledger, idBefore, t[i], t[j])
  }

  ghost predicate NoneOfOpportunity(ledger: Ledger, deal: Deal) { forall id :: !OfOpportunity(ledger, deal, id) }

  predicate Hinted(s: State, deal: Deal) { deal.hint.Some? && deal.hint.value in s.campaigns }

  /** Campaign `c` touched the deal, or is the hint of a deal without touches. */
  ghost predicate MatchedBy(s: State, deal: Deal, touches: seq<EventId>, c: CampaignId)
  {
    || TouchedBy(s.ledger, deal, c)
    || (touches == [] && deal.hint == Some(c) && c in s.campaigns)
  }

  ghost predicate TouchedBy(ledger: Ledger, deal: Deal, c: CampaignId)
  {
    exists id :: TouchOf(ledger, deal, id) && CampaignOf(ledger, id) == c
  }

  /** The match of a deal: its touches in order, and the Campaigns they are of, each once. A hint
      counts only for a deal without touches, and only if it names a stored Campaign. */
  lemma MatchMeaning(s: State, idBefore: (EventId, EventId) -> bool, deal: Deal)
    requires StrictTotal(idBefore)
    ensures var m := MatchOf(s, idBefore, deal);
      && m.opportunity == deal.opportunity && TouchList(s.ledger, idBefore, deal, m.touches)
      && AttributionReport.Distinct(m.campaigns)
      && (forall c :: c in m.campaigns <==> MatchedBy(s, deal, m.touches, c))
      && (m.how == ByHint <==> m.touches == [] && Hinted(s, deal))
      && (m.how == ByLead <==> m.how != ByHint && deal.lead.Some? && NoneOfOpportunity(s.ledger, deal))
      && (NoCampaignMatch in m.issues <==> m.campaigns == [])
      && (HintNotFound in m.issues <==> m.touches == [] && deal.hint.Some? && !Hinted(s, deal))
      && (HintConflicts in m.issues <==> m.campaigns != [] && deal.hint.Some? && deal.hint.value !in m.campaigns)
  {
    var t := SortedTouches(s.ledger, idBefore, deal);
    ListedTouches(s.ledger, idBefore, deal, t);
    EmptyIffUntouched(s.ledger, t);
    NoneOfOpportunityIff(s.ledger, deal);
    forall c ensures c in MatchOf(s, idBefore, deal).campaigns <==> MatchedBy(s, deal, t, c) {
      MatchedByIff(s, idBefore, deal, t, c);
    }
  }

  lemma NoneOfOpportunityIff(ledger: Ledger, deal: Deal)
    ensures NoneOfOpportunity(ledger, deal) <==> OpportunityTouches(ledger, deal) == {}
  {
    forall id ensures id in OpportunityTouches(ledger, deal) <==> OfOpportunity(ledger, deal, id) {}
  }

  lemma TouchedByIff(ledger: Ledger, idBefore: (EventId, EventId) -> bool, deal: Deal, t: seq<EventId>, c: CampaignId)
    requires TouchList(ledger, idBefore, deal, t) && forall id :: id in t ==> id in ledger
    ensures c in FirstSeen(CampaignsOf(ledger, t)) <==> TouchedBy(ledger, deal, c)
  {
    CampaignsSeen(ledger, t);
  }

  lemma MatchedByIff(s: State, idBefore: (EventId, EventId) -> bool, deal: Deal, t: seq<EventId>, c: CampaignId)
    requires StrictTotal(idBefore) && t == SortedTouches(s.ledger, idBefore, deal)
    ensures c in MatchOf(s, idBefore, deal).campaigns <==> MatchedBy(s, deal, t, c)
  {
    ListedTouches(s.ledger, idBefore, deal, t);
    TouchedByIff(s.ledger, idBefore, deal, t, c);
    EmptyIffUntouched(s.ledger, t);
    var touched := FirstSeen(CampaignsOf(s.ledger, t));
    if touched == [] { assert !TouchedBy(s.ledger, deal, c); }
  }

  lemma ListedTouches(ledger: Ledger, idBefore: (EventId, EventId) -> bool, deal: Deal, t: seq<EventId>)
    requires StrictTotal(idBefore) && t == SortedTouches(ledger, idBefore, deal)
    ensures TouchList(ledger, idBefore, deal, t)
  {
    forall id ensures id in t <==> TouchOf(ledger, deal, id) { TouchesIff(ledger, deal, id); }
    forall i, j | 0 <= i < j < |t| ensures TouchedBefore(ledger, idBefore, t[i], t[j]) {
      assert t[i] in t && t[j] in t;
      EarlierIsBefore(ledger, idBefore, t[i], t[j]);
    }
  }

  lemma EarlierIsBefore(ledger: Ledger, idBefore: (EventId, EventId) -> bool, a: EventId, b: EventId)
    requires a in ledger && b in ledger && Earlier(ledger, idBefore)(a, b)
    ensures TouchedBefore(ledger, idBefore, a, b)
  {
    assert TouchedAt(ledger, a) < TouchedAt(ledger, b) || (TouchedAt(ledger, a) == TouchedAt(ledger, b) && idBefore(a, b));
  }

  lemma CampaignsSeen(ledger: Ledger, t: seq<EventId>)
    requires forall id :: id in t ==> id in ledger
    ensures forall c :: c in FirstSeen(CampaignsOf(ledger, t)) <==> exists id :: id in t && CampaignOf(ledger, id) == c
  {
    var cs := CampaignsOf(ledger, t);
    forall c ensures c in cs <==> exists id :: id in t && CampaignOf(ledger, id) == c {
      if c in cs {
        var i :| 0 <= i < |cs| && cs[i] == c;
        assert t[i] in t;
      }
      if id :| id in t && CampaignOf(ledger, id) == c {
        var i :| 0 <= i < |t| && t[i] == id;
        assert cs[i] == c;
      }
    }
  }

  lemma EmptyIffUntouched(ledger: Ledger, t: seq<EventId>)
    requires forall id :: id in t ==> id in ledger
    ensures FirstSeen(CampaignsOf(ledger, t)) == [] <==> t == []
  {
    var cs := CampaignsOf(ledger, t);
    if t != [] { assert cs[0] in cs && cs[0] in FirstSeen(cs); }
    if FirstSeen(cs) != [] { assert FirstSeen(cs)[0] in cs; }
  }

  // ---------------------------------------------------------------------------------------
  // First and last touch

  lemma {:induction false} FirstSeenStarts(c: seq<CampaignId>)
    requires c != []
    ensures FirstSeen(c) != [] && FirstSeen(c)[0] == c[0]
    decreases |c|
  {
    if |c| > 1 { FirstSeenStarts(c[..|c| - 1]); }
  }

  /** Touch `j` is its Campaign's first. */
  predicate Fresh(c: seq<CampaignId>, j: nat)
    requires j < |c|
  {
    c[j] !in c[..j]
  }

  lemma FreshIsNew(c: seq<CampaignId>, j: nat, i: nat)
    requires i < j < |c| && Fresh(c, j)
    ensures c[i] != c[j]
  {
    assert c[..j][i] == c[i];
  }

  lemma FreshInPrefix(c: seq<CampaignId>, n: nat, j: nat)
    requires j < n <= |c|
    ensures Fresh(c[..n], j) == Fresh(c, j)
  {
    assert c[..n][..j] == c[..j];
  }

  /** Some Campaign is touched for the first time after the first touch of the Campaign touched last. */
  ghost predicate OvertakenSince(c: seq<CampaignId>)
    requires c != []
  {
    exists i, j :: 0 <= i < j < |c| && c[i] == c[|c| - 1] && Fresh(c, j)
  }

  ghost predicate NewestAt(c: seq<CampaignId>, j: nat)
  {
    j < |c| && Fresh(c, j) && forall k :: j < k < |c| ==> !Fresh(c, k)
  }

  /** The last entry of the deduplicated list is the Campaign of the last fresh touch. */
  lemma {:induction false} LastSeenIsNewest(c: seq<CampaignId>) returns (j: nat)
    requires c != []
    ensures NewestAt(c, j) && FirstSeen(c) != [] && c[j] == FirstSeen(c)[|FirstSeen(c)| - 1]
    decreases |c|
  {
    var n := |c| - 1;
    if Fresh(c, n) {
      j := n;
    } else {
      j := LastSeenIsNewest(c[..n]);
      FreshInPrefix(c, n, j);
      forall k | j < k < |c| ensures !Fresh(c, k) {
        if k < n { FreshInPrefix(c, n, k); }
      }
    }
  }

  lemma LastSeenIsLastIff(c: seq<CampaignId>)
    requires c != []
    ensures FirstSeen(c) != [] && (FirstSeen(c)[|FirstSeen(c)| - 1] == c[|c| - 1] <==> !OvertakenSince(c))
  {
    var j := LastSeenIsNewest(c);
    if c[j] == c[|c| - 1] {
      forall i: nat, k: nat | i < k < |c| && c[i] == c[|c| - 1] ensures !Fresh(c, k) {
        if i < j { FreshIsNew(c, j, i); }
      }
    } else {
      var i := FirstOccurrence(c, c[|c| - 1]);
      assert i < j;
    }
  }

  lemma {:induction false} FirstOccurrence(c: seq<CampaignId>, x: CampaignId) returns (i: nat)
    requires x in c
    ensures i < |c| && c[i] == x && Fresh(c, i)
    decreases |c|
  {
    var n := |c| - 1;
    if x in c[..n] {
      i := FirstOccurrence(c[..n], x);
      FreshInPrefix(c, n, i);
    } else {
      i := n;
    }
  }

  // ---------------------------------------------------------------------------------------
  // Whom the touches credit

  ghost predicate EarliestTouch(ledger: Ledger, idBefore: (EventId, EventId) -> bool, deal: Deal, id: EventId)
  {
    TouchOf(ledger, deal, id) && forall x :: TouchOf(ledger, deal, x) && x != id ==> TouchedBefore(ledger, idBefore, id, x)
  }

  ghost predicate LatestTouch(ledger: Ledger, idBefore: (EventId, EventId) -> bool, deal: Deal, id: EventId)
  {
    TouchOf(ledger, deal, id) && forall x :: TouchOf(ledger, deal, x) && x != id ==> TouchedBefore(ledger, idBefore, x, id)
  }

  lemma TouchedMatch(s: State, idBefore: (EventId, EventId) -> bool, deal: Deal, id: EventId)
    requires StrictTotal(idBefore) && TouchOf(s.ledger, deal, id)
    ensures var t := MatchOf(s, idBefore, deal).touches;
      t != [] && MatchOf(s, idBefore, deal).campaigns == FirstSeen(CampaignsOf(s.ledger, t))
  {
    var t := SortedTouches(s.ledger, idBefore, deal);
    TouchesIff(s.ledger, deal, id);
    EmptyIffUntouched(s.ledger, t);
  }

  lemma FirstIsEarliest(ledger: Ledger, idBefore: (EventId, EventId) -> bool, deal: Deal, t: seq<EventId>)
    requires TouchList(ledger, idBefore, deal, t) && t != []
    ensures EarliestTouch(ledger, idBefore, deal, t[0]) && LatestTouch(ledger, idBefore, deal, t[|t| - 1])
  {
    assert t[0] in t && t[|t| - 1] in t;
    forall x | TouchOf(ledger, deal, x) && x != t[0] ensures TouchedBefore(ledger, idBefore, t[0], x) {
      var i :| 0 <= i < |t| && t[i] == x;
    }
    forall x | TouchOf(ledger, deal, x) && x != t[|t| - 1] ensures TouchedBefore(ledger, idBefore, x, t[|t| - 1]) {
      var i :| 0 <= i < |t| && t[i] == x;
    }
  }

  lemma BeforeIsStrict(ledger: Ledger, idBefore: (EventId, EventId) -> bool, a: EventId, b: EventId)
    requires StrictTotal(idBefore) && TouchedBefore(ledger, idBefore, a, b)
    ensures !TouchedBefore(ledger, idBefore, b, a)
  {
    assert !idBefore(a, a);
  }

  /** A touched deal has an earliest touch, and first touch credits its Campaign, alone. */
  lemma FirstTouchIsEarliest(s: State, idBefore: (EventId, EventId) -> bool, deal: Deal, id: EventId)
    requires StrictTotal(idBefore) && TouchOf(s.ledger, deal, id)
    ensures var credited := Credited(FirstTouch, MatchOf(s, idBefore, deal).campaigns);
      && (exists x :: EarliestTouch(s.ledger, idBefore, deal, x))
      && forall x :: EarliestTouch(s.ledger, idBefore, deal, x) ==> credited == [CampaignOf(s.ledger, x)]
  {
    var t := SortedTouches(s.ledger, idBefore, deal);
    TouchedMatch(s, idBefore, deal, id);
    ListedTouches(s.ledger, idBefore, deal, t);
    FirstIsEarliest(s.ledger, idBefore, deal, t);
    FirstSeenStarts(CampaignsOf(s.ledger, t));
    forall x | EarliestTouch(s.ledger, idBefore, deal, x) ensures x == t[0] {
      if x != t[0] {
        BeforeIsStrict(s.ledger, idBefore, x, t[0]);
        assert false;
      }
    }
  }

  /** No touch of the deal by the Campaign of touch `id` comes before it. */
  ghost predicate FirstOfCampaign(ledger: Ledger, idBefore: (EventId, EventId) -> bool, deal: Deal, id: EventId)
    requires id in ledger
  {
    forall x :: TouchOf(ledger, deal, x) && TouchedBefore(ledger, idBefore, x, id) ==> CampaignOf(ledger, x) != CampaignOf(ledger, id)
  }

  /** Since the Campaign of touch `id` first touched the deal, another Campaign did so for the first time. */
  ghost predicate Overtaken(ledger: Ledger, idBefore: (EventId, EventId) -> bool, deal: Deal, id: EventId)
    requires id in ledger
  {
    exists a, b :: && TouchOf(ledger, deal, a) && TouchOf(ledger, deal, b) && TouchedBefore(ledger, idBefore, a, b)
                   && CampaignOf(ledger, a) == CampaignOf(ledger, id) && FirstOfCampaign(ledger, idBefore, deal, b)
  }

  lemma FreshIff(ledger: Ledger, idBefore: (EventId, EventId) -> bool, deal: Deal, t: seq<EventId>, j: nat)
    requires StrictTotal(idBefore) && TouchList(ledger, idBefore, deal, t) && j < |t|
    requires forall id :: id in t ==> id in ledger
    ensures Fresh(CampaignsOf(ledger, t), j) <==> t[j] in t && FirstOfCampaign(ledger, idBefore, deal, t[j])
  {
    var cs := CampaignsOf(ledger, t);
    assert t[j] in t;
    if Fresh(cs, j) {
      forall x | TouchOf(ledger, deal, x) && TouchedBefore(ledger, idBefore, x, t[j]) ensures CampaignOf(ledger, x) != CampaignOf(ledger, t[j]) {
        var i :| 0 <= i < |t| && t[i] == x;
        PlacedBefore(ledger, idBefore, deal, t, i, j);
        FreshIsNew(cs, j, i);
      }
    }
    if FirstOfCampaign(ledger, idBefore, deal, t[j]) {
      forall i | 0 <= i < j ensures cs[..j][i] != cs[j] { assert t[i] in t; }
    }
  }

  lemma PlacedBefore(ledger: Ledger, idBefore: (EventId, EventId) -> bool, deal: Deal, t: seq<EventId>, i: nat, j: nat)
    requires StrictTotal(idBefore) && TouchList(ledger, idBefore, deal, t) && i < |t| && j < |t|
    ensures TouchedBefore(ledger, idBefore, t[i], t[j]) <==> i < j
  {
    if j < i { BeforeIsStrict(ledger, idBefore, t[j], t[i]); }
  }

  lemma OvertakenIff(ledger: Ledger, idBefore: (EventId, EventId) -> bool, deal: Deal, t: seq<EventId>)
    requires StrictTotal(idBefore) && TouchList(ledger, idBefore, deal, t) && t != []
    requires forall id :: id in t ==> id in ledger
    ensures t[|t| - 1] in t && (OvertakenSince(CampaignsOf(ledger, t)) <==> Overtaken(ledger, idBefore, deal, t[|t| - 1]))
  {
    var cs, last := CampaignsOf(ledger, t), t[|t| - 1];
    assert last in t;
    if OvertakenSince(cs) {
      var i, j :| 0 <= i < j < |cs| && cs[i] == cs[|cs| - 1] && Fresh(cs, j);
      assert t[i] in t && t[j] in t;
      FreshIff(ledger, idBefore, deal, t, j);
      assert TouchedBefore(ledger, idBefore, t[i], t[j]);
    }
    if Overtaken(ledger, idBefore, deal, last) {
      var a, b :| TouchOf(ledger, deal, a) && TouchOf(ledger, deal, b) && TouchedBefore(ledger, idBefore, a, b)
        && CampaignOf(ledger, a) == CampaignOf(ledger, last) && FirstOfCampaign(ledger, idBefore, deal, b);
      var i :| 0 <= i < |t| && t[i] == a;
      var j :| 0 <= j < |t| && t[j] == b;
      PlacedBefore(ledger, idBefore, deal, t, i, j);
      FreshIff(ledger, idBefore, deal, t, j);
      assert cs[i] == cs[|cs| - 1];
    }
  }

  lemma LatestIsLast(ledger: Ledger, idBefore: (EventId, EventId) -> bool, deal: Deal, t: seq<EventId>, x: EventId)
    requires StrictTotal(idBefore) && TouchList(ledger, idBefore, deal, t) && t != [] && LatestTouch(ledger, idBefore, deal, x)
    ensures x == t[|t| - 1]
  {
    FirstIsEarliest(ledger, idBefore, deal, t);
    if x != t[|t| - 1] {
      BeforeIsStrict(ledger, idBefore, x, t[|t| - 1]);
      assert false;
    }
  }

  lemma LastCreditIff(ledger: Ledger, idBefore: (EventId, EventId) -> bool, deal: Deal, t: seq<EventId>)
    requires StrictTotal(idBefore) && TouchList(ledger, idBefore, deal, t) && t != []
    requires forall id :: id in t ==> id in ledger
    ensures t[|t| - 1] in t && FirstSeen(CampaignsOf(ledger, t)) != []
    ensures Credited(LastTouch, FirstSeen(CampaignsOf(ledger, t))) == [CampaignOf(ledger, t[|t| - 1])]
       <==> !Overtaken(ledger, idBefore, deal, t[|t| - 1])
  {
    LastSeenIsLastIff(CampaignsOf(ledger, t));
    OvertakenIff(ledger, idBefore, deal, t);
  }

  /** Last touch credits one Campaign. It is that of the latest touch, as documented, exactly if no
      other Campaign first touched the deal since that Campaign first did. */
  lemma LastTouchIsLatestIff(s: State, idBefore: (EventId, EventId) -> bool, deal: Deal, id: EventId)
    requires StrictTotal(idBefore) && TouchOf(s.ledger, deal, id)
    ensures var credited := Credited(LastTouch, MatchOf(s, idBefore, deal).campaigns);
      && |credited| == 1 && (exists x :: LatestTouch(s.ledger, idBefore, deal, x))
      && forall x :: LatestTouch(s.ledger, idBefore, deal, x) ==>
           (credited == [CampaignOf(s.ledger, x)] <==> !Overtaken(s.ledger, idBefore, deal, x))
  {
    var t := SortedTouches(s.ledger, idBefore, deal);
    TouchedMatch(s, idBefore, deal, id);
    ListedTouches(s.ledger, idBefore, deal, t);
    FirstIsEarliest(s.ledger, idBefore, deal, t);
    LastCreditIff(s.ledger, idBefore, deal, t);
    forall x | LatestTouch(s.ledger, idBefore, deal, x) ensures x == t[|t| - 1] {
      LatestIsLast(s.ledger, idBefore, deal, t, x);
    }
  }

  /** Linear credit goes to every Campaign that touched the deal, in equal shares. */
  lemma LinearCreditsAll(s: State, idBefore: (EventId, EventId) -> bool, deal: Deal, id: EventId)
    requires StrictTotal(idBefore) && TouchOf(s.ledger, deal, id)
    ensures var credited := Credited(Linear, MatchOf(s, idBefore, deal).campaigns);
      && AttributionReport.Distinct(credited)
      && forall c :: c in credited <==> TouchedBy(s.ledger, deal, c)
  {
    TouchedMatch(s, idBefore, deal, id);
    var m := MatchOf(s, idBefore, deal);
    forall c ensures c in m.campaigns <==> TouchedBy(s.ledger, deal, c) {
      MatchedByIff(s, idBefore, deal, m.touches, c);
    }
  }

  /** A deal without touches credits the Campaign of its hint under every model, or nobody. */
  lemma HintIsCredited(s: State, idBefore: (EventId, EventId) -> bool, deal: Deal, model: Model)
    requires StrictTotal(idBefore) && forall id :: !TouchOf(s.ledger, deal, id)
    ensures Credited(model, MatchOf(s, idBefore, deal).campaigns)
      == if deal.hint.Some? && deal.hint.value in s.campaigns then [deal.hint.value] else []
  {
    var t := SortedTouches(s.ledger, idBefore, deal);
    ListedTouches(s.ledger, idBefore, deal, t);
    assert forall id :: id !in t;
    EmptyIffUntouched(s.ledger, t);
  }

  /** Touched by `a`, then `b`, then `a` again: last touch credits `b`. */
  lemma ReturningCampaignIsNotCredited(a: CampaignId, b: CampaignId)
    requires a != b
    ensures Credited(LastTouch, FirstSeen([a, b, a])) == [b]
  {
    var c := [a, b, a];
    assert c[..2] == [a, b] && c[..2][..1] == [a] && c[..2][..1][..0] == [];
    assert FirstSeen([a]) == [a];
    assert FirstSeen([a, b]) == [a, b];
  }

  // ---------------------------------------------------------------------------------------
  // From the events of a run to the touches of a deal

  /** Row `row` came in with the operation: backfilled as it is, or as the record of the first event
      with its id that names exactly one Campaign. */
  ghost predicate Admitted(s: State, op: Operation, id: EventId, row: Row)
  {
    if op.BackfillRows? then BackfillAllowed(s, op.rows) && row in op.rows && row.touchpoint.id == id
    else (op.IngestEvents? || op.ReplayIssue?) && FromBatch(s, EventsOf(s, op), op.now, id, row)
  }

  lemma {:induction false} AppendedRow(ledger: map<EventId, Row>, rows: seq<Row>, id: EventId)
    requires id in AppendRows(ledger, rows) && id !in ledger
    ensures AppendRows(ledger, rows)[id] in rows && AppendRows(ledger, rows)[id].touchpoint.id == id
    decreases |rows|
  {
    if rows != [] {
      var front := rows[..|rows| - 1];
      assert rows == front + [rows[|rows| - 1]];
      if id in AppendRows(ledger, front) { AppendedRow(ledger, front, id); }
    }
  }

  lemma NewRowIsAdmitted(s: State, op: Operation, id: EventId)
    requires id !in s.ledger && id in Apply(s, op).ledger
    ensures Admitted(s, op, id, Apply(s, op).ledger[id])
  {
    if op.BackfillRows? { AppendedRow(s.ledger, op.rows, id); }
    if op.IngestEvents? || op.ReplayIssue? { BatchLedger(s, EventsOf(s, op), op.now, id); }
  }

  /** Row `row` came in with operation `n` of the run. */
  ghost predicate AdmittedAt(ops: seq<Operation>, n: nat, id: EventId, row: Row)
    requires n < |ops|
  {
    id !in After(ops[..n]).ledger && Admitted(After(ops[..n]), ops[n], id, row)
  }

  lemma AdmittedInFront(ops: seq<Operation>, n: nat, m: nat, id: EventId, row: Row)
    requires n < m <= |ops|
    ensures AdmittedAt(ops[..m], n, id, row) <==> AdmittedAt(ops, n, id, row)
  {
    assert ops[..m][..n] == ops[..n];
  }

  /** In every reachable state each row of the ledger came in with some operation and is since as it
      came in. */
  lemma {:induction false} RunAdmits(ops: seq<Operation>, id: EventId) returns (n: nat)
    requires id in After(ops).ledger
    ensures n < |ops| && AdmittedAt(ops, n, id, After(ops).ledger[id])
    decreases |ops|
  {
    var m := |ops| - 1;
    var before := After(ops[..m]);
    OperationGrowsLedger(before, ops[m]);
    if id in before.ledger {
      n := RunAdmits(ops[..m], id);
      AdmittedInFront(ops, n, m, id, before.ledger[id]);
    } else {
      n := m;
      NewRowIsAdmitted(before, ops[m], id);
    }
  }

  /** What was handed in under `id`, and when, in the words of the one who handed it in: a backfilled
      row or a source event that brought a row into the ledger. */
  ghost predicate Carries(ops: seq<Operation>, n: nat, id: EventId, lead: Option<string>, opportunity: Option<string>)
    requires n < |ops|
  {
    var s, op := After(ops[..n]), ops[n];
    && id !in s.ledger
    && if op.BackfillRows? then BackfillAllowed(s, op.rows) && RowCarries(op.rows, id, lead, opportunity)
       else (op.IngestEvents? || op.ReplayIssue?) && EventCarries(s, EventsOf(s, op), id, lead, opportunity)
  }

  ghost predicate RowCarries(rows: seq<Row>, id: EventId, lead: Option<string>, opportunity: Option<string>)
  {
    exists i :: 0 <= i < |rows| && rows[i].touchpoint.id == id
                && rows[i].touchpoint.lead == lead && rows[i].touchpoint.opportunity == opportunity
  }

  ghost predicate EventCarries(s: State, events: seq<SourceEvent>, id: EventId, lead: Option<string>, opportunity: Option<string>)
  {
    exists i :: 0 <= i < |events| && EventId(events[i].source, events[i].ref) == id && FirstClear(s, events, i)
                && events[i].lead == lead && events[i].opportunity == opportunity
  }

  lemma AdmittedCarries(ops: seq<Operation>, n: nat, id: EventId, row: Row)
    requires n < |ops| && AdmittedAt(ops, n, id, row) && id in Apply(After(ops[..n]), ops[n]).ledger
    ensures Carries(ops, n, id, row.touchpoint.lead, row.touchpoint.opportunity)
  {
    var s, op := After(ops[..n]), ops[n];
    if op.BackfillRows? {
      var i :| 0 <= i < |op.rows| && op.rows[i] == row;
      assert RowCarries(op.rows, id, row.touchpoint.lead, row.touchpoint.opportunity);
    } else {
      var events := EventsOf(s, op);
      var i :| 0 <= i < |events| && EventId(events[i].source, events[i].ref) == id
        && FirstClear(s, events, i) && RowRecords(s, events[i], op.now, row);
      assert EventCarries(s, events, id, row.touchpoint.lead, row.touchpoint.opportunity);
    }
  }

  lemma {:induction false} AppendsItsRow(ledger: map<EventId, Row>, rows: seq<Row>, i: nat)
    requires i < |rows| && rows[i].touchpoint.id !in ledger
    requires forall j, k :: 0 <= j < k < |rows| ==> rows[j].touchpoint.id != rows[k].touchpoint.id
    ensures rows[i].touchpoint.id in AppendRows(ledger, rows) && AppendRows(ledger, rows)[rows[i].touchpoint.id] == rows[i]
    decreases |rows|
  {
    var n := |rows| - 1;
    var front := rows[..n];
    if i < n {
      assert front[i] == rows[i];
      AppendsItsRow(ledger, front, i);
    } else {
      AppendRowsKeys(ledger, front);
      assert forall j :: 0 <= j < n ==> front[j].touchpoint.id != rows[n].touchpoint.id;
    }
  }

  lemma FirstClearIsUnique(s: State, events: seq<SourceEvent>, i: nat, j: nat)
    requires i < |events| && j < |events| && FirstClear(s, events, i) && FirstClear(s, events, j) && SameId(events[i], events[j])
    ensures i == j
  {
    assert SameId(events[i], events[j]) && SameId(events[j], events[i]);
  }

  lemma EventRow(s: State, events: seq<SourceEvent>, now: int, id: EventId, lead: Option<string>, opportunity: Option<string>)
    requires id !in s.ledger && EventCarries(s, events, id, lead, opportunity)
    ensures var after := IngestAll(s, events, now).ledger;
      id in after && after[id].touchpoint.lead == lead && after[id].touchpoint.opportunity == opportunity
  {
    BatchLedger(s, events, now, id);
    var i :| 0 <= i < |events| && EventId(events[i].source, events[i].ref) == id && FirstClear(s, events, i)
      && events[i].lead == lead && events[i].opportunity == opportunity;
    var row := IngestAll(s, events, now).ledger[id];
    var j :| 0 <= j < |events| && EventId(events[j].source, events[j].ref) == id
      && FirstClear(s, events, j) && RowRecords(s, events[j], now, row);
    FirstClearIsUnique(s, events, i, j);
  }

  lemma CarriedIsLedgered(ops: seq<Operation>, n: nat, id: EventId, lead: Option<string>, opportunity: Option<string>)
    requires n < |ops| && Carries(ops, n, id, lead, opportunity)
    ensures id in After(ops).ledger
    ensures After(ops).ledger[id].touchpoint.lead == lead && After(ops).ledger[id].touchpoint.opportunity == opportunity
  {
    var s, op := After(ops[..n]), ops[n];
    LedgerIsAppendOnly(ops, n + 1);
    assert ops[..n + 1][..n] == ops[..n];
    assert After(ops[..n + 1]) == Apply(s, op);
    CarriedIsApplied(ops, n, id, lead, opportunity);
  }

  lemma CarriedIsApplied(ops: seq<Operation>, n: nat, id: EventId, lead: Option<string>, opportunity: Option<string>)
    requires n < |ops| && Carries(ops, n, id, lead, opportunity)
    ensures var after := Apply(After(ops[..n]), ops[n]).ledger;
      id in after && after[id].touchpoint.lead == lead && after[id].touchpoint.opportunity == opportunity
  {
    var s, op := After(ops[..n]), ops[n];
    if op.BackfillRows? {
      BackfilledRow(s.ledger, op.rows, id, lead, opportunity);
    } else {
      EventRow(s, EventsOf(s, op), op.now, id, lead, opportunity);
    }
  }

  lemma BackfilledRow(ledger: Ledger, rows: seq<Row>, id: EventId, lead: Option<string>, opportunity: Option<string>)
    requires id !in ledger && RowCarries(rows, id, lead, opportunity)
    requires forall j, k :: 0 <= j < k < |rows| ==> rows[j].touchpoint.id != rows[k].touchpoint.id
    ensures var after := AppendRows(ledger, rows);
      id in after && after[id].touchpoint.lead == lead && after[id].touchpoint.opportunity == opportunity
  {
    var i :| 0 <= i < |rows| && rows[i].touchpoint.id == id
      && rows[i].touchpoint.lead == lead && rows[i].touchpoint.opportunity == opportunity;
    AppendsItsRow(ledger, rows, i);
  }

  ghost predicate Handed(ops: seq<Operation>, id: EventId, lead: Option<string>, opportunity: Option<string>)
  {
    exists n :: 0 <= n < |ops| && Carries(ops, n, id, lead, opportunity)
  }

  /** What the ledger says of an id is what was handed in under it. */
  lemma HandedIff(ops: seq<Operation>, id: EventId, lead: Option<string>, opportunity: Option<string>)
    ensures Handed(ops, id, lead, opportunity) <==>
      id in After(ops).ledger
      && After(ops).ledger[id].touchpoint.lead == lead && After(ops).ledger[id].touchpoint.opportunity == opportunity
  {
    if Handed(ops, id, lead, opportunity) {
      var n :| 0 <= n < |ops| && Carries(ops, n, id, lead, opportunity);
      CarriedIsLedgered(ops, n, id, lead, opportunity);
    }
    if id in After(ops).ledger {
      LedgeredIsHanded(ops, id);
    }
  }

  lemma LedgeredIsHanded(ops: seq<Operation>, id: EventId)
    requires id in After(ops).ledger
    ensures var t := After(ops).ledger[id].touchpoint; Handed(ops, id, t.lead, t.opportunity)
  {
    var row := After(ops).ledger[id];
    var n := RunAdmits(ops, id);
    AdmittedIsApplied(ops, n, id, row);
    AdmittedCarries(ops, n, id, row);
  }

  lemma AdmittedIsApplied(ops: seq<Operation>, n: nat, id: EventId, row: Row)
    requires n < |ops| && AdmittedAt(ops, n, id, row)
    ensures id in Apply(After(ops[..n]), ops[n]).ledger
  {
    var s, op := After(ops[..n]), ops[n];
    if op.BackfillRows? {
      AppendRowsKeys(s.ledger, op.rows);
      var i :| 0 <= i < |op.rows| && op.rows[i] == row;
    } else {
      BatchLedger(s, EventsOf(s, op), op.now, id);
    }
  }

  /** An event or row under `id` was handed in that carries the deal's opportunity. */
  ghost predicate HandedForDeal(ops: seq<Operation>, deal: Deal, id: EventId)
  {
    exists lead :: Handed(ops, id, lead, Some(deal.opportunity))
  }

  ghost predicate HandedForLead(ops: seq<Operation>, deal: Deal, id: EventId)
  {
    deal.lead.Some? && exists opportunity :: Handed(ops, id, deal.lead, opportunity)
  }

  predicate OfLead(ledger: Ledger, deal: Deal, id: EventId)
  {
    id in ledger && deal.lead.Some? && ledger[id].touchpoint.lead == deal.lead
  }

  lemma TouchParts(ledger: Ledger, deal: Deal, id: EventId)
    ensures TouchOf(ledger, deal, id) <==>
      OfOpportunity(ledger, deal, id) || (OfLead(ledger, deal, id) && NoneOfOpportunity(ledger, deal))
  {
  }

  lemma HandedForDealIff(ops: seq<Operation>, deal: Deal, id: EventId)
    ensures HandedForDeal(ops, deal, id) <==> OfOpportunity(After(ops).ledger, deal, id)
  {
    if OfOpportunity(After(ops).ledger, deal, id) {
      HandedIff(ops, id, After(ops).ledger[id].touchpoint.lead, Some(deal.opportunity));
    }
    if lead :| Handed(ops, id, lead, Some(deal.opportunity)) { HandedIff(ops, id, lead, Some(deal.opportunity)); }
  }

  lemma HandedForLeadIff(ops: seq<Operation>, deal: Deal, id: EventId)
    ensures HandedForLead(ops, deal, id) <==> OfLead(After(ops).ledger, deal, id)
  {
    if OfLead(After(ops).ledger, deal, id) { HandedIff(ops, id, deal.lead, After(ops).ledger[id].touchpoint.opportunity); }
    if deal.lead.Some? {
      if opportunity :| Handed(ops, id, deal.lead, opportunity) { HandedIff(ops, id, deal.lead, opportunity); }
    }
  }

  lemma NoneHandedIff(ops: seq<Operation>, deal: Deal)
    ensures (forall x :: !HandedForDeal(ops, deal, x)) <==> NoneOfOpportunity(After(ops).ledger, deal)
  {
    forall x ensures HandedForDeal(ops, deal, x) <==> OfOpportunity(After(ops).ledger, deal, x) { HandedForDealIff(ops, deal, x); }
  }

  /** In every reachable state: the touches of a deal are exactly the ids under which an event or a
      backfilled row was handed in that carries its opportunity or, if none ever did, its lead. */
  lemma RunTouchesIff(ops: seq<Operation>, deal: Deal, id: EventId)
    ensures TouchOf(After(ops).ledger, deal, id) <==>
      HandedForDeal(ops, deal, id) || (HandedForLead(ops, deal, id) && forall x :: !HandedForDeal(ops, deal, x))
  {
    TouchParts(After(ops).ledger, deal, id);
    HandedForDealIff(ops, deal, id);
    HandedForLeadIff(ops, deal, id);
    NoneHandedIff(ops, deal);
  }
}
