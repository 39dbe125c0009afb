/** Reconciliation, its quality gate and the credit report of
    services/agent_hub/npd_agent_hub/attribution.py. Amounts are exact reals in one currency. */
module AttributionReport {
  import opened Attribution
  import opened Rounding
  import opened Sorting
  import opened TextOrder
  import opened Wrappers

  datatype DealStatus = Open | Won | Lost

  datatype Deal = Deal(opportunity: string, lead: Option<string>, hint: Option<CampaignId>, status: DealStatus,
                       amount: real, closed: bool)

  datatype MatchMethod = ByOpportunity | ByLead | ByHint

  datatype MatchIssue = HintNotFound | NoCampaignMatch | HintConflicts

  datatype Match = Match(opportunity: string, campaigns: seq<CampaignId>, touches: seq<EventId>,
                         how: MatchMethod, issues: set<MatchIssue>)

  // ---------------------------------------------------------------------------------------
  // Matching

  type Ledger = map<EventId, Row>

  function TouchedAt(ledger: Ledger, id: EventId): int
  {
    if id in ledger then ledger[id].touchpoint.occurredAt else 0
  }

  /** Touches are sorted by time and then by id; `idBefore` is the order of the ids' digests. */
  function Earlier(ledger: Ledger, idBefore: (EventId, EventId) -> bool): (EventId, EventId) -> bool
  {
    (a: EventId, b: EventId) =>
      TouchedAt(ledger, a) < TouchedAt(ledger, b) || (TouchedAt(ledger, a) == TouchedAt(ledger, b) && idBefore(a, b))
  }

  lemma EarlierIsTotal(ledger: Ledger, idBefore: (EventId, EventId) -> bool)
    requires StrictTotal(idBefore)
    ensures StrictTotal(Earlier(ledger, idBefore))
  {
  }

  function OpportunityTouches(ledger: Ledger, deal: Deal): set<EventId>
  {
    set id | id in ledger && ledger[id].touchpoint.opportunity == Some(deal.opportunity)
  }

  function LeadTouches(ledger: Ledger, deal: Deal): set<EventId>
  {
    if deal.lead.None? then {} else set id | id in ledger && ledger[id].touchpoint.lead == deal.lead
  }

  /** The touches that count for a deal: its own, or else those of its lead. */
  function Touches(ledger: Ledger, deal: Deal): set<EventId>
  {
    if OpportunityTouches(ledger, deal) != {} then OpportunityTouches(ledger, deal) else LeadTouches(ledger, deal)
  }

  function SortedTouches(ledger: Ledger, idBefore: (EventId, EventId) -> bool, deal: Deal): (t: seq<EventId>)
    requires StrictTotal(idBefore)
    ensures forall id :: id in t <==> id in Touches(ledger, deal)
    ensures forall id :: id in t ==> id in ledger
    ensures Ascending(Earlier(ledger, idBefore), t)
  {
    EarlierIsTotal(ledger, idBefore);
    Sort(Earlier(ledger, idBefore), Touches(ledger, deal))
  }

  function CampaignsOf(ledger: Ledger, touches: seq<EventId>): (c: seq<CampaignId>)
    requires forall id :: id in touches ==> id in ledger
    ensures |c| == |touches|
  {
    seq(|touches|, i requires 0 <= i < |touches| => ledger[touches[i]].touchpoint.campaign)
  }

  /** `list(dict.fromkeys(...))`: every value once, in the order of first occurrence. */
  function FirstSeen(c: seq<CampaignId>): (r: seq<CampaignId>)
    ensures Distinct(r) && forall x :: x in r <==> x in c
    decreases |c|
  {
    if c == [] then []
    else
      var before, last := FirstSeen(c[..|c| - 1]), c[|c| - 1];
      assert c == c[..|c| - 1] + [last];
      if last in before then before else before + [last]
  }

  ghost predicate Distinct(c: seq<CampaignId>)
  {
    forall i, j :: 0 <= i < j < |c| ==> c[i] != c[j]
  }

  function MatchOf(s: State, idBefore: (EventId, EventId) -> bool, deal: Deal): Match
    requires StrictTotal(idBefore)
  {
    var touches := SortedTouches(s.ledger, idBefore, deal);
    var touched := FirstSeen(CampaignsOf(s.ledger, touches));
    var how := if OpportunityTouches(s.ledger, deal) == {} && deal.lead.Some? then ByLead else ByOpportunity;
    var hinted := touched == [] && deal.hint.Some?;
    var useHint := hinted && deal.hint.value in s.campaigns;
    var campaigns := if useHint then [deal.hint.value] else touched;
    Match(deal.opportunity, campaigns, touches, if useHint then ByHint else how,
          (if hinted && !useHint then {HintNotFound} else {})
          + (if campaigns == [] then {NoCampaignMatch} else {})
          + (if deal.hint.Some? && campaigns != [] && deal.hint.value !in campaigns then {HintConflicts} else {}))
  }

  datatype Quality = Quality(total: nat, matched: nat, conflicting: nat, won: nat, covered: nat)
  {
    predicate Eligible() { total > 0 && matched == total && conflicting == 0 && won > 0 && covered == won }
  }

  function CountIf<T>(s: seq<T>, p: T -> bool): (n: nat)
    ensures n <= |s|
  {
    if s == [] then 0 else CountIf(s[..|s| - 1], p) + if p(s[|s| - 1]) then 1 else 0
  }

  predicate Matched(m: Match) { m.campaigns != [] }

  predicate Conflicting(m: Match) { HintConflicts in m.issues || HintNotFound in m.issues }

  predicate IsWon(d: Deal) { d.status.Won? }

  predicate Covered(d: Deal) { d.status.Won? && d.amount > 0.0 && d.closed }

  function QualityOf(deals: seq<Deal>, matches: seq<Match>): Quality
  {
    Quality(|deals|, CountIf(matches, Matched), CountIf(matches, Conflicting), CountIf(deals, IsWon), CountIf(deals, Covered))
  }

  datatype Reconciliation = Reconciliation(deals: seq<Deal>, matches: seq<Match>, quality: Quality, accepted: bool)

  /** No opportunity is listed twice: the ids are as many as the deals. */
  predicate DistinctDeals(deals: seq<Deal>) { |OpportunitiesOf(deals)| == |deals| }

  function OpportunitiesOf(deals: seq<Deal>): set<string> { set i | 0 <= i < |deals| :: deals[i].opportunity }

  lemma {:induction false} DistinctDealsIff(deals: seq<Deal>)
    ensures |OpportunitiesOf(deals)| <= |deals|
    ensures DistinctDeals(deals) <==> forall i, j :: 0 <= i < j < |deals| ==> deals[i].opportunity != deals[j].opportunity
    decreases |deals|
  {
    if deals != [] {
      var front, last := deals[..|deals| - 1], deals[|deals| - 1];
      DistinctDealsIff(front);
      assert deals == front + [last];
      OpportunitiesSnoc(front, last);
    }
  }

  lemma OpportunitiesSnoc(deals: seq<Deal>, d: Deal)
    ensures OpportunitiesOf(deals + [d]) == OpportunitiesOf(deals) + {d.opportunity}
    ensures d.opportunity in OpportunitiesOf(deals) <==> exists i :: 0 <= i < |deals| && deals[i].opportunity == d.opportunity
  {
    assert (deals + [d])[|deals|] == d;
    assert forall i :: 0 <= i < |deals| ==> (deals + [d])[i] == deals[i];
  }

  ghost predicate Reconciles(s: State, idBefore: (EventId, EventId) -> bool, r: Reconciliation)
  {
    && StrictTotal(idBefore) && DistinctDeals(r.deals) && |r.matches| == |r.deals|
    && (forall i :: 0 <= i < |r.deals| ==> r.matches[i] == MatchOf(s, idBefore, r.deals[i]))
    && r.quality == QualityOf(r.deals, r.matches)
  }

  method Reconcile(s: State, idBefore: (EventId, EventId) -> bool, deals: seq<Deal>) returns (r: Option<Reconciliation>)
    requires StrictTotal(idBefore)
    ensures r.None? <==> exists i, j :: 0 <= i < j < |deals| && deals[i].opportunity == deals[j].opportunity
    ensures r.Some? ==> r.value.deals == deals && !r.value.accepted && Reconciles(s, idBefore, r.value)
  {
    DistinctDealsIff(deals);
    if !DistinctDeals(deals) { return None; }
    var matches := [];
    for i := 0 to |deals|
      invariant |matches| == i
      invariant forall j :: 0 <= j < i ==> matches[j] == MatchOf(s, idBefore, deals[j])
    {
      matches := matches + [MatchOf(s, idBefore, deals[i])];
    }
    r := Some(Reconciliation(deals, matches, QualityOf(deals, matches), false));
  }

  function AcceptQuality(r: Reconciliation, accepted: bool): Option<Reconciliation>
  {
    if accepted && !r.quality.Eligible() then None else Some(r.(accepted := accepted))
  }

  // ---------------------------------------------------------------------------------------
  // Credit

  datatype Model = FirstTouch | LastTouch | Linear

  datatype Earned = Earned(credit: real, pipeline: real, revenue: real)
  {
    function Plus(e: Earned): Earned { Earned(credit + e.credit, pipeline + e.pipeline, revenue + e.revenue) }
  }

  const NOTHING := Earned(0.0, 0.0, 0.0)

  /** The Campaigns that get credit for a deal, in equal shares. */
  function Credited(model: Model, campaigns: seq<CampaignId>): (c: seq<CampaignId>)
    ensures c == [] <==> campaigns == []
    ensures forall x :: x in c ==> x in campaigns
    ensures Distinct(campaigns) ==> Distinct(c)
  {
    if campaigns == [] then []
    else match model
         case FirstTouch => [campaigns[0]]
         case LastTouch => [campaigns[|campaigns| - 1]]
         case Linear => campaigns
  }

  function EqualShare(credited: seq<CampaignId>): real { if credited == [] then 0.0 else 1.0 / |credited| as real }

  function ShareOf(model: Model, campaigns: seq<CampaignId>, c: CampaignId): real
  {
    if c in Credited(model, campaigns) then EqualShare(Credited(model, campaigns)) else 0.0
  }

  function Worth(d: Deal, share: real): Earned
  {
    Earned(share, if d.status.Lost? then 0.0 else d.amount * share, if d.status.Won? then d.amount * share else 0.0)
  }

  /** What Campaign `c` earns from all deals together. */
  function EarnedBy(model: Model, deals: seq<Deal>, matches: seq<Match>, c: CampaignId): Earned
    requires |matches| == |deals|
    decreases |deals|
  {
    if deals == [] then NOTHING
    else
      var n := |deals| - 1;
      EarnedBy(model, deals[..n], matches[..n], c).Plus(Worth(deals[n], ShareOf(model, matches[n].campaigns, c)))
  }

  ghost predicate InReport(model: Model, matches: seq<Match>, c: CampaignId)
  {
    exists i :: 0 <= i < |matches| && c in Credited(model, matches[i].campaigns)
  }

  type Rows = map<CampaignId, Earned>

  function Get(rows: Rows, c: CampaignId): Earned { if c in rows then rows[c] else NOTHING }

  function RoundedRow(e: Earned): Earned
  {
    Earned(Rounded(e.credit, 10000), Rounded(e.pipeline, 100), Rounded(e.revenue, 100))
  }

  function Sum(s: seq<Earned>): Earned
    decreases |s|
  {
    if s == [] then NOTHING else Sum(s[..|s| - 1]).Plus(s[|s| - 1])
  }

  datatype Report = Hidden | Report(campaigns: seq<CampaignId>, rows: seq<Earned>, total: Earned)

  ghost predicate DistinctMatches(matches: seq<Match>)
  {
    forall i :: 0 <= i < |matches| ==> Distinct(matches[i].campaigns)
  }

  /** The row of `c` is what it earned so far. */
  ghost predicate RowIs(rows: Rows, model: Model, deals: seq<Deal>, matches: seq<Match>, c: CampaignId)
    requires |matches| == |deals|
  {
    (c in rows <==> InReport(model, matches, c)) && Get(rows, c) == EarnedBy(model, deals, matches, c)
  }

  ghost predicate RowsOf(model: Model, deals: seq<Deal>, matches: seq<Match>, keys: seq<CampaignId>, rows: seq<Earned>)
    requires |matches| == |deals|
  {
    |rows| == |keys| && forall i :: 0 <= i < |rows| ==> rows[i] == RoundedRow(EarnedBy(model, deals, matches, keys[i]))
  }

  /** One row per credited Campaign, by Campaign id, each the rounded sum of what it earns. */
  ghost predicate ReportOf(r: Reconciliation, model: Model, report: Report)
    requires |r.matches| == |r.deals|
  {
    && report.Report? && Ascending(Before, report.campaigns)
    && (forall c :: c in report.campaigns <==> InReport(model, r.matches, c))
    && RowsOf(model, r.deals, r.matches, report.campaigns, report.rows)
    && report.total == RoundedRow(Sum(report.rows))
  }

  method MakeReport(r: Reconciliation, model: Model) returns (report: Report)
    requires |r.matches| == |r.deals| && DistinctMatches(r.matches)
    ensures report.Hidden? <==> !r.accepted
    ensures r.accepted ==> ReportOf(r, model, report)
  {
    if !r.accepted { return Hidden; }
    var rows := AllRows(r.deals, r.matches, model);
    var campaigns := SortedText(rows.Keys);
    forall c ensures c in campaigns <==> InReport(model, r.matches, c) {
      assert RowIs(rows, model, r.deals, r.matches, c);
    }
    var values := RoundRows(rows, campaigns);
    forall i | 0 <= i < |values| ensures values[i] == RoundedRow(EarnedBy(model, r.deals, r.matches, campaigns[i])) {
      assert campaigns[i] in rows.Keys && RowIs(rows, model, r.deals, r.matches, campaigns[i]);
    }
    report := Report(campaigns, values, RoundedRow(Sum(values)));
  }

  method RoundRows(rows: Rows, campaigns: seq<CampaignId>) returns (values: seq<Earned>)
    requires forall c :: c in campaigns ==> c in rows
    ensures |values| == |campaigns|
    ensures forall i :: 0 <= i < |values| ==> values[i] == RoundedRow(rows[campaigns[i]])
  {
    values := [];
    for i := 0 to |campaigns|
      invariant |values| == i && forall j :: 0 <= j < i ==> values[j] == RoundedRow(rows[campaigns[j]])
    {
      values := values + [RoundedRow(rows[campaigns[i]])];
    }
  }

  /** The accumulation loop over observations. */
  method AllRows(deals: seq<Deal>, matches: seq<Match>, model: Model) returns (rows: Rows)
    requires |matches| == |deals| && DistinctMatches(matches)
    ensures forall c :: RowIs(rows, model, deals, matches, c)
  {
    rows := map[];
    for i := 0 to |deals|
      invariant forall c :: RowIs(rows, model, deals[..i], matches[..i], c)
    {
      ghost var before := rows;
      rows := AddDeal(rows, deals[i], Credited(model, matches[i].campaigns));
      ghost var dealt, matched := deals[..i + 1], matches[..i + 1];
      forall c ensures RowIs(rows, model, dealt, matched, c) {
        assert RowIs(before, model, deals[..i], matches[..i], c);
        DealAdded(before, rows, deals, matches, i, model, c);
      }
    }
    assert deals[..|deals|] == deals && matches[..|deals|] == matches;
  }

  ghost predicate RowGained(before: Rows, after: Rows, d: Deal, credited: seq<CampaignId>, share: real, c: CampaignId)
  {
    && (c in after <==> c in before || c in credited)
    && Get(after, c) == if c in credited then Get(before, c).Plus(Worth(d, share)) else Get(before, c)
  }

  /** The inner loop over the credits of one observation. */
  method AddDeal(rows: Rows, d: Deal, credited: seq<CampaignId>) returns (after: Rows)
    requires Distinct(credited)
    ensures forall c :: RowGained(rows, after, d, credited, EqualShare(credited), c)
  {
    after := rows;
    var share := EqualShare(credited);
    for i := 0 to |credited|
      invariant forall c :: RowGained(rows, after, d, credited[..i], share, c)
    {
      ghost var before := after;
      after := after[credited[i] := Get(after, credited[i]).Plus(Worth(d, share))];
      ghost var done := credited[..i + 1];
      forall c ensures RowGained(rows, after, d, done, share, c) {
        assert RowGained(rows, before, d, credited[..i], share, c);
        assert done == credited[..i] + [credited[i]];
      }
    }
    assert credited[..|credited|] == credited;
  }

  lemma NothingGained(d: Deal, e: Earned)
    ensures e.Plus(Worth(d, 0.0)) == e
  {
  }

  lemma DealAdded(before: Rows, after: Rows, deals: seq<Deal>, matches: seq<Match>, i: nat, model: Model, c: CampaignId)
    requires |matches| == |deals| && i < |deals|
    requires RowIs(before, model, deals[..i], matches[..i], c)
    requires var credited := Credited(model, matches[i].campaigns);
      RowGained(before, after, deals[i], credited, EqualShare(credited), c)
    ensures RowIs(after, model, deals[..i + 1], matches[..i + 1], c)
  {
    EarnedBySnoc(model, deals, matches, i, c);
    GainIsWorth(before, after, deals[i], model, matches[i].campaigns, c);
    InReportSnoc(model, matches, i, c);
  }

  lemma GainIsWorth(before: Rows, after: Rows, d: Deal, model: Model, campaigns: seq<CampaignId>, c: CampaignId)
    requires var credited := Credited(model, campaigns); RowGained(before, after, d, credited, EqualShare(credited), c)
    ensures Get(after, c) == Get(before, c).Plus(Worth(d, ShareOf(model, campaigns, c)))
  {
    NothingGained(d, Get(before, c));
  }

  lemma EarnedBySnoc(model: Model, deals: seq<Deal>, matches: seq<Match>, i: nat, c: CampaignId)
    requires |matches| == |deals| && i < |deals|
    ensures EarnedBy(model, deals[..i + 1], matches[..i + 1], c)
      == EarnedBy(model, deals[..i], matches[..i], c).Plus(Worth(deals[i], ShareOf(model, matches[i].campaigns, c)))
  {
    assert deals[..i + 1][..i] == deals[..i] && matches[..i + 1][..i] == matches[..i];
  }

  lemma InReportSnoc(model: Model, matches: seq<Match>, i: nat, c: CampaignId)
    requires i < |matches|
    ensures InReport(model, matches[..i + 1], c) <==>
      InReport(model, matches[..i], c) || c in Credited(model, matches[i].campaigns)
  {
    var longer := matches[..i + 1];
    if j :| 0 <= j < i && c in Credited(model, matches[..i][j].campaigns) {
      assert c in Credited(model, longer[j].campaigns);
    }
    if c in Credited(model, matches[i].campaigns) { assert c in Credited(model, longer[i].campaigns); }
    if j :| 0 <= j < i + 1 && c in Credited(model, longer[j].campaigns) {
      if j < i { assert c in Credited(model, matches[..i][j].campaigns); }
    }
  }
}
