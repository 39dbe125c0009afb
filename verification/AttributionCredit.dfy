/** Conservation of credit, and what the quality gate and the three credit models really mean. */
module AttributionCredit {
  import opened Attribution
  import opened AttributionReport
  import opened Rounding
  import opened Sorting
  import opened TextOrder

  // ---------------------------------------------------------------------------------------
  // The quality gate

  lemma {:induction false} CountIfAll<T(!new)>(s: seq<T>, p: T -> bool)
    ensures CountIf(s, p) == |s| <==> forall i :: 0 <= i < |s| ==> p(s[i])
  {
    if s != [] {
      var front := s[..|s| - 1];
      CountIfAll(front, p);
      assert forall i :: 0 <= i < |front| ==> front[i] == s[i];
    }
  }

  lemma {:induction false} CountIfNone<T(!new)>(s: seq<T>, p: T -> bool)
    ensures CountIf(s, p) == 0 <==> forall i :: 0 <= i < |s| ==> !p(s[i])
  {
    if s != [] {
      var front := s[..|s| - 1];
      CountIfNone(front, p);
      assert forall i :: 0 <= i < |front| ==> front[i] == s[i];
    }
  }

  /** Counting a stronger property gives the same number exactly if it is not stronger here. */
  lemma {:induction false} CountIfSame<T(!new)>(s: seq<T>, p: T -> bool, q: T -> bool)
    requires forall x :: q(x) ==> p(x)
    ensures CountIf(s, q) <= CountIf(s, p)
    ensures CountIf(s, q) == CountIf(s, p) <==> forall i :: 0 <= i < |s| ==> (p(s[i]) ==> q(s[i]))
  {
    if s != [] {
      var front := s[..|s| - 1];
      CountIfSame(front, p, q);
      assert forall i :: 0 <= i < |front| ==> front[i] == s[i];
    }
  }

  /** The evidence for one deal is good: it was touched and any hint names a touching Campaign,
      or it was never touched and its hint names a stored Campaign. */
  ghost predicate GoodEvidence(s: State, deal: Deal)
  {
    if Touches(s.ledger, deal) == {} then deal.hint.Some? && deal.hint.value in s.campaigns
    else deal.hint.Some? ==> exists id :: id in Touches(s.ledger, deal) && s.ledger[id].touchpoint.campaign == deal.hint.value
  }

  lemma GoodEvidenceIff(s: State, idBefore: (EventId, EventId) -> bool, deal: Deal)
    requires StrictTotal(idBefore)
    ensures var m := MatchOf(s, idBefore, deal); GoodEvidence(s, deal) <==> Matched(m) && !Conflicting(m)
  {
    var touches := SortedTouches(s.ledger, idBefore, deal);
    var c := CampaignsOf(s.ledger, touches);
    var touched := FirstSeen(c);
    if touches == [] {
      assert c == [] && touched == [];
      assert Touches(s.ledger, deal) == {};
    } else {
      assert touches[0] in touches && c[0] in c && c[0] in touched;
      if deal.hint.Some? { HintAmongTouches(s, touches, deal.hint.value); }
    }
  }

  lemma HintAmongTouches(s: State, touches: seq<EventId>, hint: CampaignId)
    requires forall id :: id in touches ==> id in s.ledger
    ensures hint in FirstSeen(CampaignsOf(s.ledger, touches)) <==>
      exists id :: id in touches && s.ledger[id].touchpoint.campaign == hint
  {
    var c := CampaignsOf(s.ledger, touches);
    if hint in c {
      var i :| 0 <= i < |c| && c[i] == hint;
      assert touches[i] in touches;
    }
    if id :| id in touches && s.ledger[id].touchpoint.campaign == hint {
      var i :| 0 <= i < |touches| && touches[i] == id;
      assert c[i] == hint;
    }
  }

  lemma EvidenceCounts(s: State, idBefore: (EventId, EventId) -> bool, r: Reconciliation)
    requires Reconciles(s, idBefore, r)
    ensures r.quality.matched == r.quality.total && r.quality.conflicting == 0 <==>
      forall i :: 0 <= i < |r.deals| ==> GoodEvidence(s, r.deals[i])
  {
    CountIfAll(r.matches, Matched);
    CountIfNone(r.matches, Conflicting);
    forall i | 0 <= i < |r.deals|
      ensures GoodEvidence(s, r.deals[i]) <==> Matched(r.matches[i]) && !Conflicting(r.matches[i])
    {
      GoodEvidenceIff(s, idBefore, r.deals[i]);
    }
  }

  lemma WonCounts(deals: seq<Deal>)
    ensures CountIf(deals, IsWon) > 0 <==> exists i :: 0 <= i < |deals| && IsWon(deals[i])
    ensures CountIf(deals, Covered) == CountIf(deals, IsWon) <==>
      forall i :: 0 <= i < |deals| && IsWon(deals[i]) ==> deals[i].amount > 0.0 && deals[i].closed
  {
    CountIfNone(deals, IsWon);
    CountIfSame(deals, IsWon, Covered);
  }

  /** The gate opens exactly if every deal has good evidence, at least one is won, and every won
      deal has a positive amount and a closing date. */
  lemma EligibleIff(s: State, idBefore: (EventId, EventId) -> bool, r: Reconciliation)
    requires Reconciles(s, idBefore, r)
    ensures r.quality.Eligible() <==>
      && (forall i :: 0 <= i < |r.deals| ==> GoodEvidence(s, r.deals[i]))
      && (exists i :: 0 <= i < |r.deals| && IsWon(r.deals[i]))
      && (forall i :: 0 <= i < |r.deals| && IsWon(r.deals[i]) ==> r.deals[i].amount > 0.0 && r.deals[i].closed)
  {
    EvidenceCounts(s, idBefore, r);
    WonCounts(r.deals);
  }

  /** The owner may refuse the quality of every reconciliation and accept that of an eligible one: with
      opportunities, all matched and none in conflict, some won and every won one covered. */
  lemma DecisionRule(r: Reconciliation, accepted: bool)
    ensures var q := r.quality; var d := AcceptQuality(r, accepted);
      && (d.None? <==> accepted && !(q.total >= 1 && q.matched == q.total && q.conflicting == 0 && q.won >= 1 && q.covered == q.won))
      && (d.Some? ==> d.value.accepted == accepted && d.value.deals == r.deals && d.value.matches == r.matches && d.value.quality == q)
  {
  }

  /** The reconciliation after a series of owner decisions; a refused one changes nothing. */
  function AfterDecisions(r: Reconciliation, decisions: seq<bool>): Reconciliation
    decreases |decisions|
  {
    if decisions == [] then r
    else
      var before := AfterDecisions(r, decisions[..|decisions| - 1]);
      var after := AcceptQuality(before, decisions[|decisions| - 1]);
      if after.Some? then after.value else before
  }

  /** Whatever the owner decides, an accepted reconciliation is eligible, so no deal of a visible
      report is without a Campaign; its deals, matches and quality are those that were reconciled. */
  lemma {:induction false} AcceptedIsEligible(r: Reconciliation, decisions: seq<bool>)
    requires !r.accepted && r.quality == QualityOf(r.deals, r.matches) && |r.matches| == |r.deals|
    ensures var d := AfterDecisions(r, decisions);
      && d == r.(accepted := d.accepted)
      && (d.accepted ==> r.quality.Eligible() && forall i :: 0 <= i < |r.matches| ==> Matched(r.matches[i]))
    decreases |decisions|
  {
    if decisions != [] { AcceptedIsEligible(r, decisions[..|decisions| - 1]); }
    CountIfAll(r.matches, Matched);
  }

  lemma ReconciledIsDistinct(s: State, idBefore: (EventId, EventId) -> bool, r: Reconciliation)
    requires Reconciles(s, idBefore, r)
    ensures DistinctMatches(r.matches)
  {
    forall i | 0 <= i < |r.matches| ensures Distinct(r.matches[i].campaigns) {
      assert r.matches[i] == MatchOf(s, idBefore, r.deals[i]);
    }
  }

  // ---------------------------------------------------------------------------------------
  // Conservation

  function Hits(keys: seq<CampaignId>, credited: seq<CampaignId>): nat
    decreases |keys|
  {
    if keys == [] then 0
    else Hits(keys[..|keys| - 1], credited) + if keys[|keys| - 1] in credited then 1 else 0
  }

  lemma {:induction false} HitsOfNone(keys: seq<CampaignId>)
    ensures Hits(keys, []) == 0
  {
    if keys != [] { HitsOfNone(keys[..|keys| - 1]); }
  }

  /** One more credited Campaign is one more hit, if it occurs (once) among the keys. */
  lemma {:induction false} HitsSnoc(keys: seq<CampaignId>, credited: seq<CampaignId>, c: CampaignId)
    requires Distinct(keys) && c !in credited
    ensures Hits(keys, credited + [c]) == Hits(keys, credited) + if c in keys then 1 else 0
    decreases |keys|
  {
    if keys != [] {
      var front := keys[..|keys| - 1];
      assert keys == front + [keys[|keys| - 1]];
      HitsSnoc(front, credited, c);
    }
  }

  lemma {:induction false} AllHit(keys: seq<CampaignId>, credited: seq<CampaignId>)
    requires Distinct(keys) && Distinct(credited) && forall c :: c in credited ==> c in keys
    ensures Hits(keys, credited) == |credited|
    decreases |credited|
  {
    if credited == [] {
      HitsOfNone(keys);
    } else {
      var front, c := credited[..|credited| - 1], credited[|credited| - 1];
      assert credited == front + [c];
      AllHit(keys, front);
      HitsSnoc(keys, front, c);
    }
  }

  function ShareSum(model: Model, campaigns: seq<CampaignId>, keys: seq<CampaignId>): real
    decreases |keys|
  {
    if keys == [] then 0.0
    else ShareSum(model, campaigns, keys[..|keys| - 1]) + ShareOf(model, campaigns, keys[|keys| - 1])
  }

  lemma OneMore(n: nat, share: real)
    ensures (n + 1) as real * share == n as real * share + share
  {
  }

  lemma {:induction false} ShareSumIsHits(model: Model, campaigns: seq<CampaignId>, keys: seq<CampaignId>)
    ensures var credited := Credited(model, campaigns);
      ShareSum(model, campaigns, keys) == Hits(keys, credited) as real * EqualShare(credited)
    decreases |keys|
  {
    if keys != [] {
      var credited := Credited(model, campaigns);
      ShareSumIsHits(model, campaigns, keys[..|keys| - 1]);
      OneMore(Hits(keys[..|keys| - 1], credited), EqualShare(credited));
    }
  }

  /** Under every model the shares of a matched deal add up to one. */
  lemma SharesSumToOne(model: Model, campaigns: seq<CampaignId>, keys: seq<CampaignId>)
    requires Distinct(campaigns) && Distinct(keys) && forall c :: c in Credited(model, campaigns) ==> c in keys
    ensures ShareSum(model, campaigns, keys) == if campaigns == [] then 0.0 else 1.0
  {
    ShareSumIsHits(model, campaigns, keys);
    AllHit(keys, Credited(model, campaigns));
  }

  function KeyWorth(d: Deal, model: Model, campaigns: seq<CampaignId>, keys: seq<CampaignId>): Earned
    decreases |keys|
  {
    if keys == [] then NOTHING
    else KeyWorth(d, model, campaigns, keys[..|keys| - 1]).Plus(Worth(d, ShareOf(model, campaigns, keys[|keys| - 1])))
  }

  lemma WorthAdds(d: Deal, a: real, b: real)
    ensures Worth(d, a).Plus(Worth(d, b)) == Worth(d, a + b)
  {
    assert d.amount * a + d.amount * b == d.amount * (a + b);
  }

  lemma {:induction false} KeyWorthIsWorth(d: Deal, model: Model, campaigns: seq<CampaignId>, keys: seq<CampaignId>)
    ensures KeyWorth(d, model, campaigns, keys) == Worth(d, ShareSum(model, campaigns, keys))
    decreases |keys|
  {
    if keys != [] {
      var front := keys[..|keys| - 1];
      KeyWorthIsWorth(d, model, campaigns, front);
      WorthAdds(d, ShareSum(model, campaigns, front), ShareOf(model, campaigns, keys[|keys| - 1]));
    }
  }

  /** The unrounded column sums of a report. */
  function TotalEarned(model: Model, deals: seq<Deal>, matches: seq<Match>, keys: seq<CampaignId>): Earned
    requires |matches| == |deals|
    decreases |keys|
  {
    if keys == [] then NOTHING
    else TotalEarned(model, deals, matches, keys[..|keys| - 1]).Plus(EarnedBy(model, deals, matches, keys[|keys| - 1]))
  }

  lemma PlusSwaps(a: Earned, b: Earned, x: Earned, y: Earned)
    ensures a.Plus(b).Plus(x.Plus(y)) == a.Plus(x).Plus(b.Plus(y))
  {
  }

  /** Exchanging the order of summation: one more deal adds its worth over all keys. */
  lemma {:induction false} TotalSnoc(model: Model, deals: seq<Deal>, matches: seq<Match>, i: nat, keys: seq<CampaignId>)
    requires |matches| == |deals| && i < |deals|
    ensures TotalEarned(model, deals[..i + 1], matches[..i + 1], keys)
      == TotalEarned(model, deals[..i], matches[..i], keys).Plus(KeyWorth(deals[i], model, matches[i].campaigns, keys))
    decreases |keys|
  {
    if keys != [] {
      var front, c := keys[..|keys| - 1], keys[|keys| - 1];
      TotalSnoc(model, deals, matches, i, front);
      EarnedBySnoc(model, deals, matches, i, c);
      PlusSwaps(TotalEarned(model, deals[..i], matches[..i], front), KeyWorth(deals[i], model, matches[i].campaigns, front),
                EarnedBy(model, deals[..i], matches[..i], c), Worth(deals[i], ShareOf(model, matches[i].campaigns, c)));
    }
  }

  /** What a deal is worth to the columns if it has a Campaign: one opportunity, its amount while
      open or won, its amount if won. */
  function BookedOne(d: Deal, m: Match): Earned
  {
    if !Matched(m) then NOTHING
    else Earned(1.0, if d.status.Lost? then 0.0 else d.amount, if d.status.Won? then d.amount else 0.0)
  }

  function Booked(deals: seq<Deal>, matches: seq<Match>): Earned
    requires |matches| == |deals|
    decreases |deals|
  {
    if deals == [] then NOTHING
    else
      var n := |deals| - 1;
      Booked(deals[..n], matches[..n]).Plus(BookedOne(deals[n], matches[n]))
  }

  ghost predicate Covers(model: Model, matches: seq<Match>, keys: seq<CampaignId>)
  {
    forall c :: InReport(model, matches, c) ==> c in keys
  }

  lemma WholeWorth(d: Deal, m: Match)
    ensures Worth(d, if m.campaigns == [] then 0.0 else 1.0) == BookedOne(d, m)
  {
  }

  /** A deal contributes its whole worth to the columns, or nothing if it has no Campaign. */
  lemma DealIsConserved(d: Deal, model: Model, m: Match, keys: seq<CampaignId>)
    requires Distinct(m.campaigns) && Distinct(keys) && forall c :: c in Credited(model, m.campaigns) ==> c in keys
    ensures KeyWorth(d, model, m.campaigns, keys) == BookedOne(d, m)
  {
    KeyWorthIsWorth(d, model, m.campaigns, keys);
    SharesSumToOne(model, m.campaigns, keys);
    WholeWorth(d, m);
  }

  lemma ConservedStep(model: Model, deals: seq<Deal>, matches: seq<Match>, n: nat, keys: seq<CampaignId>, booked: Earned)
    requires |matches| == |deals| && n < |deals| && Distinct(matches[n].campaigns) && Distinct(keys)
    requires forall c :: c in Credited(model, matches[n].campaigns) ==> c in keys
    requires TotalEarned(model, deals[..n], matches[..n], keys) == booked
    ensures TotalEarned(model, deals[..n + 1], matches[..n + 1], keys) == booked.Plus(BookedOne(deals[n], matches[n]))
  {
    TotalSnoc(model, deals, matches, n, keys);
    DealIsConserved(deals[n], model, matches[n], keys);
  }

  /** Under each of the three models the unrounded rows add up to what was booked: nothing is
      credited twice and nothing is lost. */
  lemma {:induction false} CreditIsConserved(model: Model, deals: seq<Deal>, matches: seq<Match>, keys: seq<CampaignId>)
    requires |matches| == |deals| && DistinctMatches(matches) && Distinct(keys) && Covers(model, matches, keys)
    ensures TotalEarned(model, deals, matches, keys) == Booked(deals, matches)
    decreases |deals|
  {
    if deals == [] {
      NothingEarned(model, keys);
    } else {
      var n := |deals| - 1;
      assert deals[..n + 1] == deals && matches[..n + 1] == matches;
      CoversPrefix(model, matches, keys);
      CreditIsConserved(model, deals[..n], matches[..n], keys);
      ConservedStep(model, deals, matches, n, keys, Booked(deals[..n], matches[..n]));
    }
  }

  lemma CoversPrefix(model: Model, matches: seq<Match>, keys: seq<CampaignId>)
    requires matches != [] && Covers(model, matches, keys)
    ensures Covers(model, matches[..|matches| - 1], keys)
    ensures forall c :: c in Credited(model, matches[|matches| - 1].campaigns) ==> c in keys
  {
    var n := |matches| - 1;
    assert matches[..n + 1] == matches;
    forall c ensures InReport(model, matches[..n], c) || c in Credited(model, matches[n].campaigns) ==> c in keys {
      InReportSnoc(model, matches, n, c);
    }
  }

  lemma {:induction false} NothingEarned(model: Model, keys: seq<CampaignId>)
    ensures TotalEarned(model, [], [], keys) == NOTHING
    decreases |keys|
  {
    if keys != [] { NothingEarned(model, keys[..|keys| - 1]); }
  }

  // ---------------------------------------------------------------------------------------
  // Rounding

  ghost predicate Near(a: real, b: real, slack: real) { a - b <= slack && b - a <= slack }

  lemma RoundedIsNear(x: real)
    ensures Near(Rounded(x, 100), x, 0.005) && Near(Rounded(x, 10000), x, 0.00005)
  {
  }

  lemma NearestIsMonotone(x: real, y: real)
    requires x <= y
    ensures Nearest(x) <= Nearest(y)
  {
  }

  /** `x` is a whole number of cents. */
  ghost predicate WholeCents(x: real) { exists k: int :: InCents(x, k) }

  predicate InCents(x: real, k: int) { x * 100.0 == k as real }

  lemma WholeCentsAdd(x: real, y: real)
    requires WholeCents(x) && WholeCents(y)
    ensures WholeCents(x + y)
  {
    var j :| InCents(x, j);
    var k :| InCents(y, k);
    assert InCents(x + y, j + k);
  }

  lemma RoundedIsWhole(x: real)
    ensures WholeCents(Rounded(x, 100))
  {
    assert InCents(Rounded(x, 100), Nearest(x * 100.0));
  }

  lemma WholeIsRounded(x: real)
    requires WholeCents(x)
    ensures Rounded(x, 100) == x
  {
    var k :| InCents(x, k);
    assert (k as real).Floor == k;
  }

  /** Adding rounded rows: the money columns stay in whole cents, and half a cent a row is all that
      rounding can move them (half of a ten-thousandth for the credit column). */
  lemma NearAdd(a: real, b: real, x: real, y: real, slack: real, more: real)
    requires Near(a, b, slack) && Near(x, y, more)
    ensures Near(a + x, b + y, slack + more)
  {
  }

  ghost predicate NearRows(sum: Earned, total: Earned, n: nat)
  {
    && WholeCents(sum.pipeline) && WholeCents(sum.revenue)
    && Near(sum.pipeline, total.pipeline, 0.005 * n as real)
    && Near(sum.revenue, total.revenue, 0.005 * n as real)
    && Near(sum.credit, total.credit, 0.00005 * n as real)
  }

  lemma RoundedRowAdds(sum: Earned, total: Earned, e: Earned, row: Earned, n: nat)
    requires NearRows(sum, total, n) && row == RoundedRow(e)
    ensures NearRows(sum.Plus(row), total.Plus(e), n + 1)
  {
    RoundedIsNear(e.pipeline);
    RoundedIsNear(e.revenue);
    RoundedIsNear(e.credit);
    RoundedIsWhole(e.pipeline);
    RoundedIsWhole(e.revenue);
    WholeCentsAdd(sum.pipeline, row.pipeline);
    WholeCentsAdd(sum.revenue, row.revenue);
    NearAdd(sum.pipeline, total.pipeline, row.pipeline, e.pipeline, 0.005 * n as real, 0.005);
    NearAdd(sum.revenue, total.revenue, row.revenue, e.revenue, 0.005 * n as real, 0.005);
    NearAdd(sum.credit, total.credit, row.credit, e.credit, 0.00005 * n as real, 0.00005);
  }

  lemma {:induction false} RoundedSums(model: Model, deals: seq<Deal>, matches: seq<Match>, keys: seq<CampaignId>, rows: seq<Earned>)
    requires |matches| == |deals| && RowsOf(model, deals, matches, keys, rows)
    ensures WholeCents(Sum(rows).pipeline) && WholeCents(Sum(rows).revenue)
    ensures var t := TotalEarned(model, deals, matches, keys);
      && Near(Sum(rows).pipeline, t.pipeline, 0.005 * |rows| as real)
      && Near(Sum(rows).revenue, t.revenue, 0.005 * |rows| as real)
      && Near(Sum(rows).credit, t.credit, 0.00005 * |rows| as real)
    decreases |keys|
  {
    if keys == [] {
      assert InCents(0.0, 0);
    } else {
      var n := |keys| - 1;
      RoundedSums(model, deals, matches, keys[..n], rows[..n]);
      RoundedRowAdds(Sum(rows[..n]), TotalEarned(model, deals, matches, keys[..n]),
                     EarnedBy(model, deals, matches, keys[n]), rows[n], n);
    }
  }

  lemma AscendingIsDistinct(s: seq<string>)
    requires Ascending(Before, s)
    ensures Distinct(s)
  {
    BeforeIsTotal();
  }

  /** The reported money totals are the exact sums of the rows shown, each within half a cent a
      row of what was booked. */
  lemma ReportedTotals(r: Reconciliation, model: Model, report: Report)
    requires |r.matches| == |r.deals| && DistinctMatches(r.matches) && ReportOf(r, model, report)
    ensures report.total.pipeline == Sum(report.rows).pipeline && report.total.revenue == Sum(report.rows).revenue
    ensures NearTotals(report, Booked(r.deals, r.matches))
  {
    AscendingIsDistinct(report.campaigns);
    CreditIsConserved(model, r.deals, r.matches, report.campaigns);
    RoundedSums(model, r.deals, r.matches, report.campaigns, report.rows);
    WholeIsRounded(Sum(report.rows).pipeline);
    WholeIsRounded(Sum(report.rows).revenue);
    RoundedIsNear(Sum(report.rows).credit);
  }

  ghost predicate NearTotals(report: Report, booked: Earned)
    requires report.Report?
  {
    var n := |report.rows| as real;
    && Near(report.total.pipeline, booked.pipeline, 0.005 * n)
    && Near(report.total.revenue, booked.revenue, 0.005 * n)
    && Near(report.total.credit, booked.credit, 0.00005 * (n + 1.0))
  }

  /** The row shows what was earned: credit to four decimals, money to two, halves to the even digit. */
  ghost predicate Shown(e: Earned, row: Earned)
  {
    IsRounded(e.credit, 10000, row.credit) && IsRounded(e.pipeline, 100, row.pipeline) && IsRounded(e.revenue, 100, row.revenue)
  }

  lemma RoundedRowIff(e: Earned, row: Earned)
    ensures row == RoundedRow(e) <==> Shown(e, row)
  {
    RoundedIff(e.credit, 10000, row.credit);
    RoundedIff(e.pipeline, 100, row.pipeline);
    RoundedIff(e.revenue, 100, row.revenue);
  }

  /** Every row of a report shows what its Campaign earns, and the totals show the sum of the rows. */
  lemma RowsAreShown(r: Reconciliation, model: Model, report: Report)
    requires |r.matches| == |r.deals| && ReportOf(r, model, report)
    ensures forall i :: 0 <= i < |report.rows| ==> Shown(EarnedBy(model, r.deals, r.matches, report.campaigns[i]), report.rows[i])
    ensures Shown(Sum(report.rows), report.total)
  {
    forall i | 0 <= i < |report.rows| ensures Shown(EarnedBy(model, r.deals, r.matches, report.campaigns[i]), report.rows[i]) {
      RoundedRowIff(EarnedBy(model, r.deals, r.matches, report.campaigns[i]), report.rows[i]);
    }
    RoundedRowIff(Sum(report.rows), report.total);
  }

  /** Number of deals, amounts open or won, amounts won: no matching involved. */
  function Amounts(deals: seq<Deal>): Earned
  {
    if deals == [] then NOTHING
    else
      var d := deals[|deals| - 1];
      Amounts(deals[..|deals| - 1]).Plus(
        Earned(1.0, if d.status.Lost? then 0.0 else d.amount, if d.status.Won? then d.amount else 0.0))
  }

  lemma {:induction false} AllBooked(deals: seq<Deal>, matches: seq<Match>)
    requires |matches| == |deals| && forall i :: 0 <= i < |matches| ==> Matched(matches[i])
    ensures Booked(deals, matches) == Amounts(deals)
    decreases |deals|
  {
    if deals != [] { AllBooked(deals[..|deals| - 1], matches[..|deals| - 1]); }
  }

  /** Every visible report, under every model and after any owner decisions, accounts for all deals:
      its totals are their number, pipeline and revenue, up to rounding of the rows. */
  lemma VisibleReportAccountsForAll(s: State, idBefore: (EventId, EventId) -> bool, first: Reconciliation,
                                    decisions: seq<bool>, model: Model, report: Report)
    requires Reconciles(s, idBefore, first) && !first.accepted
    requires var r := AfterDecisions(first, decisions); |r.matches| == |r.deals| && r.accepted && ReportOf(r, model, report)
    ensures NearTotals(report, Amounts(first.deals))
  {
    AcceptedIsEligible(first, decisions);
    ReconciledIsDistinct(s, idBefore, first);
    AllBooked(first.deals, first.matches);
    ReportedTotals(AfterDecisions(first, decisions), model, report);
  }

  ghost predicate NoNegativeAmount(deals: seq<Deal>) { forall i :: 0 <= i < |deals| ==> deals[i].amount >= 0.0 }

  /** At least as much pipeline as revenue, and no debt. */
  predicate Ordered(e: Earned) { e.pipeline >= e.revenue >= 0.0 }

  lemma WorthIsOrdered(d: Deal, share: real)
    requires d.amount >= 0.0 && share >= 0.0
    ensures Ordered(Worth(d, share))
  {
    assert d.amount * share >= 0.0;
  }

  lemma SumIsOrdered(a: Earned, b: Earned)
    requires Ordered(a) && Ordered(b)
    ensures Ordered(a.Plus(b))
  {
  }

  lemma ShareIsNotNegative(model: Model, campaigns: seq<CampaignId>, c: CampaignId)
    ensures ShareOf(model, campaigns, c) >= 0.0
  {
  }

  lemma {:induction false} EarnedIsOrdered(model: Model, deals: seq<Deal>, matches: seq<Match>, c: CampaignId)
    requires |matches| == |deals| && NoNegativeAmount(deals)
    ensures Ordered(EarnedBy(model, deals, matches, c))
    decreases |deals|
  {
    if deals != [] {
      var n := |deals| - 1;
      var share := ShareOf(model, matches[n].campaigns, c);
      EarnedIsOrdered(model, deals[..n], matches[..n], c);
      ShareIsNotNegative(model, matches[n].campaigns, c);
      WorthIsOrdered(deals[n], share);
      SumIsOrdered(EarnedBy(model, deals[..n], matches[..n], c), Worth(deals[n], share));
    }
  }

  lemma RoundedIsMonotone(x: real, y: real)
    requires x <= y
    ensures Rounded(x, 100) <= Rounded(y, 100)
  {
    NearestIsMonotone(x * 100.0, y * 100.0);
  }

  /** No row ever shows more revenue than pipeline, rounding included. */
  lemma RowsAreOrdered(model: Model, deals: seq<Deal>, matches: seq<Match>, c: CampaignId)
    requires |matches| == |deals| && NoNegativeAmount(deals)
    ensures var row := RoundedRow(EarnedBy(model, deals, matches, c)); row.pipeline >= row.revenue >= 0.0
  {
    var e := EarnedBy(model, deals, matches, c);
    EarnedIsOrdered(model, deals, matches, c);
    RoundedIsMonotone(e.revenue, e.pipeline);
    RoundedIsMonotone(0.0, e.revenue);
    WholeCentsZero();
  }

  lemma WholeCentsZero()
    ensures Rounded(0.0, 100) == 0.0
  {
    assert InCents(0.0, 0);
    WholeIsRounded(0.0);
  }
}
