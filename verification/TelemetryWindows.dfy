/** Cutting a telemetry log into windows: for the route counters, checking every window and chaining
    the summaries decides exactly what checking the whole log would. */
module TelemetryWindows {
  import opened Sorting
  import opened Telemetry
  import opened Wrappers

  // ---------------------------------------------------------------------------------------
  // Windows of a log

  function BeforeTime(cut: int): Event -> bool { (e: Event) => e.at < cut }

  function FromTime(cut: int): Event -> bool { (e: Event) => e.at >= cut }

  /** The lines of each window, in the order of the raw log, for windows that meet at `cuts`. */
  function Windows(lines: seq<Event>, cuts: seq<int>): (ws: seq<seq<Event>>)
    ensures |ws| == |cuts| + 1
    decreases |cuts|
  {
    if cuts == [] then [lines]
    else [Filter(BeforeTime(cuts[0]), lines)] + Windows(Filter(FromTime(cuts[0]), lines), cuts[1..])
  }

  function Timed(ws: seq<seq<Event>>): (ts: seq<seq<Event>>)
    ensures |ts| == |ws| && forall i :: 0 <= i < |ws| ==> ts[i] == ByTime(ws[i])
  {
    seq(|ws|, i requires 0 <= i < |ws| => ByTime(ws[i]))
  }

  function Join<T>(parts: seq<seq<T>>): seq<T>
    decreases |parts|
  {
    if parts == [] then [] else Join(parts[..|parts| - 1]) + parts[|parts| - 1]
  }

  lemma {:induction false} JoinCons<T>(head: seq<T>, parts: seq<seq<T>>)
    ensures Join([head] + parts) == head + Join(parts)
    decreases |parts|
  {
    if parts == [] {
      assert ([head] + parts)[..0] == [];
    } else {
      var front := parts[..|parts| - 1];
      JoinCons(head, front);
      assert ([head] + parts)[..|parts|] == [head] + front;
    }
  }

  ghost predicate SortedByTime(s: seq<Event>)
  {
    forall i, j :: 0 <= i < j < |s| ==> s[i].at <= s[j].at
  }

  lemma InsertBeforeLast(front: seq<Event>, last: Event, e: Event)
    requires last.at > e.at
    ensures InsertByTime(front + [last], e) == InsertByTime(front, e) + [last]
  {
    assert (front + [last])[..|front|] == front;
  }

  lemma {:induction false} InsertIntoFirst(a: seq<Event>, b: seq<Event>, e: Event)
    requires forall x :: x in b ==> x.at > e.at
    ensures InsertByTime(a + b, e) == InsertByTime(a, e) + b
    decreases |b|
  {
    if b == [] {
      assert a + b == a;
    } else {
      var front, last := b[..|b| - 1], b[|b| - 1];
      assert a + b == (a + front) + [last] && last in b;
      InsertIntoFirst(a, front, e);
      InsertBeforeLast(a + front, last, e);
      assert InsertByTime(a, e) + front + [last] == InsertByTime(a, e) + b;
    }
  }

  lemma {:induction false} InsertIntoSecond(a: seq<Event>, b: seq<Event>, e: Event)
    requires forall x :: x in a ==> x.at <= e.at
    ensures InsertByTime(a + b, e) == a + InsertByTime(b, e)
    decreases |b|
  {
    if b == [] {
      assert a + b == a;
      if a != [] { assert a[|a| - 1] in a; }
    } else {
      var front, last := b[..|b| - 1], b[|b| - 1];
      assert b == front + [last] && a + b == (a + front) + [last];
      if last.at <= e.at {
        assert (a + b) + [e] == a + (b + [e]);
      } else {
        InsertIntoSecond(a, front, e);
        InsertBeforeLast(a + front, last, e);
        InsertBeforeLast(front, last, e);
        assert a + InsertByTime(front, e) + [last] == a + InsertByTime(b, e);
      }
    }
  }

  lemma {:induction false} InsertMembers(s: seq<Event>, e: Event)
    ensures forall x :: x in InsertByTime(s, e) <==> x in s || x == e
    decreases |s|
  {
    if s != [] && s[|s| - 1].at > e.at {
      InsertMembers(s[..|s| - 1], e);
      assert s == s[..|s| - 1] + [s[|s| - 1]];
    }
  }

  lemma {:induction false} ByTimeMembers(lines: seq<Event>)
    ensures forall x :: x in ByTime(lines) <==> x in lines
    decreases |lines|
  {
    if lines != [] {
      ByTimeMembers(lines[..|lines| - 1]);
      InsertMembers(ByTime(lines[..|lines| - 1]), lines[|lines| - 1]);
      assert lines == lines[..|lines| - 1] + [lines[|lines| - 1]];
    }
  }

  lemma ByTimeSnoc(s: seq<Event>, e: Event)
    ensures ByTime(s + [e]) == InsertByTime(ByTime(s), e)
  {
    assert (s + [e])[..|s|] == s;
  }

  lemma InsertIntoCut(a: seq<Event>, b: seq<Event>, e: Event, cut: int)
    requires forall x :: x in a ==> x.at < cut
    requires forall x :: x in b ==> x.at >= cut
    ensures InsertByTime(ByTime(a) + ByTime(b), e)
         == if e.at < cut then ByTime(a + [e]) + ByTime(b) else ByTime(a) + ByTime(b + [e])
  {
    ByTimeMembers(a);
    ByTimeMembers(b);
    if e.at < cut { InsertIntoFirst(ByTime(a), ByTime(b), e); } else { InsertIntoSecond(ByTime(a), ByTime(b), e); }
    ByTimeSnoc(a, e);
    ByTimeSnoc(b, e);
  }

  ghost predicate CutsAlike(lines: seq<Event>, cut: int)
  {
    ByTime(lines) == ByTime(Filter(BeforeTime(cut), lines)) + ByTime(Filter(FromTime(cut), lines))
  }

  lemma CutSnoc(front: seq<Event>, e: Event, cut: int)
    requires CutsAlike(front, cut)
    ensures CutsAlike(front + [e], cut)
  {
    ByTimeSnoc(front, e);
    FilterSnoc(BeforeTime(cut), front, e);
    FilterSnoc(FromTime(cut), front, e);
    InsertIntoCut(Filter(BeforeTime(cut), front), Filter(FromTime(cut), front), e, cut);
  }

  /** Sorting before cutting is cutting before sorting. */
  lemma {:induction false} ByTimeOfCut(lines: seq<Event>, cut: int)
    ensures CutsAlike(lines, cut)
    decreases |lines|
  {
    if lines != [] {
      ByTimeOfCut(lines[..|lines| - 1], cut);
      CutSnoc(lines[..|lines| - 1], lines[|lines| - 1], cut);
      assert lines == lines[..|lines| - 1] + [lines[|lines| - 1]];
    }
  }

  lemma TimedCons(w: seq<Event>, ws: seq<seq<Event>>)
    ensures Timed([w] + ws) == [ByTime(w)] + Timed(ws)
    ensures Join(Timed([w] + ws)) == ByTime(w) + Join(Timed(ws))
  {
    var all, ts := Timed([w] + ws), [ByTime(w)] + Timed(ws);
    forall i | 0 <= i < |all| ensures all[i] == ts[i] {
      if i > 0 { assert ([w] + ws)[i] == ws[i - 1]; }
    }
    assert all == ts;
    JoinCons(ByTime(w), Timed(ws));
  }

  lemma {:induction false} ByTimeOfWindows(lines: seq<Event>, cuts: seq<int>)
    ensures ByTime(lines) == Join(Timed(Windows(lines, cuts)))
    decreases |cuts|
  {
    if cuts == [] {
      TimedCons(lines, []);
      assert [lines] + [] == [lines] && Timed([]) == [];
    } else {
      var head, rest := Filter(BeforeTime(cuts[0]), lines), Filter(FromTime(cuts[0]), lines);
      ByTimeOfCut(lines, cuts[0]);
      ByTimeOfWindows(rest, cuts[1..]);
      TimedCons(head, Windows(rest, cuts[1..]));
    }
  }

  lemma {:induction false} ByTimeOfSorted(s: seq<Event>)
    requires SortedByTime(s)
    ensures ByTime(s) == s
    decreases |s|
  {
    if s != [] {
      var front, last := s[..|s| - 1], s[|s| - 1];
      ByTimeOfSorted(front);
      ByTimeSnoc(front, last);
      assert s == front + [last];
      assert InsertByTime(front, last) == front + [last];
    }
  }

  // ---------------------------------------------------------------------------------------
  // Counters across windows

  lemma {:induction false} RouteCountsAppend(a: seq<Event>, b: seq<Event>, k: RouteKey)
    ensures RouteCounts(a + b, k) == RouteCounts(a, k) + RouteCounts(b, k)
    decreases |b|
  {
    if b == [] {
      assert a + b == a;
    } else {
      var front, e := b[..|b| - 1], b[|b| - 1];
      RouteCountsAppend(a, front, k);
      assert a + b == (a + front) + [e];
      Snoc(a + front, e);
    }
  }

  lemma {:induction false} TrailAppend(a: seq<Event>, b: seq<Event>, p: ProcessKey)
    ensures Trail(a + b, p) == Trail(a, p) + Trail(b, p)
    decreases |b|
  {
    if b == [] {
      assert a + b == a;
    } else {
      var front, e := b[..|b| - 1], b[|b| - 1];
      TrailAppend(a, front, p);
      assert a + b == (a + front) + [e];
      Snoc(a + front, e);
    }
  }

  lemma ConsecutiveAppend(a: seq<int>, b: seq<int>)
    ensures Consecutive(a + b)
       <==> Consecutive(a) && Consecutive(b) && (a == [] || b == [] || b[0] == a[|a| - 1] + 1)
  {
    var ab := a + b;
    if Consecutive(ab) {
      forall i | 0 < i < |a| ensures a[i] == a[i - 1] + 1 { assert ab[i] == ab[i - 1] + 1; }
      forall i | 0 < i < |b| ensures b[i] == b[i - 1] + 1 { assert ab[|a| + i] == ab[|a| + i - 1] + 1; }
      if a != [] && b != [] { assert ab[|a|] == ab[|a| - 1] + 1; }
    }
  }

  /** The first event of `b` continues the process counter where `a` left it. */
  predicate DeprecatedMeets(a: seq<Event>, b: seq<Event>)
  {
    a == [] || b == [] || b[0].deprecatedCount == a[|a| - 1].deprecatedCount + Step(b[0])
  }

  lemma AdvancesAppend(a: seq<Event>, b: seq<Event>)
    ensures Advances(a + b) <==> Advances(a) && Advances(b) && DeprecatedMeets(a, b)
  {
    var ab := a + b;
    if Advances(ab) {
      forall i | 0 < i < |a| ensures a[i].deprecatedCount == a[i - 1].deprecatedCount + Step(a[i]) {
        assert ab[i].deprecatedCount == ab[i - 1].deprecatedCount + Step(ab[i]);
      }
      forall i | 0 < i < |b| ensures b[i].deprecatedCount == b[i - 1].deprecatedCount + Step(b[i]) {
        assert ab[|a| + i].deprecatedCount == ab[|a| + i - 1].deprecatedCount + Step(ab[|a| + i]);
      }
      if a != [] && b != [] { assert ab[|a|].deprecatedCount == ab[|a| - 1].deprecatedCount + Step(ab[|a|]); }
    }
  }

  /** One route's boundaries, window by window, skipping the windows that do not see it. */
  function BoundsByWindow(ws: seq<seq<Event>>, k: RouteKey): seq<Bounds>
    decreases |ws|
  {
    if ws == [] then []
    else
      var before, counts := BoundsByWindow(ws[..|ws| - 1], k), RouteCounts(ws[|ws| - 1], k);
      if counts == [] then before else before + [BoundsOf(counts)]
  }

  function TotalCount(bs: seq<Bounds>): int
    decreases |bs|
  {
    if bs == [] then 0 else TotalCount(bs[..|bs| - 1]) + bs[|bs| - 1].count
  }

  /** The merged boundary of a route runs from its earliest first to its latest last, over all
      its observed events. */
  lemma {:induction false} MergedBoundary(ws: seq<seq<Event>>, k: RouteKey)
    ensures var bs, counts := BoundsByWindow(ws, k), RouteCounts(Join(ws), k);
      && (bs == [] <==> counts == [])
      && TotalCount(bs) == |counts|
      && (bs != [] ==> BoundsOf(counts) == Bounds(bs[0].first, bs[|bs| - 1].last, TotalCount(bs)))
    decreases |ws|
  {
    if ws != [] {
      var front, w := ws[..|ws| - 1], ws[|ws| - 1];
      MergedBoundary(front, k);
      RouteCountsAppend(Join(front), w, k);
      var counts := RouteCounts(w, k);
      if counts != [] {
        assert BoundsByWindow(ws, k)[..|BoundsByWindow(ws, k)| - 1] == BoundsByWindow(front, k);
      }
    }
  }

  lemma {:induction false} ConsecutiveSpan(counts: seq<int>)
    requires Consecutive(counts) && counts != []
    ensures counts[|counts| - 1] == counts[0] + |counts| - 1
    decreases |counts|
  {
    if |counts| > 1 {
      var front := counts[..|counts| - 1];
      assert front + [counts[|counts| - 1]] == counts;
      ConsecutiveAppend(front, [counts[|counts| - 1]]);
      ConsecutiveSpan(front);
    }
  }

  /** When the whole log is continuous, the merged boundary accounts for every count it spans. */
  lemma MergedBoundaryIsComplete(ws: seq<seq<Event>>, k: RouteKey)
    requires Consecutive(RouteCounts(Join(ws), k)) && BoundsByWindow(ws, k) != []
    ensures var bs := BoundsByWindow(ws, k);
      TotalCount(bs) == bs[|bs| - 1].last - bs[0].first + 1
  {
    MergedBoundary(ws, k);
    ConsecutiveSpan(RouteCounts(Join(ws), k));
  }

  ghost predicate EachConsecutive(ws: seq<seq<Event>>, k: RouteKey)
  {
    forall w :: w in ws ==> Consecutive(RouteCounts(w, k))
  }

  lemma EachConsecutiveSnoc(ws: seq<seq<Event>>, w: seq<Event>, k: RouteKey)
    ensures EachConsecutive(ws + [w], k) <==> EachConsecutive(ws, k) && Consecutive(RouteCounts(w, k))
  {
    assert forall v :: v in ws ==> v in ws + [w];
    assert w in ws + [w];
  }

  lemma JoinSnoc(before: seq<seq<Event>>, w: seq<Event>, k: RouteKey)
    ensures RouteCounts(Join(before + [w]), k) == RouteCounts(Join(before), k) + RouteCounts(w, k)
    ensures BoundsByWindow(before + [w], k) == if RouteCounts(w, k) == [] then BoundsByWindow(before, k)
                                               else BoundsByWindow(before, k) + [BoundsOf(RouteCounts(w, k))]
  {
    assert (before + [w])[..|before|] == before;
    RouteCountsAppend(Join(before), w, k);
  }

  /** The route is continuous over the joined windows exactly when it is in each and linked from
      window to window. */
  ghost predicate Splits(ws: seq<seq<Event>>, k: RouteKey)
  {
    Consecutive(RouteCounts(Join(ws), k)) <==> EachConsecutive(ws, k) && Linked(BoundsByWindow(ws, k))
  }

  lemma SplitsSnoc(front: seq<seq<Event>>, w: seq<Event>, k: RouteKey)
    requires Splits(front, k)
    ensures Splits(front + [w], k)
  {
    JoinSnoc(front, w, k);
    EachConsecutiveSnoc(front, w, k);
    MergedEnd(front, k);
    LinkStep(RouteCounts(Join(front), k), RouteCounts(w, k), BoundsByWindow(front, k), EachConsecutive(front, k));
  }

  lemma MergedEnd(ws: seq<seq<Event>>, k: RouteKey)
    ensures EndsWith(RouteCounts(Join(ws), k), BoundsByWindow(ws, k))
  {
    MergedBoundary(ws, k);
  }

  ghost predicate EndsWith(a: seq<int>, bs: seq<Bounds>)
  {
    (a == [] <==> bs == []) && (a != [] ==> bs[|bs| - 1].last == a[|a| - 1])
  }

  lemma LinkStep(a: seq<int>, b: seq<int>, bs: seq<Bounds>, each: bool)
    requires EndsWith(a, bs) && (Consecutive(a) <==> each && Linked(bs))
    ensures Consecutive(a + b) <==> (each && Consecutive(b)) && Linked(if b == [] then bs else bs + [BoundsOf(b)])
  {
    LinkMeans(a, b, bs);
    if b == [] { assert a + b == a; }
  }

  /** One route: continuous over the joined windows exactly when continuous in each and linked
      from window to window. */
  lemma {:induction false} RouteSplits(ws: seq<seq<Event>>, k: RouteKey)
    ensures Splits(ws, k)
    decreases |ws|
  {
    if ws != [] {
      RouteSplits(ws[..|ws| - 1], k);
      SplitsSnoc(ws[..|ws| - 1], ws[|ws| - 1], k);
      assert ws == ws[..|ws| - 1] + [ws[|ws| - 1]];
    }
  }

  lemma LinkMeans(a: seq<int>, b: seq<int>, bs: seq<Bounds>)
    requires EndsWith(a, bs)
    ensures Consecutive(a + b) <==> Consecutive(a) && Consecutive(b) && (a == [] || b == [] || b[0] == a[|a| - 1] + 1)
    ensures b != [] ==> (Linked(bs + [BoundsOf(b)]) <==> Linked(bs) && (a == [] || b[0] == a[|a| - 1] + 1))
    ensures b == [] ==> Consecutive(b)
  {
    ConsecutiveAppend(a, b);
    if b != [] { LinkedSnoc(bs, BoundsOf(b)); }
  }

  // ---------------------------------------------------------------------------------------
  // Daily summaries of windows

  /** The day's lists carry the window's boundaries, each key once, in any order. */
  ghost predicate Lists(day: Day, w: seq<Event>)
  {
    && (forall k :: RouteBoundsAt(day.routes, k)
         == if RouteCounts(w, k) == [] then [] else [BoundsOf(RouteCounts(w, k))])
    && (forall p :: DeprecatedBoundsAt(day.deprecated, p)
         == if Trail(w, p) == [] then [] else [DeprecatedBoundsOf(Trail(w, p))])
  }

  ghost predicate ListAll(days: seq<Day>, ws: seq<seq<Event>>)
  {
    |days| == |ws| && forall i :: 0 <= i < |ws| ==> Lists(days[i], ws[i])
  }

  lemma {:induction false} RouteBoundsAppend(a: seq<RouteBoundary>, b: seq<RouteBoundary>, k: RouteKey)
    ensures RouteBoundsAt(a + b, k) == RouteBoundsAt(a, k) + RouteBoundsAt(b, k)
    decreases |b|
  {
    if b == [] {
      assert a + b == a;
    } else {
      var front := b[..|b| - 1];
      RouteBoundsAppend(a, front, k);
      assert a + b == (a + front) + [b[|b| - 1]];
      RouteBoundsSnoc(a + front, b[|b| - 1]);
    }
  }

  lemma {:induction false} ListedBounds(days: seq<Day>, ws: seq<seq<Event>>, k: RouteKey)
    requires ListAll(days, ws)
    ensures RouteBoundsAt(RouteList(days), k) == BoundsByWindow(ws, k)
    decreases |ws|
  {
    if ws != [] {
      var n := |ws| - 1;
      assert forall i :: 0 <= i < n ==> Lists(days[..n][i], ws[..n][i]);
      ListedBounds(days[..n], ws[..n], k);
      RouteBoundsAppend(RouteList(days[..n]), days[n].routes, k);
      assert Lists(days[n], ws[n]);
    }
  }

  ghost predicate EveryWindowContinuous(ws: seq<seq<Event>>)
  {
    forall w :: w in ws ==> RoutesContinuous(ByTime(w))
  }

  ghost predicate NoRouteGap(days: seq<Day>)
  {
    forall k :: Linked(RouteBoundsAt(RouteList(days), k))
  }

  lemma EachIsEveryWindow(ws: seq<seq<Event>>)
    ensures EveryWindowContinuous(ws) <==> forall k :: EachConsecutive(Timed(ws), k)
  {
    var ts := Timed(ws);
    if EveryWindowContinuous(ws) {
      forall k, t | t in ts ensures Consecutive(RouteCounts(t, k)) {
        var i :| 0 <= i < |ts| && ts[i] == t;
        assert ws[i] in ws && RoutesContinuous(ByTime(ws[i]));
      }
    }
    if forall k :: EachConsecutive(ts, k) {
      forall w, k | w in ws ensures Consecutive(RouteCounts(ByTime(w), k)) {
        var i :| 0 <= i < |ws| && ws[i] == w;
        assert ts[i] in ts && EachConsecutive(ts, k);
      }
    }
  }

  /** Split and merge: the route check of the whole log passes exactly when it passes in every
      window and the chained daily summaries show no route gap. The log may be in any line
      order; each window is sorted on its own. */
  lemma SplitMerge(lines: seq<Event>, cuts: seq<int>, days: seq<Day>)
    requires ListAll(days, Timed(Windows(lines, cuts)))
    ensures RoutesContinuous(ByTime(lines)) <==> EveryWindowContinuous(Windows(lines, cuts)) && NoRouteGap(days)
  {
    var ws := Windows(lines, cuts);
    var ts := Timed(ws);
    ByTimeOfWindows(lines, cuts);
    EachIsEveryWindow(ws);
    forall k
      ensures Consecutive(RouteCounts(ByTime(lines), k))
         <==> EachConsecutive(ts, k) && Linked(RouteBoundsAt(RouteList(days), k))
    {
      ListedBounds(days, ts, k);
      RouteSplits(ts, k);
    }
  }

  // ---------------------------------------------------------------------------------------
  // The process-wide counter across windows

  function DeprecatedBoundsByWindow(ws: seq<seq<Event>>, p: ProcessKey): seq<Bounds>
    decreases |ws|
  {
    if ws == [] then []
    else
      var before, trail := DeprecatedBoundsByWindow(ws[..|ws| - 1], p), Trail(ws[|ws| - 1], p);
      if trail == [] then before else before + [DeprecatedBoundsOf(trail)]
  }

  /** At every window that sees the process, its first event continues the counter exactly. */
  predicate MeetsThroughout(ws: seq<seq<Event>>, p: ProcessKey)
    decreases |ws|
  {
    ws == [] ||
    (MeetsThroughout(ws[..|ws| - 1], p) && DeprecatedMeets(Trail(Join(ws[..|ws| - 1]), p), Trail(ws[|ws| - 1], p)))
  }

  ghost predicate EachAdvances(ws: seq<seq<Event>>, p: ProcessKey)
  {
    forall w :: w in ws ==> Advances(Trail(w, p))
  }

  lemma EachAdvancesSnoc(ws: seq<seq<Event>>, w: seq<Event>, p: ProcessKey)
    ensures EachAdvances(ws + [w], p) <==> EachAdvances(ws, p) && Advances(Trail(w, p))
  {
    assert forall v :: v in ws ==> v in ws + [w];
    assert w in ws + [w];
  }

  lemma {:induction false} DeprecatedSplits(ws: seq<seq<Event>>, p: ProcessKey)
    ensures Advances(Trail(Join(ws), p)) <==> EachAdvances(ws, p) && MeetsThroughout(ws, p)
    decreases |ws|
  {
    if ws != [] {
      var front, w := ws[..|ws| - 1], ws[|ws| - 1];
      assert ws == front + [w];
      DeprecatedSplits(front, p);
      EachAdvancesSnoc(front, w, p);
      TrailAppend(Join(front), w, p);
      AdvancesAppend(Trail(Join(front), p), Trail(w, p));
    }
  }

  ghost predicate EndsLike(bs: seq<Bounds>, trail: seq<Event>)
  {
    (bs == [] <==> trail == []) && (bs != [] ==> bs[|bs| - 1].last == trail[|trail| - 1].deprecatedCount)
  }

  lemma LooseStep(bs: seq<Bounds>, a: seq<Event>, b: seq<Event>)
    requires EndsLike(bs, a)
    ensures var longer := if b == [] then bs else bs + [DeprecatedBoundsOf(b)];
      EndsLike(longer, a + b) && (LooselyLinked(bs) && DeprecatedMeets(a, b) ==> LooselyLinked(longer))
  {
    if b == [] { assert a + b == a; } else { LinkedSnoc(bs, DeprecatedBoundsOf(b)); }
  }

  /** Meeting exactly implies the looser link that the daily chaining looks for. */
  lemma {:induction false} MeetingIsLooselyLinked(ws: seq<seq<Event>>, p: ProcessKey)
    ensures EndsLike(DeprecatedBoundsByWindow(ws, p), Trail(Join(ws), p))
    ensures MeetsThroughout(ws, p) ==> LooselyLinked(DeprecatedBoundsByWindow(ws, p))
    decreases |ws|
  {
    if ws != [] {
      var front, w := ws[..|ws| - 1], ws[|ws| - 1];
      MeetingIsLooselyLinked(front, p);
      TrailAppend(Join(front), w, p);
      LooseStep(DeprecatedBoundsByWindow(front, p), Trail(Join(front), p), Trail(w, p));
    }
  }

  lemma {:induction false} DeprecatedBoundsAppend(a: seq<ProcessBoundary>, b: seq<ProcessBoundary>, p: ProcessKey)
    ensures DeprecatedBoundsAt(a + b, p) == DeprecatedBoundsAt(a, p) + DeprecatedBoundsAt(b, p)
    decreases |b|
  {
    if b == [] {
      assert a + b == a;
    } else {
      var front := b[..|b| - 1];
      DeprecatedBoundsAppend(a, front, p);
      assert a + b == (a + front) + [b[|b| - 1]];
      DeprecatedBoundsSnoc(a + front, b[|b| - 1]);
    }
  }

  lemma {:induction false} ListedDeprecated(days: seq<Day>, ws: seq<seq<Event>>, p: ProcessKey)
    requires ListAll(days, ws)
    ensures DeprecatedBoundsAt(DeprecatedList(days), p) == DeprecatedBoundsByWindow(ws, p)
    decreases |ws|
  {
    if ws != [] {
      var n := |ws| - 1;
      assert forall i :: 0 <= i < n ==> Lists(days[..n][i], ws[..n][i]);
      ListedDeprecated(days[..n], ws[..n], p);
      DeprecatedBoundsAppend(DeprecatedList(days[..n]), days[n].deprecated, p);
      assert Lists(days[n], ws[n]);
    }
  }

  ghost predicate EveryWindowAdvances(ws: seq<seq<Event>>)
  {
    forall w :: w in ws ==> DeprecatedContinuous(ByTime(w))
  }

  ghost predicate NoDeprecatedGap(days: seq<Day>)
  {
    forall p :: LooselyLinked(DeprecatedBoundsAt(DeprecatedList(days), p))
  }

  lemma EachIsEveryAdvance(ws: seq<seq<Event>>)
    ensures EveryWindowAdvances(ws) <==> forall p :: EachAdvances(Timed(ws), p)
  {
    var ts := Timed(ws);
    if EveryWindowAdvances(ws) {
      forall p, t | t in ts ensures Advances(Trail(t, p)) {
        var i :| 0 <= i < |ts| && ts[i] == t;
        assert ws[i] in ws && DeprecatedContinuous(ByTime(ws[i]));
      }
    }
    if forall p :: EachAdvances(ts, p) {
      forall w, p | w in ws ensures Advances(Trail(ByTime(w), p)) {
        var i :| 0 <= i < |ws| && ws[i] == w;
        assert ts[i] in ts && EachAdvances(ts, p);
      }
    }
  }

  ghost predicate EveryBoundaryMeets(ts: seq<seq<Event>>)
  {
    forall p :: MeetsThroughout(ts, p)
  }

  /** The process counter of the whole log is continuous exactly when it is in every window and
      the first event after each boundary continues it; the daily chaining then sees no gap. */
  lemma DeprecatedSplitMerge(lines: seq<Event>, cuts: seq<int>, days: seq<Day>)
    requires ListAll(days, Timed(Windows(lines, cuts)))
    ensures DeprecatedContinuous(ByTime(lines)) <==>
      EveryWindowAdvances(Windows(lines, cuts)) && EveryBoundaryMeets(Timed(Windows(lines, cuts)))
    ensures DeprecatedContinuous(ByTime(lines)) ==> NoDeprecatedGap(days)
  {
    var ts := Timed(Windows(lines, cuts));
    ByTimeOfWindows(lines, cuts);
    EachIsEveryAdvance(Windows(lines, cuts));
    forall p
      ensures Advances(Trail(ByTime(lines), p)) <==> EachAdvances(ts, p) && MeetsThroughout(ts, p)
      ensures MeetsThroughout(ts, p) ==> LooselyLinked(DeprecatedBoundsAt(DeprecatedList(days), p))
    {
      DeprecatedSplits(ts, p);
      MeetingIsLooselyLinked(ts, p);
      ListedDeprecated(days, ts, p);
    }
  }

  lemma SingletonTime(e: Event)
    ensures ByTime([e]) == [e]
  {
    assert [e][..0] == [];
  }

  lemma RouteOfOne(e: Event, k: RouteKey)
    ensures RouteBoundsAt([RouteBoundary(RouteKeyOf(e), Bounds(e.routeCount, e.routeCount, 1))], k)
      == if RouteCounts([e], k) == [] then [] else [BoundsOf(RouteCounts([e], k))]
  {
    var b := RouteBoundary(RouteKeyOf(e), Bounds(e.routeCount, e.routeCount, 1));
    assert [e][..0] == [] && [b][..0] == [];
    assert RouteCounts([e], k) == if RouteKeyOf(e) == k then [e.routeCount] else [];
    assert RouteBoundsAt([b], k) == if b.key == k then [b.bounds] else [];
  }

  lemma ProcessOfOne(e: Event, p: ProcessKey)
    ensures DeprecatedBoundsAt([ProcessBoundary(ProcessKeyOf(e), Bounds(e.deprecatedCount, e.deprecatedCount, 1))], p)
      == if Trail([e], p) == [] then [] else [DeprecatedBoundsOf(Trail([e], p))]
  {
    var b := ProcessBoundary(ProcessKeyOf(e), Bounds(e.deprecatedCount, e.deprecatedCount, 1));
    assert [e][..0] == [] && [b][..0] == [];
    assert Trail([e], p) == if ProcessKeyOf(e) == p then [e] else [];
    assert DeprecatedBoundsAt([b], p) == if b.key == p then [b.bounds] else [];
  }

  /** The daily summary of a window of one event. */
  lemma DayOfOne(e: Event, day: Day)
    requires day.routes == [RouteBoundary(RouteKeyOf(e), Bounds(e.routeCount, e.routeCount, 1))]
    requires day.deprecated == [ProcessBoundary(ProcessKeyOf(e), Bounds(e.deprecatedCount, e.deprecatedCount, 1))]
    ensures Lists(day, [e])
  {
    forall k ensures RouteBoundsAt(day.routes, k) == if RouteCounts([e], k) == [] then [] else [BoundsOf(RouteCounts([e], k))] {
      RouteOfOne(e, k);
    }
    forall p ensures DeprecatedBoundsAt(day.deprecated, p) == if Trail([e], p) == [] then [] else [DeprecatedBoundsOf(Trail([e], p))] {
      ProcessOfOne(e, p);
    }
  }

  // ---------------------------------------------------------------------------------------
  // When chaining raises

  lemma {:induction false} ListedIsBound(list: seq<RouteBoundary>, b: RouteBoundary)
    ensures b in list <==> b.bounds in RouteBoundsAt(list, b.key)
    decreases |list|
  {
    if list != [] {
      ListedIsBound(list[..|list| - 1], b);
      assert list == list[..|list| - 1] + [list[|list| - 1]];
    }
  }

  lemma {:induction false} ListedIsDeprecatedBound(list: seq<ProcessBoundary>, b: ProcessBoundary)
    ensures b in list <==> b.bounds in DeprecatedBoundsAt(list, b.key)
    decreases |list|
  {
    if list != [] {
      ListedIsDeprecatedBound(list[..|list| - 1], b);
      assert list == list[..|list| - 1] + [list[|list| - 1]];
    }
  }

  lemma {:induction false} CountsAreOfEvents(log: seq<Event>, k: RouteKey)
    ensures forall n :: n in RouteCounts(log, k) <==> exists e :: e in log && RouteKeyOf(e) == k && e.routeCount == n
    decreases |log|
  {
    if log != [] {
      var front, e := log[..|log| - 1], log[|log| - 1];
      CountsAreOfEvents(front, k);
      assert log == front + [e];
    }
  }

  lemma {:induction false} TrailEvents(log: seq<Event>, p: ProcessKey)
    ensures forall e :: e in Trail(log, p) ==> e in log
    decreases |log|
  {
    if log != [] {
      TrailEvents(log[..|log| - 1], p);
      assert log == log[..|log| - 1] + [log[|log| - 1]];
    }
  }

  lemma {:induction false} AdvancingNeverFalls(trail: seq<Event>)
    requires Advances(trail) && trail != []
    ensures trail[0].deprecatedCount <= trail[|trail| - 1].deprecatedCount
    decreases |trail|
  {
    if |trail| > 1 {
      var front := trail[..|trail| - 1];
      assert front + [trail[|trail| - 1]] == trail;
      AdvancesAppend(front, [trail[|trail| - 1]]);
      AdvancingNeverFalls(front);
    }
  }

  lemma SmallestIsFirst(counts: seq<int>, n: int)
    requires Consecutive(counts) && n in counts
    ensures counts[0] <= n
  {
    var i :| 0 <= i < |counts| && counts[i] == n;
    assert counts == counts[..i + 1] + counts[i + 1..];
    ConsecutiveAppend(counts[..i + 1], counts[i + 1..]);
    ConsecutiveSpan(counts[..i + 1]);
  }

  /** A window that passed makes the chaining raise exactly when a route counter reads zero,
      which event validation lets through. */
  lemma PassedWindowRaisesIff(w: seq<Event>, day: Day)
    requires Lists(day, w) && RoutesContinuous(w) && DeprecatedContinuous(w)
    requires forall e :: e in w ==> e.routeCount >= 0 && e.deprecatedCount >= 0
    ensures Inconsistent(day) <==> exists e :: e in w && e.routeCount == 0
  {
    forall b | b in day.deprecated ensures !BadDeprecated(b.bounds) {
      ListedIsDeprecatedBound(day.deprecated, b);
      var trail := Trail(w, b.key);
      TrailEvents(w, b.key);
      assert Advances(trail) && trail[0] in trail;
      AdvancingNeverFalls(trail);
    }
    forall b | b in day.routes ensures BadRoute(b.bounds) ==> exists e :: e in w && e.routeCount == 0 {
      ListedIsBound(day.routes, b);
      var counts := RouteCounts(w, b.key);
      CountsAreOfEvents(w, b.key);
      assert Consecutive(counts) && counts[0] in counts;
      ConsecutiveSpan(counts);
    }
    if e :| e in w && e.routeCount == 0 {
      var k := RouteKeyOf(e);
      CountsAreOfEvents(w, k);
      var counts := RouteCounts(w, k);
      assert Consecutive(counts) && 0 in counts;
      SmallestIsFirst(counts, 0);
      var b := RouteBoundary(k, BoundsOf(counts));
      assert RouteBoundsAt(day.routes, k) == [BoundsOf(counts)];
      assert b.bounds in RouteBoundsAt(day.routes, k);
      ListedIsBound(day.routes, b);
      assert BadRoute(b.bounds);
    }
  }

  function ZeroCount(): Event
  {
    Event(0, API, 1, "/healthz", "health_probe", "GET", 200, None, false, true, false, false, 0, 0, true)
  }

  lemma OneEventPasses(e: Event)
    requires Acceptable(e)
    ensures Passes([e], e.at, e.at + 1) && ByTime([e]) == [e]
  {
    SingletonTime(e);
    Snoc([], e);
    assert [] + [e] == [e];
    assert forall k :: Consecutive(RouteCounts([e], k));
    assert forall p :: Advances(Trail([e], p));
  }

  function ZeroDay(): Day
  {
    var e := ZeroCount();
    Day([RouteBoundary(RouteKeyOf(e), Bounds(0, 0, 1))], [ProcessBoundary(ProcessKeyOf(e), Bounds(0, 0, 1))], [])
  }

  /** A valid event with a route counter of zero: its window passes and its day stops the evaluation. */
  lemma ZeroCountStopsEvaluation()
    ensures Passes([ZeroCount()], 0, 1) && Lists(ZeroDay(), [ZeroCount()]) && Inconsistent(ZeroDay())
  {
    OneEventPasses(ZeroCount());
    DayOfOne(ZeroCount(), ZeroDay());
    PassedWindowRaisesIff([ZeroCount()], ZeroDay());
    assert ZeroCount() in [ZeroCount()];
  }
}
