/** What the daily chaining of the process counter makes of losses. Across a cut it accepts the
    old count or one more, whatever opens the next window; here is exactly what slips through. */
module ProcessLosses {
  import opened Sorting
  import opened Wrappers
  import opened Telemetry
  import opened TelemetryWindows
  import opened LegacyTelemetryLog
  import opened ProducerClock

  // ---------------------------------------------------------------------------------------
  // Any log cut into windows

  /** The next window opens one count up with a health probe, or repeats the count with an attempt. */
  predicate Slips(a: seq<Event>, b: seq<Event>)
  {
    a != [] && b != [] && b[0].deprecatedCount == a[|a| - 1].deprecatedCount + 1 - Step(b[0])
  }

  predicate SlipsAt(ts: seq<seq<Event>>, p: ProcessKey, i: nat)
    requires i < |ts|
  {
    Slips(Trail(Join(ts[..i]), p), Trail(ts[i], p))
  }

  ghost predicate NeverSlips(ts: seq<seq<Event>>, p: ProcessKey)
  {
    forall i: nat :: i < |ts| ==> !SlipsAt(ts, p, i)
  }

  lemma NeverSlipsSnoc(ts: seq<seq<Event>>, w: seq<Event>, p: ProcessKey)
    ensures NeverSlips(ts + [w], p) <==> NeverSlips(ts, p) && !Slips(Trail(Join(ts), p), Trail(w, p))
  {
    var longer := ts + [w];
    assert longer[..|ts|] == ts;
    assert SlipsAt(longer, p, |ts|) <==> Slips(Trail(Join(ts), p), Trail(w, p));
    forall i: nat | i < |ts| ensures SlipsAt(longer, p, i) <==> SlipsAt(ts, p, i) {
      assert longer[..i] == ts[..i];
    }
  }

  predicate LooselyMeets(a: seq<Event>, b: seq<Event>)
  {
    a == [] || b == [] || a[|a| - 1].deprecatedCount <= b[0].deprecatedCount <= a[|a| - 1].deprecatedCount + 1
  }

  lemma LooseBoundStep(bs: seq<Bounds>, a: seq<Event>, b: seq<Event>)
    requires b != [] && EndsLike(bs, a)
    ensures LooselyLinked(bs + [DeprecatedBoundsOf(b)]) <==> LooselyLinked(bs) && LooselyMeets(a, b)
  {
    LinkedSnoc(bs, DeprecatedBoundsOf(b));
  }

  lemma LooseBoundsSnoc(ts: seq<seq<Event>>, w: seq<Event>, p: ProcessKey)
    ensures LooselyLinked(DeprecatedBoundsByWindow(ts + [w], p))
       <==> LooselyLinked(DeprecatedBoundsByWindow(ts, p)) && LooselyMeets(Trail(Join(ts), p), Trail(w, p))
  {
    assert (ts + [w])[..|ts|] == ts;
    MeetingIsLooselyLinked(ts, p);
    if Trail(w, p) != [] { LooseBoundStep(DeprecatedBoundsByWindow(ts, p), Trail(Join(ts), p), Trail(w, p)); }
  }

  /** Boundaries meet exactly when they are loosely linked and never slip. */
  lemma {:induction false} MeetsIff(ts: seq<seq<Event>>, p: ProcessKey)
    ensures MeetsThroughout(ts, p) <==> LooselyLinked(DeprecatedBoundsByWindow(ts, p)) && NeverSlips(ts, p)
    decreases |ts|
  {
    if ts != [] {
      var front, w := ts[..|ts| - 1], ts[|ts| - 1];
      MeetsIff(front, p);
      assert ts == front + [w];
      NeverSlipsSnoc(front, w, p);
      LooseBoundsSnoc(front, w, p);
      var a, b := Trail(Join(front), p), Trail(w, p);
      assert DeprecatedMeets(a, b) <==> LooselyMeets(a, b) && !Slips(a, b);
    }
  }

  /** Once the windows pass and the chaining is silent, the process counter of the whole log is
      continuous exactly when no process slips at the start of a window. */
  lemma ChainingSufficesIff(lines: seq<Event>, cuts: seq<int>, days: seq<Day>)
    requires ListAll(days, Timed(Windows(lines, cuts)))
    requires EveryWindowAdvances(Windows(lines, cuts)) && NoDeprecatedGap(days)
    ensures DeprecatedContinuous(ByTime(lines)) <==> forall p :: NeverSlips(Timed(Windows(lines, cuts)), p)
  {
    var ts := Timed(Windows(lines, cuts));
    DeprecatedSplitMerge(lines, cuts, days);
    forall p ensures MeetsThroughout(ts, p) <==> NeverSlips(ts, p) {
      MeetsIff(ts, p);
      ListedDeprecated(days, ts, p);
    }
  }

  // ---------------------------------------------------------------------------------------
  // The windows and the chaining as a check on neighbouring events

  /** The number of the window that holds the instant `at`. */
  function WindowOf(cuts: seq<int>, at: int): nat
  {
    if cuts == [] || at < cuts[0] then 0 else 1 + WindowOf(cuts[1..], at)
  }

  /** Inside a window the counter must follow the event; across a cut it may stay or go up by one. */
  predicate StepOk(cuts: seq<int>, x: Event, y: Event)
  {
    if WindowOf(cuts, x.at) == WindowOf(cuts, y.at) then y.deprecatedCount == x.deprecatedCount + Step(y)
    else x.deprecatedCount <= y.deprecatedCount <= x.deprecatedCount + 1
  }

  ghost predicate StepsOk(cuts: seq<int>, trail: seq<Event>)
  {
    forall i :: 0 < i < |trail| ==> StepOk(cuts, trail[i - 1], trail[i])
  }

  lemma StepsOkAppend(cuts: seq<int>, a: seq<Event>, b: seq<Event>)
    ensures StepsOk(cuts, a + b)
       <==> StepsOk(cuts, a) && StepsOk(cuts, b) && (a == [] || b == [] || StepOk(cuts, a[|a| - 1], b[0]))
  {
    var ab := a + b;
    if StepsOk(cuts, ab) {
      forall i | 0 < i < |a| ensures StepOk(cuts, a[i - 1], a[i]) { assert StepOk(cuts, ab[i - 1], ab[i]); }
      forall i | 0 < i < |b| ensures StepOk(cuts, b[i - 1], b[i]) {
        assert StepOk(cuts, ab[|a| + i - 1], ab[|a| + i]);
      }
      if a != [] && b != [] { assert StepOk(cuts, ab[|a| - 1], ab[|a|]); }
    }
  }

  lemma InOneWindow(cuts: seq<int>, trail: seq<Event>, k: nat)
    requires forall e :: e in trail ==> WindowOf(cuts, e.at) == k
    ensures StepsOk(cuts, trail) <==> Advances(trail)
  {
    forall i | 0 < i < |trail|
      ensures StepOk(cuts, trail[i - 1], trail[i])
         <==> trail[i].deprecatedCount == trail[i - 1].deprecatedCount + Step(trail[i])
    {
      assert trail[i - 1] in trail && trail[i] in trail;
    }
  }

  /** Every event lies in the window that `WindowOf` gives it. */
  ghost predicate Placed(ts: seq<seq<Event>>, cuts: seq<int>)
  {
    forall k: nat, e: Event :: k < |ts| && e in ts[k] ==> WindowOf(cuts, e.at) == k
  }

  lemma {:induction false} WindowsArePlaced(lines: seq<Event>, cuts: seq<int>, k: nat, e: Event)
    requires k <= |cuts| && e in Windows(lines, cuts)[k]
    ensures WindowOf(cuts, e.at) == k
    decreases |cuts|
  {
    if cuts != [] && k > 0 {
      var rest := Filter(FromTime(cuts[0]), lines);
      WindowsArePlaced(rest, cuts[1..], k - 1, e);
      WindowEvents(rest, cuts[1..], k - 1);
    }
  }

  lemma TimedIsPlaced(lines: seq<Event>, cuts: seq<int>)
    ensures Placed(Timed(Windows(lines, cuts)), cuts)
  {
    var ws := Windows(lines, cuts);
    forall k: nat, e: Event | k < |ws| && e in Timed(ws)[k] ensures WindowOf(cuts, e.at) == k {
      ByTimeMembers(ws[k]);
      WindowsArePlaced(lines, cuts, k, e);
    }
  }

  lemma {:induction false} JoinMember(ts: seq<seq<Event>>, e: Event) returns (k: nat)
    requires e in Join(ts)
    ensures k < |ts| && e in ts[k]
    decreases |ts|
  {
    if e in ts[|ts| - 1] {
      k := |ts| - 1;
    } else {
      k := JoinMember(ts[..|ts| - 1], e);
    }
  }

  ghost predicate ChecksAreSteps(ts: seq<seq<Event>>, cuts: seq<int>, p: ProcessKey)
  {
    EachAdvances(ts, p) && LooselyLinked(DeprecatedBoundsByWindow(ts, p)) <==> StepsOk(cuts, Trail(Join(ts), p))
  }

  lemma AcrossACut(ts: seq<seq<Event>>, w: seq<Event>, cuts: seq<int>, p: ProcessKey)
    requires Placed(ts + [w], cuts) && Trail(Join(ts), p) != [] && Trail(w, p) != []
    ensures var a, b := Trail(Join(ts), p), Trail(w, p);
      WindowOf(cuts, a[|a| - 1].at) != WindowOf(cuts, b[0].at)
  {
    var a, b := Trail(Join(ts), p), Trail(w, p);
    TrailEvents(Join(ts), p);
    TrailEvents(w, p);
    assert a[|a| - 1] in a && b[0] in b;
    var k := JoinMember(ts, a[|a| - 1]);
    assert (ts + [w])[k] == ts[k] && (ts + [w])[|ts|] == w;
  }

  lemma StepsAcross(a: seq<Event>, b: seq<Event>, cuts: seq<int>, k: nat)
    requires forall e :: e in b ==> WindowOf(cuts, e.at) == k
    requires a != [] && b != [] ==> WindowOf(cuts, a[|a| - 1].at) != WindowOf(cuts, b[0].at)
    ensures StepsOk(cuts, a + b) <==> StepsOk(cuts, a) && Advances(b) && LooselyMeets(a, b)
  {
    StepsOkAppend(cuts, a, b);
    InOneWindow(cuts, b, k);
  }

  lemma StepsSnoc(ts: seq<seq<Event>>, w: seq<Event>, cuts: seq<int>, p: ProcessKey)
    requires Placed(ts + [w], cuts)
    ensures var a, b := Trail(Join(ts), p), Trail(w, p);
      StepsOk(cuts, Trail(Join(ts + [w]), p)) <==> StepsOk(cuts, a) && Advances(b) && LooselyMeets(a, b)
  {
    var a, b := Trail(Join(ts), p), Trail(w, p);
    assert Trail(Join(ts + [w]), p) == a + b by {
      assert (ts + [w])[..|ts|] == ts;
      TrailAppend(Join(ts), w, p);
    }
    forall e | e in b ensures WindowOf(cuts, e.at) == |ts| {
      TrailEvents(w, p);
      assert e in (ts + [w])[|ts|];
    }
    if a != [] && b != [] { AcrossACut(ts, w, cuts, p); }
    StepsAcross(a, b, cuts, |ts|);
  }

  lemma ChecksAreStepsSnoc(ts: seq<seq<Event>>, w: seq<Event>, cuts: seq<int>, p: ProcessKey)
    requires Placed(ts + [w], cuts) && ChecksAreSteps(ts, cuts, p)
    ensures ChecksAreSteps(ts + [w], cuts, p)
  {
    EachAdvancesSnoc(ts, w, p);
    LooseBoundsSnoc(ts, w, p);
    StepsSnoc(ts, w, cuts, p);
  }

  lemma {:induction false} WindowsCheckSteps(ts: seq<seq<Event>>, cuts: seq<int>, p: ProcessKey)
    requires Placed(ts, cuts)
    ensures ChecksAreSteps(ts, cuts, p)
    decreases |ts|
  {
    if ts != [] {
      var front, w := ts[..|ts| - 1], ts[|ts| - 1];
      assert ts == front + [w];
      forall k: nat, e: Event | k < |front| && e in front[k] ensures WindowOf(cuts, e.at) == k {
        assert ts[k] == front[k];
      }
      WindowsCheckSteps(front, cuts, p);
      ChecksAreStepsSnoc(front, w, cuts, p);
    }
  }

  lemma ProcessCheckIff(lines: seq<Event>, cuts: seq<int>, days: seq<Day>, p: ProcessKey)
    requires ListAll(days, Timed(Windows(lines, cuts)))
    ensures StepsOk(cuts, Trail(ByTime(lines), p)) <==>
      EachAdvances(Timed(Windows(lines, cuts)), p) && LooselyLinked(DeprecatedBoundsAt(DeprecatedList(days), p))
  {
    var ts := Timed(Windows(lines, cuts));
    ByTimeOfWindows(lines, cuts);
    TimedIsPlaced(lines, cuts);
    WindowsCheckSteps(ts, cuts, p);
    ListedDeprecated(days, ts, p);
  }

  ghost predicate EveryProcessSteps(cuts: seq<int>, log: seq<Event>)
  {
    forall p :: StepsOk(cuts, Trail(log, p))
  }

  lemma ForEveryProcess(ts: seq<seq<Event>>, days: seq<Day>, cuts: seq<int>, log: seq<Event>)
    requires forall p ::
      StepsOk(cuts, Trail(log, p)) <==> EachAdvances(ts, p) && LooselyLinked(DeprecatedBoundsAt(DeprecatedList(days), p))
    ensures EveryProcessSteps(cuts, log) <==> (forall p :: EachAdvances(ts, p)) && NoDeprecatedGap(days)
  {
    if EveryProcessSteps(cuts, log) {
      forall p ensures EachAdvances(ts, p) { assert StepsOk(cuts, Trail(log, p)); }
      forall p ensures LooselyLinked(DeprecatedBoundsAt(DeprecatedList(days), p)) {
        assert StepsOk(cuts, Trail(log, p));
      }
      assert NoDeprecatedGap(days);
    }
    if (forall p :: EachAdvances(ts, p)) && NoDeprecatedGap(days) {
      forall p ensures StepsOk(cuts, Trail(log, p)) {
        assert EachAdvances(ts, p) && LooselyLinked(DeprecatedBoundsAt(DeprecatedList(days), p));
      }
      assert EveryProcessSteps(cuts, log);
    }
  }

  /** For any log and any cuts: the windows and the chaining together check every two
      neighbouring events of a process, exactly inside a window and loosely across a cut. */
  lemma ProcessChecksIff(lines: seq<Event>, cuts: seq<int>, days: seq<Day>)
    requires ListAll(days, Timed(Windows(lines, cuts)))
    ensures EveryWindowAdvances(Windows(lines, cuts)) && NoDeprecatedGap(days)
       <==> EveryProcessSteps(cuts, ByTime(lines))
  {
    var ts := Timed(Windows(lines, cuts));
    EachIsEveryAdvance(Windows(lines, cuts));
    forall p
      ensures StepsOk(cuts, Trail(ByTime(lines), p)) <==>
        EachAdvances(ts, p) && LooselyLinked(DeprecatedBoundsAt(DeprecatedList(days), p))
    {
      ProcessCheckIff(lines, cuts, days, p);
    }
    ForEveryProcess(ts, days, cuts, ByTime(lines));
  }

  // ---------------------------------------------------------------------------------------
  // The survivors of a producer's log

  /** Two survivors with only losses between them. */
  predicate Neighbours(keep: seq<bool>, i: int, l: int)
  {
    0 <= i < l < |keep| && keep[i] && keep[l] && forall m :: i < m < l ==> !keep[m]
  }

  ghost predicate NeighboursOk(log: seq<Event>, keep: seq<bool>, cuts: seq<int>)
    requires |keep| == |log|
  {
    forall i, l :: Neighbours(keep, i, l) ==> StepOk(cuts, log[i], log[l])
  }

  lemma {:induction false} NoSurvivor(log: seq<Event>, keep: seq<bool>)
    requires |keep| == |log| && Kept(log, keep) == []
    ensures forall m :: 0 <= m < |keep| ==> !keep[m]
    decreases |log|
  {
    if log != [] {
      var n := |log| - 1;
      NoSurvivor(log[..n], keep[..n]);
      forall m | 0 <= m < |keep| ensures !keep[m] {
        if m < n { assert !keep[..n][m]; }
      }
    }
  }

  lemma {:induction false} LastSurvivor(log: seq<Event>, keep: seq<bool>) returns (i: nat)
    requires |keep| == |log| && Kept(log, keep) != []
    ensures i < |log| && keep[i] && Kept(log, keep)[|Kept(log, keep)| - 1] == log[i]
    ensures forall m :: i < m < |log| ==> !keep[m]
    decreases |log|
  {
    var n := |log| - 1;
    if keep[n] {
      i := n;
    } else {
      i := LastSurvivor(log[..n], keep[..n]);
      assert forall m :: i < m < n ==> keep[..n][m] == keep[m];
    }
  }

  lemma NeighboursInFront(log: seq<Event>, keep: seq<bool>, cuts: seq<int>)
    requires |keep| == |log| && log != []
    ensures var n := |log| - 1;
      NeighboursOk(log, keep, cuts) <==>
      NeighboursOk(log[..n], keep[..n], cuts) && forall i :: Neighbours(keep, i, n) ==> StepOk(cuts, log[i], log[n])
  {
    var n := |log| - 1;
    forall i, l | l < n ensures Neighbours(keep[..n], i, l) <==> Neighbours(keep, i, l) {
      if 0 <= i < l {
        assert keep[..n][i] == keep[i] && keep[..n][l] == keep[l];
        assert forall m :: i < m < l ==> keep[..n][m] == keep[m];
      }
    }
    if NeighboursOk(log, keep, cuts) {
      forall i, l | Neighbours(keep[..n], i, l) ensures StepOk(cuts, log[..n][i], log[..n][l]) {
        assert Neighbours(keep, i, l);
      }
    }
    if NeighboursOk(log[..n], keep[..n], cuts) && forall i :: Neighbours(keep, i, n) ==> StepOk(cuts, log[i], log[n]) {
      forall i, l | Neighbours(keep, i, l) ensures StepOk(cuts, log[i], log[l]) {
        if l < n {
          assert Neighbours(keep[..n], i, l);
          assert StepOk(cuts, log[..n][i], log[..n][l]);
        }
      }
    }
  }

  lemma FirstSurvivor(log: seq<Event>, keep: seq<bool>, n: nat)
    requires |keep| == |log| && n < |log| && Kept(log[..n], keep[..n]) == []
    ensures forall i :: !Neighbours(keep, i, n)
  {
    NoSurvivor(log[..n], keep[..n]);
    forall i: nat | i < n ensures !keep[i] { assert !keep[..n][i]; }
  }

  lemma NextSurvivor(log: seq<Event>, keep: seq<bool>, n: nat) returns (last: nat)
    requires |keep| == |log| && n < |log| && keep[n] && Kept(log[..n], keep[..n]) != []
    ensures last < n && Kept(log[..n], keep[..n])[|Kept(log[..n], keep[..n])| - 1] == log[last]
    ensures forall i :: Neighbours(keep, i, n) <==> i == last
  {
    last := LastSurvivor(log[..n], keep[..n]);
    assert keep[..n][last] == keep[last];
    forall m: nat | last < m < n ensures !keep[m] { assert !keep[..n][m]; }
  }

  lemma SurvivorStepOk(log: seq<Event>, keep: seq<bool>, cuts: seq<int>)
    requires |keep| == |log| && log != [] && keep[|log| - 1]
    requires StepsOk(cuts, Kept(log[..|log| - 1], keep[..|log| - 1]))
    ensures StepsOk(cuts, Kept(log, keep))
       <==> forall i :: Neighbours(keep, i, |log| - 1) ==> StepOk(cuts, log[i], log[|log| - 1])
  {
    var n := |log| - 1;
    var before := Kept(log[..n], keep[..n]);
    StepsOkAppend(cuts, before, [log[n]]);
    if before == [] {
      FirstSurvivor(log, keep, n);
    } else {
      var last := NextSurvivor(log, keep, n);
      assert Neighbours(keep, last, n);
    }
  }

  lemma {:induction false} SurvivorsStepOkIff(log: seq<Event>, keep: seq<bool>, cuts: seq<int>)
    requires |keep| == |log|
    ensures StepsOk(cuts, Kept(log, keep)) <==> NeighboursOk(log, keep, cuts)
    decreases |log|
  {
    if log != [] {
      var n := |log| - 1;
      SurvivorsStepOkIff(log[..n], keep[..n], cuts);
      NeighboursInFront(log, keep, cuts);
      if keep[n] {
        StepsOkAppend(cuts, Kept(log[..n], keep[..n]), [log[n]]);
        if StepsOk(cuts, Kept(log[..n], keep[..n])) { SurvivorStepOk(log, keep, cuts); }
      }
    }
  }

  /** The deprecated attempts strictly between events `i` and `l`. */
  function AttemptsBetween(log: seq<Event>, i: nat, l: nat): nat
    requires i < l <= |log|
    decreases l
  {
    if l == i + 1 then 0 else AttemptsBetween(log, i, l - 1) + (if log[l - 1].deprecatedAttempt then 1 else 0)
  }

  lemma {:induction false} CountsDifferBy(log: seq<Event>, i: nat, l: nat)
    requires Advances(log) && i < l < |log|
    ensures log[l].deprecatedCount == log[i].deprecatedCount + AttemptsBetween(log, i, l) + Step(log[l])
    decreases l
  {
    assert log[l].deprecatedCount == log[l - 1].deprecatedCount + Step(log[l]);
    if l > i + 1 { CountsDifferBy(log, i, l - 1); }
  }

  /** The losses between two neighbouring survivors that the process counter does not show. */
  predicate Unseen(log: seq<Event>, cuts: seq<int>, i: nat, l: nat)
    requires i < l < |log|
  {
    var lost := AttemptsBetween(log, i, l);
    || lost == 0
    || (lost == 1 && !log[l].deprecatedAttempt && WindowOf(cuts, log[i].at) != WindowOf(cuts, log[l].at))
  }

  lemma StepOkIsUnseen(log: seq<Event>, cuts: seq<int>, i: nat, l: nat)
    requires Advances(log) && i < l < |log|
    ensures StepOk(cuts, log[i], log[l]) <==> Unseen(log, cuts, i, l)
  {
    CountsDifferBy(log, i, l);
  }

  lemma ProducerTrail(r: Recorder, calls: seq<Call>, keep: seq<bool>)
    requires |keep| == |Log(r, calls)|
    ensures var kept, p := Kept(Log(r, calls), keep), ProcessKey(API, r.process);
      Trail(kept, p) == kept && forall q :: q != p ==> Trail(kept, q) == []
    ensures Advances(Log(r, calls))
  {
    var log, p := Log(r, calls), ProcessKey(API, r.process);
    OneProducer(r, calls);
    TrailOfOne(log, p);
    LogAdvances(r, calls);
    KeptMembers(log, keep);
    TrailOfOne(Kept(log, keep), p);
  }

  lemma {:induction false} KeptMembers(log: seq<Event>, keep: seq<bool>)
    requires |keep| == |log|
    ensures forall e :: e in Kept(log, keep) ==> e in log
    decreases |log|
  {
    if log != [] { KeptMembers(log[..|log| - 1], keep[..|log| - 1]); }
  }

  /** Loss of attempts: however the surviving lines are cut into windows, the process checks pass
      exactly when no attempt is missing between neighbouring survivors, except that across a cut
      one missing attempt is hidden by a health probe that opens the later window. */
  lemma AttemptLossIsMissedIff(r: Recorder, calls: seq<Call>, keep: seq<bool>, cuts: seq<int>, days: seq<Day>)
    requires ClockNeverFalls(calls) && |keep| == |Log(r, calls)|
    requires ListAll(days, Timed(Windows(Kept(Log(r, calls), keep), cuts)))
    ensures EveryWindowAdvances(Windows(Kept(Log(r, calls), keep), cuts)) && NoDeprecatedGap(days)
       <==> forall i: nat, l: nat :: Neighbours(keep, i, l) ==> Unseen(Log(r, calls), cuts, i, l)
  {
    var log := Log(r, calls);
    var kept := Kept(log, keep);
    LogIsSorted(r, calls);
    KeptIsSorted(log, keep);
    ByTimeOfSorted(kept);
    ProducerTrail(r, calls, keep);
    ProcessChecksIff(kept, cuts, days);
    assert EveryProcessSteps(cuts, kept) <==> StepsOk(cuts, kept) by {
      assert StepsOk(cuts, Trail(kept, ProcessKey(API, r.process))) <==> StepsOk(cuts, kept);
    }
    SurvivorsStepOkIff(log, keep, cuts);
    forall i: nat, l: nat | Neighbours(keep, i, l) ensures StepOk(cuts, log[i], log[l]) <==> Unseen(log, cuts, i, l) {
      StepOkIsUnseen(log, cuts, i, l);
    }
  }

  /** All four checks together. */
  ghost predicate AllChecksPass(lines: seq<Event>, cuts: seq<int>, days: seq<Day>)
  {
    && EveryWindowContinuous(Windows(lines, cuts)) && NoRouteGap(days)
    && EveryWindowAdvances(Windows(lines, cuts)) && NoDeprecatedGap(days)
  }

  lemma LossIsUnseenIff(r: Recorder, calls: seq<Call>, keep: seq<bool>, cuts: seq<int>, days: seq<Day>)
    requires ClockNeverFalls(calls) && |keep| == |Log(r, calls)|
    requires ListAll(days, Timed(Windows(Kept(Log(r, calls), keep), cuts)))
    ensures AllChecksPass(Kept(Log(r, calls), keep), cuts, days) <==>
      !HasHole(Log(r, calls), keep)
      && forall i: nat, l: nat :: Neighbours(keep, i, l) ==> Unseen(Log(r, calls), cuts, i, l)
  {
    LossIsDetectedIff(r, calls, keep, cuts, days);
    AttemptLossIsMissedIff(r, calls, keep, cuts, days);
  }

  lemma {:induction false} LastBefore(keep: seq<bool>, a: nat, j: nat) returns (i: nat)
    requires a < j <= |keep| && keep[a]
    ensures a <= i < j && keep[i] && forall m :: i < m < j ==> !keep[m]
    decreases j
  {
    if keep[j - 1] { i := j - 1; } else { i := LastBefore(keep, a, j - 1); }
  }

  lemma {:induction false} FirstAfter(keep: seq<bool>, j: nat, b: nat) returns (l: nat)
    requires j < b < |keep| && keep[b]
    ensures j < l <= b && keep[l] && forall m :: j < m < l ==> !keep[m]
    decreases b - j
  {
    if keep[j + 1] { l := j + 1; } else { l := FirstAfter(keep, j + 1, b); }
  }

  lemma {:induction false} AttemptIsBetween(log: seq<Event>, i: nat, j: nat, l: nat)
    requires i < j < l <= |log| && log[j].deprecatedAttempt
    ensures AttemptsBetween(log, i, l) >= 1
    decreases l
  {
    if j < l - 1 { AttemptIsBetween(log, i, j, l - 1); }
  }

  /** What a missed attempt looks like: between its neighbours it is the only one lost, a cut
      separates them, the later one is a health probe, and the attempt's own route survives on
      one side at most. */
  lemma MissedAttempt(r: Recorder, calls: seq<Call>, keep: seq<bool>, cuts: seq<int>, days: seq<Day>,
                      a: nat, j: nat, b: nat) returns (i: nat, l: nat)
    requires ClockNeverFalls(calls) && |keep| == |Log(r, calls)|
    requires ListAll(days, Timed(Windows(Kept(Log(r, calls), keep), cuts)))
    requires AllChecksPass(Kept(Log(r, calls), keep), cuts, days)
    requires a < j < b < |keep| && keep[a] && !keep[j] && keep[b] && Log(r, calls)[j].deprecatedAttempt
    ensures Neighbours(keep, i, l) && i < j < l && AttemptsBetween(Log(r, calls), i, l) == 1
    ensures var log := Log(r, calls);
      !log[l].deprecatedAttempt && WindowOf(cuts, log[i].at) != WindowOf(cuts, log[l].at)
    ensures forall x, y :: 0 <= x < j < y < |keep| && keep[x] && keep[y] ==>
      RouteKeyOf(Log(r, calls)[x]) != RouteKeyOf(Log(r, calls)[j]) || RouteKeyOf(Log(r, calls)[y]) != RouteKeyOf(Log(r, calls)[j])
  {
    var log := Log(r, calls);
    LossIsUnseenIff(r, calls, keep, cuts, days);
    i := LastBefore(keep, a, j);
    l := FirstAfter(keep, j, b);
    assert Neighbours(keep, i, l);
    AttemptIsBetween(log, i, j, l);
    forall x, y | 0 <= x < j < y < |keep| && keep[x] && keep[y]
      ensures RouteKeyOf(log[x]) != RouteKeyOf(log[j]) || RouteKeyOf(log[y]) != RouteKeyOf(log[j])
    {
      assert !Hole(log, keep, x, j, y);
    }
  }

  // ---------------------------------------------------------------------------------------
  // One such loss

  function Attempt(at: int): Call { Call(Some("/api/v1/video-jobs"), "POST", 201, None, at) }

  /** Two job submissions and a health probe. */
  function ThreeCalls(): seq<Call> { [Attempt(1), Attempt(2), Probe(3)] }

  /** The day summaries when the second submission is lost and a new day begins with the probe. */
  function TwoDays(r: Recorder): seq<Day>
  {
    var p := ProcessKey(API, r.process);
    [Day([RouteBoundary(KeyOf(r, "/api/v1/video-jobs"), Bounds(1, 1, 1))], [ProcessBoundary(p, Bounds(1, 1, 1))], []),
     Day([RouteBoundary(KeyOf(r, "/healthz"), Bounds(1, 1, 1))], [ProcessBoundary(p, Bounds(2, 2, 1))], [])]
  }

  lemma ThreeCallsLog(r: Recorder)
    ensures var log := Log(r, ThreeCalls());
      && |log| == 3
      && log[0].at == 1 && log[0].deprecatedAttempt && log[0].deprecatedCount == 1 && log[0].routeCount == 1
      && log[1].at == 2 && log[1].deprecatedAttempt && log[1].deprecatedCount == 2 && log[1].routeCount == 2
      && log[2].at == 3 && !log[2].deprecatedAttempt && log[2].deprecatedCount == 2 && log[2].routeCount == 1
      && RouteKeyOf(log[0]) == RouteKeyOf(log[1]) == KeyOf(r, "/api/v1/video-jobs")
      && RouteKeyOf(log[2]) == KeyOf(r, "/healthz")
  {
    PairLog(r, Attempt(1), Attempt(2));
    LogSnoc(r, [], Attempt(1));
    LogSnoc(r, [Attempt(1)], Attempt(2));
    LogSnoc(r, [Attempt(1), Attempt(2)], Probe(3));
    assert [] + [Attempt(1)] == [Attempt(1)] && [Attempt(1)] + [Attempt(2)] == [Attempt(1), Attempt(2)];
    assert [Attempt(1), Attempt(2)] + [Probe(3)] == ThreeCalls();
  }

  lemma KeptOfThree(log: seq<Event>)
    requires |log| == 3
    ensures Kept(log, [true, false, true]) == [log[0], log[2]]
  {
    var keep := [true, false, true];
    assert keep[..2] == [true, false] && [true, false][..1] == [true] && [true][..0] == [];
    assert log[..2][..1] == log[..1] && log[..1][..0] == [];
    assert Kept(log[..1], [true]) == [log[0]];
    assert Kept(log[..2], [true, false]) == [log[0]];
  }

  lemma WindowsOfTwo(a: Event, b: Event, cut: int)
    requires a.at < cut <= b.at
    ensures Timed(Windows([a, b], [cut])) == [[a], [b]]
  {
    FilterSnoc(BeforeTime(cut), [a], b);
    FilterSnoc(FromTime(cut), [a], b);
    assert [a] + [b] == [a, b];
    assert Filter(BeforeTime(cut), [a]) == [a] && Filter(FromTime(cut), [a]) == [];
    assert [cut][1..] == [] && Windows([b], []) == [[b]];
    assert Filter(BeforeTime(cut), [a, b]) == [a];
    assert Filter(FromTime(cut), [a, b]) == [b];
    assert Windows([a, b], [cut]) == [[a]] + Windows([b], [cut][1..]);
    SingletonTime(a);
    SingletonTime(b);
  }

  lemma LossIsHidden(log: seq<Event>)
    requires |log| == 3 && log[0].at == 1 && log[2].at == 3
    requires log[1].deprecatedAttempt && !log[2].deprecatedAttempt
    ensures forall i: nat, l: nat :: Neighbours([true, false, true], i, l) ==> Unseen(log, [3], i, l)
  {
    forall i: nat, l: nat | Neighbours([true, false, true], i, l) ensures Unseen(log, [3], i, l) {
      assert i == 0 && l == 2;
      assert AttemptsBetween(log, 0, 2) == 1;
    }
  }

  lemma SkippedCount(a: Event, b: Event, p: ProcessKey)
    requires ProcessKeyOf(a) == p == ProcessKeyOf(b) && a.at <= b.at
    requires b.deprecatedCount != a.deprecatedCount + Step(b)
    ensures !DeprecatedContinuous(ByTime([a, b]))
  {
    ByTimeOfSorted([a, b]);
    TrailOfOne([a, b], p);
    assert [a, b][1].deprecatedCount != [a, b][0].deprecatedCount + Step([a, b][1]);
    assert !Advances(Trail([a, b], p));
  }

  lemma TwoDaysList(r: Recorder, a: Event, b: Event)
    requires a.at < 3 <= b.at && ProcessKeyOf(a) == ProcessKeyOf(b) == ProcessKey(API, r.process)
    requires RouteKeyOf(a) == KeyOf(r, "/api/v1/video-jobs") && RouteKeyOf(b) == KeyOf(r, "/healthz")
    requires a.routeCount == 1 && b.routeCount == 1 && a.deprecatedCount == 1 && b.deprecatedCount == 2
    ensures ListAll(TwoDays(r), Timed(Windows([a, b], [3])))
  {
    WindowsOfTwo(a, b, 3);
    DayOfOne(a, TwoDays(r)[0]);
    DayOfOne(b, TwoDays(r)[1]);
  }

  lemma MiddleIsHidden(r: Recorder, calls: seq<Call>, days: seq<Day>)
    requires ClockNeverFalls(calls) && |Log(r, calls)| == 3
    requires var log := Log(r, calls);
      && log[0].at == 1 && log[2].at == 3 && log[1].deprecatedAttempt && !log[2].deprecatedAttempt
      && RouteKeyOf(log[0]) != RouteKeyOf(log[2])
    requires ListAll(days, Timed(Windows(Kept(Log(r, calls), [true, false, true]), [3])))
    ensures AllChecksPass(Kept(Log(r, calls), [true, false, true]), [3], days)
  {
    LossIsHidden(Log(r, calls));
    LossIsUnseenIff(r, calls, [true, false, true], [3], days);
  }

  /** The second submission is lost, yet both days and both chainings pass; the process counter
      of the two surviving lines together does not. */
  lemma LossSlipsThrough(r: Recorder)
    ensures |Log(r, ThreeCalls())| == 3
    ensures var kept := Kept(Log(r, ThreeCalls()), [true, false, true]);
      && ListAll(TwoDays(r), Timed(Windows(kept, [3]))) && AllChecksPass(kept, [3], TwoDays(r))
      && !DeprecatedContinuous(ByTime(kept))
  {
    ThreeCallsLog(r);
    ghost var log := Log(r, ThreeCalls());
    KeptOfThree(log);
    TwoDaysList(r, log[0], log[2]);
    MiddleIsHidden(r, ThreeCalls(), TwoDays(r));
    SkippedCount(log[0], log[2], ProcessKey(API, r.process));
  }
}
