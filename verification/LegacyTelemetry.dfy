/** The counter producer of apps/api/app/legacy_telemetry.py, and what its checker makes of its
    log: a complete log always passes, and exactly the losses inside a route's run are detected. */
module LegacyTelemetryLog {
  import opened Stripping
  import opened Wrappers
  import opened Telemetry
  import opened TelemetryWindows

  datatype Call = Call(route: Option<string>, verb: string, status: int, claimedCaller: Option<string>, at: int)

  datatype Counters = Counters(routes: map<string, nat>, deprecated: nat)

  /** One recorder: its process and whether it holds a fingerprint salt. */
  datatype Recorder = Recorder(process: nat, salted: bool)

  /** Python's white space: what `str.strip` removes. */
  predicate Space(c: char)
  {
    var n := c as int;
    || 0x9 <= n <= 0xd || 0x1c <= n <= 0x20 || n == 0x85 || n == 0xa0 || n == 0x1680
    || 0x2000 <= n <= 0x200a || n == 0x2028 || n == 0x2029 || n == 0x202f || n == 0x205f || n == 0x3000
  }

  function SafeClaimedCaller(claimed: Option<string>): (safe: Option<string>)
    ensures safe.Some? ==> ValidCaller(safe.value)
    ensures safe.None? <==> claimed.None?
  {
    match claimed
    case None => None
    case Some(value) => if ValidCaller(Strip(Space, value)) then Some(Strip(Space, value)) else Some("invalid")
  }

  /** ASCII upper case. */
  function Upper(s: string): string
  {
    seq(|s|, i requires 0 <= i < |s| => if 'a' <= s[i] <= 'z' then s[i] - 'a' + 'A' else s[i])
  }

  predicate Recorded(call: Call) { call.route.Some? && RouteAction(API, call.route.value).Some? }

  predicate DeprecatedCall(call: Call)
    requires Recorded(call)
  {
    RouteAction(API, call.route.value).value != "health_probe"
  }

  function CountOf(c: Counters, route: string): nat { if route in c.routes then c.routes[route] else 0 }

  function Counted(c: Counters, call: Call): Counters
    requires Recorded(call)
  {
    Counters(c.routes[call.route.value := CountOf(c, call.route.value) + 1],
             if DeprecatedCall(call) then c.deprecated + 1 else c.deprecated)
  }

  /** The emitted event, from the counters just after the call was counted. */
  function EventOf(r: Recorder, c: Counters, call: Call): Event
    requires Recorded(call)
  {
    Event(call.at, API, r.process, call.route.value, RouteAction(API, call.route.value).value,
          Upper(call.verb), call.status, SafeClaimedCaller(call.claimedCaller), DeprecatedCall(call),
          r.salted, false, false, CountOf(c, call.route.value), c.deprecated, r.salted)
  }

  // ---------------------------------------------------------------------------------------
  // The log of a run of calls

  function After(calls: seq<Call>): Counters
    decreases |calls|
  {
    if calls == [] then Counters(map[], 0)
    else
      var c, call := After(calls[..|calls| - 1]), calls[|calls| - 1];
      if Recorded(call) then Counted(c, call) else c
  }

  function Log(r: Recorder, calls: seq<Call>): seq<Event>
    decreases |calls|
  {
    if calls == [] then []
    else
      var before, call := Log(r, calls[..|calls| - 1]), calls[|calls| - 1];
      if Recorded(call) then before + [EventOf(r, After(calls), call)] else before
  }

  function KeyOf(r: Recorder, route: string): RouteKey { RouteKey(API, r.process, route) }

  /** Every event carries its own rank among the events of its route. */
  ghost predicate Numbered(log: seq<Event>)
  {
    forall j :: 0 <= j < |log| ==> log[j].routeCount == |RouteCounts(log[..j], RouteKeyOf(log[j]))| + 1
  }

  lemma NumberedSnoc(log: seq<Event>, e: Event)
    requires Numbered(log) && e.routeCount == |RouteCounts(log, RouteKeyOf(e))| + 1
    ensures Numbered(log + [e])
  {
    var longer := log + [e];
    forall j | 0 <= j < |longer|
      ensures longer[j].routeCount == |RouteCounts(longer[..j], RouteKeyOf(longer[j]))| + 1
    {
      if j < |log| { assert longer[..j] == log[..j]; } else { assert longer[..j] == log; }
    }
  }

  /** One recorded call: its event continues the run of its route and of its process. */
  lemma EventContinues(r: Recorder, c: Counters, log: seq<Event>, call: Call, route: string)
    requires Recorded(call) && CountOf(c, route) == |RouteCounts(log, KeyOf(r, route))|
    ensures var e := EventOf(r, Counted(c, call), call);
      && CountOf(Counted(c, call), route) == |RouteCounts(log + [e], KeyOf(r, route))|
      && (call.route.value == route ==> RouteKeyOf(e) == KeyOf(r, route) && e.routeCount == |RouteCounts(log, RouteKeyOf(e))| + 1)
  {
    Snoc(log, EventOf(r, Counted(c, call), call));
  }

  /** The counters are the lengths of the routes' runs. */
  lemma {:induction false} CountersMatchLog(r: Recorder, calls: seq<Call>, route: string)
    ensures CountOf(After(calls), route) == |RouteCounts(Log(r, calls), KeyOf(r, route))|
    decreases |calls|
  {
    if calls != [] {
      var front, call := calls[..|calls| - 1], calls[|calls| - 1];
      CountersMatchLog(r, front, route);
      if Recorded(call) { EventContinues(r, After(front), Log(r, front), call, route); }
    }
  }

  /** Every event of a log carries its rank on its route. */
  lemma {:induction false} LogIsNumbered(r: Recorder, calls: seq<Call>)
    ensures Numbered(Log(r, calls))
    decreases |calls|
  {
    if calls != [] {
      var front, call := calls[..|calls| - 1], calls[|calls| - 1];
      LogIsNumbered(r, front);
      if Recorded(call) {
        CountersMatchLog(r, front, call.route.value);
        EventContinues(r, After(front), Log(r, front), call, call.route.value);
        NumberedSnoc(Log(r, front), EventOf(r, After(calls), call));
      }
    }
  }

  lemma {:induction false} NumberedCounts(log: seq<Event>, k: RouteKey)
    requires Numbered(log)
    ensures forall i :: 0 <= i < |RouteCounts(log, k)| ==> RouteCounts(log, k)[i] == i + 1
    decreases |log|
  {
    if log != [] {
      var front := log[..|log| - 1];
      forall j | 0 <= j < |front|
        ensures front[j].routeCount == |RouteCounts(front[..j], RouteKeyOf(front[j]))| + 1
      {
        assert front[..j] == log[..j] && front[j] == log[j];
      }
      NumberedCounts(front, k);
      assert log[..|log| - 1] == front;
    }
  }

  /** The process counter is continuous along the trail and agrees with the recorder's. */
  ghost predicate InStep(trail: seq<Event>, c: Counters)
  {
    Advances(trail) && (trail != [] ==> trail[|trail| - 1].deprecatedCount == c.deprecated)
  }

  lemma EventKeepsStep(r: Recorder, c: Counters, log: seq<Event>, call: Call)
    requires Recorded(call) && InStep(Trail(log, ProcessKey(API, r.process)), c)
    ensures var e := EventOf(r, Counted(c, call), call); InStep(Trail(log + [e], ProcessKey(API, r.process)), Counted(c, call))
  {
    var e, trail := EventOf(r, Counted(c, call), call), Trail(log, ProcessKey(API, r.process));
    Snoc(log, e);
    AdvancesSnoc(trail, e);
    assert Trail(log + [e], ProcessKey(API, r.process)) == trail + [e];
  }

  lemma {:induction false} LogAdvances(r: Recorder, calls: seq<Call>)
    ensures InStep(Trail(Log(r, calls), ProcessKey(API, r.process)), After(calls))
    decreases |calls|
  {
    if calls != [] {
      var front, call := calls[..|calls| - 1], calls[|calls| - 1];
      LogAdvances(r, front);
      if Recorded(call) { EventKeepsStep(r, After(front), Log(r, front), call); }
    }
  }

  lemma {:induction false} OtherProcessesAreAbsent(r: Recorder, calls: seq<Call>, p: ProcessKey)
    requires p != ProcessKey(API, r.process)
    ensures Trail(Log(r, calls), p) == []
    decreases |calls|
  {
    if calls != [] {
      OtherProcessesAreAbsent(r, calls[..|calls| - 1], p);
      if Recorded(calls[|calls| - 1]) {
        Snoc(Log(r, calls[..|calls| - 1]), EventOf(r, After(calls), calls[|calls| - 1]));
      }
    }
  }

  ghost predicate ClockNeverFalls(calls: seq<Call>)
  {
    forall i, j :: 0 <= i < j < |calls| ==> calls[i].at <= calls[j].at
  }

  lemma {:induction false} LogIsSorted(r: Recorder, calls: seq<Call>)
    requires ClockNeverFalls(calls)
    ensures SortedByTime(Log(r, calls))
    ensures forall e :: e in Log(r, calls) ==> exists i :: 0 <= i < |calls| && calls[i].at == e.at
    decreases |calls|
  {
    if calls != [] {
      var front := calls[..|calls| - 1];
      LogIsSorted(r, front);
      forall e | e in Log(r, front) ensures exists i :: 0 <= i < |calls| && calls[i].at == e.at {
        var i :| 0 <= i < |front| && front[i].at == e.at;
        assert calls[i].at == e.at;
      }
      var last := calls[|calls| - 1];
      forall e | e in Log(r, front) ensures e.at <= last.at {
        var i :| 0 <= i < |front| && front[i].at == e.at;
        assert calls[i].at <= last.at;
      }
      if Recorded(last) {
        assert Log(r, calls) == Log(r, front) + [EventOf(r, After(calls), last)];
        assert calls[|calls| - 1].at == last.at;
      }
    }
  }

  /** The checker accepts an event of this producer exactly when the recorder is salted and the
      request had a plain verb and an HTTP status; no claimed caller can spoil it. */
  lemma EventIsValidIff(r: Recorder, calls: seq<Call>)
    requires calls != [] && Recorded(calls[|calls| - 1])
    ensures var call := calls[|calls| - 1];
      Acceptable(EventOf(r, After(calls), call)) <==>
      r.salted && 3 <= |call.verb| <= 10 && (forall i :: 0 <= i < |call.verb| ==> Letter(call.verb[i]))
      && 100 <= call.status <= 599
  {
    var call := calls[|calls| - 1];
    ValidIffAcceptable(EventOf(r, After(calls), call));
    if forall i :: 0 <= i < |call.verb| ==> Letter(call.verb[i]) {
      assert forall i :: 0 <= i < |call.verb| ==> 'A' <= Upper(call.verb)[i] <= 'Z';
    } else {
      var i :| 0 <= i < |call.verb| && !Letter(call.verb[i]);
      assert !('A' <= Upper(call.verb)[i] <= 'Z');
    }
  }

  predicate Letter(c: char) { 'A' <= c <= 'Z' || 'a' <= c <= 'z' }

  /** The code points that Python counts as white space. */
  const WHITE_SPACE := [
    0x9, 0xa, 0xb, 0xc, 0xd, 0x1c, 0x1d, 0x1e, 0x1f, 0x20, 0x85, 0xa0, 0x1680, 0x2000, 0x2001, 0x2002, 0x2003, 0x2004,
    0x2005, 0x2006, 0x2007, 0x2008, 0x2009, 0x200a, 0x2028, 0x2029, 0x202f, 0x205f, 0x3000]

  predicate Blank(c: char) { c as int in WHITE_SPACE }

  lemma SpaceIsBlank(c: char)
    ensures Space(c) <==> Blank(c)
  {
  }

  /** `id` is what was claimed, but for white space before and after it, and an id by its form. */
  ghost predicate Claims(claimed: string, id: string)
  {
    && CallerId(id) && !Blank(id[0]) && !Blank(id[|id| - 1])
    && exists i, j :: 0 <= i <= j <= |claimed| && id == claimed[i..j]
         && forall k :: 0 <= k < |claimed| && !(i <= k < j) ==> Blank(claimed[k])
  }

  lemma StrippedIsClaimed(claimed: string, id: string)
    requires StrippedTo(Space, claimed, id) && CallerId(id)
    ensures Claims(claimed, id)
  {
    var i, j :| DropsAround(Space, claimed, i, j) && id == claimed[i..j];
    forall k | 0 <= k < |claimed| && !(i <= k < j) ensures Blank(claimed[k]) { SpaceIsBlank(claimed[k]); }
    SpaceIsBlank(id[0]);
    SpaceIsBlank(id[|id| - 1]);
  }

  lemma ClaimedIsStripped(claimed: string, id: string)
    requires Claims(claimed, id)
    ensures StrippedTo(Space, claimed, id)
  {
    var i, j :| 0 <= i <= j <= |claimed| && id == claimed[i..j]
      && forall k :: 0 <= k < |claimed| && !(i <= k < j) ==> Blank(claimed[k]);
    forall k | 0 <= k < |claimed| && !(i <= k < j) ensures Space(claimed[k]) { SpaceIsBlank(claimed[k]); }
    assert DropsAround(Space, claimed, i, j);
    SpaceIsBlank(id[0]);
    SpaceIsBlank(id[|id| - 1]);
  }

  lemma ClaimsIff(claimed: string, id: string)
    ensures Claims(claimed, id) <==> id == Strip(Space, claimed) && ValidCaller(id)
  {
    CallerIff(id);
    StripIff(Space, claimed, id);
    if Claims(claimed, id) { ClaimedIsStripped(claimed, id); }
    if StrippedTo(Space, claimed, id) && CallerId(id) { StrippedIsClaimed(claimed, id); }
  }

  /** The recorded caller is the id that was claimed, or the word "invalid" if none was well-formed. */
  lemma CallerIsClaimed(claimed: string)
    ensures var safe := SafeClaimedCaller(Some(claimed));
      && safe.Some?
      && (if exists id :: Claims(claimed, id) then Claims(claimed, safe.value) else safe.value == "invalid")
  {
    ClaimsIff(claimed, Strip(Space, claimed));
    if id :| Claims(claimed, id) { ClaimsIff(claimed, id); }
  }

  /** A produced event is attributed exactly if the claimed caller, but for white space around it, is
      a well-formed id other than the word that stands for malformed ones. */
  lemma AttributedIff(r: Recorder, c: Counters, call: Call)
    requires Recorded(call)
    ensures Attributed(EventOf(r, c, call).caller) <==>
      call.claimedCaller.Some? && exists id :: Claims(call.claimedCaller.value, id) && id != "invalid"
  {
    if call.claimedCaller.Some? {
      var claimed := call.claimedCaller.value;
      ClaimsIff(claimed, Strip(Space, claimed));
      if id :| Claims(claimed, id) && id != "invalid" { ClaimsIff(claimed, id); }
    }
  }

  /** No caller if none was claimed, the id that was claimed, or the word for a malformed one. */
  ghost predicate CallerReported(claimed: Option<string>, written: Option<string>)
  {
    if claimed.None? then written.None?
    else if exists id :: Claims(claimed.value, id) then written.Some? && Claims(claimed.value, written.value)
    else written == Some("invalid")
  }

  lemma CallerIsReported(claimed: Option<string>)
    ensures CallerReported(claimed, SafeClaimedCaller(claimed))
  {
    if claimed.Some? { CallerIsClaimed(claimed.value); }
  }

  /** A small letter as its capital, anything else as it is. */
  predicate Capital(given: char, written: char)
  {
    if 'a' <= given <= 'z' then written as int == given as int - 32 else written == given
  }

  /** What an emitted event says of its request: label, verb in capitals, status, caller and time as
      they were, an attempt unless it was a probe, and nothing about the payload. */
  ghost predicate Reports(e: Event, call: Call)
  {
    && e.at == call.at && e.status == call.status && call.route == Some(e.route)
    && e.service == "video-factory-v1-api" && (e.service, e.route, e.action) in LABELS
    && (e.deprecatedAttempt <==> e.action != "health_probe")
    && |e.verb| == |call.verb| && (forall i :: 0 <= i < |e.verb| ==> Capital(call.verb[i], e.verb[i]))
    && CallerReported(call.claimedCaller, e.caller)
    && !e.payloadLogged && !e.identityLogged
  }

  /** A request is recorded exactly if its route is one of the five of the API. */
  lemma RecordedIff(call: Call)
    ensures Recorded(call) <==> call.route.Some? && exists action :: ("video-factory-v1-api", call.route.value, action) in LABELS
  {
    if call.route.Some? {
      var route := call.route.value;
      if Recorded(call) { LabelIff(API, route, RouteAction(API, route).value); }
      if action :| (API, route, action) in LABELS { LabelIff(API, route, action); }
    }
  }

  /** One event for each request, in order. */
  ghost predicate ReportsEach(r: Recorder, log: seq<Event>, calls: seq<Call>)
  {
    |log| == |calls| && forall i :: 0 <= i < |log| ==> ReportedBy(r, log[i], calls[i])
  }

  ghost predicate ReportedBy(r: Recorder, e: Event, call: Call)
  {
    Reports(e, call) && e.process == r.process && e.identityReady == r.salted
  }

  lemma ReportsOneMore(r: Recorder, log: seq<Event>, calls: seq<Call>, e: Event, call: Call)
    requires ReportsEach(r, log, calls) && ReportedBy(r, e, call)
    ensures ReportsEach(r, log + [e], calls + [call])
  {
    forall i | 0 <= i < |log| + 1 ensures ReportedBy(r, (log + [e])[i], (calls + [call])[i]) {
      if i < |log| { assert ReportedBy(r, log[i], calls[i]); }
    }
  }

  /** The log of any requests holds one event for each recorded one, in order, that reports it. */
  lemma {:induction false} LogReportsCalls(r: Recorder, calls: seq<Call>)
    ensures ReportsEach(r, Log(r, calls), Sorting.Filter(Recorded, calls))
    decreases |calls|
  {
    if calls != [] {
      var front, call := calls[..|calls| - 1], calls[|calls| - 1];
      LogReportsCalls(r, front);
      assert calls == front + [call];
      Sorting.FilterSnoc(Recorded, front, call);
      if Recorded(call) {
        EventReports(r, After(calls), call);
        ReportsOneMore(r, Log(r, front), Sorting.Filter(Recorded, front), EventOf(r, After(calls), call), call);
      }
    }
  }

  lemma EventReports(r: Recorder, c: Counters, call: Call)
    requires Recorded(call)
    ensures ReportedBy(r, EventOf(r, c, call), call)
  {
    LabelIsListed(call.route.value);
    CallerIsReported(call.claimedCaller);
    VerbIsCapital(call.verb);
  }

  lemma LabelIsListed(route: string)
    requires RouteAction(API, route).Some?
    ensures var action := RouteAction(API, route).value;
      ("video-factory-v1-api", route, action) in LABELS
  {
    LabelIff(API, route, RouteAction(API, route).value);
  }

  lemma VerbIsCapital(verb: string)
    ensures |Upper(verb)| == |verb| && forall i :: 0 <= i < |verb| ==> Capital(verb[i], Upper(verb)[i])
  {
  }

  /** A produced event can count towards path coverage exactly if it was counted as a deprecated attempt. */
  lemma CoverageIsDeprecated(r: Recorder, c: Counters, call: Call)
    requires Recorded(call)
    ensures var e := EventOf(r, c, call); PathCoverageLabel(e.service, e.route).Some? <==> e.deprecatedAttempt
  {
  }

  /** A complete log, cut anywhere: no window and no boundary of it ever fails a counter check. */
  lemma CompleteLogPasses(r: Recorder, calls: seq<Call>, cuts: seq<int>, days: seq<Day>)
    requires ClockNeverFalls(calls)
    requires ListAll(days, Timed(Windows(Log(r, calls), cuts)))
    ensures var ws := Windows(Log(r, calls), cuts);
      && EveryWindowContinuous(ws) && EveryWindowAdvances(ws)
      && NoRouteGap(days) && NoDeprecatedGap(days)
    ensures forall d :: d in days ==> !Inconsistent(d)
  {
    var log := Log(r, calls);
    LogIsSorted(r, calls);
    ByTimeOfSorted(log);
    LogIsNumbered(r, calls);
    forall k ensures Consecutive(RouteCounts(log, k)) { NumberedCounts(log, k); }
    LogAdvances(r, calls);
    forall p ensures Advances(Trail(log, p)) {
      if p != ProcessKey(API, r.process) { OtherProcessesAreAbsent(r, calls, p); }
    }
    SplitMerge(log, cuts, days);
    DeprecatedSplitMerge(log, cuts, days);
    var ws := Windows(log, cuts);
    forall d | d in days ensures !Inconsistent(d) {
      var i :| 0 <= i < |days| && days[i] == d;
      assert ws[i] in ws;
      WindowEvents(log, cuts, i);
      ByTimeMembers(ws[i]);
      assert Lists(d, Timed(ws)[i]);
      CountsArePositive(r, calls);
      PassedWindowRaisesIff(ByTime(ws[i]), d);
    }
  }

  lemma {:induction false} CountsArePositive(r: Recorder, calls: seq<Call>)
    ensures forall e :: e in Log(r, calls) ==> e.routeCount >= 1 && e.deprecatedCount >= 0
    decreases |calls|
  {
    if calls != [] { CountsArePositive(r, calls[..|calls| - 1]); }
  }

  lemma {:induction false} WindowEvents(lines: seq<Event>, cuts: seq<int>, i: nat)
    requires i <= |cuts|
    ensures forall e :: e in Windows(lines, cuts)[i] ==> e in lines
    decreases |cuts|
  {
    if cuts != [] && i > 0 {
      WindowEvents(Sorting.Filter(FromTime(cuts[0]), lines), cuts[1..], i - 1);
    }
  }

  // ---------------------------------------------------------------------------------------
  // Losing events

  /** The events that survive: event `i` is kept when `keep[i]`. */
  function Kept(log: seq<Event>, keep: seq<bool>): seq<Event>
    requires |keep| == |log|
    decreases |log|
  {
    if log == [] then []
    else
      var n := |log| - 1;
      if keep[n] then Kept(log[..n], keep[..n]) + [log[n]] else Kept(log[..n], keep[..n])
  }

  /** A lost event whose route still has an earlier and a later surviving event. */
  ghost predicate Hole(log: seq<Event>, keep: seq<bool>, i: int, j: int, l: int)
    requires |keep| == |log|
  {
    && 0 <= i < j < l < |log| && keep[i] && !keep[j] && keep[l]
    && RouteKeyOf(log[i]) == RouteKeyOf(log[j]) == RouteKeyOf(log[l])
  }

  ghost predicate HasHole(log: seq<Event>, keep: seq<bool>)
    requires |keep| == |log|
  {
    exists i, j, l :: Hole(log, keep, i, j, l)
  }

  /** The latest survivor of a route carries the last surviving count. */
  lemma {:induction false} LastKept(log: seq<Event>, keep: seq<bool>, k: RouteKey) returns (i: nat)
    requires |keep| == |log| && RouteCounts(Kept(log, keep), k) != []
    ensures i < |log| && keep[i] && RouteKeyOf(log[i]) == k
    ensures var counts := RouteCounts(Kept(log, keep), k); counts[|counts| - 1] == log[i].routeCount
    ensures forall m :: i < m < |log| && RouteKeyOf(log[m]) == k ==> !keep[m]
    decreases |log|
  {
    var n := |log| - 1;
    if keep[n] {
      Snoc(Kept(log[..n], keep[..n]), log[n]);
    }
    if keep[n] && RouteKeyOf(log[n]) == k {
      i := n;
    } else {
      i := LastKept(log[..n], keep[..n], k);
    }
  }

  lemma {:induction false} NoneOfRoute(log: seq<Event>, k: RouteKey)
    ensures RouteCounts(log, k) == [] <==> forall m :: 0 <= m < |log| ==> RouteKeyOf(log[m]) != k
    decreases |log|
  {
    if log != [] {
      NoneOfRoute(log[..|log| - 1], k);
      assert forall m :: 0 <= m < |log| - 1 ==> log[..|log| - 1][m] == log[m];
      if RouteKeyOf(log[|log| - 1]) != k {
        assert forall m :: 0 <= m < |log| ==> m < |log| - 1 || RouteKeyOf(log[m]) != k;
      }
    }
  }

  lemma CountsBetween(log: seq<Event>, i: nat, l: nat, k: RouteKey)
    requires i < l <= |log| && RouteKeyOf(log[i]) == k
    ensures |RouteCounts(log[..l], k)| == |RouteCounts(log[..i], k)| + 1 + |RouteCounts(log[i + 1..l], k)|
  {
    assert log[..l] == (log[..i] + [log[i]]) + log[i + 1..l];
    RouteCountsAppend(log[..i] + [log[i]], log[i + 1..l], k);
    Snoc(log[..i], log[i]);
  }

  lemma NoneBetween(log: seq<Event>, i: nat, l: nat, k: RouteKey)
    requires i < l <= |log|
    ensures RouteCounts(log[i + 1..l], k) == [] <==> forall m :: i < m < l ==> RouteKeyOf(log[m]) != k
  {
    var between := log[i + 1..l];
    NoneOfRoute(between, k);
    assert forall m :: i < m < l ==> between[m - i - 1] == log[m];
    assert forall m :: 0 <= m < |between| ==> between[m] == log[i + 1 + m];
  }

  /** Two events of one route carry successive counts exactly when none lies between them. */
  lemma SuccessiveIff(log: seq<Event>, i: nat, l: nat)
    requires Numbered(log) && i < l < |log| && RouteKeyOf(log[i]) == RouteKeyOf(log[l])
    ensures log[l].routeCount == log[i].routeCount + 1
       <==> forall m :: i < m < l ==> RouteKeyOf(log[m]) != RouteKeyOf(log[l])
  {
    CountsBetween(log, i, l, RouteKeyOf(log[l]));
    NoneBetween(log, i, l, RouteKeyOf(log[l]));
  }

  lemma PrefixIsNumbered(log: seq<Event>, n: nat)
    requires Numbered(log) && n <= |log|
    ensures Numbered(log[..n])
  {
    forall j | 0 <= j < n
      ensures log[..n][j].routeCount == |RouteCounts(log[..n][..j], RouteKeyOf(log[..n][j]))| + 1
    {
      assert log[..n][..j] == log[..j];
    }
  }

  lemma HoleInPrefix(log: seq<Event>, keep: seq<bool>)
    requires |keep| == |log| && log != []
    ensures HasHole(log[..|log| - 1], keep[..|log| - 1]) ==> HasHole(log, keep)
  {
    var front, kept := log[..|log| - 1], keep[..|log| - 1];
    if i, j, l :| Hole(front, kept, i, j, l) {
      assert Hole(log, keep, i, j, l);
    }
  }

  lemma HoleAtEnd(log: seq<Event>, keep: seq<bool>, i: int, j: int, l: int)
    requires |keep| == |log| && log != [] && Hole(log, keep, i, j, l)
    requires !HasHole(log[..|log| - 1], keep[..|log| - 1])
    ensures l == |log| - 1
  {
    if l < |log| - 1 {
      assert Hole(log[..|log| - 1], keep[..|log| - 1], i, j, l);
    }
  }

  lemma FirstSurvivorClosesNoHole(log: seq<Event>, keep: seq<bool>)
    requires |keep| == |log| && log != []
    requires !HasHole(log[..|log| - 1], keep[..|log| - 1])
    requires RouteCounts(Kept(log[..|log| - 1], keep[..|log| - 1]), RouteKeyOf(log[|log| - 1])) == []
    ensures !HasHole(log, keep)
  {
    var n := |log| - 1;
    KeptNoneOfRoute(log[..n], keep[..n], RouteKeyOf(log[n]));
    if i, j, l :| Hole(log, keep, i, j, l) {
      HoleAtEnd(log, keep, i, j, l);
      assert false;
    }
  }

  /** With `i` the route's latest survivor, the new survivor closes a hole exactly when some
      event of the route was lost since. */
  lemma LaterSurvivorClosesHoleIff(log: seq<Event>, keep: seq<bool>, i: nat)
    requires |keep| == |log| && i < |log| - 1 && keep[|log| - 1] && keep[i]
    requires !HasHole(log[..|log| - 1], keep[..|log| - 1])
    requires RouteKeyOf(log[i]) == RouteKeyOf(log[|log| - 1])
    requires forall m :: i < m < |log| - 1 && RouteKeyOf(log[m]) == RouteKeyOf(log[i]) ==> !keep[m]
    ensures HasHole(log, keep) <==> exists m :: i < m < |log| - 1 && RouteKeyOf(log[m]) == RouteKeyOf(log[i])
  {
    var n := |log| - 1;
    if m :| i < m < n && RouteKeyOf(log[m]) == RouteKeyOf(log[i]) {
      assert Hole(log, keep, i, m, n);
    } else if a, j, l :| Hole(log, keep, a, j, l) {
      HoleAtEnd(log, keep, a, j, l);
      assert RouteKeyOf(log[j]) == RouteKeyOf(log[i]) && j != i;
      assert j < i;
      assert Hole(log[..n], keep[..n], a, j, i);
      assert false;
    }
  }

  /** Adding a surviving event breaks its route exactly when it closes a hole. */
  lemma SurvivorStep(log: seq<Event>, keep: seq<bool>)
    requires |keep| == |log| && log != [] && keep[|log| - 1] && Numbered(log)
    requires !HasHole(log[..|log| - 1], keep[..|log| - 1])
    ensures var n := |log| - 1;
      var counts := RouteCounts(Kept(log[..n], keep[..n]), RouteKeyOf(log[n]));
      HasHole(log, keep) <==> !(counts == [] || log[n].routeCount == counts[|counts| - 1] + 1)
  {
    var n := |log| - 1;
    if RouteCounts(Kept(log[..n], keep[..n]), RouteKeyOf(log[n])) == [] {
      FirstSurvivorClosesNoHole(log, keep);
    } else {
      var i := LastKept(log[..n], keep[..n], RouteKeyOf(log[n]));
      assert forall m :: i < m < n ==> log[..n][m] == log[m] && keep[..n][m] == keep[m];
      SuccessiveIff(log, i, n);
      LaterSurvivorClosesHoleIff(log, keep, i);
    }
  }

  lemma {:induction false} KeptNoneOfRoute(log: seq<Event>, keep: seq<bool>, k: RouteKey)
    requires |keep| == |log| && RouteCounts(Kept(log, keep), k) == []
    ensures forall m :: 0 <= m < |log| && keep[m] ==> RouteKeyOf(log[m]) != k
    decreases |log|
  {
    if log != [] {
      var n := |log| - 1;
      if keep[n] {
        Snoc(Kept(log[..n], keep[..n]), log[n]);
      }
      KeptNoneOfRoute(log[..n], keep[..n], k);
      forall m | 0 <= m < |log| && keep[m] ensures RouteKeyOf(log[m]) != k {
        if m < n { assert log[..n][m] == log[m] && keep[..n][m]; }
      }
    }
  }

  lemma LossAtEnd(log: seq<Event>, keep: seq<bool>)
    requires |keep| == |log| && log != [] && !keep[|log| - 1]
    ensures HasHole(log, keep) <==> HasHole(log[..|log| - 1], keep[..|log| - 1])
  {
    HoleInPrefix(log, keep);
    if i, j, l :| Hole(log, keep, i, j, l) {
      assert Hole(log[..|log| - 1], keep[..|log| - 1], i, j, l);
    }
  }

  lemma BrokenStaysBroken(before: seq<Event>, e: Event)
    requires !RoutesContinuous(before)
    ensures !RoutesContinuous(before + [e])
  {
    assert (before + [e])[..|before|] == before;
    PrefixBreaks(before + [e], |before|);
  }

  lemma SurvivorsStep(log: seq<Event>, keep: seq<bool>)
    requires |keep| == |log| && log != [] && Numbered(log)
    requires var n := |log| - 1; RoutesContinuous(Kept(log[..n], keep[..n])) <==> !HasHole(log[..n], keep[..n])
    ensures RoutesContinuous(Kept(log, keep)) <==> !HasHole(log, keep)
  {
    var n := |log| - 1;
    if !keep[n] {
      LossAtEnd(log, keep);
    } else if HasHole(log[..n], keep[..n]) {
      HoleInPrefix(log, keep);
      BrokenStaysBroken(Kept(log[..n], keep[..n]), log[n]);
    } else {
      SurvivorStep(log, keep);
      SurvivorExtends(Kept(log[..n], keep[..n]), log[n]);
    }
  }

  /** What is left of a complete log is continuous exactly when nothing inside a route's
      surviving run is missing. */
  lemma {:induction false} SurvivorsContinuousIff(log: seq<Event>, keep: seq<bool>)
    requires |keep| == |log| && Numbered(log)
    ensures RoutesContinuous(Kept(log, keep)) <==> !HasHole(log, keep)
    decreases |log|
  {
    if log == [] {
      assert forall k :: RouteCounts([], k) == [];
    } else {
      PrefixIsNumbered(log, |log| - 1);
      SurvivorsContinuousIff(log[..|log| - 1], keep[..|log| - 1]);
      SurvivorsStep(log, keep);
    }
  }

  lemma SurvivorExtends(before: seq<Event>, e: Event)
    requires RoutesContinuous(before)
    ensures var counts := RouteCounts(before, RouteKeyOf(e));
      RoutesContinuous(before + [e]) <==> (counts == [] || e.routeCount == counts[|counts| - 1] + 1)
  {
    var k := RouteKeyOf(e);
    Snoc(before, e);
    assert Consecutive(RouteCounts(before, k));
    ConsecutiveSnoc(RouteCounts(before, k), e.routeCount);
    if Consecutive(RouteCounts(before + [e], k)) {
      forall j ensures Consecutive(RouteCounts(before + [e], j)) {
        assert Consecutive(RouteCounts(before, j));
      }
    }
  }

  lemma {:induction false} KeptIsSorted(log: seq<Event>, keep: seq<bool>)
    requires |keep| == |log| && SortedByTime(log)
    ensures SortedByTime(Kept(log, keep))
    ensures forall e :: e in Kept(log, keep) ==> e in log
    decreases |log|
  {
    if log != [] {
      var n := |log| - 1;
      KeptIsSorted(log[..n], keep[..n]);
      forall e | e in Kept(log[..n], keep[..n]) ensures e.at <= log[n].at {
        var i :| 0 <= i < n && log[..n][i] == e;
        assert log[i].at <= log[n].at;
      }
    }
  }

  /** Loss detection: however the surviving lines are cut into windows, the route checks see a
      fault exactly when some lost event has an earlier and a later survivor of its route. */
  lemma LossIsDetectedIff(r: Recorder, calls: seq<Call>, keep: seq<bool>, cuts: seq<int>, days: seq<Day>)
    requires ClockNeverFalls(calls) && |keep| == |Log(r, calls)|
    requires ListAll(days, Timed(Windows(Kept(Log(r, calls), keep), cuts)))
    ensures !(EveryWindowContinuous(Windows(Kept(Log(r, calls), keep), cuts)) && NoRouteGap(days))
       <==> HasHole(Log(r, calls), keep)
  {
    var log := Log(r, calls);
    LogIsNumbered(r, calls);
    LogIsSorted(r, calls);
    KeptIsSorted(log, keep);
    ByTimeOfSorted(Kept(log, keep));
    SurvivorsContinuousIff(log, keep);
    SplitMerge(Kept(log, keep), cuts, days);
  }

  // ---------------------------------------------------------------------------------------
  // The recorder

  class LegacyTelemetry {
    var routeCounts: map<string, nat>
    var deprecatedAttemptCount: nat
    const recorder: Recorder

    constructor (recorder: Recorder)
      ensures routeCounts == map[] && deprecatedAttemptCount == 0 && this.recorder == recorder
    {
      this.recorder := recorder;
      routeCounts, deprecatedAttemptCount := map[], 0;
    }

    function State(): Counters
      reads this
    {
      Counters(routeCounts, deprecatedAttemptCount)
    }

    method Record(call: Call) returns (event: Option<Event>)
      modifies this
      ensures !Recorded(call) ==> event == None && State() == old(State())
      ensures Recorded(call) ==> State() == Counted(old(State()), call)
      ensures Recorded(call) ==> event == Some(EventOf(recorder, State(), call))
    {
      if call.route.None? || RouteAction(API, call.route.value).None? {
        return None;
      }
      var route := call.route.value;
      var action := RouteAction(API, route).value;
      routeCounts := routeCounts[route := (if route in routeCounts then routeCounts[route] else 0) + 1];
      if action != "health_probe" {
        deprecatedAttemptCount := deprecatedAttemptCount + 1;
      }
      event := Some(Event(call.at, API, recorder.process, route, action, Upper(call.verb), call.status,
                          SafeClaimedCaller(call.claimedCaller), action != "health_probe", recorder.salted,
                          false, false, routeCounts[route], deprecatedAttemptCount, recorder.salted));
    }
  }
}
