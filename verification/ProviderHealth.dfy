/** Alert conditions and their synchronisation with stored alerts:
    services/agent_hub/npd_agent_hub/provider_health.py. */
module ProviderHealth {
  import opened Decimals
  import opened Delivery
  import opened Wrappers

  datatype Health = Healthy | Degraded | FailedProbe | Stale | NoData | Unconfigured

  datatype Observation = Observation(provider: string, state: Health, detail: string)

  datatype Severity = Warning | Critical

  datatype AlertType =
    | ProbeFailed | FreshnessStale | NoDataSeen | ConfigurationIncomplete
    | SigningNotConfigured | RetryIsPending | DeadLetterExists

  /** The dedupe key; provider names contain no colon. */
  datatype Key = Key(provider: string, alert: AlertType)

  datatype Condition = Condition(severity: Severity, detail: string)

  type Conditions = map<Key, Condition>

  datatype AlertStatus = Open | Acknowledged | Resolved

  datatype Alert = Alert(status: AlertStatus, severity: Severity, detail: string, firstDetectedAt: int, lastDetectedAt: int,
                         occurrences: nat, acknowledgedAt: Option<int>, acknowledgedBy: Option<string>, resolvedAt: Option<int>)

  type Alerts = map<Key, Alert>

  // ---------------------------------------------------------------------------------------
  // Conditions

  const DELIVERY_PROVIDER := "attribution_delivery"

  function AlertFor(state: Health): Option<(AlertType, Severity)>
  {
    match state
    case FailedProbe => Some((ProbeFailed, Critical))
    case Stale => Some((FreshnessStale, Critical))
    case NoData => Some((NoDataSeen, Warning))
    case Degraded => Some((ConfigurationIncomplete, Warning))
    case Healthy => None
    case Unconfigured => None
  }

  /** Observation `i` raises the condition under `k`. */
  predicate Raises(observations: seq<Observation>, i: nat, k: Key)
    requires i < |observations|
  {
    var o := observations[i];
    AlertFor(o.state).Some? && k == Key(o.provider, AlertFor(o.state).value.0)
  }

  /** The condition that the last observation raising `k` gives. */
  function RaisedBy(observations: seq<Observation>, k: Key): Option<Condition>
    decreases |observations|
  {
    if observations == [] then None
    else
      var n := |observations| - 1;
      if Raises(observations, n, k) then Some(Condition(AlertFor(observations[n].state).value.1, observations[n].detail))
      else RaisedBy(observations[..n], k)
  }

  const SIGNING_DETAIL := "Attribution receipt signing is not configured."

  const LETTER_DETAIL := "One or more delivery attempts require internal dead-letter review."

  function RetryDetail(retries: nat): string
  {
    Decimal(retries) + " bounded delivery retry attempt(s) remain pending at the producer."
  }

  /** What the conditions have to be for the given observations and delivery status. */
  function ConditionAt(observations: seq<Observation>, configured: bool, retries: nat, letters: nat, k: Key): Option<Condition>
  {
    if !configured && k == Key(DELIVERY_PROVIDER, SigningNotConfigured) then Some(Condition(Critical, SIGNING_DETAIL))
    else if retries > 0 && k == Key(DELIVERY_PROVIDER, RetryIsPending) then Some(Condition(Warning, RetryDetail(retries)))
    else if letters > 0 && k == Key(DELIVERY_PROVIDER, DeadLetterExists) then Some(Condition(Critical, LETTER_DETAIL))
    else RaisedBy(observations, k)
  }

  function Find(conditions: Conditions, k: Key): Option<Condition> { if k in conditions then Some(conditions[k]) else None }

  method ConditionAlerts(observations: seq<Observation>, configured: bool, retries: nat, letters: nat)
      returns (conditions: Conditions)
    ensures forall k :: Find(conditions, k) == ConditionAt(observations, configured, retries, letters, k)
  {
    conditions := map[];
    for i := 0 to |observations|
      invariant forall k :: Find(conditions, k) == RaisedBy(observations[..i], k)
    {
      ghost var before, longer := conditions, observations[..i + 1];
      assert longer[..i] == observations[..i] && longer[i] == observations[i];
      var o := observations[i];
      var found := AlertFor(o.state);
      if found.Some? {
        conditions := conditions[Key(o.provider, found.value.0) := Condition(found.value.1, o.detail)];
      }
      forall k ensures Find(conditions, k) == RaisedBy(longer, k) {
        assert Find(before, k) == RaisedBy(observations[..i], k);
        assert Raises(longer, i, k) <==> found.Some? && k == Key(o.provider, found.value.0);
      }
    }
    assert observations[..|observations|] == observations;
    if !configured {
      conditions := conditions[Key(DELIVERY_PROVIDER, SigningNotConfigured) := Condition(Critical, SIGNING_DETAIL)];
    }
    if retries > 0 {
      conditions := conditions[Key(DELIVERY_PROVIDER, RetryIsPending) := Condition(Warning, RetryDetail(retries))];
    }
    if letters > 0 {
      conditions := conditions[Key(DELIVERY_PROVIDER, DeadLetterExists) := Condition(Critical, LETTER_DETAIL)];
    }
  }

  // ---------------------------------------------------------------------------------------
  // Pending retries

  datatype Listed = Listed(attempt: Attempt, outcome: Delivered)

  predicate IsLatest(rows: seq<Listed>, i: nat)
    requires i < |rows|
  {
    forall j :: 0 <= j < |rows| && rows[j].attempt.delivery == rows[i].attempt.delivery ==>
      rows[j].attempt.number <= rows[i].attempt.number
  }

  /** The deliveries whose latest recorded attempt is waiting for a retry. */
  function PendingRetries(rows: seq<Listed>): set<string>
  {
    set i | 0 <= i < |rows| && IsLatest(rows, i) && rows[i].outcome == RetryPending :: rows[i].attempt.delivery
  }

  ghost predicate DistinctAttempts(rows: seq<Listed>)
  {
    forall i, j :: 0 <= i < j < |rows| ==> rows[i].attempt != rows[j].attempt
  }

  /** `latest` holds, for each delivery listed, the row with its highest attempt number. */
  ghost predicate LatestOf(latest: map<string, Listed>, rows: seq<Listed>)
  {
    && (forall i :: 0 <= i < |rows| ==>
         rows[i].attempt.delivery in latest && rows[i].attempt.number <= latest[rows[i].attempt.delivery].attempt.number)
    && (forall d :: d in latest ==> latest[d] in rows && latest[d].attempt.delivery == d)
  }

  /** `_unresolved_retry_count`. */
  method UnresolvedRetryCount(rows: seq<Listed>) returns (n: nat)
    requires DistinctAttempts(rows)
    ensures n == |PendingRetries(rows)|
  {
    var latest: map<string, Listed> := map[];
    for i := 0 to |rows|
      invariant LatestOf(latest, rows[..i])
    {
      var r := rows[i];
      assert rows[..i + 1] == rows[..i] + [r];
      if r.attempt.delivery !in latest || r.attempt.number > latest[r.attempt.delivery].attempt.number {
        latest := latest[r.attempt.delivery := r];
      }
    }
    assert rows[..|rows|] == rows;
    var pending := set d | d in latest && latest[d].outcome == RetryPending;
    LatestArePending(latest, rows, pending);
    n := |pending|;
  }

  lemma LatestArePending(latest: map<string, Listed>, rows: seq<Listed>, pending: set<string>)
    requires DistinctAttempts(rows) && LatestOf(latest, rows)
    requires pending == set d | d in latest && latest[d].outcome == RetryPending
    ensures pending == PendingRetries(rows)
  {
    forall d | d in pending ensures d in PendingRetries(rows) {
      var i :| 0 <= i < |rows| && rows[i] == latest[d];
      assert IsLatest(rows, i);
    }
    forall d | d in PendingRetries(rows) ensures d in pending {
      var i :| 0 <= i < |rows| && IsLatest(rows, i) && rows[i].outcome == RetryPending && rows[i].attempt.delivery == d;
      var j :| 0 <= j < |rows| && rows[j] == latest[d];
      assert rows[i].attempt == rows[j].attempt;
      assert i == j;
    }
  }

  // ---------------------------------------------------------------------------------------
  // Synchronisation

  datatype Change = Opened(key: Key) | Reopened(key: Key) | Closed(key: Key)

  function Raised(alerts: Alerts, k: Key, c: Condition, now: int): Alert
  {
    if k !in alerts then Alert(Open, c.severity, c.detail, now, now, 1, None, None, None)
    else if alerts[k].status == Resolved then
      Alert(Open, c.severity, c.detail, now, now, alerts[k].occurrences + 1, None, None, None)
    else alerts[k].(severity := c.severity, detail := c.detail, lastDetectedAt := now)
  }

  function Cleared(a: Alert, now: int): Alert
  {
    if a.status == Resolved then a else a.(status := Resolved, resolvedAt := Some(now), lastDetectedAt := now)
  }

  function Synced(alerts: Alerts, conditions: Conditions, now: int): Alerts
  {
    map k | k in alerts.Keys + conditions.Keys ::
      if k in conditions then Raised(alerts, k, conditions[k], now) else Cleared(alerts[k], now)
  }

  /** The changes of a synchronisation that are audited. */
  predicate IsChange(alerts: Alerts, conditions: Conditions, c: Change)
  {
    match c
    case Opened(k) => k in conditions && k !in alerts
    case Reopened(k) => k in conditions && k in alerts && alerts[k].status == Resolved
    case Closed(k) => k !in conditions && k in alerts && alerts[k].status != Resolved
  }

  ghost predicate ChangesAre(changes: set<Change>, alerts: Alerts, conditions: Conditions)
  {
    forall c :: c in changes <==> IsChange(alerts, conditions, c)
  }

  function Lookup(alerts: Alerts, k: Key): Option<Alert> { if k in alerts then Some(alerts[k]) else None }

  predicate Closes(alerts: Alerts, conditions: Conditions, k: Key)
  {
    k !in conditions && k in alerts && alerts[k].status != Resolved
  }

  /** The alert under `k` when all conditions but those still to do were raised. */
  function WithRaised(existing: Alerts, conditions: Conditions, now: int, todo: set<Key>, k: Key): Option<Alert>
  {
    if k in conditions && k !in todo then Some(Raised(existing, k, conditions[k], now)) else Lookup(existing, k)
  }

  /** The alert under `k` when all stale alerts but those still to do were closed. */
  function WithCleared(before: Alerts, existing: Alerts, conditions: Conditions, now: int, todo: set<Key>, k: Key): Option<Alert>
  {
    if Closes(existing, conditions, k) && k !in todo then Some(Cleared(existing[k], now)) else Lookup(before, k)
  }

  lemma ClearStep(start: Alerts, alerts: Alerts, existing: Alerts, conditions: Conditions, now: int, todo: set<Key>, k: Key)
    requires k in todo && k in existing && k !in conditions
    requires forall x :: Lookup(alerts, x) == WithCleared(start, existing, conditions, now, todo, x)
    ensures var after := if existing[k].status != Resolved then alerts[k := Cleared(existing[k], now)] else alerts;
      forall x :: Lookup(after, x) == WithCleared(start, existing, conditions, now, todo - {k}, x)
  {
    var after := if existing[k].status != Resolved then alerts[k := Cleared(existing[k], now)] else alerts;
    forall x ensures Lookup(after, x) == WithCleared(start, existing, conditions, now, todo - {k}, x) {
      assert Lookup(alerts, x) == WithCleared(start, existing, conditions, now, todo, x);
    }
  }

  class ProviderHealthService {
    var alerts: Alerts

    constructor ()
      ensures alerts == map[]
    {
      alerts := map[];
    }

    /** `_sync_alerts`: both loops look at the alerts as they were listed at the start. */
    method SyncAlerts(conditions: Conditions, now: int) returns (changes: set<Change>)
      modifies this
      ensures alerts == Synced(old(alerts), conditions, now)
      ensures ChangesAre(changes, old(alerts), conditions)
    {
      var existing := alerts;
      var raised := RaiseAll(existing, conditions, now);
      var closed := ClearRest(existing, conditions, now);
      changes := raised + closed;
      assert alerts == Synced(existing, conditions, now) by {
        forall k ensures Lookup(alerts, k) == Lookup(Synced(existing, conditions, now), k) {}
        SameAlerts(alerts, Synced(existing, conditions, now));
      }
    }

    /** Open, reopen or refresh an alert for each condition. */
    method RaiseAll(existing: Alerts, conditions: Conditions, now: int) returns (changes: set<Change>)
      requires alerts == existing
      modifies this
      ensures forall k :: Lookup(alerts, k) == WithRaised(existing, conditions, now, {}, k)
      ensures forall c :: c in changes <==> c.key in conditions && IsChange(existing, conditions, c)
    {
      changes := {};
      var todo := conditions.Keys;
      while todo != {}
        invariant todo <= conditions.Keys
        invariant forall k :: Lookup(alerts, k) == WithRaised(existing, conditions, now, todo, k)
        invariant forall c :: c in changes <==> c.key in conditions && c.key !in todo && IsChange(existing, conditions, c)
        decreases |todo|
      {
        ghost var before, undone := alerts, todo;
        var k :| k in todo;
        todo := todo - {k};
        if k !in existing {
          changes := changes + {Opened(k)};
        } else if existing[k].status == Resolved {
          changes := changes + {Reopened(k)};
        }
        alerts := alerts[k := Raised(existing, k, conditions[k], now)];
        forall x ensures Lookup(alerts, x) == WithRaised(existing, conditions, now, todo, x) {
          assert Lookup(before, x) == WithRaised(existing, conditions, now, undone, x);
        }
      }
    }

    /** Resolve every listed alert whose condition is gone. */
    method ClearRest(existing: Alerts, conditions: Conditions, now: int) returns (changes: set<Change>)
      modifies this
      ensures forall k :: Lookup(alerts, k) == WithCleared(old(alerts), existing, conditions, now, {}, k)
      ensures forall c :: c in changes <==> c.key !in conditions && IsChange(existing, conditions, c)
    {
      changes := {};
      var todo := existing.Keys - conditions.Keys;
      while todo != {}
        invariant todo <= existing.Keys - conditions.Keys
        invariant forall k :: Lookup(alerts, k) == WithCleared(old(alerts), existing, conditions, now, todo, k)
        invariant forall c :: c in changes <==> c.Closed? && Closes(existing, conditions, c.key) && c.key !in todo
        decreases |todo|
      {
        var k :| k in todo;
        ClearStep(old(alerts), alerts, existing, conditions, now, todo, k);
        todo := todo - {k};
        if existing[k].status != Resolved {
          changes := changes + {Closed(k)};
          alerts := alerts[k := Cleared(existing[k], now)];
        }
      }
    }

    /** None for an unknown or a resolved alert. */
    method Acknowledge(k: Key, actor: string, now: int) returns (r: Option<Alert>)
      modifies this
      ensures alerts == AcknowledgedIn(old(alerts), k, actor, now)
      ensures r == if k in old(alerts) && old(alerts)[k].status != Resolved then Some(alerts[k]) else None
    {
      if k !in alerts || alerts[k].status == Resolved { return None; }
      if alerts[k].status == Acknowledged { return Some(alerts[k]); }
      alerts := alerts[k := alerts[k].(status := Acknowledged, acknowledgedAt := Some(now), acknowledgedBy := Some(actor))];
      r := Some(alerts[k]);
    }
  }

  function AcknowledgedIn(alerts: Alerts, k: Key, actor: string, now: int): Alerts
  {
    if k in alerts && alerts[k].status == Open then
      alerts[k := alerts[k].(status := Acknowledged, acknowledgedAt := Some(now), acknowledgedBy := Some(actor))]
    else alerts
  }

  lemma SameAlerts(a: Alerts, b: Alerts)
    requires forall k :: Lookup(a, k) == Lookup(b, k)
    ensures a == b
  {
    forall k ensures k in a <==> k in b { assert Lookup(a, k) == Lookup(b, k); }
    forall k | k in a ensures a[k] == b[k] { assert Lookup(a, k) == Lookup(b, k); }
  }
}
