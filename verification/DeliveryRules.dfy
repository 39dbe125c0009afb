/** The rules of a delivery, spelled out: what is refused and why, what an answer says and leaves
    behind, how long a producer has to wait, and which keys verify. */
module DeliveryRules {
  import opened Attribution
  import opened AttributionLedger
  import opened Delivery
  import opened DeliveryRuns
  import opened Wrappers

  /** The service is in order: a signing key of 32 characters or more, a key id, and a budget from one
      to ten attempts. */
  predicate InOrder(c: Config) { |c.signingKey| > 31 && |c.keyId| > 0 && 1 <= c.maxAttempts <= 10 }

  predicate Admissible(c: Config, p: Submission) { InOrder(c) && p.maxAttempts <= c.maxAttempts }

  /** Which of the events of a first envelope have times that cannot be compared: both kinds occur
      among those that name one Campaign each. */
  ghost predicate Incomparable(book: State, p: Submission)
  {
    && p.Envelope?
    && exists i, j :: 0 <= i < |p.events| && 0 <= j < |p.events|
                      && Clear(book, p.events[i]) && Clear(book, p.events[j]) && p.events[i].zoned && !p.events[j].zoned
  }

  lemma EffectiveIff(c: Config, s: Deliveries, p: Submission)
    requires ValidSubmission(p)
    ensures Effective(c, s, p) <==> Admissible(c, p) && p.attempt !in s.receipts
  {
  }

  /** A payload of the prescribed form: an attempt of at most ten, in an envelope with one to five
      hundred events of its own source. */
  ghost predicate Proper(p: Submission)
  {
    && 1 <= p.attempt.number <= 10 && 1 <= p.maxAttempts <= 10 && p.attempt.number <= p.maxAttempts
    && (p.Envelope? ==> 1 <= |p.events| <= 500 && forall i :: 0 <= i < |p.events| ==> p.events[i].source == p.source)
  }

  /** Every call is refused for exactly one of these reasons, or answered. */
  lemma ReplyIff(c: Config, s: Deliveries, p: Submission, now: int)
    requires Proper(p)
    ensures var reply := Handle(c, s, p, now).0;
      if !InOrder(c) then reply == Refused(NotConfigured)
      else if p.maxAttempts > c.maxAttempts then reply == Refused(OverBudget)
      else if p.attempt in s.receipts then
        if s.receipts[p.attempt].body.digest == p then reply == Answer(s.receipts[p.attempt]) else reply == Refused(ChangedPayload)
      else if Incomparable(s.book, p) then reply == Refused(IncomparableTimes)
      else if |c.keyId| < 3 || |c.keyId| > 80 then reply == Refused(UnusableKeyId)
      else reply.Answer?
  {
    if Admissible(c, p) && p.attempt !in s.receipts { NewReplyIff(c, s, p, now); }
  }

  lemma NewReplyIff(c: Config, s: Deliveries, p: Submission, now: int)
    requires ValidSubmission(p) && Admissible(c, p) && p.attempt !in s.receipts
    ensures var reply := Handle(c, s, p, now).0;
      if Incomparable(s.book, p) then reply == Refused(IncomparableTimes)
      else if |c.keyId| < 3 || |c.keyId| > 80 then reply == Refused(UnusableKeyId)
      else reply.Answer?
  {
    EffectiveIff(c, s, p);
    if p.Envelope? {
      FirstIsBooked(c, s, p, now);
      MixedTimesIff(s.book, p.events, now);
      BookedReply(c, s, p, IngestBatch(s.book, p.events, now), now);
    }
  }

  lemma BookedReply(c: Config, s: Deliveries, p: Submission, x: Intake, now: int)
    requires p.Envelope?
    ensures var reply := Booked(c, s, p, x, now).0;
      if Mixed(x) then reply == Refused(IncomparableTimes)
      else if |c.keyId| < 3 || |c.keyId| > 80 then reply == Refused(UnusableKeyId)
      else reply.Answer?
  {
  }

  // ---------------------------------------------------------------------------------------
  // What an answer says and leaves behind

  /** The receipt of a first submission: of this payload, received now, signed under the service's
      key, with the counts of the intake, or with the time from which to try again. */
  ghost predicate ReceiptSays(c: Config, s: Deliveries, p: Submission, now: int, r: Receipt)
    requires p.attempt.number >= 1
  {
    && r.body.digest == p && r.body.receivedAt == now && r.body.keyId == c.keyId
    && r.signature == Hmac(c.signingKey, r.body)
    && (p.Envelope? ==>
          && r.body.counts == SnapshotOf(s.book, p.events, now) && r.body.nextRetryAt == None
          && r.body.outcome == if r.body.counts.unknown + r.body.counts.conflicts > 0 then Partial else Accepted)
    && (p.Failure? ==>
          && r.body.counts == Snapshot(0, 0, 0, 0, 0, 0)
          && (if p.attempt.number == p.maxAttempts then r.body.outcome == DeadLettered && r.body.nextRetryAt == None
              else r.body.outcome == RetryPending && r.body.nextRetryAt == Some(now + Wait(p.attempt.number))))
  }

  /** The store after the answer to a first submission: its receipt, its rows or the dead letter of a
      last failure, and one line of audit. */
  ghost predicate Leaves(s: Deliveries, p: Submission, now: int, r: Receipt, after: Deliveries)
  {
    && after.receipts == s.receipts[p.attempt := r]
    && after.audits == s.audits + [if p.Envelope? then Received(p.attempt) else FailureRecorded(p.attempt)]
    && after.book == (if p.Envelope? then IngestAll(s.book, p.events, now) else s.book)
    && (if p.Failure? && p.attempt.number == p.maxAttempts && LetterId(p.attempt, p.error) !in s.letters
        then after.letters == s.letters[LetterId(p.attempt, p.error) := DeadLetter(p, p.error, now)]
        else after.letters == s.letters)
  }

  lemma AnswerSays(c: Config, s: Deliveries, p: Submission, now: int)
    requires Proper(p) && p.attempt !in s.receipts && Handle(c, s, p, now).0.Answer?
    ensures var (reply, after) := Handle(c, s, p, now);
      ReceiptSays(c, s, p, now, reply.receipt) && Leaves(s, p, now, reply.receipt, after)
  {
    if p.Envelope? { EnvelopeAnswer(c, s, p, now); } else { FailureAnswer(c, s, p, now); }
  }

  lemma EnvelopeAnswer(c: Config, s: Deliveries, p: Submission, now: int)
    requires ValidSubmission(p) && p.Envelope? && p.attempt !in s.receipts && Handle(c, s, p, now).0.Answer?
    ensures var (reply, after) := Handle(c, s, p, now);
      ReceiptSays(c, s, p, now, reply.receipt) && Leaves(s, p, now, reply.receipt, after)
  {
    EffectiveIff(c, s, p);
    FirstIsBooked(c, s, p, now);
    BookedSays(c, s, p, IngestBatch(s.book, p.events, now), now);
  }

  lemma BookedSays(c: Config, s: Deliveries, p: Submission, x: Intake, now: int)
    requires ValidSubmission(p) && p.Envelope? && x == IngestBatch(s.book, p.events, now) && Booked(c, s, p, x, now).0.Answer?
    ensures var (reply, after) := Booked(c, s, p, x, now);
      ReceiptSays(c, s, p, now, reply.receipt) && Leaves(s, p, now, reply.receipt, after)
  {
  }

  lemma FailureAnswer(c: Config, s: Deliveries, p: Submission, now: int)
    requires ValidSubmission(p) && p.Failure? && p.attempt !in s.receipts && Handle(c, s, p, now).0.Answer?
    ensures var (reply, after) := Handle(c, s, p, now);
      ReceiptSays(c, s, p, now, reply.receipt) && Leaves(s, p, now, reply.receipt, after)
  {
    WaitIsDelay(p.attempt.number);
  }

  // ---------------------------------------------------------------------------------------
  // Keys

  /** The keys of the service: the historical ones and the active one, if it is long enough; there
      are none if the active key id is among the historical ones. */
  lemma KeyringIff(historical: map<string, string>, c: Config, id: string)
    ensures Keyring(historical, c).None? <==> c.keyId in historical
    ensures Keyring(historical, c).Some? ==>
      var keys := Keyring(historical, c).value;
      && (id in keys <==> id in historical || (id == c.keyId && |id| > 0 && |c.signingKey| > 31))
      && (id in keys ==> keys[id] == if id in historical then historical[id] else c.signingKey)
  {
  }
}
