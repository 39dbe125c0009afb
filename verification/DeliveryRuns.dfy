/** What holds of deliveries over every sequence of calls. */
module DeliveryRuns {
  import opened Attribution
  import opened AttributionLedger
  import opened Delivery
  import opened Wrappers

  datatype Call = Call(payload: Submission, now: int)

  /** A payload that fails its own validation never reaches the service. */
  function Apply(c: Config, s: Deliveries, call: Call): Deliveries
  {
    if ValidSubmission(call.payload) then Handle(c, s, call.payload, call.now).1 else s
  }

  function After(c: Config, s: Deliveries, calls: seq<Call>): Deliveries
    decreases |calls|
  {
    if calls == [] then s else Apply(c, After(c, s, calls[..|calls| - 1]), calls[|calls| - 1])
  }

  /** Nothing is ingested or saved for a call unless it is the first valid one of its attempt. */
  predicate Effective(c: Config, s: Deliveries, p: Submission)
  {
    ValidSubmission(p) && Configured(c) && BudgetRefusal(c, p).None? && p.attempt !in s.receipts
  }

  /** A first envelope is ingested and then booked. */
  lemma FirstIsBooked(c: Config, s: Deliveries, p: Submission, now: int)
    requires Effective(c, s, p) && p.Envelope?
    ensures Handle(c, s, p, now) == Booked(c, s, p, IngestBatch(s.book, p.events, now), now)
  {
  }

  lemma BookedReceipt(c: Config, s: Deliveries, p: Submission, x: Intake, now: int)
    requires p.Envelope? && !Mixed(x) && UsableKeyId(c)
    ensures var t := Booked(c, s, p, x, now).1;
      t.receipts == s.receipts[p.attempt := Signed(c, EnvelopeBody(c, x.counts, p, now))] && t.book == x.state
  {
  }

  lemma BookedFails(c: Config, s: Deliveries, p: Submission, x: Intake, now: int)
    requires p.Envelope? && (Mixed(x) || !UsableKeyId(c))
    ensures Booked(c, s, p, x, now) == (Refused(if Mixed(x) then IncomparableTimes else UnusableKeyId), s.(book := x.state))
  {
  }

  // ---------------------------------------------------------------------------------------
  // Receipts stay

  lemma CallKeepsReceipts(c: Config, s: Deliveries, call: Call, a: Attempt)
    requires a in s.receipts
    ensures a in Apply(c, s, call).receipts && Apply(c, s, call).receipts[a] == s.receipts[a]
  {
  }

  /** A receipt, once given, is what every later state holds for its attempt. */
  lemma {:induction false} ReceiptsAreImmutable(c: Config, s: Deliveries, calls: seq<Call>, a: Attempt)
    requires a in s.receipts
    ensures a in After(c, s, calls).receipts && After(c, s, calls).receipts[a] == s.receipts[a]
    decreases |calls|
  {
    if calls != [] {
      ReceiptsAreImmutable(c, s, calls[..|calls| - 1], a);
      CallKeepsReceipts(c, After(c, s, calls[..|calls| - 1]), calls[|calls| - 1], a);
    }
  }

  /** At most once: after a submission was answered, and after any further calls, sending it again
      is answered by the same receipt and changes nothing; sending anything else for the attempt is
      refused and leaves receipts and ledger alone, adding at most the conflict's dead letter. */
  lemma AtMostOnce(c: Config, s: Deliveries, p: Submission, now: int, calls: seq<Call>, q: Submission, later: int)
    requires ValidSubmission(p) && Handle(c, s, p, now).0.Answer?
    requires ValidSubmission(q) && q.attempt == p.attempt && BudgetRefusal(c, q).None?
    ensures var t := After(c, Handle(c, s, p, now).1, calls);
      if q == p then Handle(c, t, q, later) == (Handle(c, s, p, now).0, t)
      else ConflictOnly(t, q, later, Handle(c, t, q, later))
  {
    AnswerIsStored(c, s, p, now);
    var first := Handle(c, s, p, now).1;
    ReceiptsAreImmutable(c, first, calls, p.attempt);
    KnownAttempt(c, After(c, first, calls), q, later);
  }

  lemma KnownAttempt(c: Config, t: Deliveries, q: Submission, later: int)
    requires ValidSubmission(q) && Configured(c) && BudgetRefusal(c, q).None? && q.attempt in t.receipts
    ensures if t.receipts[q.attempt].body.digest == q then Handle(c, t, q, later) == (Answer(t.receipts[q.attempt]), t)
            else ConflictOnly(t, q, later, Handle(c, t, q, later))
  {
  }

  ghost predicate ConflictOnly(t: Deliveries, q: Submission, now: int, result: (Reply, Deliveries))
  {
    var (reply, after) := result;
    var id := LetterId(q.attempt, IntegrityConflict);
    && reply == Refused(ChangedPayload)
    && after.book == t.book && after.receipts == t.receipts && after.audits == t.audits + [Conflicted(q.attempt)]
    && id in after.letters
    && (forall x :: x in t.letters ==> x in after.letters && after.letters[x] == t.letters[x])
    && (forall x :: x in after.letters ==> x in t.letters || (x == id && after.letters[x] == DeadLetter(q, IntegrityConflict, now)))
  }

  lemma AnswerIsStored(c: Config, s: Deliveries, p: Submission, now: int)
    requires ValidSubmission(p) && Handle(c, s, p, now).0.Answer?
    ensures Configured(c) && BudgetRefusal(c, p).None?
    ensures var (reply, after) := Handle(c, s, p, now);
      p.attempt in after.receipts && after.receipts[p.attempt] == reply.receipt && reply.receipt.body.digest == p
  {
  }

  // ---------------------------------------------------------------------------------------
  // Ledger growth

  type Receipts = map<Attempt, Receipt>

  /** The rows that the receipts account for. */
  ghost function Inserted(receipts: Receipts): nat
    decreases |receipts|
  {
    if receipts == map[] then 0
    else var a :| a in receipts; receipts[a].body.counts.inserted + Inserted(receipts - {a})
  }

  lemma {:induction false} InsertedWithout(receipts: Receipts, a: Attempt)
    requires a in receipts
    ensures Inserted(receipts) == receipts[a].body.counts.inserted + Inserted(receipts - {a})
    decreases |receipts|
  {
    var b :| b in receipts && Inserted(receipts) == receipts[b].body.counts.inserted + Inserted(receipts - {b});
    if b != a {
      InsertedWithout(receipts - {b}, a);
      InsertedWithout(receipts - {a}, b);
      assert receipts - {a} - {b} == receipts - {b} - {a};
    }
  }

  lemma InsertedOfNew(receipts: Receipts, a: Attempt, r: Receipt)
    requires a !in receipts
    ensures Inserted(receipts[a := r]) == Inserted(receipts) + r.body.counts.inserted
  {
    InsertedWithout(receipts[a := r], a);
    assert receipts[a := r] - {a} == receipts;
  }

  /** The receipt of an envelope can be built: its key id fits and the batch has a latest time. */
  predicate Receiptable(c: Config, s: Deliveries, p: Submission, now: int)
    requires p.Envelope?
  {
    UsableKeyId(c) && !MixedTimes(s.book, p.events, now)
  }

  /** The first submission of an attempt is accounted for in the receipts exactly if its receipt can
      be built or it inserted nothing: with a key id too short or too long for a receipt, or with
      zoned beside unzoned times, rows are appended to the ledger before the call fails. */
  lemma GrowthIsAccountedIff(c: Config, s: Deliveries, p: Submission, now: int)
    requires Effective(c, s, p)
    ensures var t := Handle(c, s, p, now).1;
      |t.book.ledger| - |s.book.ledger| == Inserted(t.receipts) - Inserted(s.receipts)
      <==> p.Failure? || Receiptable(c, s, p, now) || SnapshotOf(s.book, p.events, now).inserted == 0
  {
    var call := Call(p, now);
    CallIsAccounted(c, s, call);
  }

  /** The rows that a call appends without a receipt. */
  function Unreceipted(c: Config, s: Deliveries, call: Call): nat
  {
    var p := call.payload;
    if Effective(c, s, p) && p.Envelope? && !Receiptable(c, s, p, call.now) then SnapshotOf(s.book, p.events, call.now).inserted
    else 0
  }

  lemma EnvelopeIsAccounted(c: Config, s: Deliveries, p: Submission, now: int)
    requires Effective(c, s, p) && p.Envelope?
    ensures var t := Handle(c, s, p, now).1;
      |t.book.ledger| - |s.book.ledger|
        == Inserted(t.receipts) - Inserted(s.receipts) + Unreceipted(c, s, Call(p, now))
  {
    var x := IngestBatch(s.book, p.events, now);
    BatchAccounting(s.book, p.events, now);
    FirstIsBooked(c, s, p, now);
    if Receiptable(c, s, p, now) {
      BookedReceipt(c, s, p, x, now);
      InsertedOfNew(s.receipts, p.attempt, Signed(c, EnvelopeBody(c, x.counts, p, now)));
    } else {
      BookedFails(c, s, p, x, now);
    }
  }

  lemma FailureIsAccounted(c: Config, s: Deliveries, p: Submission, now: int)
    requires Effective(c, s, p) && p.Failure?
    ensures var t := Handle(c, s, p, now).1;
      t.book == s.book && Inserted(t.receipts) == Inserted(s.receipts)
  {
    if UsableKeyId(c) {
      InsertedOfNew(s.receipts, p.attempt, Handle(c, s, p, now).0.receipt);
    }
  }

  lemma CallIsAccounted(c: Config, s: Deliveries, call: Call)
    ensures var t := Apply(c, s, call);
      |t.book.ledger| - |s.book.ledger| == Inserted(t.receipts) - Inserted(s.receipts) + Unreceipted(c, s, call)
  {
    if Effective(c, s, call.payload) {
      if call.payload.Envelope? {
        EnvelopeIsAccounted(c, s, call.payload, call.now);
      } else {
        FailureIsAccounted(c, s, call.payload, call.now);
      }
    }
  }

  /** What call `i` of a run appends without a receipt. */
  function UnreceiptedAt(c: Config, s: Deliveries, calls: seq<Call>, i: nat): nat
    requires i < |calls|
  {
    Unreceipted(c, After(c, s, calls[..i]), calls[i])
  }

  function Total(counts: seq<nat>): nat
    decreases |counts|
  {
    if counts == [] then 0 else Total(counts[..|counts| - 1]) + counts[|counts| - 1]
  }

  lemma TotalSnoc(counts: seq<nat>, n: nat)
    ensures Total(counts + [n]) == Total(counts) + n
  {
    assert (counts + [n])[..|counts|] == counts;
  }

  lemma {:induction false} TotalIsZeroIff(counts: seq<nat>)
    ensures Total(counts) == 0 <==> forall i :: 0 <= i < |counts| ==> counts[i] == 0
    decreases |counts|
  {
    if counts != [] {
      var front := counts[..|counts| - 1];
      TotalIsZeroIff(front);
      assert forall i :: 0 <= i < |front| ==> front[i] == counts[i];
    }
  }

  function UnreceiptedCounts(c: Config, s: Deliveries, calls: seq<Call>): (counts: seq<nat>)
    ensures |counts| == |calls| && forall i: nat :: i < |calls| ==> counts[i] == UnreceiptedAt(c, s, calls, i)
  {
    seq(|calls|, i requires 0 <= i < |calls| => UnreceiptedAt(c, s, calls, i))
  }

  function AllUnreceipted(c: Config, s: Deliveries, calls: seq<Call>): nat { Total(UnreceiptedCounts(c, s, calls)) }

  lemma UnreceiptedInFront(c: Config, s: Deliveries, calls: seq<Call>, n: nat, i: nat)
    requires i < n <= |calls|
    ensures UnreceiptedAt(c, s, calls[..n], i) == UnreceiptedAt(c, s, calls, i)
  {
    assert calls[..n][..i] == calls[..i];
  }

  lemma TotalOfFront(counts: seq<nat>, front: seq<nat>)
    requires |counts| == |front| + 1 && forall i :: 0 <= i < |front| ==> front[i] == counts[i]
    ensures Total(counts) == Total(front) + counts[|front|]
  {
    assert counts == front + [counts[|front|]];
    TotalSnoc(front, counts[|front|]);
  }

  lemma CountInFront(c: Config, s: Deliveries, calls: seq<Call>, n: nat, i: nat)
    requires i < n <= |calls|
    ensures UnreceiptedCounts(c, s, calls[..n])[i] == UnreceiptedCounts(c, s, calls)[i]
  {
    UnreceiptedInFront(c, s, calls, n, i);
  }

  lemma CountsSnoc(c: Config, s: Deliveries, calls: seq<Call>)
    requires calls != []
    ensures var n := |calls| - 1;
      AllUnreceipted(c, s, calls) == AllUnreceipted(c, s, calls[..n]) + UnreceiptedAt(c, s, calls, n)
  {
    var n := |calls| - 1;
    forall i: nat | i < n ensures UnreceiptedCounts(c, s, calls[..n])[i] == UnreceiptedCounts(c, s, calls)[i] {
      CountInFront(c, s, calls, n, i);
    }
    TotalOfFront(UnreceiptedCounts(c, s, calls), UnreceiptedCounts(c, s, calls[..n]));
  }

  /** Over every sequence of deliveries, whatever the configuration: the ledger grows by what the
      receipts say was inserted, plus the rows of the envelopes whose receipt could not be built. */
  lemma {:induction false} LedgerGrowthIsReceipted(c: Config, s: Deliveries, calls: seq<Call>)
    ensures var t := After(c, s, calls);
      |t.book.ledger| - |s.book.ledger| == Inserted(t.receipts) - Inserted(s.receipts) + AllUnreceipted(c, s, calls)
    decreases |calls|
  {
    if calls != [] {
      LedgerGrowthIsReceipted(c, s, calls[..|calls| - 1]);
      CallIsAccounted(c, After(c, s, calls[..|calls| - 1]), calls[|calls| - 1]);
      CountsSnoc(c, s, calls);
    }
  }

  /** The receipts of a run account for the whole growth of the ledger exactly if no call of the run
      inserted rows for an envelope whose receipt could not be built. */
  lemma RunIsReceiptedIff(c: Config, s: Deliveries, calls: seq<Call>)
    ensures var t := After(c, s, calls);
      |t.book.ledger| - |s.book.ledger| == Inserted(t.receipts) - Inserted(s.receipts)
      <==> forall i: nat :: i < |calls| ==> UnreceiptedAt(c, s, calls, i) == 0
  {
    LedgerGrowthIsReceipted(c, s, calls);
    TotalIsZeroIff(UnreceiptedCounts(c, s, calls));
  }

  // The two ways to lose a receipt.

  const CAMPAIGN := "CMP-NPD-LAUNCH-202601-01"

  function FirstEvent(): SourceEvent
  {
    SourceEvent("event-1", Utm, Identity(None, None, None, None, None, None), Some(CAMPAIGN), 0, true, Some("lead-1"), None, "")
  }

  function SecondEvent(): SourceEvent { FirstEvent().(ref := "event-2", zoned := false) }

  function OneCampaign(): Deliveries { Deliveries(State(map[CAMPAIGN := "launch"], [], map[], map[]), map[], map[], []) }

  function EnvelopeOf(events: seq<SourceEvent>): Submission { Envelope(Attempt("delivery-1", 1), "crm", Utm, 4, "", events) }

  /** The call is refused, with `rows` more rows in the ledger and no receipt for them. */
  ghost predicate LosesReceipt(c: Config, s: Deliveries, p: Submission, why: Refusal, rows: nat)
    requires ValidSubmission(p)
  {
    var (reply, t) := Handle(c, s, p, 0);
    reply == Refused(why) && |t.book.ledger| == |s.book.ledger| + rows && t.receipts == s.receipts
  }

  predicate NamesCampaign(s: State, e: SourceEvent)
  {
    s.registry == [] && !Present(e.identity.utm) && Present(e.canonical) && e.canonical.value in s.campaigns
  }

  lemma NamesItsCampaign(s: State, e: SourceEvent)
    requires NamesCampaign(s, e)
    ensures Clear(s, e)
    ensures IdOf(e) !in s.ledger ==> VerdictOf(s, e) == Verdict.Inserted
  {
    assert RegistryMatches(s, e) == {};
    assert Resolve(s, e).campaigns == {e.canonical.value};
  }

  lemma OneInserted(s: State, e: SourceEvent, now: int)
    requires NamesCampaign(s, e) && IdOf(e) !in s.ledger
    ensures var t := IngestOne(s, e, now);
      && |t.ledger| == |s.ledger| + 1 && t.campaigns == s.campaigns && t.registry == s.registry
      && forall id :: id in t.ledger ==> id in s.ledger || id == IdOf(e)
  {
    NamesItsCampaign(s, e);
    StepContext(s, e, now);
    StepLedger(s, e, now);
  }

  /** Each event names its Campaign, and no two have one id. */
  ghost predicate AllNew(s: State, events: seq<SourceEvent>)
  {
    && (forall i :: 0 <= i < |events| ==> NamesCampaign(s, events[i]) && IdOf(events[i]) !in s.ledger)
    && (forall i, j :: 0 <= i < j < |events| ==> IdOf(events[i]) != IdOf(events[j]))
  }

  ghost predicate AllStored(s: State, events: seq<SourceEvent>, t: State)
  {
    && |t.ledger| == |s.ledger| + |events| && t.campaigns == s.campaigns && t.registry == s.registry
    && (forall id :: id in t.ledger ==> id in s.ledger || exists i :: 0 <= i < |events| && IdOf(events[i]) == id)
  }

  lemma StoredSnoc(s: State, front: seq<SourceEvent>, e: SourceEvent, t: State, now: int)
    requires AllNew(s, front + [e]) && AllStored(s, front, t)
    ensures AllStored(s, front + [e], IngestOne(t, e, now))
  {
    var events := front + [e];
    assert events[|front|] == e && forall i :: 0 <= i < |front| ==> events[i] == front[i];
    OneInserted(t, e, now);
    forall id | id in IngestOne(t, e, now).ledger
      ensures id in s.ledger || exists i :: 0 <= i < |events| && IdOf(events[i]) == id
    {
      if id == IdOf(e) {
        assert IdOf(events[|front|]) == id;
      } else if id !in s.ledger {
        var i :| 0 <= i < |front| && IdOf(front[i]) == id;
        assert IdOf(events[i]) == id;
      }
    }
  }

  lemma {:induction false} AllInserted(s: State, events: seq<SourceEvent>, now: int)
    requires AllNew(s, events)
    ensures AllStored(s, events, IngestAll(s, events, now))
    decreases |events|
  {
    if events != [] {
      var n := |events| - 1;
      assert events == events[..n] + [events[n]] && events[..n + 1] == events;
      assert AllNew(s, events[..n]);
      AllInserted(s, events[..n], now);
      StoredSnoc(s, events[..n], events[n], IngestAll(s, events[..n], now), now);
      SnapshotSnoc(s, events, n, now);
    }
  }

  /** A zoned and an unzoned event, each naming its Campaign, for an empty ledger. */
  predicate ZonedPair(s: State, events: seq<SourceEvent>)
  {
    && |events| == 2 && events[0].zoned && !events[1].zoned && IdOf(events[0]) != IdOf(events[1])
    && NamesCampaign(s, events[0]) && NamesCampaign(s, events[1]) && s.ledger == map[]
  }

  lemma FailsAfterIntake(c: Config, s: Deliveries, p: Submission, rows: nat)
    requires Effective(c, s, p) && p.Envelope? && !Receiptable(c, s, p, 0)
    requires |IngestAll(s.book, p.events, 0).ledger| == |s.book.ledger| + rows
    ensures LosesReceipt(c, s, p, if MixedTimes(s.book, p.events, 0) then IncomparableTimes else UnusableKeyId, rows)
  {
    FirstIsBooked(c, s, p, 0);
    BookedFails(c, s, p, IngestBatch(s.book, p.events, 0), 0);
  }

  lemma OneLosesReceipt(c: Config, s: Deliveries, p: Submission, e: SourceEvent)
    requires Effective(c, s, p) && !UsableKeyId(c) && p.Envelope? && p.events == [e]
    requires NamesCampaign(s.book, e) && s.book.ledger == map[]
    ensures LosesReceipt(c, s, p, UnusableKeyId, 1)
  {
    NamesItsCampaign(s.book, e);
    SingleEvent(s.book, e, 0);
    StepLedger(s.book, e, 0);
    OneTime(s.book, e, 0);
    FailsAfterIntake(c, s, p, 1);
  }

  lemma PairIsMixed(s: State, events: seq<SourceEvent>, now: int)
    requires ZonedPair(s, events)
    ensures MixedTimes(s, events, now)
  {
    NamesItsCampaign(s, events[0]);
    NamesItsCampaign(s, events[1]);
    MixedTimesIff(s, events, now);
  }

  lemma PairIsStored(s: State, events: seq<SourceEvent>, now: int)
    requires ZonedPair(s, events)
    ensures |IngestAll(s, events, now).ledger| == |s.ledger| + 2
  {
    assert AllNew(s, events);
    AllInserted(s, events, now);
  }

  lemma TwoLoseReceipt(c: Config, s: Deliveries, p: Submission)
    requires Effective(c, s, p) && p.Envelope? && ZonedPair(s.book, p.events)
    ensures LosesReceipt(c, s, p, IncomparableTimes, 2)
  {
    PairIsMixed(s.book, p.events, 0);
    PairIsStored(s.book, p.events, 0);
    FailsAfterIntake(c, s, p, 2);
  }

  /** A key id of two characters is enough to be configured and too short for a receipt. */
  lemma ShortKeyIdLosesReceipt()
    ensures ValidSubmission(EnvelopeOf([FirstEvent()]))
    ensures LosesReceipt(Config("0123456789abcdef0123456789abcdef", "k1", 4), OneCampaign(), EnvelopeOf([FirstEvent()]),
                         UnusableKeyId, 1)
  {
    OneLosesReceipt(Config("0123456789abcdef0123456789abcdef", "k1", 4), OneCampaign(), EnvelopeOf([FirstEvent()]), FirstEvent());
  }

  /** One event with a zoned and one with an unzoned time: both are stored and the call fails,
      however well the service is configured. */
  lemma MixedTimesLoseReceipt(c: Config)
    requires Configured(c) && UsableKeyId(c) && 4 <= c.maxAttempts <= 10
    ensures ValidSubmission(EnvelopeOf([FirstEvent(), SecondEvent()]))
    ensures LosesReceipt(c, OneCampaign(), EnvelopeOf([FirstEvent(), SecondEvent()]), IncomparableTimes, 2)
  {
    TwoLoseReceipt(c, OneCampaign(), EnvelopeOf([FirstEvent(), SecondEvent()]));
  }

  // ---------------------------------------------------------------------------------------
  // The same events in another attempt

  lemma BookAfter(c: Config, s: Deliveries, call: Call)
    ensures Apply(c, s, call).book
      == if Effective(c, s, call.payload) && call.payload.Envelope? then IngestAll(s.book, call.payload.events, call.now) else s.book
  {
    var p := call.payload;
    if Effective(c, s, p) && p.Envelope? {
      FirstIsBooked(c, s, p, call.now);
      BookedState(c, s, p, IngestBatch(s.book, p.events, call.now), call.now);
    } else {
      OthersKeepBook(c, s, call);
    }
  }

  lemma OthersKeepBook(c: Config, s: Deliveries, call: Call)
    requires !(Effective(c, s, call.payload) && call.payload.Envelope?)
    ensures Apply(c, s, call).book == s.book
  {
  }

  lemma BookedState(c: Config, s: Deliveries, p: Submission, x: Intake, now: int)
    requires p.Envelope?
    ensures Booked(c, s, p, x, now).1.book == x.state
  {
  }

  lemma CallKeepsBook(c: Config, s: Deliveries, call: Call)
    ensures var t := Apply(c, s, call); SameContext(s.book, t.book) && LedgerGrows(s.book.ledger, t.book.ledger)
  {
    BookAfter(c, s, call);
    if call.payload.Envelope? { BatchOnlyGrows(s.book, call.payload.events, call.now); }
  }

  lemma BatchOnlyGrows(book: State, events: seq<SourceEvent>, now: int)
    ensures SameContext(book, IngestAll(book, events, now)) && LedgerGrows(book.ledger, IngestAll(book, events, now).ledger)
  {
    BatchKeepsContext(book, events, now);
    BatchAccounting(book, events, now);
  }

  lemma {:induction false} CallsKeepBook(c: Config, s: Deliveries, calls: seq<Call>)
    ensures var t := After(c, s, calls); SameContext(s.book, t.book) && LedgerGrows(s.book.ledger, t.book.ledger)
    decreases |calls|
  {
    if calls != [] {
      var t := After(c, s, calls[..|calls| - 1]);
      CallsKeepBook(c, s, calls[..|calls| - 1]);
      CallKeepsBook(c, t, calls[|calls| - 1]);
      GrowsTransitively(s.book.ledger, t.book.ledger, After(c, s, calls).book.ledger);
    }
  }

  /** Effects are at most once across attempts too: when events that were delivered once come again
      in a later attempt, whatever deliveries happened in between, that attempt inserts nothing and
      its receipt counts as duplicates what the first one inserted. */
  lemma RedeliveredEventsInsertNothing(c: Config, s: Deliveries, p: Submission, now: int, calls: seq<Call>,
                                       q: Submission, later: int)
    requires p.Envelope? && q.Envelope? && q.events == p.events
    requires Effective(c, s, p) && Handle(c, s, p, now).0.Answer? && Effective(c, After(c, Handle(c, s, p, now).1, calls), q)
    ensures var t := After(c, Handle(c, s, p, now).1, calls); var (reply, after) := Handle(c, t, q, later);
      && after.book.ledger == t.book.ledger && reply.Answer?
      && reply.receipt.body.counts == Again(Handle(c, s, p, now).0.receipt.body.counts)
  {
    var first := Handle(c, s, p, now).1;
    assert first.book == IngestAll(s.book, p.events, now);
    CallsKeepBook(c, first, calls);
    var t := After(c, first, calls);
    ReingestIsIdempotent(s.book, p.events, now, t.book, later);
    BatchKeepsContext(s.book, p.events, now);
    MixedTimesStay(s.book, t.book, p.events, now, later);
  }

  lemma MixedTimesStay(a: State, b: State, events: seq<SourceEvent>, now: int, later: int)
    requires SameContext(a, b)
    ensures MixedTimes(a, events, now) <==> MixedTimes(b, events, later)
  {
    MixedTimesIff(a, events, now);
    MixedTimesIff(b, events, later);
    forall i | 0 <= i < |events| ensures Clear(a, events[i]) <==> Clear(b, events[i]) { SameResolution(a, b, events[i]); }
  }

  // ---------------------------------------------------------------------------------------
  // Receipts, dead letters and retries

  /** What the receipt of an attempt says, and the dead letter that goes with it. */
  ghost predicate ReceiptSound(c: Config, s: Deliveries, a: Attempt)
    requires a in s.receipts
  {
    var b := s.receipts[a].body;
    && s.receipts[a].signature == Hmac(c.signingKey, b) && b.keyId == c.keyId
    && b.digest.attempt == a && ValidSubmission(b.digest) && a.number <= c.maxAttempts <= 10
    && (b.digest.Envelope? ==> EnvelopeSound(b))
    && (b.digest.Failure? ==> FailureSound(s, a, b))
  }

  ghost predicate EnvelopeSound(b: Body)
    requires b.digest.Envelope?
  {
    && b.counts.received == |b.digest.events| == b.counts.inserted + b.counts.duplicates + b.counts.unknown + b.counts.conflicts
    && b.outcome == (if b.counts.unknown + b.counts.conflicts > 0 then Partial else Accepted)
    && b.nextRetryAt.None?
  }

  ghost predicate FailureSound(s: Deliveries, a: Attempt, b: Body)
    requires b.digest.Failure? && a.number >= 1
  {
    && b.counts == EMPTY_SNAPSHOT
    && (if b.digest.attempt.number == b.digest.maxAttempts
        then b.outcome == DeadLettered && b.nextRetryAt.None? && LetterFor(s, LetterId(a, b.digest.error), b.digest)
        else b.outcome == RetryPending && b.nextRetryAt == Some(b.receivedAt + Wait(a.number)))
  }

  /** How many seconds a producer waits after its failed attempt `n`. */
  function Wait(n: nat): nat
    requires n >= 1
  {
    if n == 1 then 30 else if n == 2 then 60 else if n == 3 then 120 else if n == 4 then 240 else if n == 5 then 480 else 900
  }

  lemma WaitIsDelay(n: nat)
    requires n >= 1
    ensures RetryDelay(n) == Wait(n)
  {
    assert Power2(1) == 2 && Power2(2) == 4 && Power2(3) == 8 && Power2(4) == 16 && Power2(5) == 32;
    if n >= 6 { Power2Grows(5, n - 1); }
  }

  ghost predicate LetterFor(s: Deliveries, id: LetterId, p: Submission) { id in s.letters && s.letters[id].digest == p }

  ghost predicate Sound(c: Config, s: Deliveries)
  {
    && (forall a :: a in s.receipts ==> ReceiptSound(c, s, a))
    && (forall id :: id in s.letters ==> id.attempt in s.receipts)
  }

  lemma NewReceiptSound(c: Config, s: Deliveries, p: Submission, now: int)
    requires Effective(c, s, p) && UsableKeyId(c) && (p.Envelope? ==> Receiptable(c, s, p, now)) && Sound(c, s)
    ensures var t := Handle(c, s, p, now).1; p.attempt in t.receipts && ReceiptSound(c, t, p.attempt)
  {
    if p.Envelope? { NewEnvelopeSound(c, s, p, now); } else { NewFailureSound(c, s, p, now); }
  }

  lemma NewEnvelopeSound(c: Config, s: Deliveries, p: Submission, now: int)
    requires Effective(c, s, p) && p.Envelope? && Receiptable(c, s, p, now)
    ensures var t := Handle(c, s, p, now).1; p.attempt in t.receipts && ReceiptSound(c, t, p.attempt)
  {
    BatchAccounting(s.book, p.events, now);
    FirstIsBooked(c, s, p, now);
    BookedReceipt(c, s, p, IngestBatch(s.book, p.events, now), now);
  }

  lemma NewFailureSound(c: Config, s: Deliveries, p: Submission, now: int)
    requires Effective(c, s, p) && p.Failure? && UsableKeyId(c) && Sound(c, s)
    ensures var t := Handle(c, s, p, now).1; p.attempt in t.receipts && ReceiptSound(c, t, p.attempt)
  {
    assert forall reason :: LetterId(p.attempt, reason) !in s.letters;
    WaitIsDelay(p.attempt.number);
  }

  lemma OtherReceiptSound(c: Config, s: Deliveries, call: Call, a: Attempt)
    requires a in s.receipts && ReceiptSound(c, s, a)
    ensures a in Apply(c, s, call).receipts && ReceiptSound(c, Apply(c, s, call), a)
  {
    CallKeepsReceipts(c, s, call, a);
    LettersStay(c, s, call);
  }

  lemma LettersStay(c: Config, s: Deliveries, call: Call)
    ensures forall id :: id in s.letters ==> id in Apply(c, s, call).letters && Apply(c, s, call).letters[id] == s.letters[id]
  {
  }

  lemma LettersHaveReceipts(c: Config, s: Deliveries, call: Call, id: LetterId)
    requires Sound(c, s) && id in Apply(c, s, call).letters
    ensures id.attempt in Apply(c, s, call).receipts
  {
    if id in s.letters { CallKeepsReceipts(c, s, call, id.attempt); }
  }

  lemma CallKeepsSound(c: Config, s: Deliveries, call: Call)
    requires Sound(c, s)
    ensures Sound(c, Apply(c, s, call))
  {
    var t := Apply(c, s, call);
    forall a | a in t.receipts ensures ReceiptSound(c, t, a) {
      if a in s.receipts {
        OtherReceiptSound(c, s, call, a);
      } else {
        OnlyNewReceipt(c, s, call, a);
        NewReceiptSound(c, s, call.payload, call.now);
      }
    }
    forall id | id in t.letters ensures id.attempt in t.receipts { LettersHaveReceipts(c, s, call, id); }
  }

  lemma OnlyNewReceipt(c: Config, s: Deliveries, call: Call, a: Attempt)
    requires a in Apply(c, s, call).receipts && a !in s.receipts
    ensures Effective(c, s, call.payload) && UsableKeyId(c) && a == call.payload.attempt
    ensures call.payload.Envelope? ==> Receiptable(c, s, call.payload, call.now)
  {
  }

  /** In every run from an empty delivery store: one signed receipt an attempt, whose counts add up;
      every dead-lettered receipt has its dead letter, with the same payload, and every other failure
      receipt the retry time its attempt number prescribes. */
  lemma {:induction false} RunsAreSound(c: Config, book: State, calls: seq<Call>)
    ensures Sound(c, After(c, Deliveries(book, map[], map[], []), calls))
    decreases |calls|
  {
    if calls != [] {
      RunsAreSound(c, book, calls[..|calls| - 1]);
      CallKeepsSound(c, After(c, Deliveries(book, map[], map[], []), calls[..|calls| - 1]), calls[|calls| - 1]);
    }
  }

  lemma {:induction false} Power2Grows(m: nat, n: nat)
    requires m <= n
    ensures 1 <= Power2(m) <= Power2(n)
    decreases n
  {
    if m < n {
      Power2Grows(m, n - 1);
    } else if n > 0 {
      Power2Grows(m - 1, n - 1);
    }
  }

  /** Retry delays double from half a minute, and end at fifteen minutes from the sixth attempt on. */
  lemma DelaysDouble(n: nat)
    requires n >= 1
    ensures RetryDelay(1) == 30 && RetryDelay(n) <= RetryDelay(n + 1) <= 900
    ensures n < 5 ==> RetryDelay(n + 1) == 2 * RetryDelay(n)
    ensures n >= 6 <==> RetryDelay(n) == 900
  {
    WaitIsDelay(1);
    WaitIsDelay(n);
    WaitIsDelay(n + 1);
  }

  // ---------------------------------------------------------------------------------------
  // Verification

  /** A stretch of calls served under one configuration; a rotation begins the next. */
  datatype Shift = Shift(config: Config, calls: seq<Call>)

  function AfterShifts(s: Deliveries, shifts: seq<Shift>): Deliveries
    decreases |shifts|
  {
    if shifts == [] then s
    else
      var last := shifts[|shifts| - 1];
      After(last.config, AfterShifts(s, shifts[..|shifts| - 1]), last.calls)
  }

  predicate Holds(keyring: map<string, string>, c: Config) { c.keyId in keyring && keyring[c.keyId] == c.signingKey }

  ghost predicate AllVerify(keyring: map<string, string>, s: Deliveries)
  {
    forall a :: a in s.receipts ==> s.receipts[a].body.digest.attempt == a && Verifies(keyring, s.receipts[a])
  }

  lemma CallKeepsVerifying(keyring: map<string, string>, c: Config, s: Deliveries, call: Call)
    requires AllVerify(keyring, s) && (Configured(c) ==> Holds(keyring, c))
    ensures AllVerify(keyring, Apply(c, s, call))
  {
    var t := Apply(c, s, call);
    forall a | a in t.receipts ensures t.receipts[a].body.digest.attempt == a && Verifies(keyring, t.receipts[a]) {
      if a in s.receipts { CallKeepsReceipts(c, s, call, a); } else { OnlyNewReceipt(c, s, call, a); }
    }
  }

  lemma {:induction false} CallsKeepVerifying(keyring: map<string, string>, c: Config, s: Deliveries, calls: seq<Call>)
    requires AllVerify(keyring, s) && (Configured(c) ==> Holds(keyring, c))
    ensures AllVerify(keyring, After(c, s, calls))
    decreases |calls|
  {
    if calls != [] {
      CallsKeepVerifying(keyring, c, s, calls[..|calls| - 1]);
      CallKeepsVerifying(keyring, c, After(c, s, calls[..|calls| - 1]), calls[|calls| - 1]);
    }
  }

  lemma {:induction false} ShiftsKeepVerifying(keyring: map<string, string>, s: Deliveries, shifts: seq<Shift>)
    requires AllVerify(keyring, s)
    requires forall i :: 0 <= i < |shifts| && Configured(shifts[i].config) ==> Holds(keyring, shifts[i].config)
    ensures AllVerify(keyring, AfterShifts(s, shifts))
    decreases |shifts|
  {
    if shifts != [] {
      var n := |shifts| - 1;
      ShiftsKeepVerifying(keyring, s, shifts[..n]);
      CallsKeepVerifying(keyring, shifts[n].config, AfterShifts(s, shifts[..n]), shifts[n].calls);
    }
  }

  /** Every configuration of the run is the active one or kept among the historical keys. */
  ghost predicate KeysKept(historical: map<string, string>, active: Config, shifts: seq<Shift>)
  {
    forall i :: 0 <= i < |shifts| ==> shifts[i].config == active || Holds(historical, shifts[i].config)
  }

  lemma ServiceKeyringHolds(historical: map<string, string>, active: Config, c: Config)
    requires active.keyId !in historical && Configured(c) && (c == active || Holds(historical, c))
    ensures Holds(Keyring(historical, active).value, c)
  {
  }

  /** Across every rotation: as long as retired keys are kept under their old ids, each receipt ever
      issued verifies with the keyring that the service builds. */
  lemma ReceiptsVerify(book: State, shifts: seq<Shift>, historical: map<string, string>, active: Config, a: Attempt)
    requires Keyring(historical, active).Some? && KeysKept(historical, active, shifts)
    requires a in AfterShifts(Deliveries(book, map[], map[], []), shifts).receipts
    ensures var r := AfterShifts(Deliveries(book, map[], map[], []), shifts).receipts[a];
      r.body.digest.attempt == a && Verifies(Keyring(historical, active).value, r)
  {
    forall i | 0 <= i < |shifts| && Configured(shifts[i].config)
      ensures Holds(Keyring(historical, active).value, shifts[i].config)
    {
      ServiceKeyringHolds(historical, active, shifts[i].config);
    }
    ShiftsKeepVerifying(Keyring(historical, active).value, Deliveries(book, map[], map[], []), shifts);
  }

  /** What somebody without the keys can present as a signature: any text, digests under other
      keys, and every signature that the service has given out. */
  ghost predicate WithinReach(keyring: map<string, string>, s: Deliveries, signature: Signature)
  {
    || signature.Text?
    || signature.key !in keyring.Values
    || exists a :: a in s.receipts && s.receipts[a].signature == signature
  }

  /** Across every rotation: of all receipts that can be presented without the keys, whatever body
      they carry, exactly those that the service holds verify. */
  lemma VerifiedIffIssued(book: State, shifts: seq<Shift>, historical: map<string, string>, active: Config, r: Receipt)
    requires Keyring(historical, active).Some? && KeysKept(historical, active, shifts)
    requires WithinReach(Keyring(historical, active).value, AfterShifts(Deliveries(book, map[], map[], []), shifts), r.signature)
    ensures var s := AfterShifts(Deliveries(book, map[], map[], []), shifts);
      Verifies(Keyring(historical, active).value, r) <==>
      r.body.digest.attempt in s.receipts && s.receipts[r.body.digest.attempt] == r
  {
    var keyring, s := Keyring(historical, active).value, AfterShifts(Deliveries(book, map[], map[], []), shifts);
    forall a | a in s.receipts ensures s.receipts[a].body.digest.attempt == a && Verifies(keyring, s.receipts[a]) {
      ReceiptsVerify(book, shifts, historical, active, a);
    }
    if Verifies(keyring, r) {
      assert r.signature.key in keyring.Values;
      var a :| a in s.receipts && s.receipts[a].signature == r.signature;
      assert s.receipts[a].body == r.body;
    }
  }
}
