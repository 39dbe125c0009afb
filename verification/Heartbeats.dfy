/** Producer heartbeats of services/agent_hub/npd_agent_hub/delivery_observability.py: immutable
    receipts whose sequence numbers are meant to increase for each producer. */
module Heartbeats {
  import opened Sorting
  import opened Wrappers

  /** A heartbeat that passed its own validation; `metadata` completes the payload. */
  datatype Heartbeat = Heartbeat(id: string, producer: string, emittedAt: int, sequence: nat, metadata: string)

  datatype HeartbeatReceipt = HeartbeatReceipt(beat: Heartbeat, receivedAt: int)

  datatype Refusal = TooFarAhead | OutsideWindow | ChangedPayload | SequenceNotIncreased

  datatype Reply = Answer(receipt: HeartbeatReceipt) | Refused(why: Refusal)

  const FUTURE_LIMIT := 5 * 60

  const REPLAY_WINDOW := 24 * 60 * 60

  /** Receipts in order of arrival. */
  type Receipts = seq<HeartbeatReceipt>

  function WithId(receipts: Receipts, id: string): Option<HeartbeatReceipt>
  {
    if receipts == [] then None
    else if receipts[0].beat.id == id then Some(receipts[0])
    else WithId(receipts[1..], id)
  }

  function Of(receipts: Receipts, producer: string): Receipts
  {
    Filter((r: HeartbeatReceipt) => r.beat.producer == producer, receipts)
  }

  /** `list_attribution_heartbeat_receipts(limit=1)`: the reversed sort by arrival time is stable,
      so among receipts of the latest instant the first one comes first. */
  function Latest(receipts: Receipts): (i: nat)
    requires receipts != []
    ensures i < |receipts|
    decreases |receipts|
  {
    var n := |receipts| - 1;
    if n == 0 then 0
    else
      var i := Latest(receipts[..n]);
      if receipts[n].receivedAt > receipts[i].receivedAt then n else i
  }

  predicate SequenceAccepted(mine: Receipts, sequence: nat)
  {
    mine == [] || sequence > mine[Latest(mine)].beat.sequence
  }

  function Handle(receipts: Receipts, h: Heartbeat, now: int): (Reply, Receipts)
  {
    var known := WithId(receipts, h.id);
    if h.emittedAt > now + FUTURE_LIMIT then (Refused(TooFarAhead), receipts)
    else if h.emittedAt < now - REPLAY_WINDOW then (Refused(OutsideWindow), receipts)
    else if known.Some? then
      if known.value.beat == h then (Answer(known.value), receipts) else (Refused(ChangedPayload), receipts)
    else if !SequenceAccepted(Of(receipts, h.producer), h.sequence) then (Refused(SequenceNotIncreased), receipts)
    else (Answer(HeartbeatReceipt(h, now)), receipts + [HeartbeatReceipt(h, now)])
  }

  ghost predicate ArrivedInOrder(receipts: Receipts)
  {
    forall i, j :: 0 <= i < j < |receipts| ==> receipts[i].receivedAt <= receipts[j].receivedAt
  }

  /** No two receipts arrived at the same instant. */
  ghost predicate ArrivedApart(receipts: Receipts)
  {
    forall i, j :: 0 <= i < j < |receipts| ==> receipts[i].receivedAt < receipts[j].receivedAt
  }

  ghost predicate Increasing(mine: Receipts)
  {
    forall i, j :: 0 <= i < j < |mine| ==> mine[i].beat.sequence < mine[j].beat.sequence
  }

  lemma {:induction false} LatestIsFirstOfLast(mine: Receipts)
    requires mine != [] && ArrivedInOrder(mine)
    ensures mine[Latest(mine)].receivedAt == mine[|mine| - 1].receivedAt
    ensures forall i :: 0 <= i < Latest(mine) ==> mine[i].receivedAt < mine[|mine| - 1].receivedAt
    decreases |mine|
  {
    var n := |mine| - 1;
    if n > 0 { LatestIsFirstOfLast(mine[..n]); }
  }

  /** While a producer's accepted sequence numbers increase, the guard keeps them so exactly if its
      last two receipts did not arrive at the same instant: with a tie, it compares against the
      older one. */
  lemma GuardKeepsIncreasingIff(mine: Receipts)
    requires mine != [] && ArrivedInOrder(mine) && Increasing(mine)
    ensures (forall sequence: nat :: SequenceAccepted(mine, sequence) ==> sequence > mine[|mine| - 1].beat.sequence)
      <==> |mine| == 1 || mine[|mine| - 2].receivedAt < mine[|mine| - 1].receivedAt
  {
    var n := |mine| - 1;
    LatestIsFirstOfLast(mine);
    if n > 0 && mine[n - 1].receivedAt == mine[n].receivedAt {
      assert Latest(mine) < n;
      assert SequenceAccepted(mine, mine[n].beat.sequence);
    } else {
      assert Latest(mine) == n;
    }
  }

  lemma OfSnoc(receipts: Receipts, r: HeartbeatReceipt, producer: string)
    ensures Of(receipts + [r], producer) == if r.beat.producer == producer then Of(receipts, producer) + [r] else Of(receipts, producer)
  {
    FilterSnoc((x: HeartbeatReceipt) => x.beat.producer == producer, receipts, r);
  }

  datatype Arrival = Arrival(beat: Heartbeat, now: int)

  function After(arrivals: seq<Arrival>): Receipts
    decreases |arrivals|
  {
    if arrivals == [] then []
    else Handle(After(arrivals[..|arrivals| - 1]), arrivals[|arrivals| - 1].beat, arrivals[|arrivals| - 1].now).1
  }

  ghost predicate ClockNeverFalls(arrivals: seq<Arrival>)
  {
    forall i, j :: 0 <= i < j < |arrivals| ==> arrivals[i].now <= arrivals[j].now
  }

  ghost predicate NotAfter(receipts: Receipts, now: int)
  {
    forall r :: r in receipts ==> r.receivedAt <= now
  }

  lemma OrderSnoc(mine: Receipts, r: HeartbeatReceipt)
    requires ArrivedInOrder(mine) && NotAfter(mine, r.receivedAt)
    ensures ArrivedInOrder(mine + [r])
  {
    forall i | 0 <= i < |mine| ensures mine[i].receivedAt <= r.receivedAt { assert mine[i] in mine; }
  }

  lemma {:induction false} OfKeepsOrder(receipts: Receipts, producer: string)
    requires ArrivedInOrder(receipts)
    ensures ArrivedInOrder(Of(receipts, producer))
    decreases |receipts|
  {
    if receipts != [] {
      var front, last := receipts[..|receipts| - 1], receipts[|receipts| - 1];
      OfKeepsOrder(front, producer);
      OfSnoc(front, last, producer);
      assert receipts == front + [last];
      assert NotAfter(Of(front, producer), last.receivedAt) by {
        forall r | r in front ensures r.receivedAt <= last.receivedAt {
          var j :| 0 <= j < |front| && front[j] == r;
          assert receipts[j].receivedAt <= receipts[|receipts| - 1].receivedAt;
        }
      }
      OrderSnoc(Of(front, producer), last);
    }
  }

  lemma HandleKeepsOrder(receipts: Receipts, h: Heartbeat, now: int)
    requires ArrivedInOrder(receipts) && NotAfter(receipts, now)
    ensures ArrivedInOrder(Handle(receipts, h, now).1) && NotAfter(Handle(receipts, h, now).1, now)
  {
    OrderSnoc(receipts, HeartbeatReceipt(h, now));
  }

  lemma {:induction false} RunKeepsOrder(arrivals: seq<Arrival>)
    requires ClockNeverFalls(arrivals)
    ensures ArrivedInOrder(After(arrivals))
    ensures arrivals != [] ==> NotAfter(After(arrivals), arrivals[|arrivals| - 1].now)
    ensures arrivals == [] ==> After(arrivals) == []
    decreases |arrivals|
  {
    if arrivals != [] {
      var front, last := arrivals[..|arrivals| - 1], arrivals[|arrivals| - 1];
      RunKeepsOrder(front);
      if front != [] { assert front[|front| - 1] == arrivals[|arrivals| - 2]; }
      assert NotAfter(After(front), last.now);
      HandleKeepsOrder(After(front), last.beat, last.now);
    }
  }

  /** One arrival: the producer's receipts are the same, or one more of its own that the guard accepted. */
  lemma MineAfter(receipts: Receipts, h: Heartbeat, now: int, producer: string)
    ensures var mine, after := Of(receipts, producer), Of(Handle(receipts, h, now).1, producer);
      if Handle(receipts, h, now).1 != receipts && h.producer == producer
      then after == mine + [HeartbeatReceipt(h, now)] && SequenceAccepted(mine, h.sequence)
      else after == mine
  {
    OfSnoc(receipts, HeartbeatReceipt(h, now), producer);
  }

  /** Whatever the producer sends next is refused, known, or numbered above all it sent before. */
  ghost predicate Guarded(receipts: Receipts, producer: string)
  {
    forall h: Heartbeat, now: int :: h.producer == producer && Handle(receipts, h, now).1 != receipts ==>
      forall r :: r in Of(receipts, producer) ==> r.beat.sequence < h.sequence
  }

  predicate LastTwoTie(mine: Receipts)
  {
    |mine| >= 2 && mine[|mine| - 2].receivedAt == mine[|mine| - 1].receivedAt
  }

  /** An id longer than every known one. */
  function FreshId(receipts: Receipts): (id: string)
    ensures WithId(receipts, id).None?
    ensures forall r :: r in receipts ==> |r.beat.id| < |id|
  {
    if receipts == [] then "x"
    else
      var id := FreshId(receipts[1..]) + receipts[0].beat.id;
      LongerIsNew(receipts, id);
      id
  }

  lemma {:induction false} LongerIsNew(receipts: Receipts, id: string)
    requires forall r :: r in receipts ==> |r.beat.id| < |id|
    ensures WithId(receipts, id).None?
  {
    if receipts != [] { LongerIsNew(receipts[1..], id); }
  }

  lemma AcceptedIsStored(receipts: Receipts, producer: string, sequence: nat, now: int) returns (h: Heartbeat)
    requires SequenceAccepted(Of(receipts, producer), sequence)
    ensures h.producer == producer && h.sequence == sequence
    ensures Handle(receipts, h, now).1 == receipts + [HeartbeatReceipt(h, now)]
  {
    h := Heartbeat(FreshId(receipts), producer, now, sequence, "");
  }

  lemma TieIsUnguarded(receipts: Receipts, producer: string)
    requires ArrivedInOrder(Of(receipts, producer)) && Increasing(Of(receipts, producer)) && LastTwoTie(Of(receipts, producer))
    ensures !Guarded(receipts, producer)
  {
    var mine := Of(receipts, producer);
    GuardKeepsIncreasingIff(mine);
    var sequence: nat :| SequenceAccepted(mine, sequence) && sequence <= mine[|mine| - 1].beat.sequence;
    var h := AcceptedIsStored(receipts, producer, sequence, 0);
    assert |Handle(receipts, h, 0).1| != |receipts|;
    assert mine[|mine| - 1] in mine && !(mine[|mine| - 1].beat.sequence < h.sequence);
  }

  lemma NoTieGuards(mine: Receipts, sequence: nat)
    requires ArrivedInOrder(mine) && Increasing(mine) && !LastTwoTie(mine) && SequenceAccepted(mine, sequence)
    ensures forall r :: r in mine ==> r.beat.sequence < sequence
  {
    if mine != [] {
      assert |mine| == 1 || mine[|mine| - 2].receivedAt < mine[|mine| - 1].receivedAt;
      GuardKeepsIncreasingIff(mine);
      forall r | r in mine ensures r.beat.sequence < sequence {
        var i :| 0 <= i < |mine| && mine[i] == r;
        assert mine[i].beat.sequence <= mine[|mine| - 1].beat.sequence < sequence;
      }
    }
  }

  /** As long as a producer's numbers increase, what it sends next is guarded exactly if its last two
      receipts do not tie. */
  lemma GuardedIff(receipts: Receipts, producer: string)
    requires ArrivedInOrder(receipts) && Increasing(Of(receipts, producer))
    ensures Guarded(receipts, producer) <==> !LastTwoTie(Of(receipts, producer))
  {
    OfKeepsOrder(receipts, producer);
    if LastTwoTie(Of(receipts, producer)) {
      TieIsUnguarded(receipts, producer);
    } else {
      forall h: Heartbeat, now: int | h.producer == producer && Handle(receipts, h, now).1 != receipts
        ensures forall r :: r in Of(receipts, producer) ==> r.beat.sequence < h.sequence
      {
        MineAfter(receipts, h, now, producer);
        NoTieGuards(Of(receipts, producer), h.sequence);
      }
    }
  }

  lemma IncreasingSnoc(mine: Receipts, r: HeartbeatReceipt)
    requires Increasing(mine) && forall x :: x in mine ==> x.beat.sequence < r.beat.sequence
    ensures Increasing(mine + [r])
  {
    forall i | 0 <= i < |mine| ensures mine[i].beat.sequence < r.beat.sequence { assert mine[i] in mine; }
  }

  lemma GuardedKeepsIncreasing(receipts: Receipts, h: Heartbeat, now: int, producer: string)
    requires Increasing(Of(receipts, producer)) && Guarded(receipts, producer)
    ensures Increasing(Of(Handle(receipts, h, now).1, producer))
  {
    MineAfter(receipts, h, now, producer);
    if Handle(receipts, h, now).1 != receipts && h.producer == producer {
      IncreasingSnoc(Of(receipts, producer), HeartbeatReceipt(h, now));
    }
  }

  lemma NoTieInFront(mine: Receipts, r: HeartbeatReceipt)
    requires ArrivedInOrder(mine + [r])
    ensures ArrivedApart(mine + [r]) <==> ArrivedApart(mine) && !LastTwoTie(mine + [r])
  {
    var longer := mine + [r];
    assert longer[|mine|] == r && forall i :: 0 <= i < |mine| ==> longer[i] == mine[i];
    if ArrivedApart(mine) && !LastTwoTie(longer) {
      forall i, j | 0 <= i < j < |longer| ensures longer[i].receivedAt < longer[j].receivedAt {
        if j == |mine| { assert longer[i].receivedAt <= longer[|mine| - 1].receivedAt < r.receivedAt; }
      }
    }
  }

  lemma ApartHasNoTie(mine: Receipts)
    requires ArrivedApart(mine)
    ensures !LastTwoTie(mine)
  {
  }

  /** The producer's next heartbeat is guarded now, and was at every earlier moment of the run. */
  ghost predicate AlwaysGuarded(arrivals: seq<Arrival>, producer: string)
    decreases |arrivals|
  {
    && Guarded(After(arrivals), producer)
    && (arrivals == [] || AlwaysGuarded(arrivals[..|arrivals| - 1], producer))
  }

  lemma GuardStep(receipts: Receipts, h: Heartbeat, now: int, producer: string)
    requires ArrivedInOrder(receipts) && NotAfter(receipts, now)
    requires ArrivedApart(Of(receipts, producer)) && Increasing(Of(receipts, producer))
    ensures var after := Handle(receipts, h, now).1;
      Increasing(Of(after, producer)) && (Guarded(after, producer) <==> ArrivedApart(Of(after, producer)))
  {
    var after := Handle(receipts, h, now).1;
    ApartHasNoTie(Of(receipts, producer));
    GuardedIff(receipts, producer);
    GuardedKeepsIncreasing(receipts, h, now, producer);
    HandleKeepsOrder(receipts, h, now);
    GuardedIff(after, producer);
    OfKeepsOrder(after, producer);
    MineAfter(receipts, h, now, producer);
    if Of(after, producer) != Of(receipts, producer) { NoTieInFront(Of(receipts, producer), HeartbeatReceipt(h, now)); }
  }

  lemma TieStays(receipts: Receipts, h: Heartbeat, now: int, producer: string)
    requires !ArrivedApart(Of(receipts, producer))
    ensures !ArrivedApart(Of(Handle(receipts, h, now).1, producer))
  {
    MineAfter(receipts, h, now, producer);
    var mine, after := Of(receipts, producer), Of(Handle(receipts, h, now).1, producer);
    var i, j :| 0 <= i < j < |mine| && !(mine[i].receivedAt < mine[j].receivedAt);
    assert after[i] == mine[i] && after[j] == mine[j];
  }

  /** Over every run under a clock that never falls, and for each producer on its own: whatever it
      might have sent next was guarded all along exactly if no two of its receipts share an instant;
      and then its accepted sequence numbers strictly increase. */
  lemma {:induction false} RunIsGuardedIff(arrivals: seq<Arrival>, producer: string)
    requires ClockNeverFalls(arrivals)
    ensures AlwaysGuarded(arrivals, producer) <==> ArrivedApart(Of(After(arrivals), producer))
    ensures ArrivedApart(Of(After(arrivals), producer)) ==> Increasing(Of(After(arrivals), producer))
    decreases |arrivals|
  {
    if arrivals == [] {
      GuardedIff([], producer);
    } else {
      var front, last := arrivals[..|arrivals| - 1], arrivals[|arrivals| - 1];
      RunIsGuardedIff(front, producer);
      RunKeepsOrder(front);
      if front != [] { assert front[|front| - 1] == arrivals[|arrivals| - 2]; }
      if ArrivedApart(Of(After(front), producer)) {
        GuardStep(After(front), last.beat, last.now, producer);
      } else {
        TieStays(After(front), last.beat, last.now, producer);
      }
    }
  }

  ghost predicate FromArrivals(mine: Receipts, arrivals: seq<Arrival>, producer: string)
  {
    forall r :: r in mine ==> Arrival(r.beat, r.receivedAt) in arrivals && r.beat.producer == producer
  }

  /** The producer's own arrivals come at different instants, one after the other. */
  ghost predicate SentApart(arrivals: seq<Arrival>, producer: string)
  {
    forall i, j :: 0 <= i < j < |arrivals| && arrivals[i].beat.producer == arrivals[j].beat.producer == producer ==>
      arrivals[i].now < arrivals[j].now
  }

  lemma SentLater(mine: Receipts, arrivals: seq<Arrival>, producer: string)
    requires arrivals != [] && SentApart(arrivals, producer) && FromArrivals(mine, arrivals[..|arrivals| - 1], producer)
    ensures FromArrivals(mine, arrivals, producer)
    ensures arrivals[|arrivals| - 1].beat.producer == producer ==>
      forall i :: 0 <= i < |mine| ==> mine[i].receivedAt < arrivals[|arrivals| - 1].now
  {
    var front, last := arrivals[..|arrivals| - 1], arrivals[|arrivals| - 1];
    assert arrivals == front + [last];
    forall i | 0 <= i < |mine| && last.beat.producer == producer ensures mine[i].receivedAt < last.now {
      assert mine[i] in mine;
      var j :| 0 <= j < |front| && front[j] == Arrival(mine[i].beat, mine[i].receivedAt);
      assert arrivals[j].now < arrivals[|arrivals| - 1].now;
    }
  }

  lemma SentSnoc(mine: Receipts, arrivals: seq<Arrival>, producer: string)
    requires arrivals != [] && SentApart(arrivals, producer) && arrivals[|arrivals| - 1].beat.producer == producer
    requires ArrivedApart(mine) && FromArrivals(mine, arrivals[..|arrivals| - 1], producer)
    ensures var a := arrivals[|arrivals| - 1]; var longer := mine + [HeartbeatReceipt(a.beat, a.now)];
      ArrivedApart(longer) && FromArrivals(longer, arrivals, producer)
  {
    SentLater(mine, arrivals, producer);
  }

  lemma SentStep(receipts: Receipts, arrivals: seq<Arrival>, producer: string)
    requires arrivals != [] && SentApart(arrivals, producer)
    requires ArrivedApart(Of(receipts, producer)) && FromArrivals(Of(receipts, producer), arrivals[..|arrivals| - 1], producer)
    ensures var a := arrivals[|arrivals| - 1]; var mine := Of(Handle(receipts, a.beat, a.now).1, producer);
      ArrivedApart(mine) && FromArrivals(mine, arrivals, producer)
  {
    var a := arrivals[|arrivals| - 1];
    SentLater(Of(receipts, producer), arrivals, producer);
    MineAfter(receipts, a.beat, a.now, producer);
    if a.beat.producer == producer { SentSnoc(Of(receipts, producer), arrivals, producer); }
  }

  lemma {:induction false} SentApartArrivesApart(arrivals: seq<Arrival>, producer: string)
    requires SentApart(arrivals, producer)
    ensures ArrivedApart(Of(After(arrivals), producer)) && FromArrivals(Of(After(arrivals), producer), arrivals, producer)
    decreases |arrivals|
  {
    if arrivals != [] {
      SentApartArrivesApart(arrivals[..|arrivals| - 1], producer);
      SentStep(After(arrivals[..|arrivals| - 1]), arrivals, producer);
    }
  }

  /** So a producer that never sends twice at one instant is safe, whatever the others do. */
  lemma SequencesIncrease(arrivals: seq<Arrival>, producer: string)
    requires ClockNeverFalls(arrivals) && SentApart(arrivals, producer)
    ensures Increasing(Of(After(arrivals), producer)) && AlwaysGuarded(arrivals, producer)
  {
    SentApartArrivesApart(arrivals, producer);
    RunIsGuardedIff(arrivals, producer);
  }

  lemma ArrivalIsStored(arrivals: seq<Arrival>, a: Arrival)
    requires a.now - REPLAY_WINDOW <= a.beat.emittedAt <= a.now + FUTURE_LIMIT
    requires WithId(After(arrivals), a.beat.id).None?
    requires SequenceAccepted(Of(After(arrivals), a.beat.producer), a.beat.sequence)
    ensures After(arrivals + [a]) == After(arrivals) + [HeartbeatReceipt(a.beat, a.now)]
    ensures Of(After(arrivals + [a]), a.beat.producer) == Of(After(arrivals), a.beat.producer) + [HeartbeatReceipt(a.beat, a.now)]
  {
    assert (arrivals + [a])[..|arrivals|] == arrivals;
    OfSnoc(After(arrivals), HeartbeatReceipt(a.beat, a.now), a.beat.producer);
  }

  function Beat(id: string, sequence: nat): Arrival { Arrival(Heartbeat(id, "crm", 0, sequence, ""), 0) }

  lemma TwoAtOnce(x: HeartbeatReceipt, y: HeartbeatReceipt, id: string)
    requires x.receivedAt == y.receivedAt && x.beat.id != id && y.beat.id != id
    ensures WithId([x, y], id).None? && Latest([x, y]) == 0
  {
    assert [x, y][1..] == [y] && [y][1..] == [] && [x, y][..1] == [x];
    assert WithId([y], id).None? && Latest([x]) == 0;
  }

  lemma TwoStored()
    ensures var x, y := HeartbeatReceipt(Beat("beat-1", 1).beat, 0), HeartbeatReceipt(Beat("beat-2", 2).beat, 0);
      && After([Beat("beat-1", 1), Beat("beat-2", 2)]) == [x, y]
      && Of(After([Beat("beat-1", 1), Beat("beat-2", 2)]), "crm") == [x, y]
  {
    var a, b := Beat("beat-1", 1), Beat("beat-2", 2);
    var x, y := HeartbeatReceipt(a.beat, 0), HeartbeatReceipt(b.beat, 0);
    ArrivalIsStored([], a);
    assert [] + [a] == [a] && After([a]) == [x] && Of([x], "crm") == [x];
    ArrivalIsStored([a], b);
    assert [a] + [b] == [a, b] && [x] + [y] == [x, y];
  }

  /** Three heartbeats of one producer at one instant: the third repeats the second one's sequence
      number and is accepted. */
  lemma TiesRepeatSequence()
    ensures var run := [Beat("beat-1", 1), Beat("beat-2", 2), Beat("beat-3", 2)];
      |After(run)| == 3 && !Increasing(Of(After(run), "crm"))
  {
    var a, b, c := Beat("beat-1", 1), Beat("beat-2", 2), Beat("beat-3", 2);
    var x, y, z := HeartbeatReceipt(a.beat, 0), HeartbeatReceipt(b.beat, 0), HeartbeatReceipt(c.beat, 0);
    TwoStored();
    TwoAtOnce(x, y, "beat-3");
    ArrivalIsStored([a, b], c);
    assert [a, b] + [c] == [a, b, c];
    var mine := [x, y] + [z];
    assert mine[1].beat.sequence == mine[2].beat.sequence;
    assert !Increasing(mine);
  }

  // ---------------------------------------------------------------------------------------
  // The rules, spelled out

  ghost predicate KnownAt(receipts: Receipts, id: string, i: int)
  {
    0 <= i < |receipts| && receipts[i].beat.id == id && forall j :: 0 <= j < i ==> receipts[j].beat.id != id
  }

  /** Receipt `i` is the producer's latest, the first of them if several arrived at that instant. */
  ghost predicate LatestAt(receipts: Receipts, producer: string, i: int)
  {
    && 0 <= i < |receipts| && receipts[i].beat.producer == producer
    && forall j :: 0 <= j < |receipts| && receipts[j].beat.producer == producer ==>
         receipts[j].receivedAt <= receipts[i].receivedAt && (j < i ==> receipts[j].receivedAt < receipts[i].receivedAt)
  }

  lemma {:induction false} KnownIff(receipts: Receipts, id: string, i: int)
    ensures KnownAt(receipts, id, i) ==> WithId(receipts, id) == Some(receipts[i])
    ensures WithId(receipts, id).None? <==> forall j :: 0 <= j < |receipts| ==> receipts[j].beat.id != id
    decreases |receipts|
  {
    if receipts != [] {
      KnownIff(receipts[1..], id, i - 1);
      assert forall j :: 0 < j < |receipts| ==> receipts[1..][j - 1] == receipts[j];
    }
  }

  lemma LatestSnoc(receipts: Receipts, r: HeartbeatReceipt, i: int)
    requires LatestAt(receipts, r.beat.producer, i)
    ensures LatestAt(receipts + [r], r.beat.producer, if r.receivedAt > receipts[i].receivedAt then |receipts| else i)
  {
  }

  lemma LatestOfSnoc(mine: Receipts, r: HeartbeatReceipt)
    requires mine != []
    ensures var l := mine[Latest(mine)];
      (mine + [r])[Latest(mine + [r])] == if r.receivedAt > l.receivedAt then r else l
  {
    assert (mine + [r])[..|mine|] == mine;
  }

  lemma LatestOfOthers(receipts: Receipts, r: HeartbeatReceipt, producer: string, i: int)
    requires r.beat.producer != producer && LatestAt(receipts, producer, i)
    ensures LatestAt(receipts + [r], producer, i)
  {
  }

  lemma FirstIsLatest(receipts: Receipts, r: HeartbeatReceipt)
    requires Of(receipts, r.beat.producer) == []
    ensures LatestAt(receipts + [r], r.beat.producer, |receipts|)
  {
    forall j | 0 <= j < |receipts| ensures receipts[j].beat.producer != r.beat.producer {
      NoneOf(receipts, r.beat.producer, j);
    }
  }

  lemma {:induction false} LatestIsAt(receipts: Receipts, producer: string) returns (i: int)
    requires Of(receipts, producer) != []
    ensures LatestAt(receipts, producer, i) && receipts[i] == Of(receipts, producer)[Latest(Of(receipts, producer))]
    decreases |receipts|, 0
  {
    var n := |receipts| - 1;
    assert receipts == receipts[..n] + [receipts[n]];
    i := LatestOfMore(receipts[..n], receipts[n], producer);
  }

  lemma {:induction false} LatestOfMore(front: Receipts, r: HeartbeatReceipt, producer: string) returns (i: int)
    requires Of(front + [r], producer) != []
    ensures LatestAt(front + [r], producer, i)
    ensures (front + [r])[i] == Of(front + [r], producer)[Latest(Of(front + [r], producer))]
    decreases |front|, 1
  {
    OfSnoc(front, r, producer);
    if Of(front, producer) == [] {
      i := |front|;
      FirstIsLatest(front, r);
    } else {
      i := LatestIsAt(front, producer);
      if r.beat.producer == producer {
        LatestSnoc(front, r, i);
        LatestOfSnoc(Of(front, producer), r);
        if r.receivedAt > front[i].receivedAt { i := |front|; }
      } else {
        LatestOfOthers(front, r, producer, i);
      }
    }
  }

  lemma NoneOf(receipts: Receipts, producer: string, j: int)
    requires Of(receipts, producer) == [] && 0 <= j < |receipts|
    ensures receipts[j].beat.producer != producer
  {
    assert receipts[j] in receipts;
  }

  /** A heartbeat from more than five minutes ahead or more than a day ago is refused. So is, in the
      window, another payload under a known id, while the known one gets its receipt again. A new one
      is accepted if its sequence number is above that of the producer's latest receipt, if any, and
      then it alone is added. */
  lemma HeartbeatRule(receipts: Receipts, h: Heartbeat, now: int)
    ensures var (reply, after) := Handle(receipts, h, now);
      && (reply == Refused(TooFarAhead) <==> h.emittedAt - now > 300)
      && (reply == Refused(OutsideWindow) <==> now - h.emittedAt > 86400)
      && (-300 <= now - h.emittedAt <= 86400 ==> InWindowRule(receipts, h, now, reply, after))
      && (reply.Refused? ==> after == receipts)
  {
    var known := WithId(receipts, h.id);
    KnownIff(receipts, h.id, 0);
    forall i | KnownAt(receipts, h.id, i) ensures known == Some(receipts[i]) { KnownIff(receipts, h.id, i); }
    if Of(receipts, h.producer) != [] {
      var i := LatestIsAt(receipts, h.producer);
      forall j | LatestAt(receipts, h.producer, j) ensures j == i {}
    } else {
      forall j | 0 <= j < |receipts| ensures receipts[j].beat.producer != h.producer { NoneOf(receipts, h.producer, j); }
    }
  }

  ghost predicate InWindowRule(receipts: Receipts, h: Heartbeat, now: int, reply: Reply, after: Receipts)
  {
    && (forall i :: KnownAt(receipts, h.id, i) ==>
          after == receipts && reply == if receipts[i].beat == h then Answer(receipts[i]) else Refused(ChangedPayload))
    && ((forall i :: 0 <= i < |receipts| ==> receipts[i].beat.id != h.id) ==>
          if forall i :: LatestAt(receipts, h.producer, i) ==> h.sequence > receipts[i].beat.sequence
          then reply == Answer(HeartbeatReceipt(h, now)) && after == receipts + [HeartbeatReceipt(h, now)]
          else reply == Refused(SequenceNotIncreased) && after == receipts)
  }

  class HeartbeatService {
    var receipts: Receipts

    constructor ()
      ensures receipts == []
    {
      receipts := [];
    }

    method IngestHeartbeat(h: Heartbeat, now: int) returns (r: Reply)
      modifies this
      ensures r == Handle(old(receipts), h, now).0 && receipts == Handle(old(receipts), h, now).1
    {
      if h.emittedAt > now + FUTURE_LIMIT { return Refused(TooFarAhead); }
      if h.emittedAt < now - REPLAY_WINDOW { return Refused(OutsideWindow); }
      var known := WithId(receipts, h.id);
      if known.Some? {
        if known.value.beat == h { return Answer(known.value); }
        return Refused(ChangedPayload);
      }
      var mine := Of(receipts, h.producer);
      if mine != [] && h.sequence <= mine[Latest(mine)].beat.sequence { return Refused(SequenceNotIncreased); }
      receipts := receipts + [HeartbeatReceipt(h, now)];
      r := Answer(HeartbeatReceipt(h, now));
    }
  }
}
