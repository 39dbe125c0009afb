/** The Redis repository refines the in-memory one, over every run of saves; and both hold
    exactly the newest records, up to the retention bound. */
module ReviewRefinement {
  import opened Sorting
  import opened Wrappers
  import opened ReviewRepository

  // ---------------------------------------------------------------------------------------
  // The indexes agree with the records

  function HashedTo(h: Hash, hash: string -> Hash): Review -> bool
  {
    (r: Review) => hash(r.subject) == h
  }

  function ScoresWhere(m: Records, keep: Review -> bool): ScoredSet
  {
    map i | i in m && keep(m[i]) :: m[i].reviewedAt
  }

  function SubjectScores(m: Records, h: Hash, hash: string -> Hash): ScoredSet
  {
    ScoresWhere(m, HashedTo(h, hash))
  }

  /** Record keys, global index and every subject index hold the same live ids and scores. */
  ghost predicate Agrees(m: Records, s: Redis, hash: string -> Hash)
  {
    && s.records == m
    && s.global == Scores(m)
    && forall h :: Index(s.subjects, h) == SubjectScores(m, h, hash)
  }

  ghost predicate Live(m: Records, retention: nat) { Keyed(m) && |m| <= retention }

  lemma IndexedSubject(m: Records, s: Redis, r: Review, hash: string -> Hash, h: Hash)
    requires r.id !in m && Index(s.subjects, h) == SubjectScores(m, h, hash)
    ensures Index(Indexed(s, r, hash).subjects, h) == SubjectScores(m[r.id := r], h, hash)
  {
  }

  lemma IndexedAgrees(m: Records, s: Redis, r: Review, hash: string -> Hash)
    requires Agrees(m, s, hash) && r.id !in m
    ensures Agrees(m[r.id := r], Indexed(s, r, hash), hash)
  {
    forall h ensures Index(Indexed(s, r, hash).subjects, h) == SubjectScores(m[r.id := r], h, hash) {
      IndexedSubject(m, s, r, hash, h);
    }
  }

  lemma DroppedSubject(m: Records, s: Redis, id: ReviewId, hash: string -> Hash, h: Hash)
    requires s.records == m && Index(s.subjects, h) == SubjectScores(m, h, hash)
    ensures Index(Dropped(s, id, hash).subjects, h) == SubjectScores(m - {id}, h, hash)
  {
    var before, after := Index(s.subjects, h), SubjectScores(m - {id}, h, hash);
    if id in m && hash(m[id].subject) == h {
      assert after == before - {id};
    } else {
      assert after == before;
    }
  }

  lemma DroppedAgrees(m: Records, s: Redis, id: ReviewId, hash: string -> Hash)
    requires Agrees(m, s, hash)
    ensures Agrees(m - {id}, Dropped(s, id, hash), hash)
  {
    assert Scores(m) - {id} == Scores(m - {id});
    forall h ensures Index(Dropped(s, id, hash).subjects, h) == SubjectScores(m - {id}, h, hash) {
      assert Index(s.subjects, h) == SubjectScores(m, h, hash);
      DroppedSubject(m, s, id, hash, h);
    }
  }

  lemma {:induction false} DroppedAllAgrees(m: Records, s: Redis, ids: seq<ReviewId>, hash: string -> Hash)
    requires Agrees(m, s, hash)
    ensures Agrees(Without(m, ids), DroppedAll(s, ids, hash), hash)
    decreases |ids|
  {
    if ids != [] {
      var front, id := ids[..|ids| - 1], ids[|ids| - 1];
      DroppedAllAgrees(m, s, front, hash);
      DroppedAgrees(Without(m, front), DroppedAll(s, front, hash), id, hash);
    }
  }

  lemma PrunedAgrees(m: Records, s: Redis, retention: nat, hash: string -> Hash)
    requires Agrees(m, s, hash)
    ensures Agrees(MemoryPruned(m, retention), RedisPruned(s, retention, hash), hash)
  {
    ScoresCount(m);
    if |m| > retention {
      DroppedAllAgrees(m, s, OldestIds(Scores(m), |m| - retention), hash);
    }
  }

  lemma SaveAgrees(m: Records, s: Redis, r: Review, retention: nat, hash: string -> Hash)
    requires Live(m, retention) && Agrees(m, s, hash)
    ensures Agrees(MemorySave(m, r, retention), RedisSave(s, r, retention, hash), hash)
  {
    if r.id !in m {
      IndexedAgrees(m, s, r, hash);
      PrunedAgrees(m[r.id := r], Indexed(s, r, hash), retention, hash);
    } else if m[r.id] == r {
      assert m[r.id := r] == m;
    }
  }

  // ---------------------------------------------------------------------------------------
  // Listing

  lemma {:induction false} LoadPointwise(m: Records, ids: seq<ReviewId>)
    requires forall i :: i in ids ==> i in m
    ensures |Load(m, ids)| == |ids|
    ensures forall k :: 0 <= k < |ids| ==> Load(m, ids)[k] == m[ids[k]]
  {
    if ids != [] { LoadPointwise(m, ids[1..]); }
  }

  lemma LoadTake(m: Records, ts: seq<Stamp>, n: nat)
    requires forall t :: t in ts ==> t.id in m
    ensures Load(m, IdsOf(Take(ts, n))) == Take(Load(m, IdsOf(ts)), n)
  {
    LoadPointwise(m, IdsOf(ts));
    LoadPointwise(m, IdsOf(Take(ts, n)));
  }

  ghost function OnStamp(m: Records, keep: Review -> bool): Stamp -> bool
  {
    (t: Stamp) => t.id in m && keep(m[t.id])
  }

  lemma LoadCons(m: Records, t: Stamp, ts: seq<Stamp>)
    requires t.id in m
    ensures Load(m, IdsOf([t] + ts)) == [m[t.id]] + Load(m, IdsOf(ts))
  {
    assert IdsOf([t] + ts)[1..] == IdsOf(ts);
  }

  lemma {:induction false} LoadFilter(m: Records, ts: seq<Stamp>, keep: Review -> bool)
    requires forall t :: t in ts ==> t.id in m
    ensures Filter(keep, Load(m, IdsOf(ts)))
         == Load(m, IdsOf(Filter(OnStamp(m, keep), ts)))
  {
    if ts != [] {
      LoadFilter(m, ts[1..], keep);
      LoadCons(m, ts[0], ts[1..]);
      assert ts == [ts[0]] + ts[1..];
      LoadCons(m, ts[0], Filter(OnStamp(m, keep), ts[1..]));
    }
  }

  lemma RankedSubset(m: Records, keep: Review -> bool)
    ensures Ranked(ScoresWhere(m, keep)) == Filter(OnStamp(m, keep), Ranked(Scores(m)))
  {
    OlderIsTotal();
    FilterKeepsAscending(Older, OnStamp(m, keep), Ranked(Scores(m)));
    AscendingIsUnique(Older, Ranked(ScoresWhere(m, keep)), Filter(OnStamp(m, keep), Ranked(Scores(m))));
  }

  lemma SubjectRows(m: Records, h: Hash, hash: string -> Hash)
    ensures Filter(HashedTo(h, hash), NewestFirst(m))
         == Load(m, IdsOf(Reverse(Ranked(SubjectScores(m, h, hash)))))
  {
    var keep := HashedTo(h, hash);
    var ranked := Ranked(Scores(m));
    RankedSubset(m, keep);
    FilterOfReverse(OnStamp(m, keep), ranked);
    LoadFilter(m, Reverse(ranked), keep);
  }

  /** Reading one subject's index lists the newest rows whose subject has that digest. */
  lemma SubjectListing(m: Records, s: Redis, subject: string, limit: int, hash: string -> Hash)
    requires Agrees(m, s, hash)
    ensures RedisList(s, Some(subject), limit, hash)
         == Take(Filter(HashedTo(hash(subject), hash), NewestFirst(m)), ClampLimit(limit))
  {
    assert Index(s.subjects, hash(subject)) == SubjectScores(m, hash(subject), hash);
    SubjectRows(m, hash(subject), hash);
    LoadTakeOf(m, SubjectScores(m, hash(subject), hash), limit);
  }

  lemma LoadTakeOf(m: Records, z: ScoredSet, limit: int)
    requires z.Keys <= m.Keys
    ensures Load(m, IdsOf(Take(Reverse(Ranked(z)), ClampLimit(limit))))
         == Take(Load(m, IdsOf(Reverse(Ranked(z)))), ClampLimit(limit))
  {
    forall t | t in Reverse(Ranked(z)) ensures t.id in m {
      var k :| 0 <= k < |z| && Reverse(Ranked(z))[k] == t;
      assert t in Ranked(z);
    }
    LoadTake(m, Reverse(Ranked(z)), ClampLimit(limit));
  }

  lemma GlobalListing(m: Records, s: Redis, limit: int, hash: string -> Hash)
    requires Agrees(m, s, hash)
    ensures RedisList(s, None, limit, hash) == MemoryList(m, None, limit)
  {
    LoadTakeOf(m, Scores(m), limit);
  }

  /** When the first `n` rows kept by the wider test also pass the narrower one, the two tests
      keep the same first `n` rows. */
  lemma {:induction false} SamePrefix<T(!new)>(narrow: T -> bool, wide: T -> bool, rows: seq<T>, n: nat)
    requires forall r :: narrow(r) ==> wide(r)
    requires forall r :: r in Take(Filter(wide, rows), n) ==> narrow(r)
    ensures Take(Filter(narrow, rows), n) == Take(Filter(wide, rows), n)
    decreases |rows|
  {
    if rows != [] && n > 0 {
      var w, t := Filter(wide, rows), Filter(wide, rows[1..]);
      if wide(rows[0]) {
        assert w == [rows[0]] + t && Take(w, n) == [rows[0]] + Take(t, n - 1);
        assert rows[0] in Take(w, n);
        SamePrefix(narrow, wide, rows[1..], n - 1);
        assert Take(Filter(narrow, rows), n) == [rows[0]] + Take(Filter(narrow, rows[1..]), n - 1);
      } else {
        SamePrefix(narrow, wide, rows[1..], n);
      }
    }
  }

  /** No row that a read of the subject's index can reach belongs to another subject. */
  ghost predicate CollisionFree(m: Records, subject: string, hash: string -> Hash)
  {
    forall r :: r in Take(Filter(HashedTo(hash(subject), hash), NewestFirst(m)), 1000)
      ==> r.subject == subject
  }

  lemma SamePrefixOfSubject(rows: seq<Review>, subject: string, hash: string -> Hash, n: nat)
    requires n <= 1000
    requires forall r :: r in Take(Filter(HashedTo(hash(subject), hash), rows), 1000) ==> r.subject == subject
    ensures Take(Filter(OfSubject(subject), rows), n) == Take(Filter(HashedTo(hash(subject), hash), rows), n)
  {
    var wide := Filter(HashedTo(hash(subject), hash), rows);
    assert forall k :: 0 <= k < |Take(wide, n)| ==> Take(wide, n)[k] == Take(wide, 1000)[k];
    SamePrefix(OfSubject(subject), HashedTo(hash(subject), hash), rows, n);
  }

  lemma CollisionFreeListsAgree(m: Records, s: Redis, subject: string, limit: int, hash: string -> Hash)
    requires Agrees(m, s, hash) && CollisionFree(m, subject, hash)
    ensures RedisList(s, Some(subject), limit, hash) == MemoryList(m, Some(subject), limit)
  {
    SubjectListing(m, s, subject, limit, hash);
    SamePrefixOfSubject(NewestFirst(m), subject, hash, ClampLimit(limit));
  }

  lemma AgreeingListsAreCollisionFree(m: Records, s: Redis, subject: string, hash: string -> Hash)
    requires Agrees(m, s, hash)
    requires RedisList(s, Some(subject), 1000, hash) == MemoryList(m, Some(subject), 1000)
    ensures CollisionFree(m, subject, hash)
  {
    SubjectListing(m, s, subject, 1000, hash);
    var listed := RedisList(s, Some(subject), 1000, hash);
    var narrow := Filter(OfSubject(subject), NewestFirst(m));
    assert listed == Take(narrow, 1000);
    forall r | r in listed ensures r.subject == subject {
      assert r in narrow;
    }
  }

  /** The two repositories list one subject alike, at every limit, exactly when no other
      subject's reachable row shares the truncated digest. */
  lemma SubjectListsAgreeIff(m: Records, s: Redis, subject: string, hash: string -> Hash)
    requires Agrees(m, s, hash)
    ensures (forall limit :: RedisList(s, Some(subject), limit, hash) == MemoryList(m, Some(subject), limit))
       <==> CollisionFree(m, subject, hash)
  {
    if CollisionFree(m, subject, hash) {
      forall limit ensures RedisList(s, Some(subject), limit, hash) == MemoryList(m, Some(subject), limit) {
        CollisionFreeListsAgree(m, s, subject, limit, hash);
      }
    } else if RedisList(s, Some(subject), 1000, hash) == MemoryList(m, Some(subject), 1000) {
      AgreeingListsAreCollisionFree(m, s, subject, hash);
    }
  }

  lemma LoadStamps(m: Records, ts: seq<Stamp>)
    requires forall k :: 0 <= k < |ts| ==> ts[k].id in m
    ensures |Load(m, IdsOf(ts))| == |ts|
    ensures forall k :: 0 <= k < |ts| ==> Load(m, IdsOf(ts))[k] == m[ts[k].id]
  {
    LoadPointwise(m, IdsOf(ts));
  }

  lemma NewestFirstPointwise(m: Records, ranked: seq<Stamp>)
    requires ranked == Ranked(Scores(m))
    ensures |NewestFirst(m)| == |ranked|
    ensures forall k :: 0 <= k < |ranked| ==> ranked[k].id in m && ranked[k].at == m[ranked[k].id].reviewedAt
    ensures forall k {:trigger NewestFirst(m)[k]} :: 0 <= k < |ranked| ==>
      NewestFirst(m)[k] == m[ranked[|ranked| - 1 - k].id]
  {
    forall k | 0 <= k < |ranked| ensures ranked[k].id in m && ranked[k].at == m[ranked[k].id].reviewedAt {
      assert ranked[k] in ranked;
    }
    LoadStamps(m, Reverse(ranked));
  }

  /** Newest first, each live record exactly once. */
  lemma NewestFirstMembers(m: Records)
    requires Keyed(m)
    ensures forall r: Review :: r in NewestFirst(m) <==> r.id in m && m[r.id] == r
  {
    var ranked, rows := Ranked(Scores(m)), NewestFirst(m);
    NewestFirstPointwise(m, ranked);
    forall r: Review | r.id in m && m[r.id] == r ensures r in rows {
      assert StampOf(r) in ranked;
      var k :| 0 <= k < |ranked| && ranked[k] == StampOf(r);
      assert rows[|ranked| - 1 - k] == r;
    }
  }

  /** A later review, or at the same time the one with the greater id. */
  predicate IsNewer(a: Review, b: Review)
  {
    a.reviewedAt > b.reviewedAt || (a.reviewedAt == b.reviewedAt && a.id > b.id)
  }

  lemma NewestFirstAscends(m: Records)
    requires Keyed(m)
    ensures Ascending(IsNewer, NewestFirst(m))
  {
    var ranked, rows := Ranked(Scores(m)), NewestFirst(m);
    NewestFirstPointwise(m, ranked);
    forall i, j | 0 <= i < j < |rows| ensures IsNewer(rows[i], rows[j]) {
      assert Older(ranked[|rows| - 1 - j], ranked[|rows| - 1 - i]);
    }
  }

  /** `rows` are all live rows that pass `wanted`, newest first. */
  ghost predicate AllListed(m: Records, wanted: Review -> bool, rows: seq<Review>)
  {
    && Ascending(IsNewer, rows)
    && forall r: Review :: r in rows <==> r.id in m && m[r.id] == r && wanted(r)
  }

  function AnySubject(): Review -> bool { (r: Review) => true }

  lemma AllIsListed(m: Records)
    requires Keyed(m)
    ensures AllListed(m, AnySubject(), NewestFirst(m))
  {
    NewestFirstMembers(m);
    NewestFirstAscends(m);
  }

  lemma FilteredIsListed(m: Records, wanted: Review -> bool)
    requires Keyed(m)
    ensures AllListed(m, wanted, Filter(wanted, NewestFirst(m)))
  {
    AllIsListed(m);
    FilterKeepsAscending(IsNewer, wanted, NewestFirst(m));
  }

  /** No more rows than `limit`, taken to the range from 1 to 1000. */
  predicate WithinLimit(n: nat, limit: int)
  {
    n <= 1000 && (1 <= limit ==> n <= limit) && (limit < 1 ==> n <= 1)
  }

  /** Exactly as many as that. */
  predicate AtLimit(n: nat, limit: int)
  {
    if limit < 1 then n == 1 else if limit <= 1000 then n == limit else n == 1000
  }

  /** What a listing is, without sorting or cutting anything: its rows are live and wanted, strictly
      newest first, within the limit, and a wanted row is left out only when the limit is full of
      newer ones. */
  ghost predicate IsListing(m: Records, wanted: Review -> bool, limit: int, rows: seq<Review>)
  {
    && Ascending(IsNewer, rows) && WithinLimit(|rows|, limit)
    && (forall r: Review :: r in rows ==> r.id in m && m[r.id] == r && wanted(r))
    && forall r: Review :: r.id in m && m[r.id] == r && wanted(r) && r !in rows ==> DisplacedBy(r, limit, rows)
  }

  ghost predicate DisplacedBy(r: Review, limit: int, rows: seq<Review>)
  {
    AtLimit(|rows|, limit) && forall q :: q in rows ==> IsNewer(q, r)
  }

  lemma CutIsListing(m: Records, wanted: Review -> bool, limit: int, all: seq<Review>)
    requires AllListed(m, wanted, all)
    ensures IsListing(m, wanted, limit, Take(all, ClampLimit(limit)))
  {
    var rows := Take(all, ClampLimit(limit));
    forall r: Review | r.id in m && m[r.id] == r && wanted(r) && r !in rows ensures DisplacedBy(r, limit, rows) {
      TakeOfAscending(IsNewer, all, ClampLimit(limit), r);
    }
  }

  lemma {:induction false} AscendingCount(rows: seq<Review>)
    requires Ascending(IsNewer, rows)
    ensures |set r | r in rows| == |rows|
    decreases |rows|
  {
    if rows != [] {
      var front, last := rows[..|rows| - 1], rows[|rows| - 1];
      AscendingCount(front);
      forall r | r in front ensures r != last {
        var i :| 0 <= i < |front| && front[i] == r;
        assert IsNewer(rows[i], rows[|rows| - 1]);
      }
      assert rows == front + [last];
      assert (set r | r in rows) == (set r | r in front) + {last};
    }
  }

  lemma FullListingHoldsAll(a: seq<Review>, b: seq<Review>, r: Review)
    requires Ascending(IsNewer, a) && Ascending(IsNewer, b) && r in a && r !in b
    requires forall q :: q in b ==> q in a
    ensures |b| < |a|
  {
    AscendingCount(a);
    AscendingCount(b);
    var x, y := set q | q in a, set q | q in b;
    assert |y| < |x| by {
      assert |x - y| + |y| == |x| by { assert (x - y) + y == x; }
      assert r in x - y;
    }
  }

  lemma NothingMoreListed(m: Records, wanted: Review -> bool, limit: int, a: seq<Review>, b: seq<Review>, r: Review)
    requires IsListing(m, wanted, limit, a) && IsListing(m, wanted, limit, b) && r in a
    ensures r in b
  {
    if r !in b {
      assert DisplacedBy(r, limit, b);
      forall q | q in b ensures q in a || DisplacedBy(q, limit, a) {}
      assert forall q :: q in b ==> q in a;
      FullListingHoldsAll(a, b, r);
    }
  }

  /** There is only one such list. */
  lemma ListingIsUnique(m: Records, wanted: Review -> bool, limit: int, a: seq<Review>, b: seq<Review>)
    requires IsListing(m, wanted, limit, a) && IsListing(m, wanted, limit, b)
    ensures a == b
  {
    forall r ensures r in a <==> r in b {
      if r in a { NothingMoreListed(m, wanted, limit, a, b, r); }
      if r in b { NothingMoreListed(m, wanted, limit, b, a, r); }
    }
    AscendingIsUnique(IsNewer, a, b);
  }

  function WantedBy(subject: Option<string>): Review -> bool
  {
    (r: Review) => subject.None? || r.subject == subject.value
  }

  /** The in-memory listing is exactly that, of the subject's rows or of all. */
  lemma MemoryListIff(m: Records, subject: Option<string>, limit: int, rows: seq<Review>)
    requires Keyed(m)
    ensures rows == MemoryList(m, subject, limit) <==> IsListing(m, WantedBy(subject), limit, rows)
  {
    var listed := MemoryList(m, subject, limit);
    if subject.None? {
      AllIsListed(m);
      CutIsListing(m, AnySubject(), limit, NewestFirst(m));
    } else {
      FilteredIsListed(m, OfSubject(subject.value));
      CutIsListing(m, OfSubject(subject.value), limit, Filter(OfSubject(subject.value), NewestFirst(m)));
    }
    assert IsListing(m, WantedBy(subject), limit, listed);
    if IsListing(m, WantedBy(subject), limit, rows) { ListingIsUnique(m, WantedBy(subject), limit, rows, listed); }
  }

  function IndexedUnder(subject: Option<string>, hash: string -> Hash): Review -> bool
  {
    (r: Review) => subject.None? || hash(r.subject) == hash(subject.value)
  }

  /** The Redis listing is exactly that, of the rows that share the subject's digest or of all. */
  lemma RedisListIff(m: Records, s: Redis, subject: Option<string>, limit: int, hash: string -> Hash, rows: seq<Review>)
    requires Keyed(m) && Agrees(m, s, hash)
    ensures rows == RedisList(s, subject, limit, hash) <==> IsListing(m, IndexedUnder(subject, hash), limit, rows)
  {
    var listed := RedisList(s, subject, limit, hash);
    if subject.None? {
      GlobalListing(m, s, limit, hash);
      AllIsListed(m);
      CutIsListing(m, AnySubject(), limit, NewestFirst(m));
    } else {
      var wanted := HashedTo(hash(subject.value), hash);
      SubjectListing(m, s, subject.value, limit, hash);
      FilteredIsListed(m, wanted);
      CutIsListing(m, wanted, limit, Filter(wanted, NewestFirst(m)));
    }
    assert IsListing(m, IndexedUnder(subject, hash), limit, listed);
    if IsListing(m, IndexedUnder(subject, hash), limit, rows) {
      ListingIsUnique(m, IndexedUnder(subject, hash), limit, rows, listed);
    }
  }

  // ---------------------------------------------------------------------------------------
  // Pruning keeps the newest

  ghost predicate SubMap(a: Records, b: Records)
  {
    forall i :: i in a ==> i in b && a[i] == b[i]
  }

  /** Everything kept is newer than everything left out. */
  ghost predicate Outranks(kept: Records, all: Records)
    requires SubMap(kept, all)
  {
    forall i, j :: i in kept && j in all && j !in kept ==> IsNewer(kept[i], all[j])
  }

  ghost predicate IsNewest(kept: Records, all: Records, n: nat)
  {
    && SubMap(kept, all)
    && |kept| == (if |all| <= n then |all| else n)
    && Outranks(kept, all)
  }

  lemma SubsetOfSameSize(a: Records, b: Records)
    requires a.Keys <= b.Keys
    ensures |a| <= |b| && (|a| == |b| ==> a.Keys == b.Keys)
  {
    assert |b.Keys| == |a.Keys| + |b.Keys - a.Keys| by { assert a.Keys + (b.Keys - a.Keys) == b.Keys; }
    assert |a| == |a.Keys| && |b| == |b.Keys|;
  }

  /** There is only one way to keep the newest `n`. */
  lemma NewestIsUnique(a: Records, b: Records, all: Records, n: nat)
    requires IsNewest(a, all, n) && IsNewest(b, all, n)
    ensures a == b
  {
    if a.Keys <= b.Keys {
      SubsetOfSameSize(a, b);
    } else if b.Keys <= a.Keys {
      SubsetOfSameSize(b, a);
    } else {
      assert false;
    }
  }

  lemma {:induction false} WithoutMembers(m: Records, ids: seq<ReviewId>)
    ensures forall i :: i in Without(m, ids) <==> i in m && i !in ids
    ensures forall i :: i in Without(m, ids) ==> Without(m, ids)[i] == m[i]
    decreases |ids|
  {
    if ids != [] {
      var front := ids[..|ids| - 1];
      WithoutMembers(m, front);
      assert ids == front + [ids[|ids| - 1]];
    }
  }

  lemma RemoveOne(m: Records, i: ReviewId)
    requires i in m
    ensures |m - {i}| == |m| - 1
  {
    assert (m - {i}).Keys == m.Keys - {i};
  }

  lemma {:induction false} WithoutCount(m: Records, ids: seq<ReviewId>)
    requires forall k :: 0 <= k < |ids| ==> ids[k] in m
    requires forall i, j :: 0 <= i < j < |ids| ==> ids[i] != ids[j]
    ensures |Without(m, ids)| == |m| - |ids|
    decreases |ids|
  {
    if ids != [] {
      var front, id := ids[..|ids| - 1], ids[|ids| - 1];
      WithoutCount(m, front);
      WithoutMembers(m, front);
      RemoveOne(Without(m, front), id);
    }
  }

  lemma ScoresCount(m: Records)
    ensures |Scores(m)| == |m|
  {
    assert Scores(m).Keys == m.Keys;
  }

  /** `ids` are live and distinct, and every one of them is older than every other record. */
  ghost predicate AreOldest(m: Records, ids: seq<ReviewId>)
  {
    && (forall k :: 0 <= k < |ids| ==> ids[k] in m)
    && (forall i, j :: 0 <= i < j < |ids| ==> ids[i] != ids[j])
    && (forall k, i :: 0 <= k < |ids| && i in m && i !in ids ==> Older(StampOf(m[ids[k]]), StampOf(m[i])))
  }

  lemma OldestAreOldest(m: Records, n: nat)
    requires Keyed(m) && n <= |m|
    ensures |OldestIds(Scores(m), n)| == n && AreOldest(m, OldestIds(Scores(m), n))
  {
    ScoresCount(m);
    var ranked := Ranked(Scores(m));
    var ids := OldestIds(Scores(m), n);
    forall k | 0 <= k < n ensures ids[k] in m && ranked[k] == StampOf(m[ids[k]]) {
      assert ranked[k] in ranked;
    }
    forall i, j | 0 <= i < j < n ensures ids[i] != ids[j] {
      assert Older(ranked[i], ranked[j]);
    }
    forall k, i | 0 <= k < n && i in m && i !in ids ensures Older(StampOf(m[ids[k]]), StampOf(m[i])) {
      assert StampOf(m[i]) in ranked;
      var l :| 0 <= l < |ranked| && ranked[l] == StampOf(m[i]);
      assert forall q :: 0 <= q < n ==> ids[q] != i;
      assert Older(ranked[k], ranked[l]);
    }
  }

  lemma PruneKeepsNewest(m: Records, n: nat)
    requires Keyed(m)
    ensures IsNewest(MemoryPruned(m, n), m, n)
  {
    if |m| > n { CutKeepsNewest(m, n, OldestIds(Scores(m), |m| - n)); } else { AllIsNewest(m, n); }
  }

  lemma CutKeepsNewest(m: Records, n: nat, ids: seq<ReviewId>)
    requires Keyed(m) && |m| > n && ids == OldestIds(Scores(m), |m| - n)
    ensures IsNewest(Without(m, ids), m, n)
  {
    OldestAreOldest(m, |m| - n);
    WithoutOldest(m, ids, n);
  }

  lemma AllIsNewest(m: Records, n: nat)
    requires |m| <= n
    ensures IsNewest(m, m, n)
  {
  }

  lemma WithoutOldest(m: Records, ids: seq<ReviewId>, n: nat)
    requires n + |ids| == |m| && AreOldest(m, ids)
    ensures IsNewest(Without(m, ids), m, n)
  {
    WithoutCount(m, ids);
    WithoutMembers(m, ids);
  }

  /** Adding one record and pruning commutes with having kept only the newest before. */
  lemma NewestAfterSave(kept: Records, all: Records, r: Review, n: nat, next: Records)
    requires Keyed(all) && IsNewest(kept, all, n)
    requires r.id in all ==> all[r.id] == r
    requires IsNewest(next, kept[r.id := r], n)
    ensures IsNewest(next, all[r.id := r], n)
  {
    if r.id in all {
      assert all[r.id := r] == all;
      KnownRecordChangesNothing(kept, all, r, n, next);
    } else {
      FreshRecordJoins(kept, all, r, n, next);
    }
  }

  lemma AddOne(m: Records, r: Review)
    requires r.id !in m
    ensures |m[r.id := r]| == |m| + 1
  {
  }

  lemma FreshRecordJoins(kept: Records, all: Records, r: Review, n: nat, next: Records)
    requires Keyed(all) && IsNewest(kept, all, n) && r.id !in all
    requires IsNewest(next, kept[r.id := r], n)
    ensures IsNewest(next, all[r.id := r], n)
  {
    SubsetOfSameSize(kept, all);
    AddOne(kept, r);
    AddOne(all, r);
    FreshRecordOutranks(kept, all, r, n, next);
  }

  lemma FreshRecordOutranks(kept: Records, all: Records, r: Review, n: nat, next: Records)
    requires Keyed(all) && IsNewest(kept, all, n) && r.id !in all
    requires IsNewest(next, kept[r.id := r], n)
    ensures SubMap(next, all[r.id := r]) && Outranks(next, all[r.id := r])
  {
    var wider := all[r.id := r];
    forall i, j | i in next && j in wider && j !in next
      ensures Older(StampOf(wider[j]), StampOf(next[i]))
    {
      if j in all {
        FreshRecordOrder(kept, all, r, n, next, i, j);
      }
    }
  }

  lemma FreshRecordOrder(kept: Records, all: Records, r: Review, n: nat, next: Records, i: ReviewId, j: ReviewId)
    requires Keyed(all) && IsNewest(kept, all, n) && r.id !in all
    requires IsNewest(next, kept[r.id := r], n)
    requires i in next && j in all && j !in next
    ensures Older(StampOf(all[j]), StampOf(next[i]))
  {
    if j !in kept && i == r.id {
      FreshRecordDisplaces(kept, all, r, n, next, j);
    }
  }

  /** A record that was pruned stays out. */
  lemma StillNewest(kept: Records, all: Records, r: Review, n: nat)
    requires IsNewest(kept, all, n) && r.id in all && all[r.id] == r && r.id !in kept
    ensures IsNewest(kept, kept[r.id := r], n)
  {
    SubsetOfSameSize(kept, all);
    assert |kept[r.id := r]| == |kept| + 1;
  }

  lemma KnownRecordChangesNothing(kept: Records, all: Records, r: Review, n: nat, next: Records)
    requires IsNewest(kept, all, n)
    requires r.id in all && all[r.id] == r
    requires IsNewest(next, kept[r.id := r], n)
    ensures next == kept
  {
    if r.id in kept {
      assert kept[r.id := r] == kept;
      SubsetOfSameSize(kept, all);
      assert IsNewest(kept, kept, n);
    } else {
      StillNewest(kept, all, r, n);
    }
    NewestIsUnique(next, kept, kept[r.id := r], n);
  }

  /** A fresh record enters a full repository only past one that is newer than all pruned ones. */
  lemma FreshRecordDisplaces(kept: Records, all: Records, r: Review, n: nat, next: Records, j: ReviewId)
    requires Keyed(all) && IsNewest(kept, all, n) && r.id !in all
    requires IsNewest(next, kept[r.id := r], n)
    requires r.id in next && j in all && j !in kept
    ensures Older(StampOf(all[j]), StampOf(r))
  {
    var full := kept[r.id := r];
    SubsetOfSameSize(kept, all);
    assert |full| == n + 1;
    if forall x :: x in kept ==> x in next {
      assert full.Keys <= next.Keys;
      SubsetOfSameSize(full, next);
      assert false;
    } else {
      var x :| x in kept && x !in next;
      assert Older(StampOf(all[j]), StampOf(all[x]));
    }
  }

  // ---------------------------------------------------------------------------------------
  // Whole runs

  function RunMemory(saves: seq<Review>, retention: nat): Records
    decreases |saves|
  {
    if saves == [] then map[]
    else MemorySave(RunMemory(saves[..|saves| - 1], retention), saves[|saves| - 1], retention)
  }

  function RunRedis(saves: seq<Review>, retention: nat, hash: string -> Hash): Redis
    decreases |saves|
  {
    if saves == [] then Redis(map[], map[], map[])
    else RedisSave(RunRedis(saves[..|saves| - 1], retention, hash), saves[|saves| - 1], retention, hash)
  }

  lemma SaveStaysLive(m: Records, r: Review, retention: nat)
    requires Live(m, retention)
    ensures Live(MemorySave(m, r, retention), retention)
  {
    if !Refused(m, r) {
      PruneKeepsNewest(m[r.id := r], retention);
    }
  }

  lemma {:induction false} RunsAgree(saves: seq<Review>, retention: nat, hash: string -> Hash)
    ensures Live(RunMemory(saves, retention), retention)
    ensures Agrees(RunMemory(saves, retention), RunRedis(saves, retention, hash), hash)
    decreases |saves|
  {
    if saves != [] {
      var front, r := saves[..|saves| - 1], saves[|saves| - 1];
      RunsAgree(front, retention, hash);
      SaveAgrees(RunMemory(front, retention), RunRedis(front, retention, hash), r, retention, hash);
      SaveStaysLive(RunMemory(front, retention), r, retention);
    }
  }

  lemma InjectiveIsCollisionFree(m: Records, subject: string, hash: string -> Hash)
    requires forall a, b :: hash(a) == hash(b) ==> a == b
    ensures CollisionFree(m, subject, hash)
  {
    var wide := Filter(HashedTo(hash(subject), hash), NewestFirst(m));
    forall r | r in Take(wide, 1000) ensures r.subject == subject {
      assert r in wide;
    }
  }

  /** After any run of saves, with an injective subject digest, both repositories accept and
      refuse the same next save and answer every listing alike. */
  lemma RepositoriesAgree(saves: seq<Review>, retention: nat, hash: string -> Hash,
                          next: Review, subject: Option<string>, limit: int)
    requires forall a, b :: hash(a) == hash(b) ==> a == b
    ensures var m, s := RunMemory(saves, retention), RunRedis(saves, retention, hash);
      && (Refused(m, next) <==> Refused(s.records, next))
      && RedisList(s, subject, limit, hash) == MemoryList(m, subject, limit)
      && |s.global| <= retention && s.records.Keys == s.global.Keys
  {
    RunsAgree(saves, retention, hash);
    ScoresCount(RunMemory(saves, retention));
    var m, s := RunMemory(saves, retention), RunRedis(saves, retention, hash);
    match subject {
      case None => GlobalListing(m, s, limit, hash);
      case Some(name) =>
        InjectiveIsCollisionFree(m, name, hash);
        SubjectListsAgreeIff(m, s, name, hash);
    }
  }

  /** After every run of saves, whatever the digest: what the two repositories list, without
      mention of sort, index or cut. Of one subject the Redis repository lists all rows that share
      its digest. */
  lemma ListingsOfEveryRun(saves: seq<Review>, retention: nat, hash: string -> Hash, subject: Option<string>, limit: int)
    ensures var m := RunMemory(saves, retention);
      && IsListing(m, WantedBy(subject), limit, MemoryList(m, subject, limit))
      && IsListing(m, IndexedUnder(subject, hash), limit, RedisList(RunRedis(saves, retention, hash), subject, limit, hash))
  {
    RunsAgree(saves, retention, hash);
    var m, s := RunMemory(saves, retention), RunRedis(saves, retention, hash);
    MemoryListIff(m, subject, limit, MemoryList(m, subject, limit));
    RedisListIff(m, s, subject, limit, hash, RedisList(s, subject, limit, hash));
  }

  function Distinct(saves: seq<Review>): (all: Records)
    ensures forall i :: i in all <==> exists k :: 0 <= k < |saves| && saves[k].id == i
    decreases |saves|
  {
    if saves == [] then map[]
    else Distinct(saves[..|saves| - 1])[saves[|saves| - 1].id := saves[|saves| - 1]]
  }

  ghost predicate NoConflict(saves: seq<Review>)
  {
    forall i, j :: 0 <= i < |saves| && 0 <= j < |saves| && saves[i].id == saves[j].id ==> saves[i] == saves[j]
  }

  lemma {:induction false} DistinctHolds(saves: seq<Review>, k: nat)
    requires NoConflict(saves) && k < |saves|
    ensures saves[k].id in Distinct(saves) && Distinct(saves)[saves[k].id] == saves[k]
    decreases |saves|
  {
    var front := saves[..|saves| - 1];
    if k < |front| {
      DistinctHolds(front, k);
      assert front[k] == saves[k];
    }
  }

  lemma DistinctKeyed(saves: seq<Review>)
    requires NoConflict(saves)
    ensures Keyed(Distinct(saves))
  {
    forall i | i in Distinct(saves) ensures Distinct(saves)[i].id == i {
      var k :| 0 <= k < |saves| && saves[k].id == i;
      DistinctHolds(saves, k);
    }
  }

  lemma SameIdSameRecord(front: seq<Review>, r: Review)
    requires NoConflict(front + [r]) && r.id in Distinct(front)
    ensures NoConflict(front) && Distinct(front)[r.id] == r
  {
    var saves := front + [r];
    forall i, j | 0 <= i < |front| && 0 <= j < |front| && front[i].id == front[j].id ensures front[i] == front[j] {
      assert saves[i] == front[i] && saves[j] == front[j];
    }
    var k :| 0 <= k < |front| && front[k].id == r.id;
    assert saves[k] == front[k] && saves[|front|] == r;
    DistinctHolds(front, k);
  }

  /** Saving records whose ids never carry two contents loses none of them but the oldest: the
      repository then holds exactly the newest `retention` of all records ever saved. */
  lemma {:induction false} RunKeepsNewest(saves: seq<Review>, retention: nat)
    requires NoConflict(saves)
    ensures IsNewest(RunMemory(saves, retention), Distinct(saves), retention)
    decreases |saves|
  {
    if saves != [] {
      var front, r := saves[..|saves| - 1], saves[|saves| - 1];
      assert saves == front + [r];
      RunKeepsNewest(front, retention);
      DistinctKeyed(front);
      if r.id in Distinct(front) { SameIdSameRecord(front, r); }
      var kept := RunMemory(front, retention);
      PruneKeepsNewest(kept[r.id := r], retention);
      NewestAfterSave(kept, Distinct(front), r, retention, MemoryPruned(kept[r.id := r], retention));
    }
  }

  /** ... and none of those saves is refused. */
  lemma NothingRefused(saves: seq<Review>, next: Review, retention: nat)
    requires NoConflict(saves + [next])
    ensures !Refused(RunMemory(saves, retention), next)
  {
    if next.id in Distinct(saves) {
      SameIdSameRecord(saves, next);
      RunKeepsNewest(saves, retention);
    } else {
      RunHoldsOnlySaved(saves, retention);
    }
  }

  lemma {:induction false} RunHoldsOnlySaved(saves: seq<Review>, retention: nat)
    ensures RunMemory(saves, retention).Keys <= Distinct(saves).Keys
    decreases |saves|
  {
    if saves != [] {
      var m, r := RunMemory(saves[..|saves| - 1], retention), saves[|saves| - 1];
      RunHoldsOnlySaved(saves[..|saves| - 1], retention);
      var full := m[r.id := r];
      if !Refused(m, r) && |full| > retention {
        WithoutMembers(full, OldestIds(Scores(full), |full| - retention));
      }
    }
  }

  /** A live record never changes; it can only be pruned. */
  lemma LiveRecordIsImmutable(m: Records, r: Review, retention: nat, id: ReviewId)
    requires Live(m, retention)
    requires id in m && id in MemorySave(m, r, retention)
    ensures MemorySave(m, r, retention)[id] == m[id]
  {
    if !Refused(m, r) {
      PruneKeepsNewest(m[r.id := r], retention);
    }
  }

  lemma NewestOfTwo(a: Review, b: Review)
    requires a.id != b.id && a.reviewedAt < b.reviewedAt
    ensures IsNewest(map[b.id := b], map[a.id := a, b.id := b], 1)
    ensures |map[a.id := a, b.id := b]| == 2
  {
  }

  lemma NewerReplaces(a: Review, b: Review)
    requires a.id != b.id && a.reviewedAt < b.reviewedAt
    ensures MemorySave(map[a.id := a], b, 1) == map[b.id := b]
  {
    var both := map[a.id := a, b.id := b];
    assert map[a.id := a][b.id := b] == both;
    NewestOfTwo(a, b);
    PruneKeepsNewest(both, 1);
    NewestIsUnique(MemoryPruned(both, 1), map[b.id := b], both, 1);
  }

  /** Immutability ends with retention: once pruned, an id is accepted with other content. */
  lemma PrunedIdIsReusable(a: Review, b: Review, c: Review)
    requires a.id == c.id && a != c && b.id != a.id && a.reviewedAt < b.reviewedAt < c.reviewedAt
    ensures !Refused(RunMemory([a, b], 1), c) && a.id in RunMemory([a, b, c], 1)
    ensures RunMemory([a, b, c], 1)[a.id] == c
  {
    assert [a, b, c][..2] == [a, b] && [a, b][..1] == [a] && [a][..0] == [];
    assert RunMemory([a], 1) == map[a.id := a];
    NewerReplaces(a, b);
    NewerReplaces(b, c);
  }
}
