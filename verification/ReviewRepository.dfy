/** The two review repositories of nba_review_repository.py: a dictionary that is sorted on every
    read, and a Redis layout of record keys, one global and one sorted set per hashed subject. */
module ReviewRepository {
  import opened Folding
  import opened Sorting
  import opened Wrappers

  /** Review ids are fixed-width lower-case hexadecimal, so their text order is numeric order. */
  type ReviewId = nat

  /** `content` stands for every field the repositories never look at. */
  datatype Review = Review(id: ReviewId, subject: string, reviewedAt: int, content: string)

  datatype Stamp = Stamp(at: int, id: ReviewId)

  /** The sort key `(reviewed_at, review_id)`, and the order Redis gives to (score, member). */
  predicate Older(a: Stamp, b: Stamp)
  {
    a.at < b.at || (a.at == b.at && a.id < b.id)
  }

  lemma OlderIsTotal()
    ensures StrictTotal(Older)
  {
  }

  /** A Redis sorted set: member to score. */
  type ScoredSet = map<ReviewId, int>

  function Stamps(z: ScoredSet): (s: set<Stamp>)
    ensures forall t :: t in s <==> t.id in z && t.at == z[t.id]
  {
    set i | i in z :: Stamp(z[i], i)
  }

  lemma {:induction false} StampsCount(z: ScoredSet)
    ensures |Stamps(z)| == |z|
    decreases |z|
  {
    if z != map[] {
      var i :| i in z;
      var rest := z - {i};
      StampsCount(rest);
      assert Stamps(z) == Stamps(rest) + {Stamp(z[i], i)};
    }
  }

  /** The members of a sorted set from lowest to highest, as ZRANGE lists them. */
  function Ranked(z: ScoredSet): (r: seq<Stamp>)
    ensures |r| == |z| && Ascending(Older, r)
    ensures forall t :: t in r <==> t.id in z && t.at == z[t.id]
  {
    OlderIsTotal();
    StampsCount(z);
    Sort(Older, Stamps(z))
  }

  function StampOf(r: Review): Stamp { Stamp(r.reviewedAt, r.id) }

  function IdsOf(s: seq<Stamp>): (ids: seq<ReviewId>)
    ensures |ids| == |s| && forall i :: 0 <= i < |s| ==> ids[i] == s[i].id
  {
    seq(|s|, i requires 0 <= i < |s| => s[i].id)
  }

  function ClampLimit(limit: int): (n: nat)
    ensures 1 <= n <= 1000
  {
    if limit < 1 then 1 else if limit > 1000 then 1000 else limit
  }

  // ---------------------------------------------------------------------------------------
  // The in-memory repository

  type Records = map<ReviewId, Review>

  ghost predicate Keyed(m: Records) { forall i :: i in m ==> m[i].id == i }

  function Scores(m: Records): ScoredSet
  {
    map i | i in m :: m[i].reviewedAt
  }

  predicate Refused(m: Records, r: Review) { r.id in m && m[r.id] != r }

  /** The `n` lowest members, lowest first. */
  function OldestIds(z: ScoredSet, n: nat): seq<ReviewId>
  {
    IdsOf(Take(Ranked(z), n))
  }

  function Without(m: Records, ids: seq<ReviewId>): Records
    decreases |ids|
  {
    if ids == [] then m else Without(m, ids[..|ids| - 1]) - {ids[|ids| - 1]}
  }

  function MemoryPruned(m: Records, retention: nat): Records
  {
    if |m| <= retention then m else Without(m, OldestIds(Scores(m), |m| - retention))
  }

  function MemorySave(m: Records, r: Review, retention: nat): Records
  {
    if Refused(m, r) then m else MemoryPruned(m[r.id := r], retention)
  }

  function Load(m: Records, ids: seq<ReviewId>): (rows: seq<Review>)
    ensures forall r :: r in rows ==> exists i :: i in ids && i in m && r == m[i]
  {
    if ids == [] then []
    else (if ids[0] in m then [m[ids[0]]] else []) + Load(m, ids[1..])
  }

  /** Every row, newest first. */
  function NewestFirst(m: Records): seq<Review>
  {
    Load(m, IdsOf(Reverse(Ranked(Scores(m)))))
  }

  function OfSubject(subject: string): Review -> bool
  {
    (r: Review) => r.subject == subject
  }

  function MemoryList(m: Records, subject: Option<string>, limit: int): seq<Review>
  {
    var rows := NewestFirst(m);
    var kept := match subject
      case None => rows
      case Some(s) => Filter(OfSubject(s), rows);
    Take(kept, ClampLimit(limit))
  }

  class MemoryRepository {
    var reviews: Records
    const retention: nat

    constructor (retention: nat)
      ensures reviews == map[] && this.retention == retention
    {
      this.retention := retention;
      reviews := map[];
    }

    method Save(review: Review) returns (accepted: bool)
      modifies this
      ensures accepted <==> (review.id in old(reviews) ==> old(reviews)[review.id] == review)
      ensures reviews == MemorySave(old(reviews), review, retention)
    {
      if review.id in reviews && reviews[review.id] != review {
        return false;
      }
      reviews := reviews[review.id := review];
      var overflow := |reviews| - retention;
      if overflow > 0 {
        Expire(OldestIds(Scores(reviews), overflow));
      }
      accepted := true;
    }

    method Expire(expired: seq<ReviewId>)
      modifies this`reviews
      ensures reviews == Without(old(reviews), expired)
    {
      for k := 0 to |expired|
        invariant reviews == Without(old(reviews), expired[..k])
      {
        reviews := reviews - {expired[k]};
        assert expired[..k + 1][..k] == expired[..k];
      }
      assert expired[..|expired|] == expired;
    }

    method List(subject: Option<string>, limit: int) returns (rows: seq<Review>)
      ensures rows == MemoryList(reviews, subject, limit)
    {
      rows := NewestFirst(reviews);
      if subject.Some? {
        rows := Filter(OfSubject(subject.value), rows);
      }
      rows := Take(rows, ClampLimit(limit));
    }
  }

  // ---------------------------------------------------------------------------------------
  // The Redis repository

  type Hash = nat

  /** `hash` is the 24-digit digest that names a subject's index; a sorted set without members
      does not exist in Redis, and reading it is reading the empty set. */
  datatype Redis = Redis(records: Records, global: ScoredSet, subjects: map<Hash, ScoredSet>)

  function Index(subjects: map<Hash, ScoredSet>, h: Hash): ScoredSet
  {
    if h in subjects then subjects[h] else map[]
  }

  function PutIndex(subjects: map<Hash, ScoredSet>, h: Hash, z: ScoredSet): (s: map<Hash, ScoredSet>)
    ensures forall g :: Index(s, g) == if g == h then z else Index(subjects, g)
  {
    if z == map[] then subjects - {h} else subjects[h := z]
  }

  function Indexed(s: Redis, r: Review, hash: string -> Hash): Redis
  {
    var h := hash(r.subject);
    Redis(s.records[r.id := r],
          s.global[r.id := r.reviewedAt],
          PutIndex(s.subjects, h, Index(s.subjects, h)[r.id := r.reviewedAt]))
  }

  /** One round of the prune loop. */
  function Dropped(s: Redis, id: ReviewId, hash: string -> Hash): Redis
  {
    var subjects :=
      if id in s.records then
        var h := hash(s.records[id].subject);
        PutIndex(s.subjects, h, Index(s.subjects, h) - {id})
      else s.subjects;
    Redis(s.records - {id}, s.global - {id}, subjects)
  }

  function Dropping(hash: string -> Hash): (Redis, ReviewId) -> Redis
  {
    (s: Redis, id: ReviewId) => Dropped(s, id, hash)
  }

  function DroppedAll(s: Redis, ids: seq<ReviewId>, hash: string -> Hash): Redis { Fold(Dropping(hash), s, ids) }

  lemma DroppedOneMore(s: Redis, ids: seq<ReviewId>, k: nat, hash: string -> Hash)
    requires k < |ids|
    ensures DroppedAll(s, ids[..k + 1], hash) == Dropped(DroppedAll(s, ids[..k], hash), ids[k], hash)
  {
    FoldSnoc(Dropping(hash), s, ids, k);
  }

  function RedisPruned(s: Redis, retention: nat, hash: string -> Hash): Redis
  {
    if |s.global| <= retention then s
    else DroppedAll(s, OldestIds(s.global, |s.global| - retention), hash)
  }

  lemma PrunedForm(s: Redis, expired: seq<ReviewId>, retention: nat, hash: string -> Hash)
    requires |s.global| > retention && expired == OldestIds(s.global, |s.global| - retention)
    ensures RedisPruned(s, retention, hash) == DroppedAll(s, expired, hash)
  {
  }

  function RedisSave(s: Redis, r: Review, retention: nat, hash: string -> Hash): Redis
  {
    if r.id in s.records then s else RedisPruned(Indexed(s, r, hash), retention, hash)
  }

  function RedisList(s: Redis, subject: Option<string>, limit: int, hash: string -> Hash): seq<Review>
  {
    var z := if subject.Some? then Index(s.subjects, hash(subject.value)) else s.global;
    Load(s.records, IdsOf(Take(Reverse(Ranked(z)), ClampLimit(limit))))
  }

  class RedisRepository {
    var records: Records
    var global: ScoredSet
    var subjects: map<Hash, ScoredSet>
    const retention: nat
    const hash: string -> Hash

    constructor (retention: nat, hash: string -> Hash)
      ensures records == map[] && global == map[] && subjects == map[]
      ensures this.retention == retention && this.hash == hash
    {
      this.retention, this.hash := retention, hash;
      records, global, subjects := map[], map[], map[];
    }

    function State(): Redis
      reads this
    {
      Redis(records, global, subjects)
    }

    method Save(review: Review) returns (accepted: bool)
      modifies this
      ensures accepted <==> (review.id in old(records) ==> old(records)[review.id] == review)
      ensures State() == RedisSave(old(State()), review, retention, hash)
    {
      if review.id in records {
        return records[review.id] == review;
      }
      records := records[review.id := review];
      global := global[review.id := review.reviewedAt];
      var h := hash(review.subject);
      subjects := PutIndex(subjects, h, Index(subjects, h)[review.id := review.reviewedAt]);
      Prune();
      accepted := true;
    }

    method Prune()
      modifies this
      ensures State() == RedisPruned(old(State()), retention, hash)
    {
      var overflow := |global| - retention;
      if overflow <= 0 { return; }
      ghost var before := State();
      var expired := OldestIds(global, overflow);
      PrunedForm(before, expired, retention, hash);
      DropEach(expired);
      assert State() == DroppedAll(before, expired, hash);
    }

    method DropEach(expired: seq<ReviewId>)
      modifies this
      ensures State() == DroppedAll(old(State()), expired, hash)
    {
      ghost var start := State();
      for k := 0 to |expired|
        invariant State() == DroppedAll(start, expired[..k], hash)
      {
        ghost var before := State();
        Drop(expired[k]);
        DroppedOneMore(start, expired, k, hash);
        assert State() == Dropped(before, expired[k], hash);
      }
      assert expired[..|expired|] == expired;
    }

    method Drop(id: ReviewId)
      modifies this
      ensures State() == Dropped(old(State()), id, hash)
    {
      if id in records {
        var h := hash(records[id].subject);
        subjects := PutIndex(subjects, h, Index(subjects, h) - {id});
      }
      global := global - {id};
      records := records - {id};
    }

    method List(subject: Option<string>, limit: int) returns (rows: seq<Review>)
      ensures rows == RedisList(State(), subject, limit, hash)
    {
      var z := if subject.Some? then Index(subjects, hash(subject.value)) else global;
      var ids := IdsOf(Take(Reverse(Ranked(z)), ClampLimit(limit)));
      rows := Load(records, ids);
    }
  }
}
