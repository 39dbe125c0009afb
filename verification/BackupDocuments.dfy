/** What a backup document says, and which documents are accepted. */
module BackupDocuments {
  import opened BackupRoundTrip
  import opened Maintenance
  import opened Sorting
  import opened TextOrder
  import opened Wrappers

  // ---------------------------------------------------------------------------------------
  // What an export writes down

  /** The entries are the members of the map with their scores, by score and then by member. */
  ghost predicate ListsScores(entries: seq<Entry>, scores: map<string, real>)
  {
    && (forall e :: e in entries <==> e.member in scores && scores[e.member] == e.score)
    && forall i, j :: 0 <= i < j < |entries| ==>
         entries[i].score < entries[j].score || (entries[i].score == entries[j].score && Before(entries[i].member, entries[j].member))
  }

  /** Item `x` is the cell under its key: type, value and checksum, and what is left of its life,
      counted from the delayed reading of the clock. */
  ghost predicate Shows(s: Store, x: Item, now: int, lag: nat)
  {
    && LiveKey(s, x.key, now)
    && (match s[x.key].data
        case StringData(text) => x.kind == StringKind && x.value == Text(text)
        case ListData(items) => x.kind == ListKind && x.value == Items(items)
        case ZSetData(scores) => x.kind == ZSetKind && x.value.Entries? && ListsScores(x.value.entries, scores)
        case OtherData(_) => false)
    && x.digest == Some(ValueDigest(x.kind, x.value))
    && (match s[x.key].expiry
        case None => x.pttl == -1 && x.expiresAt == None
        case Some(at) => x.pttl == at - now && x.expiresAt == Some(at + lag))
  }

  lemma ZRangeLists(scores: map<string, real>)
    ensures ListsScores(ZRange(scores), scores)
  {
    var entries := ZRange(scores);
    forall i, j | 0 <= i < j < |entries|
      ensures entries[i].score < entries[j].score || (entries[i].score == entries[j].score && Before(entries[i].member, entries[j].member))
    {
      assert Lower(entries[i], entries[j]);
    }
  }

  lemma ReadShows(s: Store, k: string, now: int, lag: nat)
    requires LiveKey(s, k, now) && !s[k].data.OtherData?
    ensures var x := ReadItem(s, k, now, lag); x.key == k && Shows(s, x, now, lag)
  {
    if s[k].data.ZSetData? { ZRangeLists(s[k].data.scores); }
  }

  /** How many of the items are of a kind. */
  function OfKind(items: seq<Item>, kind: Kind): set<nat> { set i | 0 <= i < |items| && items[i].kind == kind }

  lemma OfKindSnoc(items: seq<Item>, x: Item, kind: Kind)
    ensures OfKind(items + [x], kind) == if x.kind == kind then OfKind(items, kind) + {|items|} else OfKind(items, kind)
  {
  }

  lemma {:induction false} TypeCountsCount(items: seq<Item>, kind: Kind)
    ensures kind in TypeCounts(items) <==> OfKind(items, kind) != {}
    ensures kind in TypeCounts(items) ==> TypeCounts(items)[kind] == |OfKind(items, kind)|
    decreases |items|
  {
    if items != [] {
      var front, last := items[..|items| - 1], items[|items| - 1];
      assert items == front + [last];
      TypeCountsCount(front, kind);
      OfKindSnoc(front, last, kind);
    }
  }

  /** The counts are those of the items, kind by kind. */
  ghost predicate CountsKinds(counts: map<Kind, int>, items: seq<Item>)
  {
    forall kind :: CountsKind(counts, items, kind)
  }

  predicate CountsKind(counts: map<Kind, int>, items: seq<Item>, kind: Kind)
  {
    (kind in counts <==> OfKind(items, kind) != {}) && (kind in counts ==> counts[kind] == |OfKind(items, kind)|)
  }

  lemma CountsKindsIff(counts: map<Kind, int>, items: seq<Item>)
    ensures CountsKinds(counts, items) <==> counts == TypeCounts(items)
  {
    forall kind ensures CountsKind(TypeCounts(items), items, kind) { TypeCountsCount(items, kind); }
    if CountsKinds(counts, items) {
      forall kind ensures (kind in counts <==> kind in TypeCounts(items)) && (kind in counts ==> counts[kind] == TypeCounts(items)[kind]) {
        assert CountsKind(counts, items, kind) && CountsKind(TypeCounts(items), items, kind);
      }
    }
  }

  /** The header and the items of an export: one item for each live key of the namespace, in order
      of the keys, and the number of items of each type. */
  ghost predicate Documents(p: Payload, s: Store, ns: string, now: int, lag: string -> nat)
  {
    && p.version == 2 && p.namespace == ns && p.keyCount == Some(|p.items|) && p.consistencyProven
    && (forall i, j :: 0 <= i < j < |p.items| ==> Before(p.items[i].key, p.items[j].key))
    && (forall i :: 0 <= i < |p.items| ==> ns + ":" <= p.items[i].key && Shows(s, p.items[i], now, lag(p.items[i].key)))
    && (forall k :: ns + ":" <= k && LiveKey(s, k, now) ==> Listed(p.items, k))
    && CountsKinds(p.typeCounts, p.items)
  }

  ghost predicate Listed(items: seq<Item>, k: string) { exists i :: 0 <= i < |items| && items[i].key == k }

  lemma ExportedKeysAscend(items: seq<Item>, keys: seq<string>)
    requires Ascending(Before, keys) && |items| == |keys| && forall i :: 0 <= i < |keys| ==> items[i].key == keys[i]
    ensures forall i, j :: 0 <= i < j < |items| ==> Before(items[i].key, items[j].key)
  {
    forall i, j | 0 <= i < j < |items| ensures Before(items[i].key, items[j].key) { assert Before(keys[i], keys[j]); }
  }

  lemma ReadAllShows(s: Store, prefix: string, now: int, lag: string -> nat)
    requires Readable(s, ScanKeys(s, prefix, now), now)
    ensures var items := ReadAll(s, ScanKeys(s, prefix, now), now, lag);
      && (forall i :: 0 <= i < |items| ==> prefix <= items[i].key && Shows(s, items[i], now, lag(items[i].key)))
      && (forall i, j :: 0 <= i < j < |items| ==> Before(items[i].key, items[j].key))
      && forall k :: prefix <= k && LiveKey(s, k, now) ==> Listed(items, k)
  {
    var keys := ScanKeys(s, prefix, now);
    var items := ReadAll(s, keys, now, lag);
    forall i | 0 <= i < |items|
      ensures prefix <= items[i].key && items[i].key == keys[i] && Shows(s, items[i], now, lag(items[i].key))
    {
      assert keys[i] in keys;
      ReadShows(s, keys[i], now, lag(keys[i]));
    }
    ExportedKeysAscend(items, keys);
    forall k | prefix <= k && LiveKey(s, k, now) ensures Listed(items, k) {
      assert k in keys;
      var i :| 0 <= i < |keys| && keys[i] == k;
      assert items[i].key == k;
    }
  }

  /** What every successful export documents. */
  lemma ExportDocuments(first: Store, second: Store, namespace: string, ns: string, now: int, createdAt: int,
                        lag: string -> nat, again: string -> nat, p: Payload)
    requires NamespaceOf(namespace, ns)
    requires Export(first, second, namespace, now, createdAt, lag, again) == Some(p)
    ensures Documents(p, first, ns, now, lag) && p.createdAt == createdAt
  {
    NamespaceIff(namespace, ns);
    ReadDocuments(first, ns, now, lag, p);
  }

  lemma ReadDocuments(s: Store, ns: string, now: int, lag: string -> nat, p: Payload)
    requires p.version == 2 && p.namespace == ns && p.keyCount == Some(|p.items|) && p.consistencyProven
    requires Readable(s, ScanKeys(s, ns + ":", now), now) && p.items == ReadAll(s, ScanKeys(s, ns + ":", now), now, lag)
    requires p.typeCounts == TypeCounts(p.items)
    ensures Documents(p, s, ns, now, lag)
  {
    ReadAllShows(s, ns + ":", now, lag);
    CountsKindsIff(p.typeCounts, p.items);
  }

  // ---------------------------------------------------------------------------------------
  // What the checksums pin down

  /** Content checksums agree exactly if keys, types and values do. */
  lemma ContentDigestIff(a: seq<Item>, b: seq<Item>)
    ensures ContentDigest(a) == ContentDigest(b) <==>
      |a| == |b| && forall i :: 0 <= i < |a| ==> a[i].key == b[i].key && a[i].kind == b[i].kind && a[i].value == b[i].value
  {
    var x, y := ContentDigest(a), ContentDigest(b);
    if x == y {
      assert |x| == |a| && |y| == |b|;
      forall i | 0 <= i < |a| ensures a[i].key == b[i].key && a[i].kind == b[i].kind && a[i].value == b[i].value {
        assert x[i] == y[i];
      }
    }
  }

  lemma NamespaceDigestIff(a: seq<Item>, b: seq<Item>)
    ensures NamespaceDigest(a) == NamespaceDigest(b) <==>
      |a| == |b| && forall i :: 0 <= i < |a| ==>
        a[i].key == b[i].key && a[i].kind == b[i].kind && a[i].value == b[i].value && a[i].expiresAt == b[i].expiresAt
  {
    var x, y := NamespaceDigest(a), NamespaceDigest(b);
    if x == y {
      assert |x| == |a| && |y| == |b|;
      forall i | 0 <= i < |a|
        ensures a[i].key == b[i].key && a[i].kind == b[i].kind && a[i].value == b[i].value && a[i].expiresAt == b[i].expiresAt
      {
        assert x[i] == y[i];
      }
    }
  }

  /** A current document cannot be given other items without being refused: key, type, value and
      expiry of each are pinned by the checksums, only the remaining life is not. */
  lemma ItemsArePinned(p: Payload, ns: string, items: seq<Item>)
    requires p.version == 2 && Accepted(p, ns) && Accepted(p.(items := items), ns)
    ensures |items| == |p.items|
    ensures forall i :: 0 <= i < |items| ==>
      && items[i].key == p.items[i].key && items[i].kind == p.items[i].kind
      && items[i].value == p.items[i].value && items[i].expiresAt == p.items[i].expiresAt
  {
    NamespaceDigestIff(NormalItems(items, 2), NormalItems(p.items, 2));
    var a, b := NormalItems(items, 2), NormalItems(p.items, 2);
    forall i | 0 <= i < |items|
      ensures items[i].key == a[i].key && items[i].kind == a[i].kind && items[i].value == a[i].value && items[i].expiresAt == a[i].expiresAt
      ensures p.items[i].key == b[i].key && p.items[i].kind == b[i].kind && p.items[i].value == b[i].value
        && p.items[i].expiresAt == b[i].expiresAt
    {
    }
  }

  /** The namespace holds the same keys with the same data, whatever their expiries. */
  ghost predicate SameContent(s: Store, now: int, t: Store, later: int, prefix: string)
  {
    forall k :: prefix <= k ==> (LiveKey(s, k, now) <==> LiveKey(t, k, later)) && (LiveKey(s, k, now) ==> s[k].data == t[k].data)
  }

  lemma SameListsSameScores(entries: seq<Entry>, a: map<string, real>, b: map<string, real>)
    requires ListsScores(entries, a) && ListsScores(entries, b)
    ensures a == b
  {
    forall m | m in a ensures m in b && b[m] == a[m] { assert Entry(m, a[m]) in entries; }
    forall m | m in b ensures m in a { assert Entry(m, b[m]) in entries; }
  }

  lemma ShowsSameData(s: Store, x: Item, now: int, lag: nat, t: Store, y: Item, later: int, delay: nat)
    requires Shows(s, x, now, lag) && Shows(t, y, later, delay) && x.key == y.key
    requires x.kind == y.kind && x.value == y.value
    ensures s[x.key].data == t[y.key].data
  {
    if x.kind == ZSetKind { SameListsSameScores(x.value.entries, s[x.key].data.scores, t[y.key].data.scores); }
  }

  lemma SameScoresSameLists(a: seq<Entry>, b: seq<Entry>, scores: map<string, real>)
    requires ListsScores(a, scores) && ListsScores(b, scores)
    ensures a == b
  {
    LowerIsTotal();
    forall i, j | 0 <= i < j < |a| ensures Lower(a[i], a[j]) {}
    forall i, j | 0 <= i < j < |b| ensures Lower(b[i], b[j]) {}
    forall e ensures e in a <==> e in b {}
    AscendingIsUnique(Lower, a, b);
  }

  lemma SameDataShowsSame(s: Store, x: Item, now: int, lag: nat, t: Store, y: Item, later: int, delay: nat)
    requires Shows(s, x, now, lag) && Shows(t, y, later, delay) && x.key == y.key
    requires s[x.key].data == t[y.key].data
    ensures x.kind == y.kind && x.value == y.value
  {
    if x.kind == ZSetKind { SameScoresSameLists(x.value.entries, y.value.entries, s[x.key].data.scores); }
  }

  lemma SameItemsSameContent(p: Payload, s: Store, now: int, lag: string -> nat,
                             q: Payload, t: Store, later: int, delay: string -> nat, ns: string)
    requires Documents(p, s, ns, now, lag) && Documents(q, t, ns, later, delay) && |p.items| == |q.items|
    requires forall i :: 0 <= i < |p.items| ==>
      p.items[i].key == q.items[i].key && p.items[i].kind == q.items[i].kind && p.items[i].value == q.items[i].value
    ensures SameContent(s, now, t, later, ns + ":")
  {
    forall k | ns + ":" <= k
      ensures (LiveKey(s, k, now) <==> LiveKey(t, k, later)) && (LiveKey(s, k, now) ==> s[k].data == t[k].data)
    {
      if LiveKey(s, k, now) || LiveKey(t, k, later) {
        assert Listed(p.items, k) || Listed(q.items, k);
        var i :| 0 <= i < |p.items| && p.items[i].key == k;
        assert q.items[i].key == k;
        ShowsSameData(s, p.items[i], now, lag(k), t, q.items[i], later, delay(k));
      }
    }
  }

  lemma SameContentSameItems(p: Payload, s: Store, now: int, lag: string -> nat,
                             q: Payload, t: Store, later: int, delay: string -> nat, ns: string)
    requires Documents(p, s, ns, now, lag) && Documents(q, t, ns, later, delay)
    requires SameContent(s, now, t, later, ns + ":")
    ensures |p.items| == |q.items|
    ensures forall i :: 0 <= i < |p.items| ==>
      p.items[i].key == q.items[i].key && p.items[i].kind == q.items[i].kind && p.items[i].value == q.items[i].value
  {
    SameKeysListed(p, s, now, lag, q, t, later, delay, ns);
    assert KeysOf(p.items) == KeysOf(q.items);
    assert |p.items| == |KeysOf(p.items)| == |q.items|;
    forall i | 0 <= i < |p.items|
      ensures p.items[i].key == q.items[i].key && p.items[i].kind == q.items[i].kind && p.items[i].value == q.items[i].value
    {
      var k := KeysOf(p.items)[i];
      assert k == p.items[i].key && k == KeysOf(q.items)[i] == q.items[i].key;
      SameDataShowsSame(s, p.items[i], now, lag(k), t, q.items[i], later, delay(k));
    }
  }

  lemma ListedIsKey(items: seq<Item>, k: string)
    ensures Listed(items, k) <==> k in KeysOf(items)
  {
    if Listed(items, k) {
      var i :| 0 <= i < |items| && items[i].key == k;
      assert KeysOf(items)[i] == k;
    }
  }

  lemma SameKeysListed(p: Payload, s: Store, now: int, lag: string -> nat,
                       q: Payload, t: Store, later: int, delay: string -> nat, ns: string)
    requires Documents(p, s, ns, now, lag) && Documents(q, t, ns, later, delay)
    requires SameContent(s, now, t, later, ns + ":")
    ensures KeysOf(p.items) == KeysOf(q.items)
  {
    forall k ensures k in KeysOf(p.items) <==> k in KeysOf(q.items) {
      ListedIsKey(p.items, k);
      ListedIsKey(q.items, k);
      if i :| 0 <= i < |p.items| && p.items[i].key == k { assert ns + ":" <= k && LiveKey(s, k, now); }
      if i :| 0 <= i < |q.items| && q.items[i].key == k { assert ns + ":" <= k && LiveKey(t, k, later); }
    }
    BeforeIsTotal();
    forall i, j | 0 <= i < j < |p.items| ensures Before(KeysOf(p.items)[i], KeysOf(p.items)[j]) {}
    forall i, j | 0 <= i < j < |q.items| ensures Before(KeysOf(q.items)[i], KeysOf(q.items)[j]) {}
    AscendingIsUnique(Before, KeysOf(p.items), KeysOf(q.items));
  }

  /** Two exports of a namespace, from any stores at any times, have the same content checksum exactly
      if the namespace held the same keys with the same data. */
  lemma SameChecksumIff(p: Payload, first: Store, namespace: string, ns: string, now: int, lag: string -> nat,
                        q: Payload, other: Store, later: int, delay: string -> nat)
    requires NamespaceOf(namespace, ns)
    requires Exported(p, first, namespace, now, lag) && Exported(q, other, namespace, later, delay)
    ensures p.contentDigest == q.contentDigest <==> SameContent(first, now, other, later, ns + ":")
  {
    ExportedDocuments(p, first, namespace, ns, now, lag);
    ExportedDocuments(q, other, namespace, ns, later, delay);
    ContentDigestIff(p.items, q.items);
    if p.contentDigest == q.contentDigest { SameItemsSameContent(p, first, now, lag, q, other, later, delay, ns); }
    if SameContent(first, now, other, later, ns + ":") { SameContentSameItems(p, first, now, lag, q, other, later, delay, ns); }
  }

  lemma ExportedDocuments(p: Payload, first: Store, namespace: string, ns: string, now: int, lag: string -> nat)
    requires NamespaceOf(namespace, ns) && Exported(p, first, namespace, now, lag)
    ensures Documents(p, first, ns, now, lag) && p.contentDigest == ContentDigest(p.items)
  {
    var second, createdAt, again :|
      createdAt > 0 && Export(first, second, namespace, now, createdAt, lag, again) == Some(p);
    ExportDocuments(first, second, namespace, ns, now, createdAt, lag, again, p);
  }

  // ---------------------------------------------------------------------------------------
  // Which documents are accepted

  /** Type and value of an item go together, and no member of a sorted set occurs twice. */
  ghost predicate Typed(x: Item)
  {
    || (x.kind == StringKind && x.value.Text?)
    || (x.kind == ListKind && x.value.Items?)
    || (x.kind == ZSetKind && x.value.Entries?
        && forall i, j :: 0 <= i < j < |x.value.entries| ==> x.value.entries[i].member != x.value.entries[j].member)
  }

  /** What a current document says of an item's life and value must be consistent. */
  predicate Dated(x: Item)
  {
    && (x.pttl == -1 || x.pttl >= 0) && (x.pttl == -1 <==> x.expiresAt.None?)
    && (x.expiresAt.Some? ==> x.expiresAt.value >= 1)
    && x.digest == Some(ValueDigest(x.kind, x.value))
  }

  /** Checksums, counts, creation time and proof of consistency of a current document. */
  ghost predicate Certified(p: Payload)
  {
    && p.createdAt >= 1 && p.consistencyProven
    && CertifiesAll(p)
    && CountsKinds(p.typeCounts, p.items)
  }

  ghost predicate Certifies(p: Payload, i: nat)
    requires i < |p.items| == |p.namespaceDigest| == |p.contentDigest|
  {
    var x, row, line := p.items[i], p.namespaceDigest[i], p.contentDigest[i];
    && row.key == x.key && row.kind == x.kind && row.digest == ValueDigest(x.kind, x.value) && row.expiresAt == x.expiresAt
    && line.key == x.key && line.kind == x.kind && line.digest == ValueDigest(x.kind, x.value)
  }

  lemma TypedIff(x: Item)
    ensures SupportedKind(x.kind) && ValidValue(x.kind, x.value) <==> Typed(x)
  {
  }

  ghost predicate CertifiesAll(p: Payload)
  {
    |p.namespaceDigest| == |p.items| == |p.contentDigest| && forall i :: 0 <= i < |p.items| ==> Certifies(p, i)
  }

  lemma ChecksumsIff(p: Payload, n: seq<Item>)
    requires n == NormalItems(p.items, 2)
    ensures p.namespaceDigest == NamespaceDigest(n) && p.contentDigest == ContentDigest(n) <==> CertifiesAll(p)
  {
    var rows, lines := NamespaceDigest(n), ContentDigest(n);
    assert |rows| == |n| == |lines|;
    if CertifiesAll(p) {
      forall i | 0 <= i < |n| ensures p.namespaceDigest[i] == rows[i] && p.contentDigest[i] == lines[i] { assert Certifies(p, i); }
      assert p.namespaceDigest == rows && p.contentDigest == lines;
    }
    if p.namespaceDigest == rows && p.contentDigest == lines {
      forall i | 0 <= i < |p.items| ensures Certifies(p, i) {
        assert p.namespaceDigest[i] == rows[i] && p.contentDigest[i] == lines[i];
      }
    }
  }

  lemma SameKindsSameCounts(counts: map<Kind, int>, a: seq<Item>, b: seq<Item>)
    requires |a| == |b| && forall i :: 0 <= i < |a| ==> a[i].kind == b[i].kind
    ensures CountsKinds(counts, a) <==> CountsKinds(counts, b)
  {
    forall kind ensures CountsKind(counts, a, kind) <==> CountsKind(counts, b, kind) {
      assert OfKind(a, kind) == OfKind(b, kind);
    }
  }

  lemma SealedIff(p: Payload)
    requires p.version == 2
    ensures Sealed(p, NormalItems(p.items, 2)) <==> Certified(p)
  {
    var n := NormalItems(p.items, 2);
    CountsKindsIff(p.typeCounts, n);
    SameKindsSameCounts(p.typeCounts, n, p.items);
    ChecksumsIff(p, n);
  }

  /** A document is accepted exactly if it has a known version and this namespace, lists keys of the
      namespace, each once and with a value of its type, states their number correctly if at all, and,
      unless it is a legacy document, is consistent in lives, checksums, counts and proof. */
  lemma AcceptedIff(p: Payload, ns: string)
    ensures Accepted(p, ns) <==>
      && (p.version == 1 || p.version == 2) && p.namespace == ns
      && (forall i :: 0 <= i < |p.items| ==> ns + ":" <= p.items[i].key && Typed(p.items[i]))
      && (forall i, j :: 0 <= i < j < |p.items| ==> p.items[i].key != p.items[j].key)
      && (p.keyCount.None? || p.keyCount.value == |p.items|)
      && (p.version == 2 ==> (forall i :: 0 <= i < |p.items| ==> Dated(p.items[i])) && Certified(p))
  {
    forall i | 0 <= i < |p.items|
      ensures ValidItem(p.items[i], p.version, ns + ":") <==>
        ns + ":" <= p.items[i].key && Typed(p.items[i]) && (p.version == 2 ==> Dated(p.items[i]))
    {
      TypedIff(p.items[i]);
    }
    if p.version == 2 { SealedIff(p); }
  }

  /** An item as restore and verify use it: a legacy item never expires, whatever it says. */
  predicate UsedAs(given: Item, version: int, x: Item)
  {
    && x.key == given.key && x.kind == given.kind && x.value == given.value
    && x.expiresAt == (if version == 1 then None else given.expiresAt)
    && x.pttl == (if version == 1 then -1 else given.pttl)
    && x.digest == Some(ValueDigest(given.kind, given.value))
  }

  /** Each of `given` is used once, as an item of `used`, and nothing else is. */
  ghost predicate UsedAll(given: seq<Item>, version: int, used: seq<Item>)
  {
    && (forall x :: x in used ==> UsedFrom(given, version, x))
    && forall i :: 0 <= i < |given| ==> UsedTo(given[i], version, used)
  }

  ghost predicate UsedTo(given: Item, version: int, used: seq<Item>) { exists x :: x in used && UsedAs(given, version, x) }

  ghost predicate UsedFrom(given: seq<Item>, version: int, x: Item)
  {
    exists i :: 0 <= i < |given| && UsedAs(given[i], version, x)
  }

  lemma SameMembersUsed(given: seq<Item>, version: int, n: seq<Item>, used: seq<Item>)
    requires |n| == |given| && forall i :: 0 <= i < |given| ==> UsedAs(given[i], version, n[i])
    requires forall x :: x in used <==> x in n
    ensures UsedAll(given, version, used)
  {
    forall x | x in used ensures UsedFrom(given, version, x) {
      var i :| 0 <= i < |n| && n[i] == x;
      assert UsedAs(given[i], version, x);
    }
    forall i | 0 <= i < |given| ensures UsedTo(given[i], version, used) {
      assert n[i] in n;
    }
  }

  lemma NormalItemsUsed(items: seq<Item>, version: int, n: seq<Item>)
    requires version == 1 || version == 2
    requires n == NormalItems(items, version)
    ensures |n| == |items| && forall i :: 0 <= i < |items| ==> UsedAs(items[i], version, n[i])
  {
  }

  lemma NormalIsSorted(p: Payload, ns: string, n: seq<Item>, used: seq<Item>)
    requires Accepted(p, ns) && n == NormalItems(p.items, p.version) && used == Normal(p)
    ensures DistinctKeys(n) && KeysAscend(used) && forall x :: x in used <==> x in n
  {
    SortedByKeyMembers(n);
    SortedByKeyAscends(n);
  }

  lemma KeysAreBefore(used: seq<Item>, i: int, j: int)
    requires KeysAscend(used) && 0 <= i < j < |used|
    ensures Before(used[i].key, used[j].key)
  {
    assert Before(KeysOf(used)[i], KeysOf(used)[j]);
  }

  lemma NormalCount(p: Payload, ns: string)
    requires Accepted(p, ns)
    ensures |Normal(p)| == |p.items|
  {
    var n, used := NormalItems(p.items, p.version), Normal(p);
    NormalIsSorted(p, ns, n, used);
    AscendingKeysAreDistinct(used);
    SameMembersSameCount(n, used);
  }

  /** The items of an accepted document as they are used: each once, in order of the keys. */
  lemma UsedItems(p: Payload, ns: string)
    requires Accepted(p, ns)
    ensures UsedAll(p.items, p.version, Normal(p)) && |Normal(p)| == |p.items|
    ensures forall i, j :: 0 <= i < j < |Normal(p)| ==> Before(Normal(p)[i].key, Normal(p)[j].key)
  {
    var n, used := NormalItems(p.items, p.version), Normal(p);
    NormalCount(p, ns);
    NormalIsSorted(p, ns, n, used);
    assert UsedAll(p.items, p.version, used) by {
      NormalItemsUsed(p.items, p.version, n);
      SameMembersUsed(p.items, p.version, n, used);
    }
    forall i, j | 0 <= i < j < |used| ensures Before(used[i].key, used[j].key) { KeysAreBefore(used, i, j); }
  }

  lemma SameMembersSameCount(a: seq<Item>, b: seq<Item>)
    requires DistinctKeys(a) && DistinctKeys(b) && forall x :: x in a <==> x in b
    ensures |a| == |b|
  {
    KeyedCount(a);
    KeyedCount(b);
    assert (set x | x in a) == (set x | x in b);
  }

  // ---------------------------------------------------------------------------------------
  // What a verification reports

  /** The items that have not expired, by key. */
  function StillActive(items: seq<Item>, now: int): set<Item>
  {
    set x | x in items && (x.expiresAt.None? || x.expiresAt.value > now)
  }

  lemma {:induction false} KeyedCount(items: seq<Item>)
    requires DistinctKeys(items)
    ensures |set x | x in items| == |items|
    decreases |items|
  {
    if items != [] {
      var front, last := items[..|items| - 1], items[|items| - 1];
      assert items == front + [last];
      assert forall i :: 0 <= i < |front| ==> front[i].key != last.key;
      KeyedCount(front);
      assert (set x | x in items) == (set x | x in front) + {last};
    }
  }

  function Expiring(items: seq<Item>): set<Item> { set x | x in items && x.expiresAt.Some? }

  lemma {:induction false} TtlCountCounts(items: seq<Item>)
    requires DistinctKeys(items)
    ensures TtlCount(items) == |Expiring(items)|
    decreases |items|
  {
    if items != [] {
      var front, last := items[..|items| - 1], items[|items| - 1];
      assert items == front + [last];
      assert forall i :: 0 <= i < |front| ==> front[i].key != last.key;
      TtlCountCounts(front);
      ExpiringSnoc(front, last);
    }
  }

  lemma ExpiringSnoc(items: seq<Item>, x: Item)
    requires x !in items
    ensures |Expiring(items + [x])| == |Expiring(items)| + if x.expiresAt.Some? then 1 else 0
  {
    assert x !in Expiring(items);
    assert Expiring(items + [x]) == if x.expiresAt.Some? then Expiring(items) + {x} else Expiring(items);
  }

  /** What the counts of a report on `items` have to be: items not expired, expired ones, and the
      active ones that will expire; and its checksum is one row for each active item. */
  ghost predicate Counts(r: VerifyReport, items: seq<Item>, now: int)
  {
    var active := StillActive(items, now);
    && r.activeCount == |active| && r.activeCount + r.expiredCount == |items|
    && r.ttlCount == |set x | x in active && x.expiresAt.Some?|
    && |r.contentDigest| == |active| && forall row :: row in r.contentDigest ==> RowOfActive(row, active)
  }

  ghost predicate RowOfActive(row: ContentRow, active: set<Item>)
  {
    exists x :: x in active && row.key == x.key && row.kind == x.kind && row.digest == ValueDigest(x.kind, x.value)
  }

  lemma ActiveIsStillActive(items: seq<Item>, now: int, active: seq<Item>)
    requires KeysAscend(items) && active == ActiveItems(items, now)
    ensures DistinctKeys(active) && (set x | x in active) == StillActive(items, now)
  {
    ActiveItemsAscend(items, now);
    AscendingKeysAreDistinct(active);
  }

  lemma RowsOfActive(active: seq<Item>)
    ensures |ContentDigest(active)| == |active|
    ensures forall row :: row in ContentDigest(active) ==> RowOfActive(row, set x | x in active)
  {
    var rows := ContentDigest(active);
    forall row | row in rows ensures RowOfActive(row, set x | x in active) {
      var i :| 0 <= i < |rows| && rows[i] == row;
      assert active[i] in active;
    }
  }

  lemma ReportCountsItems(items: seq<Item>, now: int)
    requires KeysAscend(items)
    ensures Counts(ReportOf(items, now), items, now)
  {
    var active := ActiveItems(items, now);
    ActiveIsStillActive(items, now, active);
    KeyedCount(active);
    TtlCountCounts(active);
    RowsOfActive(active);
    assert Expiring(active) == set x | x in StillActive(items, now) && x.expiresAt.Some?;
  }

  /** The report of every successful verification. */
  lemma ReportCounts(p: Payload, ns: string, now: int)
    requires Accepted(p, ns)
    ensures Counts(ReportOf(Normal(p), now), Normal(p), now) && |Normal(p)| == |p.items|
  {
    NormalCount(p, ns);
    NormalIsSorted(p, ns, NormalItems(p.items, p.version), Normal(p));
    ReportCountsItems(Normal(p), now);
  }
}
