/** Backup and restore of one Redis namespace, after services/agent_hub/npd_agent_hub/maintenance.py. */
module Maintenance {
  import opened Sorting
  import opened Stripping
  import opened TextOrder
  import opened Wrappers

  const LEGACY_BACKUP_VERSION := 1
  const BACKUP_VERSION := 2
  const TTL_TOLERANCE_MS := 2000

  // ---------------------------------------------------------------------------------------
  // Redis

  datatype Data =
    | StringData(text: string)
    | ListData(items: seq<string>)
    | ZSetData(scores: map<string, real>)
    | OtherData(name: string)

  /** A stored value and the clock reading, in milliseconds, at which it expires. */
  datatype Cell = Cell(data: Data, expiry: Option<int>)

  type Store = map<string, Cell>

  predicate Alive(c: Cell, now: int) { c.expiry.None? || c.expiry.value > now }

  predicate LiveKey(s: Store, k: string, now: int) { k in s && Alive(s[k], now) }

  /** Redis removes a list or sorted set when its last member goes. */
  ghost predicate WellFormed(s: Store)
  {
    forall k :: k in s ==> s[k].data != ListData([]) && s[k].data != ZSetData(map[])
  }

  /** SCAN with `prefix*`, sorted by the client. */
  function ScanKeys(s: Store, prefix: string, now: int): seq<string>
  {
    SortedText(set k | k in s && prefix <= k && Alive(s[k], now))
  }

  function ZEntries(scores: map<string, real>): set<Entry>
  {
    set m | m in scores :: Entry(m, scores[m])
  }

  /** ZRANGE 0 -1 WITHSCORES. */
  function ZRange(scores: map<string, real>): (r: seq<Entry>)
    ensures Ascending(Lower, r)
    ensures forall e :: e in r <==> e.member in scores && scores[e.member] == e.score
  {
    LowerIsTotal();
    Sort(Lower, ZEntries(scores))
  }

  function Set(s: Store, k: string, text: string): Store { s[k := Cell(StringData(text), None)] }

  function RPush(s: Store, k: string, items: seq<string>, now: int): Store
  {
    if LiveKey(s, k, now) && s[k].data.ListData? then s[k := Cell(ListData(s[k].data.items + items), s[k].expiry)]
    else s[k := Cell(ListData(items), None)]
  }

  function ZAdd(s: Store, k: string, scores: map<string, real>, now: int): Store
  {
    if LiveKey(s, k, now) && s[k].data.ZSetData? then s[k := Cell(ZSetData(s[k].data.scores + scores), s[k].expiry)]
    else s[k := Cell(ZSetData(scores), None)]
  }

  function PExpireAt(s: Store, k: string, at: int, now: int): Store
  {
    if !LiveKey(s, k, now) then s
    else if at <= now then s - {k}
    else s[k := Cell(s[k].data, Some(at))]
  }

  // ---------------------------------------------------------------------------------------
  // The backup document

  datatype Kind = StringKind | ListKind | ZSetKind | OtherKind(name: string)

  datatype Value = Text(text: string) | Items(items: seq<string>) | Entries(entries: seq<Entry>)

  /** SHA-256 digests are ideal: a digest is the canonical content it was taken of. */
  datatype ValueDigest = ValueDigest(kind: Kind, value: Value)
  datatype BoundaryRow = BoundaryRow(key: string, kind: Kind, digest: ValueDigest, expiresAt: Option<int>)
  datatype ContentRow = ContentRow(key: string, kind: Kind, digest: ValueDigest)

  datatype Item = Item(key: string, kind: Kind, value: Value, digest: Option<ValueDigest>,
                       pttl: int, expiresAt: Option<int>)

  datatype Payload = Payload(
    version: int, namespace: string, items: seq<Item>, keyCount: Option<int>, createdAt: int,
    typeCounts: map<Kind, int>, namespaceDigest: seq<BoundaryRow>, contentDigest: seq<ContentRow>,
    consistencyProven: bool)

  function NamespaceDigest(items: seq<Item>): seq<BoundaryRow>
  {
    seq(|items|, i requires 0 <= i < |items| =>
      BoundaryRow(items[i].key, items[i].kind, ValueDigest(items[i].kind, items[i].value), items[i].expiresAt))
  }

  function ContentDigest(items: seq<Item>): seq<ContentRow>
  {
    seq(|items|, i requires 0 <= i < |items| =>
      ContentRow(items[i].key, items[i].kind, ValueDigest(items[i].kind, items[i].value)))
  }

  function TypeCounts(items: seq<Item>): map<Kind, int>
    decreases |items|
  {
    if items == [] then map[]
    else
      var before, kind := TypeCounts(items[..|items| - 1]), items[|items| - 1].kind;
      before[kind := (if kind in before then before[kind] else 0) + 1]
  }

  function KindOf(d: Data): Kind
  {
    match d
    case StringData(_) => StringKind
    case ListData(_) => ListKind
    case ZSetData(_) => ZSetKind
    case OtherData(name) => OtherKind(name)
  }

  function ValueOf(d: Data): Value
    requires !d.OtherData?
  {
    match d
    case StringData(text) => Text(text)
    case ListData(items) => Items(items)
    case ZSetData(scores) => Entries(ZRange(scores))
  }

  /** One key as it is read at `now`; `lag` is the time between the PTTL reply and the clock
      reading that turns it into an absolute expiry. */
  function ReadItem(s: Store, k: string, now: int, lag: nat): Item
    requires LiveKey(s, k, now) && !s[k].data.OtherData?
  {
    var cell := s[k];
    var kind, value := KindOf(cell.data), ValueOf(cell.data);
    match cell.expiry
    case None => Item(k, kind, value, Some(ValueDigest(kind, value)), -1, None)
    case Some(at) => Item(k, kind, value, Some(ValueDigest(kind, value)), at - now, Some(now + lag + (at - now)))
  }

  predicate IsColon(c: char) { c == ':' }

  /** `_namespace`, before it refuses the empty text. */
  function StripColons(s: string): string { Strip(IsColon, s) }

  /** `ns` is the given text without the colons at its two ends. */
  ghost predicate NamespaceOf(given: string, ns: string)
  {
    && (ns != [] ==> ns[0] != ':' && ns[|ns| - 1] != ':')
    && exists i, j :: 0 <= i <= j <= |given| && ns == given[i..j] && OnlyColonsAround(given, i, j)
  }

  predicate OnlyColonsAround(given: string, i: int, j: int)
  {
    forall k :: 0 <= k < |given| && !(i <= k < j) ==> given[k] == ':'
  }

  lemma NamespaceIff(given: string, ns: string)
    ensures ns == StripColons(given) <==> NamespaceOf(given, ns)
  {
    StripIff(IsColon, given, ns);
    if StrippedTo(IsColon, given, ns) {
      var i, j :| DropsAround(IsColon, given, i, j) && ns == given[i..j];
      assert OnlyColonsAround(given, i, j);
    }
    if NamespaceOf(given, ns) {
      var i, j :| 0 <= i <= j <= |given| && ns == given[i..j] && OnlyColonsAround(given, i, j);
      assert DropsAround(IsColon, given, i, j);
    }
  }

  /** A text without outer colons, such as the default one, is its own namespace and no other. */
  lemma OwnNamespace(given: string, ns: string)
    requires given != [] && given[0] != ':' && given[|given| - 1] != ':'
    ensures NamespaceOf(given, ns) <==> ns == given
  {
    assert given == given[0..|given|] && OnlyColonsAround(given, 0, |given|);
    NamespaceIff(given, given);
    NamespaceIff(given, ns);
  }

  predicate Readable(s: Store, keys: seq<string>, now: int)
  {
    forall i :: 0 <= i < |keys| ==> LiveKey(s, keys[i], now) && !s[keys[i]].data.OtherData?
  }

  function ReadAll(s: Store, keys: seq<string>, now: int, lag: string -> nat): (items: seq<Item>)
    requires Readable(s, keys, now)
    ensures |items| == |keys|
    ensures forall i :: 0 <= i < |keys| ==> items[i] == ReadItem(s, keys[i], now, lag(keys[i]))
  {
    seq(|keys|, i requires 0 <= i < |keys| => ReadItem(s, keys[i], now, lag(keys[i])))
  }

  predicate TtlAgrees(a: Option<int>, b: Option<int>)
  {
    && (a.None? <==> b.None?)
    && (a.Some? && b.Some? ==> -TTL_TOLERANCE_MS <= a.value - b.value <= TTL_TOLERANCE_MS)
  }

  predicate SameReading(a: Item, b: Item)
  {
    a.kind == b.kind && a.digest == b.digest && TtlAgrees(a.expiresAt, b.expiresAt)
  }

  /** Export reads the namespace once for the document (`first`) and once to prove that nothing
      moved (`second`). */
  function Export(first: Store, second: Store, namespace: string, now: int, createdAt: int,
                  lag: string -> nat, again: string -> nat): Option<Payload>
  {
    var ns := StripColons(namespace);
    var keys := ScanKeys(first, ns + ":", now);
    if ns == [] || !Readable(first, keys, now) then None
    else
      var items := ReadAll(first, keys, now, lag);
      if ScanKeys(second, ns + ":", now) != keys || !Readable(second, keys, now) then None
      else
        var reread := ReadAll(second, keys, now, again);
        if exists i :: 0 <= i < |items| && !SameReading(items[i], reread[i]) then None
        else Some(Payload(BACKUP_VERSION, ns, items, Some(|items|), createdAt, TypeCounts(items),
                          NamespaceDigest(items), ContentDigest(items), true))
  }

  // ---------------------------------------------------------------------------------------
  // Validation

  predicate SupportedKind(kind: Kind) { !kind.OtherKind? }

  predicate DistinctMembers(entries: seq<Entry>)
  {
    forall i, j :: 0 <= i < j < |entries| ==> entries[i].member != entries[j].member
  }

  /** `_normalize_value`: the shape the kind asks for, and no member twice. */
  predicate ValidValue(kind: Kind, value: Value)
  {
    match kind
    case StringKind => value.Text?
    case ListKind => value.Items?
    case ZSetKind => value.Entries? && DistinctMembers(value.entries)
    case OtherKind(_) => false
  }

  predicate ValidExpiry(item: Item)
  {
    if item.pttl == -1 then item.expiresAt.None?
    else item.pttl >= 0 && item.expiresAt.Some? && item.expiresAt.value > 0
  }

  predicate ValidItem(item: Item, version: int, prefix: string)
  {
    && prefix <= item.key
    && SupportedKind(item.kind)
    && ValidValue(item.kind, item.value)
    && (version == BACKUP_VERSION ==>
          ValidExpiry(item) && item.digest == Some(ValueDigest(item.kind, item.value)))
  }

  /** A legacy item never expires, whatever else it carries. */
  function NormalItem(item: Item, version: int): Item
  {
    if version == LEGACY_BACKUP_VERSION then
      Item(item.key, item.kind, item.value, Some(ValueDigest(item.kind, item.value)), -1, None)
    else item.(digest := Some(ValueDigest(item.kind, item.value)))
  }

  function NormalItems(items: seq<Item>, version: int): (n: seq<Item>)
    ensures |n| == |items| && forall i :: 0 <= i < |items| ==> n[i] == NormalItem(items[i], version)
  {
    seq(|items|, i requires 0 <= i < |items| => NormalItem(items[i], version))
  }

  ghost predicate DistinctKeys(items: seq<Item>)
  {
    forall i, j :: 0 <= i < j < |items| ==> items[i].key != items[j].key
  }

  ghost predicate ValidItems(items: seq<Item>, version: int, prefix: string)
  {
    && (forall i :: 0 <= i < |items| ==> ValidItem(items[i], version, prefix))
    && DistinctKeys(items)
  }

  /** The totals and digests a current document carries about its items. */
  predicate Sealed(p: Payload, items: seq<Item>)
  {
    && p.createdAt > 0 && p.typeCounts == TypeCounts(items)
    && p.namespaceDigest == NamespaceDigest(items) && p.contentDigest == ContentDigest(items)
    && p.consistencyProven
  }

  /** Exactly the documents that restore and verify work on. */
  ghost predicate Accepted(p: Payload, ns: string)
  {
    && (p.version == LEGACY_BACKUP_VERSION || p.version == BACKUP_VERSION)
    && p.namespace == ns
    && ValidItems(p.items, p.version, ns + ":")
    && (p.keyCount.Some? ==> p.keyCount.value == |p.items|)
    && (p.version == BACKUP_VERSION ==> Sealed(p, NormalItems(p.items, p.version)))
  }

  function ByKey(items: seq<Item>): (m: map<string, Item>)
    ensures forall k :: k in m <==> exists i :: 0 <= i < |items| && items[i].key == k
    ensures forall k :: k in m ==> m[k] in items && m[k].key == k
    decreases |items|
  {
    if items == [] then map[]
    else
      var before, last := ByKey(items[..|items| - 1]), items[|items| - 1];
      before[last.key := last]
  }

  function SortedByKey(items: seq<Item>): seq<Item>
  {
    var m := ByKey(items);
    var keys := SortedText(m.Keys);
    seq(|keys|, i requires 0 <= i < |keys| => m[keys[i]])
  }

  /** The validated items in key order. */
  function Normal(p: Payload): seq<Item>
  {
    SortedByKey(NormalItems(p.items, p.version))
  }

  ghost predicate KeysAre(keys: set<string>, items: seq<Item>)
  {
    forall k :: k in keys <==> exists j :: 0 <= j < |items| && items[j].key == k
  }

  lemma KeysSnoc(keys: set<string>, items: seq<Item>, item: Item)
    requires KeysAre(keys, items) && DistinctKeys(items)
    ensures KeysAre(keys + {item.key}, items + [item])
    ensures DistinctKeys(items + [item]) <==> item.key !in keys
  {
    var longer := items + [item];
    forall k ensures k in keys + {item.key} <==> exists j :: 0 <= j < |longer| && longer[j].key == k {
      if j :| 0 <= j < |items| && items[j].key == k { assert longer[j].key == k; }
      if k == item.key { assert longer[|items|].key == k; }
    }
    if j :| 0 <= j < |items| && items[j].key == item.key {
      assert longer[j].key == longer[|items|].key;
    }
  }

  lemma DuplicateStays(items: seq<Item>, n: nat)
    requires n <= |items| && !DistinctKeys(items[..n])
    ensures !DistinctKeys(items)
  {
    var i, j :| 0 <= i < j < n && items[..n][i].key == items[..n][j].key;
    assert items[i].key == items[j].key;
  }

  /** The item loop of `_normalized_items`. */
  method NormalizeAll(items: seq<Item>, version: int, prefix: string) returns (r: Option<seq<Item>>)
    ensures r.Some? <==> ValidItems(items, version, prefix)
    ensures r.Some? ==> r.value == NormalItems(items, version)
  {
    var normalized: seq<Item> := [];
    var keys: set<string> := {};
    for i := 0 to |items|
      invariant forall j :: 0 <= j < i ==> ValidItem(items[j], version, prefix)
      invariant DistinctKeys(items[..i]) && KeysAre(keys, items[..i])
      invariant normalized == NormalItems(items, version)[..i]
    {
      var item := items[i];
      assert items[..i + 1] == items[..i] + [item];
      KeysSnoc(keys, items[..i], item);
      if !(prefix <= item.key) { return None; }
      if item.key in keys {
        DuplicateStays(items, i + 1);
        return None;
      }
      keys := keys + {item.key};
      if !SupportedKind(item.kind) || !ValidValue(item.kind, item.value) { return None; }
      if version == BACKUP_VERSION {
        if !ValidExpiry(item) || item.digest != Some(ValueDigest(item.kind, item.value)) { return None; }
      }
      normalized := normalized + [NormalItem(item, version)];
    }
    assert items[..|items|] == items;
    r := Some(normalized);
  }

  method NormalizedItems(p: Payload, ns: string) returns (r: Option<seq<Item>>)
    ensures r.Some? <==> Accepted(p, ns)
    ensures r.Some? ==> r.value == Normal(p)
  {
    if p.version != LEGACY_BACKUP_VERSION && p.version != BACKUP_VERSION { return None; }
    if p.namespace != ns { return None; }
    var normalized := NormalizeAll(p.items, p.version, ns + ":");
    if normalized.None? { return None; }
    if p.keyCount.Some? && p.keyCount.value != |normalized.value| { return None; }
    if p.version == BACKUP_VERSION {
      if !Sealed(p, normalized.value) { return None; }
    }
    r := Some(SortedByKey(normalized.value));
  }

  // ---------------------------------------------------------------------------------------
  // Verify and restore

  predicate Active(item: Item, now: int) { item.expiresAt.None? || item.expiresAt.value > now }

  function ActiveItems(items: seq<Item>, now: int): seq<Item>
  {
    Filter((x: Item) => Active(x, now), items)
  }

  function KeysOf(items: seq<Item>): (keys: seq<string>)
    ensures |keys| == |items| && forall i :: 0 <= i < |items| ==> keys[i] == items[i].key
  {
    seq(|items|, i requires 0 <= i < |items| => items[i].key)
  }

  /** One live key against the document: type, value digest and expiry within the tolerance. */
  ghost predicate Matches(s: Store, expected: Item, now: int, lag: nat)
  {
    && LiveKey(s, expected.key, now) && !s[expected.key].data.OtherData?
    && var actual := ReadItem(s, expected.key, now, lag);
       actual.kind == expected.kind && actual.digest == expected.digest
       && TtlAgrees(actual.expiresAt, expected.expiresAt)
  }

  ghost predicate AllMatch(s: Store, active: seq<Item>, now: int, lag: string -> nat)
  {
    forall i :: 0 <= i < |active| ==> Matches(s, active[i], now, lag(active[i].key))
  }

  /** What `verify_namespace` checks of an accepted document. */
  ghost predicate Verifies(s: Store, items: seq<Item>, prefix: string, now: int, lag: string -> nat)
  {
    && ScanKeys(s, prefix, now) == KeysOf(ActiveItems(items, now))
    && AllMatch(s, ActiveItems(items, now), now, lag)
  }

  datatype VerifyReport = VerifyReport(activeCount: nat, expiredCount: nat, ttlCount: nat, contentDigest: seq<ContentRow>)

  function TtlCount(items: seq<Item>): nat
    decreases |items|
  {
    if items == [] then 0
    else TtlCount(items[..|items| - 1]) + (if items[|items| - 1].expiresAt.Some? then 1 else 0)
  }

  /** The commands one item queues, executed at `now`. */
  function Applied(s: Store, item: Item, now: int): Store
  {
    var written := match item.value
      case Text(text) => Set(s, item.key, text)
      case Items(items) => if items == [] then s else RPush(s, item.key, items, now)
      case Entries(entries) => if entries == [] then s else ZAdd(s, item.key, Scores(entries), now);
    if item.expiresAt.Some? then PExpireAt(written, item.key, item.expiresAt.value, now) else written
  }

  function Scores(entries: seq<Entry>): (m: map<string, real>)
    ensures forall k :: k in m <==> exists i :: 0 <= i < |entries| && entries[i].member == k
    decreases |entries|
  {
    if entries == [] then map[]
    else
      var last := entries[|entries| - 1];
      Scores(entries[..|entries| - 1])[last.member := last.score]
  }

  function AppliedAll(s: Store, items: seq<Item>, now: int): Store
    decreases |items|
  {
    if items == [] then s else Applied(AppliedAll(s, items[..|items| - 1], now), items[|items| - 1], now)
  }

  /** The store after the restore transaction. */
  function Restored(s: Store, items: seq<Item>, prefix: string, now: int): Store
  {
    var existing := ScanKeys(s, prefix, now);
    AppliedAll(s - (set k | k in existing), ActiveItems(items, now), now)
  }

  datatype Outcome = Refused | WrittenUnverified | Complete(restored: nat)

  /** Each normalised item carries the digest of its own value. */
  ghost predicate Coherent(items: seq<Item>)
  {
    forall i :: 0 <= i < |items| ==> items[i].digest == Some(ValueDigest(items[i].kind, items[i].value))
  }

  lemma SortedByKeyMember(items: seq<Item>, i: nat)
    requires i < |SortedByKey(items)|
    ensures SortedByKey(items)[i] in items
  {
    var keys := SortedText(ByKey(items).Keys);
    assert keys[i] in keys;
  }

  lemma NormalItemsCarryDigests(items: seq<Item>, version: int, x: Item)
    requires x in NormalItems(items, version)
    ensures x.digest == Some(ValueDigest(x.kind, x.value))
  {
  }

  lemma NormalIsCoherent(p: Payload)
    ensures Coherent(Normal(p))
  {
    var n := NormalItems(p.items, p.version);
    forall i | 0 <= i < |SortedByKey(n)| ensures var x := SortedByKey(n)[i]; x.digest == Some(ValueDigest(x.kind, x.value)) {
      SortedByKeyMember(n, i);
      NormalItemsCarryDigests(p.items, p.version, SortedByKey(n)[i]);
    }
  }

  lemma {:induction false} FilterIsCoherent(items: seq<Item>, now: int)
    requires Coherent(items)
    ensures Coherent(ActiveItems(items, now))
  {
    forall i | 0 <= i < |ActiveItems(items, now)|
      ensures var x := ActiveItems(items, now)[i]; x.digest == Some(ValueDigest(x.kind, x.value))
    {
      assert ActiveItems(items, now)[i] in ActiveItems(items, now);
    }
  }

  lemma ScanIsEmptyIff(s: Store, prefix: string, now: int)
    ensures ScanKeys(s, prefix, now) != [] <==> exists k :: prefix <= k && LiveKey(s, k, now)
  {
    var keys := ScanKeys(s, prefix, now);
    assert forall k :: k in keys <==> prefix <= k && LiveKey(s, k, now);
    if keys != [] { assert keys[0] in keys; }
  }

  lemma ScannedAreLive(s: Store, prefix: string, now: int, active: seq<Item>)
    requires ScanKeys(s, prefix, now) == KeysOf(active)
    ensures forall i :: 0 <= i < |active| ==> LiveKey(s, active[i].key, now)
  {
    forall i | 0 <= i < |active| ensures LiveKey(s, active[i].key, now) {
      assert KeysOf(active)[i] in ScanKeys(s, prefix, now);
    }
  }

  class RedisServer {
    var cells: Store

    /** The comparison loop of `verify_namespace`. */
    method Compare(active: seq<Item>, now: int, lag: string -> nat)
        returns (ok: bool, ttlKeyCount: nat, actualItems: seq<Item>)
      requires Coherent(active)
      requires forall i :: 0 <= i < |active| ==> LiveKey(cells, active[i].key, now)
      ensures ok <==> AllMatch(cells, active, now, lag)
      ensures ok ==> ttlKeyCount == TtlCount(active) && ContentDigest(actualItems) == ContentDigest(active)
    {
      ok, actualItems, ttlKeyCount := false, [], 0;
      for i := 0 to |active|
        invariant forall j :: 0 <= j < i ==> Matches(cells, active[j], now, lag(active[j].key))
        invariant ttlKeyCount == TtlCount(active[..i])
        invariant ContentDigest(actualItems) == ContentDigest(active[..i])
      {
        var expected := active[i];
        assert active[..i + 1] == active[..i] + [expected];
        if cells[expected.key].data.OtherData? { return; }
        var actual := ReadItem(cells, expected.key, now, lag(expected.key));
        if actual.kind != expected.kind || actual.digest != expected.digest { return; }
        if expected.expiresAt.None? {
          if actual.expiresAt.Some? { return; }
        } else {
          ttlKeyCount := ttlKeyCount + 1;
          if actual.expiresAt.None? || !TtlAgrees(actual.expiresAt, expected.expiresAt) { return; }
        }
        ContentSnoc(actualItems, active[..i], actual, expected);
        actualItems := actualItems + [actual];
      }
      assert active[..|active|] == active;
      ok := true;
    }

    /** Verification reads at `now`; `lag` delays each expiry reading. */
    method Verify(p: Payload, namespace: string, now: int, lag: string -> nat) returns (r: Option<VerifyReport>)
      ensures forall ns :: NamespaceOf(namespace, ns) ==>
        (r.Some? <==> ns != [] && Accepted(p, ns) && Verifies(cells, Normal(p), ns + ":", now, lag))
      ensures r.Some? ==> r.value == ReportOf(Normal(p), now)
    {
      var ns := StripColons(namespace);
      forall x ensures NamespaceOf(namespace, x) <==> x == ns { NamespaceIff(namespace, x); }
      if ns == [] { return None; }
      var normalized := NormalizedItems(p, ns);
      if normalized.None? { return None; }
      var active := ActiveItems(normalized.value, now);
      var actualKeys := ScanKeys(cells, ns + ":", now);
      if actualKeys != KeysOf(active) { return None; }
      NormalIsCoherent(p);
      FilterIsCoherent(Normal(p), now);
      ScannedAreLive(cells, ns + ":", now, active);
      var ok, ttlKeyCount, actualItems := Compare(active, now, lag);
      if !ok { return None; }
      r := Some(VerifyReport(|active|, |normalized.value| - |active|, ttlKeyCount, ContentDigest(actualItems)));
    }

    method Execute(active: seq<Item>, existing: seq<string>, now: int)
      modifies this
      ensures cells == AppliedAll(old(cells) - (set k | k in existing), active, now)
    {
      var queued := cells - (set k | k in existing);
      ghost var emptied := queued;
      for i := 0 to |active|
        invariant queued == AppliedAll(emptied, active[..i], now)
      {
        assert active[..i + 1][..i] == active[..i];
        queued := Applied(queued, active[i], now);
      }
      assert active[..|active|] == active;
      cells := queued;
    }

    /** `now` is the clock of the filter and the transaction, `later` that of the verification. */
    method Restore(p: Payload, namespace: string, replace: bool, now: int, later: int, lag: string -> nat)
        returns (r: Outcome)
      modifies this
      ensures forall ns :: NamespaceOf(namespace, ns) ==>
        (r.Refused? <==>
          ns == [] || !Accepted(p, ns) || (!replace && exists k :: ns + ":" <= k && LiveKey(old(cells), k, now)))
      ensures r.Refused? ==> cells == old(cells)
      ensures !r.Refused? ==> forall ns :: NamespaceOf(namespace, ns) ==>
        && cells == Restored(old(cells), Normal(p), ns + ":", now)
        && (r.Complete? <==> Verifies(cells, Normal(p), ns + ":", later, lag))
      ensures r.Complete? ==> r.restored == |ActiveItems(Normal(p), now)|
    {
      var ns := StripColons(namespace);
      forall x ensures NamespaceOf(namespace, x) <==> x == ns { NamespaceIff(namespace, x); }
      ScanIsEmptyIff(cells, ns + ":", now);
      if ns == [] { return Refused; }
      var normalized := NormalizedItems(p, ns);
      if normalized.None? { return Refused; }
      var active := ActiveItems(normalized.value, now);
      var existing := ScanKeys(cells, ns + ":", now);
      if existing != [] && !replace { return Refused; }
      Execute(active, existing, now);
      var report := Verify(p, namespace, later, lag);
      r := if report.Some? then Complete(|active|) else WrittenUnverified;
    }
  }

  function ReportOf(items: seq<Item>, now: int): VerifyReport
  {
    var active := ActiveItems(items, now);
    VerifyReport(|active|, |items| - |active|, TtlCount(active), ContentDigest(active))
  }

  lemma ContentSnoc(a: seq<Item>, b: seq<Item>, x: Item, y: Item)
    requires ContentDigest(a) == ContentDigest(b)
    requires x.key == y.key && x.kind == y.kind && ValueDigest(x.kind, x.value) == ValueDigest(y.kind, y.value)
    ensures ContentDigest(a + [x]) == ContentDigest(b + [y])
  {
    assert |a| == |ContentDigest(a)| == |ContentDigest(b)| == |b|;
    forall i | 0 <= i <= |a| ensures ContentDigest(a + [x])[i] == ContentDigest(b + [y])[i] {
      if i < |a| { assert ContentDigest(a)[i] == ContentDigest(b)[i]; }
    }
  }
}
