/** What a restore leaves behind, when it verifies, and that exporting and restoring is lossless. */
module BackupRoundTrip {
  import opened Sorting
  import opened TextOrder
  import opened Wrappers
  import opened Maintenance

  // ---------------------------------------------------------------------------------------
  // The effect of the transaction, key by key

  /** The cell one item leaves behind; an empty list or sorted set leaves none. */
  function CellOf(item: Item): Option<Cell>
  {
    match item.value
    case Text(text) => Some(Cell(StringData(text), item.expiresAt))
    case Items(items) => if items == [] then None else Some(Cell(ListData(items), item.expiresAt))
    case Entries(entries) =>
      if entries == [] then None else Some(Cell(ZSetData(Scores(entries)), item.expiresAt))
  }

  ghost predicate SameAt(a: Store, b: Store, k: string)
  {
    (k in a <==> k in b) && (k in a ==> a[k] == b[k])
  }

  lemma AppliedEffect(s: Store, item: Item, now: int)
    requires Active(item, now) && !LiveKey(s, item.key, now)
    ensures var after := Applied(s, item, now);
      && (CellOf(item).Some? ==> item.key in after && after[item.key] == CellOf(item).value)
      && (CellOf(item).None? ==> SameAt(after, s, item.key))
      && forall k :: k != item.key ==> SameAt(after, s, k)
  {
  }

  ghost predicate NoneLive(s: Store, items: seq<Item>, now: int)
  {
    forall i :: 0 <= i < |items| ==> !LiveKey(s, items[i].key, now)
  }

  ghost predicate AllActive(items: seq<Item>, now: int)
  {
    forall i :: 0 <= i < |items| ==> Active(items[i], now)
  }

  ghost predicate LeftBehind(after: Store, s: Store, item: Item)
  {
    && (CellOf(item).Some? ==> item.key in after && after[item.key] == CellOf(item).value)
    && (CellOf(item).None? ==> SameAt(after, s, item.key))
  }

  lemma {:induction false} AppliedAllEffect(s: Store, items: seq<Item>, now: int)
    requires DistinctKeys(items) && AllActive(items, now) && NoneLive(s, items, now)
    ensures forall i :: 0 <= i < |items| ==> LeftBehind(AppliedAll(s, items, now), s, items[i])
    ensures forall k :: (forall i :: 0 <= i < |items| ==> items[i].key != k) ==> SameAt(AppliedAll(s, items, now), s, k)
    decreases |items|
  {
    if items != [] {
      var n := |items| - 1;
      var front, last := items[..n], items[n];
      assert forall i :: 0 <= i < n ==> front[i] == items[i];
      AppliedAllEffect(s, front, now);
      var middle := AppliedAll(s, front, now);
      assert SameAt(middle, s, last.key);
      AppliedEffect(middle, last, now);
      forall i | 0 <= i < |items| ensures LeftBehind(AppliedAll(s, items, now), s, items[i]) {
        if i < n { assert LeftBehind(middle, s, front[i]) && items[i].key != last.key; }
      }
      forall k | forall i :: 0 <= i < |items| ==> items[i].key != k ensures SameAt(AppliedAll(s, items, now), s, k) {
        assert items[n].key != k;
        assert SameAt(middle, s, k);
      }
    }
  }

  // ---------------------------------------------------------------------------------------
  // Validated items

  lemma {:induction false} ByKeyFinds(items: seq<Item>, i: nat)
    requires DistinctKeys(items) && i < |items|
    ensures ByKey(items)[items[i].key] == items[i]
    decreases |items|
  {
    var n := |items| - 1;
    if i < n {
      assert items[i].key != items[n].key;
      assert items[..n][i] == items[i];
      ByKeyFinds(items[..n], i);
    }
  }

  ghost predicate KeysAscend(items: seq<Item>)
  {
    Ascending(Before, KeysOf(items))
  }

  lemma AscendingKeysAreDistinct(items: seq<Item>)
    requires KeysAscend(items)
    ensures DistinctKeys(items)
  {
    forall i, j | 0 <= i < j < |items| ensures items[i].key != items[j].key {
      assert Before(KeysOf(items)[i], KeysOf(items)[j]);
      Irreflexive(items[i].key);
    }
  }

  lemma SortedByKeyAscends(items: seq<Item>)
    ensures KeysAscend(SortedByKey(items))
    ensures forall x :: x in SortedByKey(items) ==> x in items
  {
    var m := ByKey(items);
    var keys, s := SortedText(m.Keys), SortedByKey(items);
    forall i | 0 <= i < |keys| ensures s[i].key == keys[i] && s[i] in items {
      assert keys[i] in keys;
      assert ByKey(items)[keys[i]] in items;
    }
    assert KeysOf(s) == keys;
  }

  lemma SortedByKeyKeepsAll(items: seq<Item>, i: nat)
    requires DistinctKeys(items) && i < |items|
    ensures items[i] in SortedByKey(items)
  {
    ByKeyFinds(items, i);
    var keys := SortedText(ByKey(items).Keys);
    assert items[i].key in keys;
    var j :| 0 <= j < |keys| && keys[j] == items[i].key;
    assert SortedByKey(items)[j] == items[i];
  }

  lemma KeysOfMembers(items: seq<Item>, k: string)
    ensures k in KeysOf(items) <==> exists x :: x in items && x.key == k
  {
    if k in KeysOf(items) {
      var i :| 0 <= i < |items| && KeysOf(items)[i] == k;
      assert items[i] in items;
    }
    if x :| x in items && x.key == k {
      var i :| 0 <= i < |items| && items[i] == x;
      assert KeysOf(items)[i] == k;
    }
  }

  lemma SortedByKeyMembers(items: seq<Item>)
    requires DistinctKeys(items)
    ensures forall x :: x in SortedByKey(items) <==> x in items
  {
    SortedByKeyAscends(items);
    forall x | x in items ensures x in SortedByKey(items) {
      var i :| 0 <= i < |items| && items[i] == x;
      SortedByKeyKeepsAll(items, i);
    }
  }

  lemma SameKeySameItem(items: seq<Item>, x: Item, i: nat)
    requires DistinctKeys(items) && i < |items| && x in items && x.key == items[i].key
    ensures x == items[i]
  {
    var j :| 0 <= j < |items| && items[j] == x;
    assert !(j < i) && !(i < j);
  }

  /** Sorting items whose keys already ascend changes nothing. */
  lemma SortedKeysFixed(items: seq<Item>)
    requires KeysAscend(items)
    ensures KeysOf(SortedByKey(items)) == KeysOf(items)
  {
    var s := SortedByKey(items);
    AscendingKeysAreDistinct(items);
    SortedByKeyAscends(items);
    SortedByKeyMembers(items);
    forall k ensures k in KeysOf(s) <==> k in KeysOf(items) {
      KeysOfMembers(s, k);
      KeysOfMembers(items, k);
    }
    BeforeIsTotal();
    AscendingIsUnique(Before, KeysOf(s), KeysOf(items));
  }

  lemma SortedByKeyFixed(items: seq<Item>)
    requires KeysAscend(items)
    ensures SortedByKey(items) == items
  {
    var s := SortedByKey(items);
    SortedKeysFixed(items);
    SortedByKeyAscends(items);
    AscendingKeysAreDistinct(items);
    assert |s| == |KeysOf(s)| == |items|;
    forall i | 0 <= i < |items| ensures s[i] == items[i] {
      assert KeysOf(s)[i] == KeysOf(items)[i];
      assert s[i] in s;
      SameKeySameItem(items, s[i], i);
    }
  }

  /** What acceptance says of the validated items. */
  ghost predicate Ready(items: seq<Item>, prefix: string)
  {
    && KeysAscend(items) && Coherent(items)
    && forall x :: x in items ==> prefix <= x.key && SupportedKind(x.kind) && ValidValue(x.kind, x.value)
  }

  lemma AcceptedItems(p: Payload, ns: string)
    requires Accepted(p, ns)
    ensures Ready(Normal(p), ns + ":")
  {
    SortedByKeyAscends(NormalItems(p.items, p.version));
    NormalIsCoherent(p);
    forall x | x in Normal(p) ensures ns + ":" <= x.key && SupportedKind(x.kind) && ValidValue(x.kind, x.value) {
      var n := NormalItems(p.items, p.version);
      var i :| 0 <= i < |n| && n[i] == x;
      assert ValidItem(p.items[i], p.version, ns + ":");
    }
  }

  lemma ActiveItemsAscend(items: seq<Item>, now: int)
    requires KeysAscend(items)
    ensures KeysAscend(ActiveItems(items, now)) && AllActive(ActiveItems(items, now), now)
    ensures forall x :: x in ActiveItems(items, now) <==> x in items && Active(x, now)
  {
    var earlier := (a: Item, b: Item) => Before(a.key, b.key);
    forall i, j | 0 <= i < j < |items| ensures earlier(items[i], items[j]) {
      assert Before(KeysOf(items)[i], KeysOf(items)[j]);
    }
    FilterKeepsAscending(earlier, (x: Item) => Active(x, now), items);
    var a := ActiveItems(items, now);
    forall i, j | 0 <= i < j < |a| ensures Before(KeysOf(a)[i], KeysOf(a)[j]) {
      assert earlier(a[i], a[j]);
    }
    forall i | 0 <= i < |a| ensures Active(a[i], now) { assert a[i] in a; }
  }

  // ---------------------------------------------------------------------------------------
  // The restored store

  function Emptied(s: Store, prefix: string, now: int): Store
  {
    s - (set k | k in ScanKeys(s, prefix, now))
  }

  lemma EmptiedHasNone(s: Store, prefix: string, now: int)
    ensures forall k :: prefix <= k ==> !LiveKey(Emptied(s, prefix, now), k, now)
    ensures forall k :: !(prefix <= k) ==> SameAt(Emptied(s, prefix, now), s, k)
  {
    var gone := set k | k in ScanKeys(s, prefix, now);
    assert forall k :: k in gone <==> k in s && prefix <= k && Alive(s[k], now);
  }

  ghost predicate Untouched(items: seq<Item>, k: string, t: int)
  {
    forall x :: x in items && Active(x, t) ==> x.key != k
  }

  lemma TransactionEffect(s: Store, items: seq<Item>, prefix: string, now: int)
    requires Ready(items, prefix)
    ensures DistinctKeys(ActiveItems(items, now)) && AllActive(ActiveItems(items, now), now)
    ensures NoneLive(Emptied(s, prefix, now), ActiveItems(items, now), now)
    ensures forall x :: x in ActiveItems(items, now) <==> x in items && Active(x, now)
  {
    var active := ActiveItems(items, now);
    ActiveItemsAscend(items, now);
    AscendingKeysAreDistinct(active);
    EmptiedHasNone(s, prefix, now);
    forall i | 0 <= i < |active| ensures !LiveKey(Emptied(s, prefix, now), active[i].key, now) {
      assert active[i] in active;
    }
  }

  lemma RestoredItem(s: Store, items: seq<Item>, prefix: string, now: int, x: Item)
    requires Ready(items, prefix) && x in items && Active(x, now)
    ensures LeftBehind(Restored(s, items, prefix, now), Emptied(s, prefix, now), x)
  {
    var active := ActiveItems(items, now);
    TransactionEffect(s, items, prefix, now);
    AppliedAllEffect(Emptied(s, prefix, now), active, now);
    var i :| 0 <= i < |active| && active[i] == x;
  }

  lemma RestoredElsewhere(s: Store, items: seq<Item>, prefix: string, now: int, k: string)
    requires Ready(items, prefix) && Untouched(items, k, now)
    ensures SameAt(Restored(s, items, prefix, now), Emptied(s, prefix, now), k)
  {
    var active := ActiveItems(items, now);
    TransactionEffect(s, items, prefix, now);
    AppliedAllEffect(Emptied(s, prefix, now), active, now);
    forall i | 0 <= i < |active| ensures active[i].key != k { assert active[i] in active; }
  }

  /** Frame: keys outside the namespace are untouched by an accepted restore. (A refused one
      changes nothing at all, which is part of the contract of `Restore`.) */
  lemma RestoreFrame(s: Store, p: Payload, ns: string, now: int, k: string)
    requires Accepted(p, ns) && !(ns + ":" <= k)
    ensures SameAt(Restored(s, Normal(p), ns + ":", now), s, k)
  {
    AcceptedItems(p, ns);
    RestoredElsewhere(s, Normal(p), ns + ":", now, k);
    EmptiedHasNone(s, ns + ":", now);
  }

  /** The item that an active key of the namespace comes from. */
  ghost predicate Source(x: Item, items: seq<Item>, k: string, t: int)
  {
    x in items && x.key == k && Active(x, t) && CellOf(x).Some?
  }

  lemma SourceIsLive(s: Store, items: seq<Item>, prefix: string, now: int, later: int, x: Item)
    requires Ready(items, prefix) && now <= later && Source(x, items, x.key, later)
    ensures x.key in Restored(s, items, prefix, now) && Restored(s, items, prefix, now)[x.key] == CellOf(x).value
    ensures LiveKey(Restored(s, items, prefix, now), x.key, later)
  {
    RestoredItem(s, items, prefix, now, x);
  }

  lemma LiveWasTouched(s: Store, items: seq<Item>, prefix: string, now: int, later: int, k: string)
    requires Ready(items, prefix) && prefix <= k && now <= later
    requires LiveKey(Restored(s, items, prefix, now), k, later)
    ensures !SameAt(Restored(s, items, prefix, now), Emptied(s, prefix, now), k)
    ensures !Untouched(items, k, now)
  {
    EmptiedHasNone(s, prefix, now);
    assert !LiveKey(Emptied(s, prefix, now), k, now);
    if Untouched(items, k, now) {
      RestoredElsewhere(s, items, prefix, now, k);
    }
  }

  lemma LiveHasSource(s: Store, items: seq<Item>, prefix: string, now: int, later: int, k: string)
    requires Ready(items, prefix) && prefix <= k && now <= later
    requires LiveKey(Restored(s, items, prefix, now), k, later)
    ensures exists x :: Source(x, items, k, later)
  {
    LiveWasTouched(s, items, prefix, now, later, k);
    var x :| x in items && Active(x, now) && x.key == k;
    RestoredItem(s, items, prefix, now, x);
    ChangedByItem(Restored(s, items, prefix, now), Emptied(s, prefix, now), x, later);
    assert Source(x, items, k, later);
  }

  lemma ChangedByItem(after: Store, emptied: Store, x: Item, later: int)
    requires LeftBehind(after, emptied, x) && !SameAt(after, emptied, x.key) && LiveKey(after, x.key, later)
    ensures CellOf(x).Some? && Active(x, later)
  {
  }

  /** A key of the namespace is live after the restore exactly when some item that is still
      active carries it and leaves a cell; the cell is then that item's. */
  lemma RestoredLive(s: Store, items: seq<Item>, prefix: string, now: int, later: int, k: string)
    requires Ready(items, prefix) && prefix <= k && now <= later
    ensures LiveKey(Restored(s, items, prefix, now), k, later) <==> exists x :: Source(x, items, k, later)
    ensures forall x :: Source(x, items, k, later) ==>
      k in Restored(s, items, prefix, now) && Restored(s, items, prefix, now)[k] == CellOf(x).value
  {
    if LiveKey(Restored(s, items, prefix, now), k, later) {
      LiveHasSource(s, items, prefix, now, later, k);
    }
    forall x | Source(x, items, k, later)
      ensures k in Restored(s, items, prefix, now) && Restored(s, items, prefix, now)[k] == CellOf(x).value
      ensures LiveKey(Restored(s, items, prefix, now), k, later)
    {
      SourceIsLive(s, items, prefix, now, later, x);
    }
  }

  // ---------------------------------------------------------------------------------------
  // When a restore verifies

  /** The item survives a write and a read unchanged: no empty list or sorted set, and sorted-set
      entries in the order Redis will list them. */
  ghost predicate Canonical(item: Item)
  {
    match item.value
    case Text(_) => true
    case Items(items) => items != []
    case Entries(entries) => entries != [] && Ascending(Lower, entries)
  }

  lemma {:induction false} ScoresHold(entries: seq<Entry>, i: nat)
    requires DistinctMembers(entries) && i < |entries|
    ensures entries[i].member in Scores(entries) && Scores(entries)[entries[i].member] == entries[i].score
    decreases |entries|
  {
    var n := |entries| - 1;
    if i < n {
      assert entries[..n][i] == entries[i] && entries[i].member != entries[n].member;
      ScoresHold(entries[..n], i);
    }
  }

  lemma EntriesOfScores(entries: seq<Entry>, e: Entry)
    requires DistinctMembers(entries)
    ensures e in ZEntries(Scores(entries)) <==> e in entries
  {
    if e in entries {
      var i :| 0 <= i < |entries| && entries[i] == e;
      ScoresHold(entries, i);
    }
    if e in ZEntries(Scores(entries)) {
      var i :| 0 <= i < |entries| && entries[i].member == e.member;
      ScoresHold(entries, i);
    }
  }

  /** Writing entries and listing them back returns them exactly when they were in order. */
  lemma ZRangeOfScores(entries: seq<Entry>)
    requires DistinctMembers(entries)
    ensures ZRange(Scores(entries)) == entries <==> Ascending(Lower, entries)
  {
    LowerIsTotal();
    if Ascending(Lower, entries) {
      forall e ensures e in ZRange(Scores(entries)) <==> e in entries { EntriesOfScores(entries, e); }
      AscendingIsUnique(Lower, ZRange(Scores(entries)), entries);
    }
  }

  /** The round trip of one value through Redis. */
  lemma ValueSurvivesIff(x: Item)
    requires SupportedKind(x.kind) && ValidValue(x.kind, x.value) && CellOf(x).Some?
    ensures !CellOf(x).value.data.OtherData? && KindOf(CellOf(x).value.data) == x.kind
    ensures ValueOf(CellOf(x).value.data) == x.value <==> Canonical(x)
  {
    if x.value.Entries? { ZRangeOfScores(x.value.entries); }
  }

  ghost predicate TimelyTtl(x: Item, lag: string -> nat)
  {
    x.expiresAt.Some? ==> lag(x.key) <= 2000
  }

  lemma MatchesIff(s: Store, x: Item, t: int, lag: string -> nat)
    requires SupportedKind(x.kind) && ValidValue(x.kind, x.value) && x.digest == Some(ValueDigest(x.kind, x.value))
    requires Active(x, t) && CellOf(x).Some? && x.key in s && s[x.key] == CellOf(x).value
    ensures Matches(s, x, t, lag(x.key)) <==> Canonical(x) && TimelyTtl(x, lag)
  {
    ValueSurvivesIff(x);
  }

  lemma UniqueSource(items: seq<Item>, x: Item, y: Item)
    requires KeysAscend(items) && x in items && y in items && x.key == y.key
    ensures x == y
  {
    AscendingKeysAreDistinct(items);
    var i :| 0 <= i < |items| && items[i] == y;
    SameKeySameItem(items, x, i);
  }

  /** The restored keys are the document's active keys exactly when no active item is empty. */
  lemma KeySetsAgreeIff(s: Store, items: seq<Item>, prefix: string, now: int, later: int)
    requires Ready(items, prefix) && now <= later
    ensures ScanKeys(Restored(s, items, prefix, now), prefix, later) == KeysOf(ActiveItems(items, later))
       <==> forall x :: x in items && Active(x, later) ==> CellOf(x).Some?
  {
    var after, active := Restored(s, items, prefix, now), ActiveItems(items, later);
    var scanned, expected := ScanKeys(after, prefix, later), KeysOf(active);
    ActiveItemsAscend(items, later);
    if scanned == expected {
      forall x | x in items && Active(x, later) ensures CellOf(x).Some? {
        assert x in active;
        var i :| 0 <= i < |active| && active[i] == x;
        assert expected[i] in scanned;
        RestoredLive(s, items, prefix, now, later, x.key);
        var y :| Source(y, items, x.key, later);
        UniqueSource(items, x, y);
      }
    }
    if forall x :: x in items && Active(x, later) ==> CellOf(x).Some? {
      forall k ensures k in scanned <==> k in expected {
        ScannedIffExpected(s, items, prefix, now, later, k);
      }
      BeforeIsTotal();
      AscendingIsUnique(Before, scanned, expected);
    }
  }

  lemma ExpectedIff(items: seq<Item>, later: int, k: string)
    requires forall x :: x in items && Active(x, later) ==> CellOf(x).Some?
    ensures k in KeysOf(ActiveItems(items, later)) <==> exists x :: Source(x, items, k, later)
  {
    var active := ActiveItems(items, later);
    if k in KeysOf(active) {
      var i :| 0 <= i < |active| && KeysOf(active)[i] == k;
      assert active[i] in active;
      assert Source(active[i], items, k, later);
    }
    if x :| Source(x, items, k, later) {
      assert x in active;
      var i :| 0 <= i < |active| && active[i] == x;
      assert KeysOf(active)[i] == k;
    }
  }

  lemma SourcesHavePrefix(items: seq<Item>, prefix: string, later: int, k: string)
    requires Ready(items, prefix) && exists x :: Source(x, items, k, later)
    ensures prefix <= k
  {
  }

  lemma ScannedIffExpected(s: Store, items: seq<Item>, prefix: string, now: int, later: int, k: string)
    requires Ready(items, prefix) && now <= later
    requires forall x :: x in items && Active(x, later) ==> CellOf(x).Some?
    ensures k in ScanKeys(Restored(s, items, prefix, now), prefix, later)
       <==> k in KeysOf(ActiveItems(items, later))
  {
    ExpectedIff(items, later, k);
    if exists x :: Source(x, items, k, later) { SourcesHavePrefix(items, prefix, later, k); }
    if prefix <= k { RestoredLive(s, items, prefix, now, later, k); }
  }

  ghost predicate Faithful(x: Item, lag: string -> nat) { Canonical(x) && TimelyTtl(x, lag) }

  lemma ActiveItemMatchesIff(s: Store, items: seq<Item>, prefix: string, now: int, later: int, lag: string -> nat, x: Item)
    requires Ready(items, prefix) && now <= later && Source(x, items, x.key, later)
    ensures Matches(Restored(s, items, prefix, now), x, later, lag(x.key)) <==> Faithful(x, lag)
  {
    SourceIsLive(s, items, prefix, now, later, x);
    CoherentAt(items, x);
    MatchesIff(Restored(s, items, prefix, now), x, later, lag);
  }

  lemma AllMatchIff(s: Store, items: seq<Item>, prefix: string, now: int, later: int, lag: string -> nat)
    requires Ready(items, prefix) && now <= later
    requires forall x :: x in items && Active(x, later) ==> CellOf(x).Some?
    ensures AllMatch(Restored(s, items, prefix, now), ActiveItems(items, later), later, lag)
       <==> forall x :: x in items && Active(x, later) ==> Faithful(x, lag)
  {
    var after, active := Restored(s, items, prefix, now), ActiveItems(items, later);
    ActiveItemsAscend(items, later);
    forall x | x in active ensures Matches(after, x, later, lag(x.key)) <==> Faithful(x, lag) {
      ActiveItemMatchesIff(s, items, prefix, now, later, lag, x);
    }
    if AllMatch(after, active, later, lag) {
      forall x | x in items && Active(x, later) ensures Faithful(x, lag) {
        assert x in active;
        var i :| 0 <= i < |active| && active[i] == x;
      }
    }
  }

  ghost predicate AllFaithful(items: seq<Item>, later: int, lag: string -> nat)
  {
    forall x :: x in items && Active(x, later) ==> Faithful(x, lag)
  }

  lemma FaithfulHaveCells(items: seq<Item>, later: int, lag: string -> nat)
    requires AllFaithful(items, later, lag)
    ensures forall x :: x in items && Active(x, later) ==> CellOf(x).Some?
  {
  }

  /** A restore verifies exactly when every item still active is canonical and its expiry is read
      within the tolerance. Validation does not ask for canonical items, so a document with an
      empty list, say, is accepted, written, and only then found not to match. */
  lemma RestoreVerifiesIff(s: Store, items: seq<Item>, prefix: string, now: int, later: int, lag: string -> nat)
    requires Ready(items, prefix) && now <= later
    ensures Verifies(Restored(s, items, prefix, now), items, prefix, later, lag)
       <==> forall x :: x in items && Active(x, later) ==> Faithful(x, lag)
  {
    KeySetsAgreeIff(s, items, prefix, now, later);
    if AllFaithful(items, later, lag) { FaithfulHaveCells(items, later, lag); }
    if forall x :: x in items && Active(x, later) ==> CellOf(x).Some? { AllMatchIff(s, items, prefix, now, later, lag); }
  }

  lemma CoherentAt(items: seq<Item>, x: Item)
    requires Coherent(items) && x in items
    ensures x.digest == Some(ValueDigest(x.kind, x.value))
  {
  }

  /** For instance: a legacy document whose only item is an empty list is accepted, yet no restore
      of it ever verifies, whatever the target held. */
  lemma EmptyListNeverVerifies(s: Store, ns: string, name: string, now: int, later: int, lag: string -> nat)
    requires now <= later
    ensures var item := Item(ns + ":" + name, ListKind, Items([]), None, -1, None);
      var p := Payload(LEGACY_BACKUP_VERSION, ns, [item], None, 0, map[], [], [], false);
      Accepted(p, ns) && !Verifies(Restored(s, Normal(p), ns + ":", now), Normal(p), ns + ":", later, lag)
  {
    var item := Item(ns + ":" + name, ListKind, Items([]), None, -1, None);
    var p := Payload(LEGACY_BACKUP_VERSION, ns, [item], None, 0, map[], [], [], false);
    assert Accepted(p, ns);
    AcceptedItems(p, ns);
    var n := NormalItems(p.items, p.version);
    assert KeysAscend(n) && n[0] in n;
    SortedByKeyFixed(n);
    assert Normal(p) == n && !Canonical(n[0]) && Active(n[0], later);
    RestoreVerifiesIff(s, Normal(p), ns + ":", now, later, lag);
    assert !Faithful(n[0], lag);
  }

  // ---------------------------------------------------------------------------------------
  // Export

  lemma ZRangeMembersDistinct(scores: map<string, real>)
    ensures DistinctMembers(ZRange(scores))
  {
    LowerIsTotal();
    var r := ZRange(scores);
    forall i, j | 0 <= i < j < |r| ensures r[i].member != r[j].member {
      assert r[i] in r && r[j] in r && Lower(r[i], r[j]);
    }
  }

  lemma ScoresLookup(entries: seq<Entry>, e: Entry)
    requires DistinctMembers(entries) && e in entries
    ensures e.member in Scores(entries) && Scores(entries)[e.member] == e.score
  {
    var i :| 0 <= i < |entries| && entries[i] == e;
    ScoresHold(entries, i);
  }

  lemma ScoresOfZRange(scores: map<string, real>)
    ensures Scores(ZRange(scores)) == scores
    ensures ZRange(scores) == [] <==> scores == map[]
  {
    ZRangeMembersDistinct(scores);
    var r := ZRange(scores);
    forall m | m in scores ensures m in Scores(r) && Scores(r)[m] == scores[m] && r != [] {
      ScoresLookup(r, Entry(m, scores[m]));
    }
    forall m | m in Scores(r) ensures m in scores {
      var i :| 0 <= i < |r| && r[i].member == m;
      assert r[i] in r;
    }
    if r != [] { assert r[0] in r; }
  }

  lemma DataIsFaithful(d: Data, x: Item)
    requires !d.OtherData? && d != ListData([]) && d != ZSetData(map[])
    requires x.kind == KindOf(d) && x.value == ValueOf(d)
    ensures SupportedKind(x.kind) && ValidValue(x.kind, x.value) && Canonical(x)
    ensures CellOf(x) == Some(Cell(d, x.expiresAt))
  {
    if d.ZSetData? {
      ZRangeMembersDistinct(d.scores);
      ScoresOfZRange(d.scores);
      LowerIsTotal();
    }
  }

  /** One exported key is valid, keeps its data, and moves its expiry by the reading delay. */
  lemma ReadItemIsFaithful(s: Store, k: string, now: int, lag: nat)
    requires WellFormed(s) && LiveKey(s, k, now) && !s[k].data.OtherData? && now >= 0
    ensures var x := ReadItem(s, k, now, lag);
      && x.key == k && SupportedKind(x.kind) && ValidValue(x.kind, x.value) && ValidExpiry(x) && Canonical(x)
      && x.digest == Some(ValueDigest(x.kind, x.value))
      && CellOf(x) == Some(Cell(s[k].data, Delayed(s[k].expiry, lag)))
  {
    DataIsFaithful(s[k].data, ReadItem(s, k, now, lag));
  }

  function Delayed(expiry: Option<int>, lag: nat): Option<int>
  {
    if expiry.Some? then Some(expiry.value + lag) else None
  }

  lemma ReadAllIsFaithful(s: Store, prefix: string, now: int, lag: string -> nat)
    requires WellFormed(s) && now >= 0 && Readable(s, ScanKeys(s, prefix, now), now)
    ensures var items := ReadAll(s, ScanKeys(s, prefix, now), now, lag);
      && ValidItems(items, BACKUP_VERSION, prefix) && KeysAscend(items)
      && NormalItems(items, BACKUP_VERSION) == items
      && (forall x :: x in items ==> Canonical(x))
  {
    var keys := ScanKeys(s, prefix, now);
    var items := ReadAll(s, keys, now, lag);
    forall i | 0 <= i < |items|
      ensures ValidItem(items[i], BACKUP_VERSION, prefix) && Canonical(items[i])
      ensures items[i].key == keys[i] && NormalItem(items[i], BACKUP_VERSION) == items[i]
    {
      assert keys[i] in keys;
      ReadItemIsFaithful(s, keys[i], now, lag(keys[i]));
    }
    assert KeysOf(items) == keys;
    AscendingKeysAreDistinct(items);
  }

  /** The document of a successful export is one that restore accepts, already in key order, and
      all of its items are canonical. */
  lemma ExportIsAccepted(first: Store, second: Store, namespace: string, ns: string, now: int, createdAt: int,
                         lag: string -> nat, again: string -> nat, p: Payload)
    requires NamespaceOf(namespace, ns)
    requires WellFormed(first) && now >= 0 && createdAt > 0
    requires Export(first, second, namespace, now, createdAt, lag, again) == Some(p)
    ensures Accepted(p, ns) && Normal(p) == p.items
    ensures forall x :: x in p.items ==> Canonical(x)
  {
    NamespaceIff(namespace, ns);
    ReadAllIsFaithful(first, ns + ":", now, lag);
    SortedByKeyFixed(p.items);
  }

  lemma QuietKeys(first: Store, second: Store, namespace: string, ns: string, now: int, createdAt: int,
                  lag: string -> nat, again: string -> nat)
    requires NamespaceOf(namespace, ns)
    requires Export(first, second, namespace, now, createdAt, lag, again).Some?
    ensures var keys := ScanKeys(first, ns + ":", now);
      && ScanKeys(second, ns + ":", now) == keys
      && Readable(first, keys, now) && Readable(second, keys, now)
      && forall i :: 0 <= i < |keys| ==>
           SameReading(ReadItem(first, keys[i], now, lag(keys[i])), ReadItem(second, keys[i], now, again(keys[i])))
  {
    NamespaceIff(namespace, ns);
    var keys := ScanKeys(first, ns + ":", now);
    var items, reread := ReadAll(first, keys, now, lag), ReadAll(second, keys, now, again);
    assert forall i :: 0 <= i < |items| ==> SameReading(items[i], reread[i]);
  }

  /** No expiry on either side, or two at most two seconds apart. */
  predicate TwoSecondsApart(a: Option<int>, b: Option<int>)
  {
    if a.Some? && b.Some? then a.value - 2000 <= b.value <= a.value + 2000 else a.None? && b.None?
  }

  lemma SameReadingMeans(first: Store, second: Store, k: string, now: int, lag: nat, again: nat)
    requires LiveKey(first, k, now) && !first[k].data.OtherData?
    requires LiveKey(second, k, now) && !second[k].data.OtherData?
    requires SameReading(ReadItem(first, k, now, lag), ReadItem(second, k, now, again))
    ensures KindOf(first[k].data) == KindOf(second[k].data) && ValueOf(first[k].data) == ValueOf(second[k].data)
    ensures TwoSecondsApart(Delayed(first[k].expiry, lag), Delayed(second[k].expiry, again))
  {
  }

  /** A successful export is evidence that the namespace stood still between its two readings. */
  lemma ExportProvesQuiescence(first: Store, second: Store, namespace: string, ns: string, now: int, createdAt: int,
                               lag: string -> nat, again: string -> nat, k: string)
    requires NamespaceOf(namespace, ns)
    requires Export(first, second, namespace, now, createdAt, lag, again).Some?
    requires ns + ":" <= k
    ensures LiveKey(first, k, now) <==> LiveKey(second, k, now)
    ensures LiveKey(first, k, now) ==>
      && !first[k].data.OtherData? && !second[k].data.OtherData?
      && KindOf(first[k].data) == KindOf(second[k].data) && ValueOf(first[k].data) == ValueOf(second[k].data)
      && TwoSecondsApart(Delayed(first[k].expiry, lag(k)), Delayed(second[k].expiry, again(k)))
  {
    NamespaceIff(namespace, ns);
    var prefix := ns + ":";
    var keys := ScanKeys(first, prefix, now);
    QuietKeys(first, second, namespace, ns, now, createdAt, lag, again);
    assert k in keys <==> LiveKey(first, k, now);
    assert k in ScanKeys(second, prefix, now) <==> LiveKey(second, k, now);
    if k in keys {
      var i :| 0 <= i < |keys| && keys[i] == k;
      SameReadingMeans(first, second, k, now, lag(k), again(k));
    }
  }

  // ---------------------------------------------------------------------------------------
  // The round trip

  /** The exported document, as a relation, to keep the theorems below readable. */
  ghost predicate Exported(p: Payload, first: Store, namespace: string, now: int, lag: string -> nat)
  {
    && WellFormed(first) && now >= 0
    && exists second, createdAt, again ::
         createdAt > 0 && Export(first, second, namespace, now, createdAt, lag, again) == Some(p)
  }

  lemma ExportedItems(p: Payload, first: Store, namespace: string, ns: string, now: int, lag: string -> nat)
    requires NamespaceOf(namespace, ns)
    requires Exported(p, first, namespace, now, lag)
    ensures var prefix := ns + ":";
      && Accepted(p, ns) && Ready(p.items, prefix) && Normal(p) == p.items
      && ns != []
      && p.contentDigest == ContentDigest(p.items) && p.typeCounts == TypeCounts(p.items)
      && (forall x :: x in p.items ==> Canonical(x))
      && Readable(first, ScanKeys(first, prefix, now), now)
      && p.items == ReadAll(first, ScanKeys(first, prefix, now), now, lag)
  {
    NamespaceIff(namespace, ns);
    var second, createdAt, again :|
      createdAt > 0 && Export(first, second, namespace, now, createdAt, lag, again) == Some(p);
    ExportIsAccepted(first, second, namespace, ns, now, createdAt, lag, again, p);
    AcceptedItems(p, ns);
  }

  /** The cell an exported key comes back as. */
  function Carried(s: Store, k: string, lag: nat): Cell
    requires k in s
  {
    Cell(s[k].data, Delayed(s[k].expiry, lag))
  }

  lemma SourceWasExported(p: Payload, first: Store, namespace: string, ns: string, now: int, lag: string -> nat,
                          k: string, later: int, x: Item)
    requires NamespaceOf(namespace, ns)
    requires Exported(p, first, namespace, now, lag) && Source(x, p.items, k, later)
    ensures LiveKey(first, k, now) && CellOf(x) == Some(Carried(first, k, lag(k)))
  {
    NamespaceIff(namespace, ns);
    var keys := ScanKeys(first, ns + ":", now);
    ExportedItems(p, first, namespace, ns, now, lag);
    var i :| 0 <= i < |p.items| && p.items[i] == x;
    assert keys[i] in keys;
    ReadItemIsFaithful(first, keys[i], now, lag(keys[i]));
  }

  lemma ExportedIsSource(p: Payload, first: Store, namespace: string, ns: string, now: int, lag: string -> nat,
                         k: string, later: int)
    requires NamespaceOf(namespace, ns)
    requires Exported(p, first, namespace, now, lag) && ns + ":" <= k
    requires LiveKey(first, k, now) && Alive(Carried(first, k, lag(k)), later)
    ensures exists x :: Source(x, p.items, k, later)
  {
    NamespaceIff(namespace, ns);
    var keys := ScanKeys(first, ns + ":", now);
    ExportedItems(p, first, namespace, ns, now, lag);
    assert k in keys;
    var i :| 0 <= i < |keys| && keys[i] == k;
    ReadItemIsFaithful(first, k, now, lag(k));
    assert p.items[i] in p.items;
    assert Source(p.items[i], p.items, k, later);
  }

  /** Round trip: restoring an export makes every key of the target namespace what it was in the
      source, with its expiry moved only by the delay of the export's own clock reading. */
  lemma RoundTrip(p: Payload, first: Store, namespace: string, ns: string, now: int, lag: string -> nat,
                  target: Store, restoredAt: int, later: int, k: string)
    requires NamespaceOf(namespace, ns)
    requires Exported(p, first, namespace, now, lag) && ns + ":" <= k
    requires restoredAt <= later
    ensures var after := Restored(target, Normal(p), ns + ":", restoredAt);
      LiveKey(after, k, later) <==> LiveKey(first, k, now) && Alive(Carried(first, k, lag(k)), later)
    ensures var after := Restored(target, Normal(p), ns + ":", restoredAt);
      LiveKey(after, k, later) ==> after[k] == Carried(first, k, lag(k))
  {
    NamespaceIff(namespace, ns);
    ExportedItems(p, first, namespace, ns, now, lag);
    RestoredLive(target, p.items, ns + ":", restoredAt, later, k);
    if x :| Source(x, p.items, k, later) {
      SourceWasExported(p, first, namespace, ns, now, lag, k, later, x);
    }
    if LiveKey(first, k, now) && Alive(Carried(first, k, lag(k)), later) {
      ExportedIsSource(p, first, namespace, ns, now, lag, k, later);
    }
  }

  function NamespaceAt(s: Store, prefix: string, t: int): Store
  {
    map k | k in s && prefix <= k && Alive(s[k], t) :: s[k]
  }

  lemma RoundTripExactKey(p: Payload, first: Store, namespace: string, ns: string, now: int, lag: string -> nat,
                          target: Store, restoredAt: int, later: int, k: string)
    requires NamespaceOf(namespace, ns)
    requires Exported(p, first, namespace, now, lag) && lag(k) == 0
    requires now <= later && restoredAt <= later && ns + ":" <= k
    ensures var after := Restored(target, Normal(p), ns + ":", restoredAt);
      (LiveKey(after, k, later) <==> LiveKey(first, k, later)) && (LiveKey(after, k, later) ==> after[k] == first[k])
  {
    NamespaceIff(namespace, ns);
    RoundTrip(p, first, namespace, ns, now, lag, target, restoredAt, later, k);
    CarriedWithoutDelay(first, k, now, later);
  }

  lemma CarriedWithoutDelay(s: Store, k: string, now: int, later: int)
    requires now <= later
    ensures k in s ==> Carried(s, k, 0) == s[k]
    ensures LiveKey(s, k, later) ==> LiveKey(s, k, now)
  {
  }

  lemma SameNamespace(a: Store, b: Store, prefix: string, t: int)
    requires forall k :: prefix <= k ==> (LiveKey(a, k, t) <==> LiveKey(b, k, t))
    requires forall k :: prefix <= k && LiveKey(a, k, t) && LiveKey(b, k, t) ==> a[k] == b[k]
    ensures NamespaceAt(a, prefix, t) == NamespaceAt(b, prefix, t)
  {
    forall k ensures k in NamespaceAt(a, prefix, t) <==> k in NamespaceAt(b, prefix, t) {
      assert k in NamespaceAt(a, prefix, t) <==> prefix <= k && LiveKey(a, k, t);
      assert k in NamespaceAt(b, prefix, t) <==> prefix <= k && LiveKey(b, k, t);
    }
  }

  /** ... and when the export reads its clock without delay, the two namespaces are equal at every
      later moment, in keys, types, values and expiries. */
  lemma RoundTripIsExact(p: Payload, first: Store, namespace: string, ns: string, now: int, lag: string -> nat,
                         target: Store, restoredAt: int, later: int)
    requires NamespaceOf(namespace, ns)
    requires Exported(p, first, namespace, now, lag) && (forall k :: lag(k) == 0)
    requires now <= later && restoredAt <= later
    ensures var prefix := ns + ":";
      NamespaceAt(Restored(target, Normal(p), prefix, restoredAt), prefix, later) == NamespaceAt(first, prefix, later)
  {
    NamespaceIff(namespace, ns);
    var prefix := ns + ":";
    var after := Restored(target, Normal(p), prefix, restoredAt);
    forall k | prefix <= k
      ensures LiveKey(after, k, later) <==> LiveKey(first, k, later)
      ensures LiveKey(after, k, later) ==> after[k] == first[k]
    {
      RoundTripExactKey(p, first, namespace, ns, now, lag, target, restoredAt, later, k);
    }
    SameNamespace(after, first, prefix, later);
  }

  /** A restored export always verifies, as long as verification reads its clock in time. */
  lemma RoundTripVerifies(p: Payload, first: Store, namespace: string, ns: string, now: int, lag: string -> nat,
                          target: Store, restoredAt: int, later: int, verifyLag: string -> nat)
    requires NamespaceOf(namespace, ns)
    requires Exported(p, first, namespace, now, lag) && restoredAt <= later
    requires forall k :: verifyLag(k) <= 2000
    ensures var prefix := ns + ":";
      Verifies(Restored(target, Normal(p), prefix, restoredAt), Normal(p), prefix, later, verifyLag)
  {
    NamespaceIff(namespace, ns);
    ExportedItems(p, first, namespace, ns, now, lag);
    RestoreVerifiesIff(target, p.items, ns + ":", restoredAt, later, verifyLag);
  }

  lemma {:induction false} AllStillActive(items: seq<Item>, t: int)
    requires forall x :: x in items ==> Active(x, t)
    ensures ActiveItems(items, t) == items
  {
    if items != [] {
      assert items[0] in items;
      assert forall x :: x in items[1..] ==> x in items;
      AllStillActive(items[1..], t);
    }
  }

  ghost predicate ReadsAs(s: Store, x: Item, t: int)
  {
    && LiveKey(s, x.key, t) && !s[x.key].data.OtherData?
    && KindOf(s[x.key].data) == x.kind && ValueOf(s[x.key].data) == x.value
  }

  /** Reading a restored canonical item back gives its kind and value again. */
  lemma ReadBack(s: Store, items: seq<Item>, prefix: string, restoredAt: int, later: int, x: Item)
    requires Ready(items, prefix) && restoredAt <= later
    requires x in items && Active(x, later) && Canonical(x)
    ensures ReadsAs(Restored(s, items, prefix, restoredAt), x, later)
  {
    assert Source(x, items, x.key, later);
    SourceIsLive(s, items, prefix, restoredAt, later, x);
    ValueSurvivesIff(x);
  }

  ghost predicate ReadsAsAll(s: Store, items: seq<Item>, t: int)
  {
    forall i :: 0 <= i < |items| ==> ReadsAs(s, items[i], t)
  }

  lemma ReadBackAll(s: Store, items: seq<Item>, prefix: string, restoredAt: int, later: int)
    requires Ready(items, prefix) && restoredAt <= later
    requires forall x :: x in items ==> Active(x, later) && Canonical(x)
    ensures ReadsAsAll(Restored(s, items, prefix, restoredAt), items, later)
    ensures ScanKeys(Restored(s, items, prefix, restoredAt), prefix, later) == KeysOf(items)
  {
    AllStillActive(items, later);
    KeySetsAgreeIff(s, items, prefix, restoredAt, later);
    forall i | 0 <= i < |items| ensures ReadsAs(Restored(s, items, prefix, restoredAt), items[i], later) {
      ReadBack(s, items, prefix, restoredAt, later, items[i]);
    }
  }

  lemma ReadsAsExport(s: Store, items: seq<Item>, namespace: string, ns: string, t: int, createdAt: int,
                      lag: string -> nat, again: string -> nat)
    requires NamespaceOf(namespace, ns)
    requires ns != [] && ReadsAsAll(s, items, t)
    requires ScanKeys(s, ns + ":", t) == KeysOf(items)
    requires forall k :: -2000 <= lag(k) - again(k) <= 2000
    ensures var q := Export(s, s, namespace, t, createdAt, lag, again);
      q.Some? && q.value.contentDigest == ContentDigest(items) && q.value.typeCounts == TypeCounts(items)
  {
    NamespaceIff(namespace, ns);
    var keys := KeysOf(items);
    forall i | 0 <= i < |keys| ensures LiveKey(s, keys[i], t) && !s[keys[i]].data.OtherData? {
      assert ReadsAs(s, items[i], t);
    }
    var read, reread := ReadAll(s, keys, t, lag), ReadAll(s, keys, t, again);
    forall i | 0 <= i < |keys|
      ensures SameReading(read[i], reread[i]) && read[i].key == items[i].key
      ensures read[i].kind == items[i].kind && read[i].value == items[i].value
    {
      assert ReadsAs(s, items[i], t);
    }
    assert ContentDigest(read) == ContentDigest(items);
    SameTypeCounts(read, items);
  }

  /** Re-exporting a restored namespace, before anything in it expires, gives a document with the
      same content digest. */
  lemma ReExport(p: Payload, first: Store, namespace: string, ns: string, now: int, lag: string -> nat,
                 target: Store, restoredAt: int, later: int, createdAt: int,
                 nextLag: string -> nat, nextAgain: string -> nat)
    requires NamespaceOf(namespace, ns)
    requires Exported(p, first, namespace, now, lag) && restoredAt <= later
    requires forall x :: x in p.items ==> Active(x, later)
    requires forall k :: -2000 <= nextLag(k) - nextAgain(k) <= 2000
    ensures var after := Restored(target, Normal(p), ns + ":", restoredAt);
      var q := Export(after, after, namespace, later, createdAt, nextLag, nextAgain);
      q.Some? && q.value.contentDigest == p.contentDigest && q.value.typeCounts == p.typeCounts
  {
    NamespaceIff(namespace, ns);
    var prefix := ns + ":";
    var after := Restored(target, Normal(p), prefix, restoredAt);
    ExportedItems(p, first, namespace, ns, now, lag);
    ReadBackAll(target, p.items, prefix, restoredAt, later);
    ReadsAsExport(after, p.items, namespace, ns, later, createdAt, nextLag, nextAgain);
  }

  lemma {:induction false} SameTypeCounts(a: seq<Item>, b: seq<Item>)
    requires |a| == |b| && forall i :: 0 <= i < |a| ==> a[i].kind == b[i].kind
    ensures TypeCounts(a) == TypeCounts(b)
    decreases |a|
  {
    if a != [] {
      SameTypeCounts(a[..|a| - 1], b[..|b| - 1]);
    }
  }
}
