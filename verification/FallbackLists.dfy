/** Which changes of fallback lists a seed can make. */
module FallbackLists {
  import opened Common
  import opened Values
  import opened CycleFinding
  import opened Manifest
  import opened SeedPlan
  import opened SeedApply
  import opened SeedConvergence
  import opened SeedUniqueness
  import opened SeedDesired

  const FALLBACKS: TableSpec := TABLE_SPECS[4]

  predicate IsFallbackKey(l: Graph, k: Key) {
    |k| == 2 && k[0] in l && k[1] in l[k[0]]
  }

  /** A table that holds these lists: a row for every adapter and fallback it names, with the last
      place it names it as the ordinal. */
  ghost predicate HoldsLists(table: Table, l: Graph) {
    && (forall k :: k in table <==> IsFallbackKey(l, k))
    && forall k :: k in table ==>
         Get(table[k], AdapterId) == Text(k[0]) && Get(table[k], Ordinal) == Int(LastIndexOf(l[k[0]], k[1]))
  }

  /** The keys of an adapter come in the order in which it first names them. */
  ghost predicate KeysInOrder(order: seq<Key>, a: string, list: seq<string>) {
    forall x, y :: x in list && y in list ==>
      && [a, x] in order && [a, y] in order
      && (IndexOf(order, [a, x]) < IndexOf(order, [a, y]) <==> IndexOf(list, x) < IndexOf(list, y))
  }

  ghost predicate ListedInOrder(order: seq<Key>, l: Graph) {
    forall a :: a in l ==> KeysInOrder(order, a, l[a])
  }

  /** Where the new list puts one fallback in the place of another, the seed rewrites both: the old list
      names the newcomer too, and the new list names the one that leaves, before the newcomer. */
  ghost predicate Fits(was: seq<string>, now: seq<string>) {
    forall x, y :: x in was && y in now && x != y && LastIndexOf(was, x) == LastIndexOf(now, y) ==>
      x in now && y in was && IndexOf(now, x) < IndexOf(now, y)
  }

  ghost predicate AllFit(was: Graph, now: Graph) {
    forall a :: a in was && a in now ==> Fits(was[a], now[a])
  }

  /** The two lists agree as far as both go: one is a prefix of the other. */
  ghost predicate Agree(was: seq<string>, now: seq<string>) {
    forall i :: 0 <= i < |was| && i < |now| ==> was[i] == now[i]
  }

  /** The first position at which two lists differ. */
  lemma FirstDifference(a: seq<string>, b: seq<string>) returns (i: nat)
    requires !Agree(a, b)
    ensures i < |a| && i < |b| && a[i] != b[i] && forall j :: 0 <= j < i ==> a[j] == b[j]
  {
    i := 0;
    while a[i] == b[i]
      invariant i < |a| && i < |b| && forall j :: 0 <= j < i ==> a[j] == b[j]
      invariant exists j :: i <= j < |a| && j < |b| && a[j] != b[j]
      decreases |a| - i
    {
      i := i + 1;
    }
  }

  /** For lists that name nothing twice: entries may be added or dropped at the end and nothing else.
      Any reordering fails, and so does dropping an entry that is not among the last. */
  lemma FitsIffAgree(was: seq<string>, now: seq<string>)
    requires Distinct(was) && Distinct(now)
    ensures Fits(was, now) <==> Agree(was, now)
  {
    if !Agree(was, now) {
      var i := FirstDifference(was, now);
      assert was[i] in was && now[i] in now && LastIndexOf(was, was[i]) == i == LastIndexOf(now, now[i]);
      FirstPlace(now, now[i], i);
    }
  }

  // ---- In the table ----------------------------------------------------------------------------------------

  lemma SamePlace(a: Row, b: Row)
    ensures SameUnique(AdapterFallbacks, a, b) <==> Get(a, AdapterId) == Get(b, AdapterId) && Get(a, Ordinal) == Get(b, Ordinal)
  {
    assert UniqueColumns(AdapterFallbacks)[0] == AdapterId && UniqueColumns(AdapterFallbacks)[1] == Ordinal;
  }

  lemma MeetsIff(desired: Table, cur: Table, was: Graph, now: Graph, x: Key, y: Key)
    requires HoldsLists(cur, was) && HoldsLists(desired, now)
    ensures Meets(AdapterFallbacks, desired, cur, x, y) <==>
              && IsFallbackKey(was, x) && IsFallbackKey(now, y) && x[0] == y[0] && x[1] != y[1]
              && LastIndexOf(was[x[0]], x[1]) == LastIndexOf(now[y[0]], y[1])
  {
    if x in cur && y in desired {
      SamePlace(cur[x], desired[y]);
      assert x == [x[0], x[1]] && y == [y[0], y[1]];
    }
  }

  lemma {:induction false} MovesFirstIff(desired: Rows, cur: Table, was: Graph, now: Graph, a: string, x: string, y: string)
    requires desired.Valid() && HoldsLists(cur, was) && HoldsLists(desired.at, now) && ListedInOrder(desired.order, now)
    requires a in was && a in now
    ensures MovesFirst(desired, cur, [a, x], [a, y]) <==>
              x in now[a] && y in now[a] && y in was[a] && IndexOf(now[a], x) < IndexOf(now[a], y)
  {
    assert KeysInOrder(desired.order, a, now[a]);
    assert [a, x] in desired.at <==> IsFallbackKey(now, [a, x]);
    assert [a, y] in desired.at <==> IsFallbackKey(now, [a, y]);
    assert [a, y] in cur <==> IsFallbackKey(was, [a, y]);
  }

  /** The fallback table goes from old lists to new ones exactly when, adapter by adapter, they fit. */
  lemma ListsInTurnIff(desired: Rows, cur: Table, was: Graph, now: Graph)
    requires desired.Valid() && HoldsLists(cur, was) && HoldsLists(desired.at, now) && ListedInOrder(desired.order, now)
    ensures InTurn(AdapterFallbacks, desired, cur) <==> AllFit(was, now)
  {
    hide MovesFirst, HoldsLists, ListedInOrder, Meets;
    if AllFit(was, now) {
      forall x, y | Meets(AdapterFallbacks, desired.at, cur, x, y) ensures MovesFirst(desired, cur, x, y) {
        MeetsIff(desired.at, cur, was, now, x, y);
        MovesFirstIff(desired, cur, was, now, x[0], x[1], y[1]);
        assert Fits(was[x[0]], now[x[0]]);
        assert x == [x[0], x[1]] && y == [x[0], y[1]];
      }
    }
    if InTurn(AdapterFallbacks, desired, cur) {
      forall a | a in was && a in now ensures Fits(was[a], now[a]) {
        forall x, y | x in was[a] && y in now[a] && x != y && LastIndexOf(was[a], x) == LastIndexOf(now[a], y)
          ensures x in now[a] && y in was[a] && IndexOf(now[a], x) < IndexOf(now[a], y)
        {
          MeetsIff(desired.at, cur, was, now, [a, x], [a, y]);
          MovesFirstIff(desired, cur, was, now, a, x, y);
        }
      }
    }
  }

  lemma StoredRow(store: Storage, spec: TableSpec, desired: map<Key, Row>, cur: Table, k: Key, c: Column)
    requires WellKeyed(spec, desired) && WellKeyed(spec, cur) && Faithful(store, spec, desired) && k in desired
    requires Get(desired[k], c).Text? || Get(desired[k], c).Int?
    ensures k in AfterTable(store, spec, desired, cur)
    ensures Get(AfterTable(store, spec, desired, cur)[k], c) == Get(desired[k], c)
  {
    RowByRow(store, spec, desired, cur, k);
    hide AfterTable, WellKeyed, Faithful;
    assert c in desired[k];
  }

  lemma NothingElse(store: Storage, desired: map<Key, Row>, cur: Table, k: Key)
    requires k !in desired
    ensures k !in AfterTable(store, FALLBACKS, desired, cur)
  {
  }

  /** What a seed leaves holds the lists it was given. */
  lemma SeedHoldsLists(store: Storage, desired: map<Key, Row>, cur: Table, l: Graph)
    requires WellKeyed(FALLBACKS, desired) && WellKeyed(FALLBACKS, cur) && Faithful(store, FALLBACKS, desired)
    requires HoldsLists(desired, l)
    ensures HoldsLists(AfterTable(store, FALLBACKS, desired, cur), l)
  {
    var after := AfterTable(store, FALLBACKS, desired, cur);
    hide AfterTable, WellKeyed, Faithful, Get;
    forall k | k !in desired ensures k !in after {
      NothingElse(store, desired, cur, k);
    }
    forall k | k in desired
      ensures k in after && Get(after[k], AdapterId) == Get(desired[k], AdapterId)
      ensures Get(after[k], Ordinal) == Get(desired[k], Ordinal)
    {
      StoredRow(store, FALLBACKS, desired, cur, k, AdapterId);
      StoredRow(store, FALLBACKS, desired, cur, k, Ordinal);
    }
  }

  // ---- Filling a dictionary --------------------------------------------------------------------------------

  function KeysOf(entries: seq<Entry>): seq<Key> {
    seq(|entries|, i requires 0 <= i < |entries| => entries[i].key)
  }

  lemma {:induction false} IndexOfFront(s: seq<Key>, last: Key, k: Key)
    requires k in s + [last]
    ensures IndexOf(s + [last], k) == if k in s then IndexOf(s, k) else |s|
  {
    if k in s {
      assert forall j :: 0 <= j < IndexOf(s, k) ==> s[j] in s[..IndexOf(s, k)];
      FirstPlace(s + [last], k, IndexOf(s, k));
    } else {
      FirstPlace(s + [last], k, |s|);
    }
  }

  /** Keys stand in the order in which they were first filled in, and each has the row last given it. */
  lemma {:induction false} FillOrder(entries: seq<Entry>, k: Key, k': Key)
    requires k in KeysOf(entries) && k' in KeysOf(entries)
    ensures k in Fill(entries).order && k' in Fill(entries).order
    ensures IndexOf(Fill(entries).order, k) < IndexOf(Fill(entries).order, k')
       <==> IndexOf(KeysOf(entries), k) < IndexOf(KeysOf(entries), k')
  {
    var front, last := entries[..|entries| - 1], entries[|entries| - 1].key;
    var keys, order := KeysOf(front), Fill(front).order;
    assert KeysOf(entries) == keys + [last];
    FillKeys(front);
    hide Fill;
    IndexOfFront(keys, last, k);
    IndexOfFront(keys, last, k');
    if k in keys && k' in keys {
      FillOrder(front, k, k');
    }
    FillNext(entries);
    if last !in keys {
      if k in keys {
        IndexOfFront(order, last, k);
      }
      if k' in keys {
        IndexOfFront(order, last, k');
      }
      IndexOfFront(order, last, last);
    }
  }

  lemma FillNext(entries: seq<Entry>)
    requires entries != []
    ensures var front, last := entries[..|entries| - 1], entries[|entries| - 1].key;
            Fill(entries).order == if last in KeysOf(front) then Fill(front).order else Fill(front).order + [last]
  {
    FillKeys(entries[..|entries| - 1]);
  }

  lemma {:induction false} FillKeys(entries: seq<Entry>)
    ensures Fill(entries).Valid() && forall k :: k in Fill(entries).at <==> k in KeysOf(entries)
  {
    Filled(entries);
    forall k | k in KeysOf(entries) ensures k in Fill(entries).at {
      var i :| 0 <= i < |entries| && KeysOf(entries)[i] == k;
    }
    forall k | k in Fill(entries).at ensures k in KeysOf(entries) {
      var i :| 0 <= i < |entries| && entries[i] == Entry(k, Fill(entries).at[k]);
      assert KeysOf(entries)[i] == k;
    }
  }

  lemma {:induction false} FillLast(entries: seq<Entry>, i: nat)
    requires i < |entries| && forall j :: i < j < |entries| ==> entries[j].key != entries[i].key
    ensures entries[i].key in Fill(entries).at && Fill(entries).at[entries[i].key] == entries[i].row
  {
    var n := |entries| - 1;
    if i < n {
      FillLast(entries[..n], i);
    }
  }

  // ---- The lists of a manifest -----------------------------------------------------------------------------

  function Offset(adapters: seq<Adapter>, k: nat): nat
    requires k <= |adapters|
  {
    if k == 0 then 0 else Offset(adapters, k - 1) + |adapters[k - 1].fallback|
  }

  lemma {:induction false} OffsetOfFront(adapters: seq<Adapter>, n: nat, k: nat)
    requires k <= n <= |adapters|
    ensures Offset(adapters[..n], k) == Offset(adapters, k)
  {
    if k > 0 {
      OffsetOfFront(adapters, n, k - 1);
    }
  }

  lemma {:induction false} EntryCount(adapters: seq<Adapter>)
    ensures |FallbackEntries(adapters)| == Offset(adapters, |adapters|)
  {
    if adapters != [] {
      var n := |adapters| - 1;
      EntryCount(adapters[..n]);
      OffsetOfFront(adapters, n, n);
    }
  }

  /** Where the entry of a place in a list stands. */
  lemma {:induction false} EntryAt(adapters: seq<Adapter>, k: nat, j: nat)
    requires k < |adapters| && j < |adapters[k].fallback|
    ensures Offset(adapters, k) + j < |FallbackEntries(adapters)|
    ensures FallbackEntries(adapters)[Offset(adapters, k) + j] == FallbackEntry(adapters[k].id, adapters[k].fallback[j], j)
  {
    var n := |adapters| - 1;
    EntryCount(adapters[..n]);
    OffsetOfFront(adapters, n, n);
    OffsetOfFront(adapters, n, k);
    if k < n {
      EntryAt(adapters[..n], k, j);
    }
  }

  lemma {:induction false} PlaceOf(adapters: seq<Adapter>, i: nat) returns (k: nat, j: nat)
    requires i < |FallbackEntries(adapters)|
    ensures k < |adapters| && j < |adapters[k].fallback| && i == Offset(adapters, k) + j
  {
    var n := |adapters| - 1;
    EntryCount(adapters[..n]);
    OffsetOfFront(adapters, n, n);
    if i < |FallbackEntries(adapters[..n])| {
      k, j := PlaceOf(adapters[..n], i);
      OffsetOfFront(adapters, n, k);
    } else {
      k, j := n, i - Offset(adapters, n);
    }
  }

  lemma {:induction false} EdgesAt(adapters: seq<Adapter>, k: nat)
    requires Distinct(Ids(adapters)) && k < |adapters|
    ensures adapters[k].id in FallbackEdges(adapters) && FallbackEdges(adapters)[adapters[k].id] == adapters[k].fallback
  {
    var n := |adapters| - 1;
    if k < n {
      assert Ids(adapters[..n]) == Ids(adapters)[..n];
      EdgesAt(adapters[..n], k);
      assert Ids(adapters)[k] != Ids(adapters)[n];
    }
  }

  lemma ListOfId(adapters: seq<Adapter>, a: string) returns (k: nat)
    requires Distinct(Ids(adapters)) && a in FallbackEdges(adapters)
    ensures k < |adapters| && adapters[k].id == a && FallbackEdges(adapters)[a] == adapters[k].fallback
  {
    FallbackKeys(adapters);
    k :| 0 <= k < |adapters| && Ids(adapters)[k] == a;
    EdgesAt(adapters, k);
  }

  /** The entries of one adapter stand together, in list order. */
  lemma KeyIsPlaced(adapters: seq<Adapter>, k: nat, i: nat, x: string)
    requires Distinct(Ids(adapters)) && k < |adapters| && i < |FallbackEntries(adapters)|
    ensures FallbackEntries(adapters)[i].key == [adapters[k].id, x] ==>
              && Offset(adapters, k) <= i < Offset(adapters, k) + |adapters[k].fallback|
              && adapters[k].fallback[i - Offset(adapters, k)] == x
  {
    var k', j := PlaceOf(adapters, i);
    EntryAt(adapters, k', j);
    var key := FallbackEntries(adapters)[i].key;
    assert key == [adapters[k'].id, adapters[k'].fallback[j]];
    if key == [adapters[k].id, x] {
      assert key[0] == Ids(adapters)[k] == Ids(adapters)[k'] && key[1] == x;
    }
  }

  /** Where the key of a fallback first and last stands among the entries. */
  lemma {:induction false} KeyPlaces(adapters: seq<Adapter>, k: nat, x: string)
    requires Distinct(Ids(adapters)) && k < |adapters| && x in adapters[k].fallback
    ensures var keys, key, list := KeysOf(FallbackEntries(adapters)), [adapters[k].id, x], adapters[k].fallback;
            && key in keys && IndexOf(keys, key) == Offset(adapters, k) + IndexOf(list, x)
            && Offset(adapters, k) + LastIndexOf(list, x) < |keys|
            && (forall j :: Offset(adapters, k) + LastIndexOf(list, x) < j < |keys| ==> keys[j] != key)
  {
    var entries, list := FallbackEntries(adapters), adapters[k].fallback;
    var keys, key := KeysOf(entries), [adapters[k].id, x];
    EntryAt(adapters, k, IndexOf(list, x));
    EntryAt(adapters, k, LastIndexOf(list, x));
    hide FallbackEntries, Offset;
    var first := Offset(adapters, k) + IndexOf(list, x);
    assert keys[first] == key;
    forall p | 0 <= p < |list| && list[p] == x ensures IndexOf(list, x) <= p <= LastIndexOf(list, x) {
      NoneBefore(list, x, p);
    }
    forall j | 0 <= j < first || Offset(adapters, k) + LastIndexOf(list, x) < j < |keys| ensures keys[j] != key {
      KeyIsPlaced(adapters, k, j, x);
    }
    FirstPlace(keys, key, first);
  }

  lemma {:induction false} RowOfFallback(adapters: seq<Adapter>, k: nat, x: string)
    requires Distinct(Ids(adapters)) && k < |adapters| && x in adapters[k].fallback
    ensures var key, j := [adapters[k].id, x], LastIndexOf(adapters[k].fallback, x);
            && key in Fill(FallbackEntries(adapters)).at
            && Fill(FallbackEntries(adapters)).at[key] == FallbackEntry(adapters[k].id, x, j).row
  {
    var entries, j := FallbackEntries(adapters), LastIndexOf(adapters[k].fallback, x);
    EntryAt(adapters, k, j);
    KeyPlaces(adapters, k, x);
    hide FallbackEntries, Offset, Fill;
    var i := Offset(adapters, k) + j;
    assert forall n :: i < n < |entries| ==> entries[n].key == KeysOf(entries)[n];
    FillLast(entries, i);
  }

  lemma {:induction false} RowIsListed(adapters: seq<Adapter>, key: Key)
    requires Distinct(Ids(adapters)) && key in Fill(FallbackEntries(adapters)).at
    ensures IsFallbackKey(FallbackEdges(adapters), key)
  {
    var a, j := FallbackRow(adapters, key);
    EdgesAt(adapters, a);
  }

  /** The rows the builder makes hold the manifest's lists. */
  lemma {:induction false} BuilderHoldsLists(adapters: seq<Adapter>)
    requires Distinct(Ids(adapters))
    ensures HoldsLists(Fill(FallbackEntries(adapters)).at, FallbackEdges(adapters))
  {
    var l, rows := FallbackEdges(adapters), Fill(FallbackEntries(adapters)).at;
    hide FallbackEdges, Fill, FallbackEntries;
    forall key | IsFallbackKey(l, key)
      ensures key in rows && Get(rows[key], AdapterId) == Text(key[0])
      ensures Get(rows[key], Ordinal) == Int(LastIndexOf(l[key[0]], key[1]))
    {
      var k := ListOfId(adapters, key[0]);
      RowOfFallback(adapters, k, key[1]);
      assert key == [key[0], key[1]];
    }
    forall key | key in rows ensures IsFallbackKey(l, key) {
      RowIsListed(adapters, key);
    }
  }

  lemma {:induction false} BuilderOrder(adapters: seq<Adapter>, k: nat, x: string, y: string)
    requires Distinct(Ids(adapters)) && k < |adapters| && x in adapters[k].fallback && y in adapters[k].fallback
    ensures var order, a, list := Fill(FallbackEntries(adapters)).order, adapters[k].id, adapters[k].fallback;
            && [a, x] in order && [a, y] in order
            && (IndexOf(order, [a, x]) < IndexOf(order, [a, y]) <==> IndexOf(list, x) < IndexOf(list, y))
  {
    KeyPlaces(adapters, k, x);
    KeyPlaces(adapters, k, y);
    FillOrder(FallbackEntries(adapters), [adapters[k].id, x], [adapters[k].id, y]);
  }

  lemma {:induction false} BuilderKeepsOrder(adapters: seq<Adapter>)
    requires Distinct(Ids(adapters))
    ensures ListedInOrder(Fill(FallbackEntries(adapters)).order, FallbackEdges(adapters))
  {
    var l, order := FallbackEdges(adapters), Fill(FallbackEntries(adapters)).order;
    hide FallbackEdges, Fill, FallbackEntries;
    forall a | a in l ensures KeysInOrder(order, a, l[a]) {
      var k := ListOfId(adapters, a);
      forall x, y | x in l[a] && y in l[a]
        ensures [a, x] in order && [a, y] in order
        ensures IndexOf(order, [a, x]) < IndexOf(order, [a, y]) <==> IndexOf(l[a], x) < IndexOf(l[a], y)
      {
        BuilderOrder(adapters, k, x, y);
      }
    }
  }

  /** From any lists in the table to those of a manifest: exactly when they fit. */
  lemma {:induction false} BuilderInTurnIff(adapters: seq<Adapter>, cur: Table, was: Graph)
    requires Distinct(Ids(adapters)) && HoldsLists(cur, was)
    ensures InTurn(AdapterFallbacks, Fill(FallbackEntries(adapters)), cur) <==> AllFit(was, FallbackEdges(adapters))
  {
    hide *;
    FillKeys(FallbackEntries(adapters));
    BuilderHoldsLists(adapters);
    BuilderKeepsOrder(adapters);
    ListsInTurnIff(Fill(FallbackEntries(adapters)), cur, was, FallbackEdges(adapters));
  }
}
