/** `saveWaterHistory` and `loadWaterHistory`: the history list mirrored into the key-value store
    as a count (`history_size`) plus one amount key and one timestamp key per index. */
module Persistence {
  import opened Preferences
  import opened Entries

  // ----- saving

  /** The keys a save of `size` entries writes: the count and both keys of every index below it. */
  predicate WrittenBySave(k: Key, size: nat) {
    k == HistorySize || (k.Amount? && k.index < size) || (k.Timestamp? && k.index < size)
  }

  /** The editor's pending writes once `history_size` and the first `n` entries have been put. */
  function PendingWrites(history: seq<WaterEntry>, n: nat): Store
    requires n <= |history|
  {
    if n == 0 then
      map[HistorySize := |history|]
    else
      PendingWrites(history, n - 1)[Amount(n - 1) := history[n - 1].amount]
                                   [Timestamp(n - 1) := history[n - 1].timestamp]
  }

  /** The pending writes hold the count and the first `n` entries, and no other key. */
  lemma {:induction false} PendingWritesContents(history: seq<WaterEntry>, n: nat)
    requires n <= |history|
    ensures var edits := PendingWrites(history, n);
            && (forall k :: k in edits <==> WrittenBySave(k, n))
            && edits[HistorySize] == |history|
            && forall i :: 0 <= i < n ==>
                 edits[Amount(i)] == history[i].amount && edits[Timestamp(i)] == history[i].timestamp
  {
    if n > 0 {
      PendingWritesContents(history, n - 1);
    }
  }

  /** The store after `saveWaterHistory(store, history)` has been applied. */
  function Saved(store: Store, history: seq<WaterEntry>): Store {
    store + PendingWrites(history, |history|)
  }

  /** After a save the count is the list's size and index `i` holds entry `i`; every other key,
      including the keys of indices at or above the size left by an earlier and longer save,
      keeps what it held. */
  lemma SavedContents(store: Store, history: seq<WaterEntry>)
    ensures var r := Saved(store, history);
            && HistorySize in r && r[HistorySize] == |history|
            && (forall i :: 0 <= i < |history| ==>
                  Amount(i) in r && r[Amount(i)] == history[i].amount &&
                  Timestamp(i) in r && r[Timestamp(i)] == history[i].timestamp)
            && forall k :: !WrittenBySave(k, |history|) ==>
                  (k in r <==> k in store) && (k in store ==> r[k] == store[k])
  {
    PendingWritesContents(history, |history|);
  }

  /** What a load reads back from a saved store: the count, and entry `i` at index `i`. */
  lemma SavedReadsBack(store: Store, history: seq<WaterEntry>, i: nat)
    ensures Get(Saved(store, history), HistorySize, 0) == |history|
    ensures i < |history| ==> EntryAt(Saved(store, history), i) == history[i]
  {
    SavedContents(store, history);
  }

  /** A save leaves every key it does not write as it was: the stored scalars among them. */
  lemma SavedLeavesOtherKeys(store: Store, history: seq<WaterEntry>, k: Key, default: int)
    requires !WrittenBySave(k, |history|)
    ensures Get(Saved(store, history), k, default) == Get(store, k, default)
  {
    PendingWritesContents(history, |history|);
  }

  /** `saveWaterHistory`: puts the count and every entry into an editor, then applies it. */
  method SaveWaterHistory(prefs: SharedPreferences, history: seq<WaterEntry>)
    modifies prefs
    ensures prefs.data == Saved(old(prefs.data), history)
  {
    var editor: Store := map[];
    editor := editor[HistorySize := |history|];
    var index := 0;
    while index < |history|
      invariant 0 <= index <= |history|
      invariant editor == PendingWrites(history, index)
    {
      var entry := history[index];
      editor := editor[Amount(index) := entry.amount];
      editor := editor[Timestamp(index) := entry.timestamp];
      assert editor == PendingWrites(history, index + 1);
      index := index + 1;
    }
    prefs.Apply(editor);
  }

  // ----- loading

  /** The entry read at index `i`: `getInt("entry_{i}_amount", 0)` and
      `getLong("entry_{i}_timestamp", 0)`. */
  function EntryAt(store: Store, i: nat): WaterEntry {
    WaterEntry(Get(store, Amount(i), 0), Get(store, Timestamp(i), 0))
  }

  /** The load's filter: an entry is kept only when its amount and its timestamp are positive,
      so an index whose keys are missing (read as 0) is dropped. */
  predicate Loadable(e: WaterEntry) {
    e.amount > 0 && e.timestamp > 0
  }

  /** Number of indices the load visits: `0 until getInt("history_size", 0)`, empty when the
      stored count is not positive. */
  function StoredCount(store: Store): nat {
    var size := Get(store, HistorySize, 0);
    if size > 0 then size else 0
  }

  /** The entries the load keeps from the indices below `n`, in index order. */
  function KeptBelow(store: Store, n: nat): (kept: seq<WaterEntry>)
    ensures |kept| <= n
    ensures forall e :: e in kept ==> Loadable(e)
  {
    if n == 0 then []
    else
      var e := EntryAt(store, n - 1);
      KeptBelow(store, n - 1) + (if Loadable(e) then [e] else [])
  }

  /** The entries a load takes from the store, before sorting. */
  function StoredEntries(store: Store): seq<WaterEntry> {
    KeptBelow(store, StoredCount(store))
  }

  /** What `loadWaterHistory(store, history)` leaves in `history`: the entries already there and
      the stored ones, sorted newest first. */
  function Loaded(store: Store, history: seq<WaterEntry>): seq<WaterEntry> {
    SortByDescendingTimestamp(history + StoredEntries(store))
  }

  /** `loadWaterHistory`: appends every loadable stored entry to `history`, then sorts it. */
  method LoadWaterHistory(prefs: SharedPreferences, history: seq<WaterEntry>) returns (loaded: seq<WaterEntry>)
    ensures loaded == Loaded(prefs.data, history)
    ensures NewestFirst(loaded)
    ensures multiset(loaded) == multiset(history + StoredEntries(prefs.data))
  {
    var size := Get(prefs.data, HistorySize, 0);
    loaded := history;
    var i := 0;
    while i < size
      invariant 0 <= i && (size > 0 ==> i <= size) && (size <= 0 ==> i == 0)
      invariant loaded == history + KeptBelow(prefs.data, i)
    {
      var amount := Get(prefs.data, Amount(i), 0);
      var timestamp := Get(prefs.data, Timestamp(i), 0);
      if amount > 0 && timestamp > 0 {
        loaded := loaded + [WaterEntry(amount, timestamp)];
      }
      i := i + 1;
    }
    assert i == StoredCount(prefs.data);
    loaded := SortByDescendingTimestamp(loaded);
  }

  // ----- what a load reads, and the round trip

  /** A load keeps index `i` exactly when it lies below the stored count and its entry is
      loadable. */
  lemma {:induction false} KeptBelowMembers(store: Store, n: nat, e: WaterEntry)
    ensures e in KeptBelow(store, n) <==> exists i :: 0 <= i < n && EntryAt(store, i) == e && Loadable(e)
  {
    if n > 0 {
      KeptBelowMembers(store, n - 1, e);
      if EntryAt(store, n - 1) == e && Loadable(e) {
        assert e in KeptBelow(store, n);
      }
    }
  }

  lemma StoredEntriesMembers(store: Store, e: WaterEntry)
    ensures e in StoredEntries(store) <==>
            exists i :: 0 <= i < Get(store, HistorySize, 0) && EntryAt(store, i) == e && Loadable(e)
  {
    KeptBelowMembers(store, StoredCount(store), e);
  }

  /** The entries at indices `0 until n`, read with default 0, before any filtering. */
  function EntriesBelow(store: Store, n: nat): (r: seq<WaterEntry>)
    ensures |r| == n
  {
    if n == 0 then [] else EntriesBelow(store, n - 1) + [EntryAt(store, n - 1)]
  }

  /** Position `i` of the raw reads holds the entry read at index `i`. */
  lemma {:induction false} EntriesBelowAt(store: Store, n: nat, i: nat)
    requires i < n
    ensures EntriesBelow(store, n)[i] == EntryAt(store, i)
  {
    if i < n - 1 {
      EntriesBelowAt(store, n - 1, i);
    }
  }

  /** The loop keeps, in index order, one copy of the entry at each visited index that is
      loadable, and nothing else. */
  lemma {:induction false} KeptBelowIsFiltered(store: Store, n: nat)
    ensures KeptBelow(store, n) == KeepLoadable(EntriesBelow(store, n))
  {
    if n > 0 {
      KeptBelowIsFiltered(store, n - 1);
      var e := EntryAt(store, n - 1);
      var all := EntriesBelow(store, n);
      assert all[..n - 1] == EntriesBelow(store, n - 1);
      assert KeptBelow(store, n) == KeptBelow(store, n - 1) + (if Loadable(e) then [e] else []);
      assert KeepLoadable(all) == KeepLoadable(all[..n - 1]) + (if Loadable(e) then [e] else []);
    }
  }

  /** A load takes from any store the loadable entries among indices `0 until history_size`,
      each once and in index order. */
  lemma StoredEntriesAreFiltered(store: Store)
    ensures StoredEntries(store) == KeepLoadable(EntriesBelow(store, StoredCount(store)))
  {
    KeptBelowIsFiltered(store, StoredCount(store));
  }

  lemma {:induction false} KeptBelowFrame(s1: Store, s2: Store, n: nat)
    requires forall i :: 0 <= i < n ==>
               Get(s1, Amount(i), 0) == Get(s2, Amount(i), 0) && Get(s1, Timestamp(i), 0) == Get(s2, Timestamp(i), 0)
    ensures KeptBelow(s1, n) == KeptBelow(s2, n)
  {
    if n > 0 {
      KeptBelowFrame(s1, s2, n - 1);
    }
  }

  /** A load reads `history_size` and the keys of the indices below it, and nothing else: two
      stores that agree there load the same entries. */
  lemma LoadReadsOnlyStoredIndices(s1: Store, s2: Store)
    requires Get(s1, HistorySize, 0) == Get(s2, HistorySize, 0)
    requires forall i :: 0 <= i < Get(s1, HistorySize, 0) ==>
               Get(s1, Amount(i), 0) == Get(s2, Amount(i), 0) && Get(s1, Timestamp(i), 0) == Get(s2, Timestamp(i), 0)
    ensures StoredEntries(s1) == StoredEntries(s2)
  {
    KeptBelowFrame(s1, s2, StoredCount(s1));
  }

  /** The loadable entries of `h`, in order. */
  function KeepLoadable(h: seq<WaterEntry>): seq<WaterEntry> {
    if |h| == 0 then []
    else
      var last := h[|h| - 1];
      KeepLoadable(h[..|h| - 1]) + (if Loadable(last) then [last] else [])
  }

  lemma {:induction false} KeepLoadableOfLoadable(h: seq<WaterEntry>)
    requires forall e :: e in h ==> Loadable(e)
    ensures KeepLoadable(h) == h
  {
    if |h| > 0 {
      KeepLoadableOfLoadable(h[..|h| - 1]);
      assert h == h[..|h| - 1] + [h[|h| - 1]];
    }
  }

  lemma {:induction false} KeptBelowSaved(store: Store, h: seq<WaterEntry>, n: nat)
    requires n <= |h|
    ensures KeptBelow(Saved(store, h), n) == KeepLoadable(h[..n])
  {
    if n > 0 {
      var saved := Saved(store, h);
      SavedReadsBack(store, h, n - 1);
      KeptBelowSaved(store, h, n - 1);
      assert EntryAt(saved, n - 1) == h[n - 1];
      var prefix := h[..n];
      assert prefix[..n - 1] == h[..n - 1] && prefix[n - 1] == h[n - 1];
      assert KeptBelow(saved, n) == KeptBelow(saved, n - 1) + (if Loadable(h[n - 1]) then [h[n - 1]] else []);
      assert KeepLoadable(prefix) == KeepLoadable(h[..n - 1]) + (if Loadable(h[n - 1]) then [h[n - 1]] else []);
    }
  }

  /** Loading right after a save yields the saved list's loadable entries in their saved order,
      whatever the store held before: keys left over from an earlier, longer save are never read. */
  lemma StoredEntriesAfterSave(store: Store, h: seq<WaterEntry>)
    ensures StoredEntries(Saved(store, h)) == KeepLoadable(h)
  {
    SavedReadsBack(store, h, 0);
    KeptBelowSaved(store, h, |h|);
    assert h[..|h|] == h;
  }

  /** Round trip: saving a list of loadable entries and loading it into an empty list gives a
      newest-first permutation of the list, and the list itself when it was newest first. */
  lemma SaveLoadRoundTrip(store: Store, h: seq<WaterEntry>)
    requires forall e :: e in h ==> Loadable(e)
    ensures Loaded(Saved(store, h), []) == SortByDescendingTimestamp(h)
    ensures NewestFirst(Loaded(Saved(store, h), []))
    ensures multiset(Loaded(Saved(store, h), [])) == multiset(h)
    ensures NewestFirst(h) ==> Loaded(Saved(store, h), []) == h
  {
    StoredEntriesAfterSave(store, h);
    KeepLoadableOfLoadable(h);
    assert [] + h == h;
    if NewestFirst(h) {
      SortKeepsNewestFirst(h);
    }
  }
}
