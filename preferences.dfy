/** The app's key-value store (`SharedPreferences` named "water_tracker"). */
module Preferences {

  /** The keys the app reads and writes. The string keys `history_size`, `entry_{i}_amount`,
      `entry_{i}_timestamp`, `current_water` and `daily_goal` are pairwise distinct for distinct
      `i`, so one constructor per key family loses nothing. */
  datatype Key = HistorySize | Amount(index: nat) | Timestamp(index: nat) | CurrentWater | DailyGoal

  /** Stored values; the `Int`/`Long` distinction between `putInt` and `putLong` is not kept. */
  type Store = map<Key, int>

  /** `getInt(key, default)` and `getLong(key, default)`: the stored value, or `default` when
      nothing is stored under `key`. */
  function Get(store: Store, key: Key, default: int): int {
    if key in store then store[key] else default
  }

  /** The store object. An editor's pending writes are a `Store` of their own, and `apply()`
      commits them at once. */
  class SharedPreferences {
    var data: Store

    constructor (initial: Store)
      ensures data == initial
    {
      data := initial;
    }

    /** `editor.apply()`: every pending write replaces the stored value; other keys keep theirs. */
    method Apply(edits: Store)
      modifies this
      ensures data == old(data) + edits
    {
      data := data + edits;
    }
  }
}
