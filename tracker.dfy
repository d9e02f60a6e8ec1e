/** The state `WaterTrackerApp` keeps in memory (current intake, daily goal, history list, goal
    dialog) and the user actions that change it. */
module Tracker {
  import opened KotlinInt
  import opened Options
  import opened IntText
  import opened Preferences
  import opened Entries
  import opened Persistence

  /** Defaults of `getInt("current_water", 0)` and `getInt("daily_goal", 2000)`. */
  const DefaultCurrentWater: int := 0
  const DefaultDailyGoal: int := 2000

  /** The amounts of the three quick-add buttons on the main screen. */
  const QuickAddAmounts: seq<int> := [250, 500, 1000]

  /** The goal-settings dialog: hidden, or shown with the text currently in its field. The text
      lives only while the dialog is shown; each opening starts again from the current goal. */
  datatype GoalDialog = Hidden | Shown(goalText: string)

  datatype AppState = AppState(currentWater: int, dailyGoal: int, history: seq<WaterEntry>, dialog: GoalDialog)

  // ----- the transitions, as functions of the state

  /** The state right after start-up: both scalars read with their defaults, the history loaded
      into an empty list, the dialog hidden. */
  function Initial(store: Store): AppState {
    AppState(Get(store, CurrentWater, DefaultCurrentWater), Get(store, DailyGoal, DefaultDailyGoal),
             Loaded(store, []), Hidden)
  }

  /** `onAddWater(amount)` at time `now`: `currentWater += amount` in `Int` arithmetic, and the
      new entry goes to the front of the history. */
  function Added(s: AppState, amount: int, now: int): AppState {
    s.(currentWater := Wrap(s.currentWater + amount), history := [WaterEntry(amount, now)] + s.history)
  }

  /** `onRemoveEntry(entry)`: the first equal entry leaves the history, and
      `currentWater = maxOf(0, currentWater - entry.amount)`, whether or not an entry was removed. */
  function Removed(s: AppState, entry: WaterEntry): AppState {
    s.(history := RemoveFirst(s.history, entry), currentWater := MaxOf(0, Wrap(s.currentWater - entry.amount)))
  }

  /** The settings button (`showGoalDialog = true`): a hidden dialog opens with the current goal
      as its text; a dialog already shown keeps the text typed into it. */
  function GoalDialogOpened(s: AppState): AppState {
    if s.dialog.Shown? then s else s.(dialog := Shown(IntToString(s.dailyGoal)))
  }

  /** Typing in the dialog's text field replaces its text. */
  function GoalTextEdited(s: AppState, text: string): AppState
    requires s.dialog.Shown?
  {
    s.(dialog := Shown(text))
  }

  /** The dialog's check on its text: a goal only when the text parses to an `Int` above zero. */
  function GoalFromText(text: string): (g: Option<int>)
    ensures g.Some? ==> 0 < g.value <= MaxValue && ToIntOrNull(text) == g
    ensures g.None? ==> ToIntOrNull(text).None? || ToIntOrNull(text).value <= 0
  {
    var newGoal := ToIntOrNull(text);
    if newGoal.Some? && newGoal.value > 0 then newGoal else None
  }

  /** The dialog's confirm button: with a valid goal, `onGoalChanged` sets it and closes the
      dialog; otherwise nothing changes. */
  function GoalConfirmed(s: AppState): AppState
    requires s.dialog.Shown?
  {
    match GoalFromText(s.dialog.goalText)
    case Some(goal) => s.(dailyGoal := goal, dialog := Hidden)
    case None => s
  }

  /** The dialog's cancel button or a dismiss request. */
  function GoalDialogDismissed(s: AppState): AppState {
    s.(dialog := Hidden)
  }

  /** The store after the effect that writes `current_water` and `daily_goal` has run. */
  function WithScalars(store: Store, s: AppState): Store {
    store[CurrentWater := s.currentWater][DailyGoal := s.dailyGoal]
  }

  // ----- what the transitions promise

  /** A first start on an empty store: no intake, a goal of 2000 ml, no history. */
  lemma FreshInstallDefaults()
    ensures Initial(map[]) == AppState(0, 2000, [], Hidden)
  {
    assert StoredEntries(map[]) == [];
    assert Loaded(map[], []) == SortByDescendingTimestamp([]);
  }

  /** The history a start-up loads is newest first and holds only loadable entries. */
  lemma InitialHistoryIsOrdered(store: Store)
    ensures NewestFirst(Initial(store).history)
    ensures forall e :: e in Initial(store).history ==> Loadable(e)
  {
    var h := Initial(store).history;
    assert [] + StoredEntries(store) == StoredEntries(store);
    forall e | e in h ensures Loadable(e) {
      assert e in multiset(h);
      assert e in StoredEntries(store);
    }
  }

  /** Adding `amount` raises the intake by exactly `amount` when the sum fits in an `Int`, puts
      `(amount, now)` first and keeps the earlier entries after it, in order. */
  lemma AddRecordsDrink(s: AppState, amount: int, now: int)
    ensures var r := Added(s, amount, now);
            && (IsInt(s.currentWater + amount) ==> r.currentWater == s.currentWater + amount)
            && |r.history| == |s.history| + 1
            && r.history[0] == WaterEntry(amount, now)
            && r.history[1..] == s.history
            && r.dailyGoal == s.dailyGoal && r.dialog == s.dialog
  {
  }

  /** The intake stays equal to the history's total across an add, as long as no `Int`
      overflow occurs. */
  lemma AddKeepsTotal(s: AppState, amount: int, now: int)
    requires s.currentWater == TotalAmount(s.history)
    requires IsInt(s.currentWater + amount)
    ensures Added(s, amount, now).currentWater == TotalAmount(Added(s, amount, now).history)
  {
    var r := Added(s, amount, now);
    assert r.history[1..] == s.history;
  }

  /** After a removal the intake is never negative; it drops by exactly the entry's amount when
      that leaves it at zero or above without overflow. The list loses the first equal entry,
      or nothing when there is none. */
  lemma RemoveClampsAtZero(s: AppState, entry: WaterEntry)
    ensures var r := Removed(s, entry);
            && r.currentWater >= 0
            && (IsInt(s.currentWater - entry.amount) && s.currentWater - entry.amount >= 0 ==>
                  r.currentWater == s.currentWater - entry.amount)
            && (IsInt(s.currentWater - entry.amount) && s.currentWater - entry.amount < 0 ==>
                  r.currentWater == 0)
            && (entry !in s.history ==> r.history == s.history)
            && multiset(r.history) == multiset(s.history) - multiset{entry}
            && r.dailyGoal == s.dailyGoal && r.dialog == s.dialog
  {
    RemoveFirstRemovesOneCopy(s.history, entry);
  }

  /** If the intake equals the history's total and the removed entry is in the history (with
      no negative amounts), the clamp does not act and the equality survives the removal. */
  lemma RemoveKeepsTotal(s: AppState, entry: WaterEntry)
    requires s.currentWater == TotalAmount(s.history)
    requires IsInt(s.currentWater)
    requires AllAmountsNonNegative(s.history)
    requires entry in s.history
    ensures Removed(s, entry).currentWater == s.currentWater - entry.amount
    ensures Removed(s, entry).currentWater == TotalAmount(Removed(s, entry).history)
  {
    var h := s.history;
    var k := IndexOf(h, entry);
    var rest := RemoveFirst(h, entry);
    RemoveFirstTotal(h, entry);
    assert AllAmountsNonNegative(rest) by {
      forall i | 0 <= i < |rest| ensures rest[i].amount >= 0 {
        if i < |h| - 1 {
          RemoveFirstShifts(h, entry, i);
        }
      }
    }
    TotalAmountNonNegative(rest);
    assert h[k].amount >= 0;
  }

  /** What a later start-up can read back: an ordered history of loadable entries. */
  predicate StorableHistory(h: seq<WaterEntry>) {
    NewestFirst(h) && forall e :: e in h ==> Loadable(e)
  }

  /** An add of a positive amount at a positive time no earlier than the newest entry keeps the
      history storable; so does any removal. */
  lemma AddKeepsStorable(s: AppState, amount: int, now: int)
    requires StorableHistory(s.history)
    requires amount > 0 && now > 0
    requires |s.history| == 0 || now >= s.history[0].timestamp
    ensures StorableHistory(Added(s, amount, now).history)
  {
    var h := Added(s, amount, now).history;
    forall i, j | 0 <= i < j < |h| ensures h[i].timestamp >= h[j].timestamp {
      if i > 0 {
        assert h[i] == s.history[i - 1] && h[j] == s.history[j - 1];
      } else {
        assert h[j] == s.history[j - 1];
      }
    }
  }

  lemma RemoveKeepsStorable(s: AppState, entry: WaterEntry)
    requires StorableHistory(s.history)
    ensures StorableHistory(Removed(s, entry).history)
  {
    var h := Removed(s, entry).history;
    RemoveFirstKeepsNewestFirst(s.history, entry);
    RemoveFirstRemovesOneCopy(s.history, entry);
    forall e | e in h ensures Loadable(e) {
      assert e in multiset(h);
      assert e in multiset(s.history);
    }
  }

  /** Start-up after the history was saved and both scalars were written restores the intake,
      the goal and the history, provided the history is storable. */
  lemma ReopenRestoresState(store: Store, s: AppState)
    requires StorableHistory(s.history)
    ensures Initial(WithScalars(Saved(store, s.history), s)) == s.(dialog := Hidden)
  {
    var saved := Saved(store, s.history);
    var reopened := WithScalars(saved, s);
    LoadReadsOnlyStoredIndices(reopened, saved);
    SaveLoadRoundTrip(store, s.history);
  }

  /** The history is saved inside the add handler, while `current_water` is written later by a
      separate effect. A start-up between the two sees the new entry but the old intake, so the
      intake falls short of the history's total by the added amount: start-up does not
      reconcile the two. */
  lemma RestartBeforeScalarWrite(store: Store, s: AppState, amount: int, now: int)
    requires StorableHistory(Added(s, amount, now).history)
    requires s.currentWater == TotalAmount(s.history)
    ensures var reopened := Initial(Saved(WithScalars(store, s), Added(s, amount, now).history));
            && reopened.currentWater == s.currentWater
            && reopened.history == Added(s, amount, now).history
            && reopened.currentWater == TotalAmount(reopened.history) - amount
  {
    var h := Added(s, amount, now).history;
    var before := WithScalars(store, s);
    SavedLeavesOtherKeys(before, h, CurrentWater, DefaultCurrentWater);
    SaveLoadRoundTrip(before, h);
    assert h[1..] == s.history;
  }

  /** Confirming sets the goal and closes the dialog exactly when the text parses to an `Int`
      above zero; any other text leaves the state as it was. */
  lemma ConfirmAcceptsOnlyPositiveInts(s: AppState)
    requires s.dialog.Shown?
    ensures var parsed := ToIntOrNull(s.dialog.goalText);
            && (parsed.Some? && parsed.value > 0 ==>
                  GoalConfirmed(s) == s.(dailyGoal := parsed.value, dialog := Hidden))
            && (!(parsed.Some? && parsed.value > 0) ==> GoalConfirmed(s) == s)
  {
  }

  /** Opening a hidden dialog and confirming without typing keeps a positive goal and closes the
      dialog again; a goal that is not positive cannot be confirmed as it stands. */
  lemma ConfirmUntouchedGoal(s: AppState)
    requires IsInt(s.dailyGoal)
    ensures s.dialog.Hidden? && s.dailyGoal > 0 ==> GoalConfirmed(GoalDialogOpened(s)) == s
    ensures s.dialog.Hidden? && s.dailyGoal <= 0 ==> GoalConfirmed(GoalDialogOpened(s)) == GoalDialogOpened(s)
  {
    if s.dialog.Hidden? {
      ParsesOwnRendering(s.dailyGoal);
    }
  }

  /** Pressing the settings button again changes nothing: the dialog is shown either way, and
      a shown dialog keeps its text and the rest of the state. */
  lemma OpenGoalDialogIsIdempotent(s: AppState)
    ensures GoalDialogOpened(s).dialog.Shown?
    ensures GoalDialogOpened(GoalDialogOpened(s)) == GoalDialogOpened(s)
    ensures s.dialog.Shown? ==> GoalDialogOpened(s) == s
    ensures GoalDialogOpened(s).(dialog := s.dialog) == s
  {
  }

  /** A positive goal stays positive whatever the user does. */
  lemma GoalStaysPositive(s: AppState, amount: int, now: int, entry: WaterEntry, text: string)
    requires s.dailyGoal > 0
    ensures Added(s, amount, now).dailyGoal > 0
    ensures Removed(s, entry).dailyGoal > 0
    ensures GoalDialogOpened(s).dailyGoal > 0
    ensures GoalDialogDismissed(s).dailyGoal > 0
    ensures s.dialog.Shown? ==> GoalTextEdited(s, text).dailyGoal > 0 && GoalConfirmed(s).dailyGoal > 0
  {
  }

  // ----- the state holder

  /** The remembered state of `WaterTrackerApp`, with the store it persists to. */
  class WaterTrackerApp {
    const prefs: SharedPreferences
    var currentWater: int
    var dailyGoal: int
    var history: seq<WaterEntry>
    var dialog: GoalDialog

    function State(): AppState
      reads this
    {
      AppState(currentWater, dailyGoal, history, dialog)
    }

    /** Start-up: read both scalars, load the history into an empty list. */
    constructor (prefs: SharedPreferences)
      ensures this.prefs == prefs
      ensures State() == Initial(prefs.data)
    {
      var loaded := LoadWaterHistory(prefs, []);
      this.prefs := prefs;
      currentWater := Get(prefs.data, CurrentWater, DefaultCurrentWater);
      dailyGoal := Get(prefs.data, DailyGoal, DefaultDailyGoal);
      history := loaded;
      dialog := Hidden;
    }

    /** `onAddWater`: count the drink, prepend its entry, save the history. */
    method AddWater(amount: int, now: int)
      modifies this, prefs
      ensures State() == Added(old(State()), amount, now)
      ensures prefs.data == Saved(old(prefs.data), history)
    {
      currentWater := Wrap(currentWater + amount);
      history := [WaterEntry(amount, now)] + history;
      SaveWaterHistory(prefs, history);
    }

    /** `onRemoveEntry`: drop the entry, lower the intake (not below zero), save the history. */
    method RemoveEntry(entry: WaterEntry)
      modifies this, prefs
      ensures State() == Removed(old(State()), entry)
      ensures prefs.data == Saved(old(prefs.data), history)
    {
      history := RemoveFirst(history, entry);
      currentWater := MaxOf(0, Wrap(currentWater - entry.amount));
      SaveWaterHistory(prefs, history);
    }

    method OpenGoalDialog()
      modifies this
      ensures State() == GoalDialogOpened(old(State()))
    {
      if dialog.Hidden? {
        dialog := Shown(IntToString(dailyGoal));
      }
    }

    method EditGoalText(text: string)
      requires dialog.Shown?
      modifies this
      ensures State() == GoalTextEdited(old(State()), text)
    {
      dialog := Shown(text);
    }

    /** The confirm button: `toIntOrNull`, then `onGoalChanged` only for a value above zero. */
    method ConfirmGoal()
      requires dialog.Shown?
      modifies this
      ensures State() == GoalConfirmed(old(State()))
    {
      var newGoal := ToIntOrNull(dialog.goalText);
      if newGoal.Some? && newGoal.value > 0 {
        dailyGoal := newGoal.value;
        dialog := Hidden;
      }
    }

    method DismissGoalDialog()
      modifies this
      ensures State() == GoalDialogDismissed(old(State()))
    {
      dialog := Hidden;
    }

    /** The effect that stores `current_water` and `daily_goal` after either changed. */
    method PersistScalars()
      modifies prefs
      ensures prefs.data == WithScalars(old(prefs.data), State())
    {
      var editor: Store := map[CurrentWater := currentWater, DailyGoal := dailyGoal];
      prefs.Apply(editor);
    }
  }

  /** The add-then-remove walk-through: 250 ml then 500 ml give 750 ml, newest first; removing
      the 500 ml entry leaves 250 ml and the first entry. */
  method AddThenRemoveWalkthrough(t1: int, t2: int)
    requires 0 < t1 <= t2
  {
    var prefs := new SharedPreferences(map[]);
    var app := new WaterTrackerApp(prefs);
    FreshInstallDefaults();
    app.AddWater(QuickAddAmounts[0], t1);
    app.AddWater(QuickAddAmounts[1], t2);
    assert app.currentWater == 750;
    assert app.history == [WaterEntry(500, t2), WaterEntry(250, t1)];
    app.RemoveEntry(WaterEntry(500, t2));
    assert app.currentWater == 250;
    assert app.history == [WaterEntry(250, t1)];
  }
}
