/**
 * The demo-mode habit service: the periodic reset of expired completions,
 * the completion toggle with its streak arithmetic, create, archive toggle,
 * delete and lookup, all over the demo storage.
 */
module MockHabitsService {
  import opened Wrappers
  import opened Calendar
  import opened HabitModel
  import opened MockData

  datatype ServiceError = NotFound(habitId: int)

  /** The habit list as `getMockHabits` reads it from a storage state. */
  function StoredHabits(s: Snapshot): seq<Habit>
  {
    if s.habits.Some? then s.habits.value else []
  }

  // ---------------------------------------------------------------------
  // Reset of expired completions

  /**
   * Whether a completion recorded at `last` (from the completion-date map,
   * not the habit record) has expired at `now`. With no stored date every
   * frequency counts as expired. The weekly rule compares `now` with the
   * date seven days BEFORE the completion.
   */
  function ShouldReset(frequency: Frequency, last: Option<int>, now: int): (r: bool)
    ensures last.None? ==> r
    ensures last.Some? && frequency == Daily ==>
      (!r <==> Midnight(Day(now)) <= last.value < Midnight(Day(now)) + MsPerDay)
    ensures last.Some? && frequency == Weekly ==> (!r <==> last.value >= now + 7 * MsPerDay)
    ensures last.Some? && frequency == Monthly ==> (!r <==> Month(last.value) == Month(now))
  {
    match last
    case None => true
    case Some(t) =>
      match frequency
      case Daily => DayIff(t, Day(now)); Day(t) != Day(now)
      case Weekly => now > t - 7 * MsPerDay
      case Monthly => Month(t) != Month(now)
  }

  /** Whether the reset pass clears this habit's `completed` flag. */
  predicate NeedsReset(h: Habit, dates: Option<map<int, int>>, now: int)
    ensures h.isArchived || !h.completed ==> !NeedsReset(h, dates, now)
    ensures !h.isArchived && h.completed && (dates.None? || h.id !in dates.value) ==> NeedsReset(h, dates, now)
  {
    !h.isArchived && h.completed && ShouldReset(h.frequency, LookupDate(dates, h.id), now)
  }

  /** One habit after the reset pass: unchanged, or only `completed` cleared. */
  function ResetHabit(h: Habit, dates: Option<map<int, int>>, now: int): (r: Habit)
    ensures r == h || r == h.(completed := false)
    ensures r != h <==> NeedsReset(h, dates, now)
  {
    if NeedsReset(h, dates, now) then h.(completed := false) else h
  }

  /** The list after the reset pass, position by position. */
  function ResetAll(hs: seq<Habit>, dates: Option<map<int, int>>, now: int): (r: seq<Habit>)
    ensures |r| == |hs|
    ensures forall i :: 0 <= i < |hs| ==> r[i] == ResetHabit(hs[i], dates, now)
  {
    seq(|hs|, i requires 0 <= i < |hs| => ResetHabit(hs[i], dates, now))
  }

  /** How many habits the reset pass clears. */
  function ResetCount(hs: seq<Habit>, dates: Option<map<int, int>>, now: int): nat
    decreases |hs|
  {
    if hs == [] then 0
    else ResetCount(hs[..|hs| - 1], dates, now) + (if NeedsReset(hs[|hs| - 1], dates, now) then 1 else 0)
  }

  /** The pass reports no reset exactly when it changes nothing, so skipping the write loses nothing. */
  lemma ResetCountZeroIff(hs: seq<Habit>, dates: Option<map<int, int>>, now: int)
    ensures ResetCount(hs, dates, now) == 0 <==> ResetAll(hs, dates, now) == hs
    ensures ResetCount(hs, dates, now) <= |hs|
  {
    ResetCountZeroIffNoneDue(hs, dates, now);
    if ResetAll(hs, dates, now) == hs {
      forall i | 0 <= i < |hs| ensures !NeedsReset(hs[i], dates, now) {
        assert ResetAll(hs, dates, now)[i] == hs[i];
      }
    }
  }

  /** The pass counts no reset exactly when no habit needs one. */
  lemma {:induction false} ResetCountZeroIffNoneDue(hs: seq<Habit>, dates: Option<map<int, int>>, now: int)
    ensures ResetCount(hs, dates, now) == 0 <==> forall i :: 0 <= i < |hs| ==> !NeedsReset(hs[i], dates, now)
    ensures ResetCount(hs, dates, now) <= |hs|
  {
    if hs != [] {
      var init := hs[..|hs| - 1];
      ResetCountZeroIffNoneDue(init, dates, now);
      if ResetCount(hs, dates, now) == 0 {
        forall i | 0 <= i < |hs| ensures !NeedsReset(hs[i], dates, now) {
          if i < |init| {
            assert hs[i] == init[i];
          }
        }
      } else if ResetCount(init, dates, now) > 0 {
        var i :| 0 <= i < |init| && NeedsReset(init[i], dates, now);
        assert hs[i] == init[i];
      }
    }
  }

  /** A reset habit differs from its input only in `completed`; archived and incomplete habits are untouched. */
  lemma ResetOnlyClearsCompleted(hs: seq<Habit>, dates: Option<map<int, int>>, now: int, i: int)
    requires 0 <= i < |hs|
    ensures var r := ResetAll(hs, dates, now)[i];
      r.id == hs[i].id && r.streak == hs[i].streak && r.updatedAt == hs[i].updatedAt
      && r.lastCompleted == hs[i].lastCompleted && r.isArchived == hs[i].isArchived
      && (r.completed == (hs[i].completed && !NeedsReset(hs[i], dates, now)))
    ensures hs[i].isArchived || !hs[i].completed ==> ResetAll(hs, dates, now)[i] == hs[i]
  {
  }

  /** Running the pass again at the same time changes nothing. */
  lemma ResetIdempotent(hs: seq<Habit>, dates: Option<map<int, int>>, now: int)
    ensures ResetAll(ResetAll(hs, dates, now), dates, now) == ResetAll(hs, dates, now)
    ensures ResetCount(ResetAll(hs, dates, now), dates, now) == 0
  {
    var r := ResetAll(hs, dates, now);
    forall i | 0 <= i < |r| ensures ResetHabit(r[i], dates, now) == r[i] {
      assert !NeedsReset(r[i], dates, now);
    }
    assert ResetAll(r, dates, now) == r;
    ResetCountZeroIff(r, dates, now);
  }

  /** The pass keeps ids distinct and streaks non-negative. */
  lemma ResetPreservesInvariant(hs: seq<Habit>, dates: Option<map<int, int>>, now: int)
    ensures IdsDistinct(hs) ==> IdsDistinct(ResetAll(hs, dates, now))
    ensures StreaksNonNegative(hs) ==> StreaksNonNegative(ResetAll(hs, dates, now))
  {
  }

  /** A monthly completion from January one year is still fresh in January of the next year. */
  lemma MonthlyIgnoresYear()
    ensures Year(Midnight(19737)) == 2024 && Year(Midnight(20103)) == 2025
    ensures !ShouldReset(Monthly, Some(Midnight(19737)), Midnight(20103))
  {
    DayOfJan15In2024();
    DayOfJan15In2025();
  }

  /**
   * Weekly, as written: every completion less than seven days in the
   * future of `now` has expired, including one made a moment ago and one
   * made exactly seven days ago.
   */
  lemma WeeklyRule(last: int, now: int)
    ensures last <= now ==> ShouldReset(Weekly, Some(last), now)
  {
  }

  /** The loop of `checkAndResetHabits`: the new list and how many habits it cleared. */
  method ResetPass(store: DemoStorage, habits: seq<Habit>, now: int) returns (updated: seq<Habit>, resetCount: nat)
    ensures updated == ResetAll(habits, store.Snap().completionDates, now)
    ensures resetCount == ResetCount(habits, store.Snap().completionDates, now)
    ensures resetCount == 0 <==> updated == habits
  {
    ghost var dates := store.Snap().completionDates;
    updated := [];
    resetCount := 0;
    for i := 0 to |habits|
      invariant updated == ResetAll(habits[..i], dates, now)
      invariant resetCount == ResetCount(habits[..i], dates, now)
    {
      assert habits[..i + 1][..i] == habits[..i];
      assert ResetAll(habits[..i + 1], dates, now)
        == ResetAll(habits[..i], dates, now) + [ResetHabit(habits[i], dates, now)];
      var habit := habits[i];
      var lastCompleted := GetLastCompletedDate(store, habit.id);
      if habit.isArchived {
        updated := updated + [habit];
      } else {
        var shouldReset := ShouldReset(habit.frequency, lastCompleted, now);
        if shouldReset && habit.completed {
          resetCount := resetCount + 1;
          updated := updated + [habit.(completed := false)];
        } else {
          updated := updated + [habit];
        }
      }
    }
    assert habits[..|habits|] == habits;
    ResetCountZeroIff(habits, dates, now);
  }

  /** `checkAndResetHabits` at time `now`, after initialising the storage. */
  method CheckAndResetHabits(store: DemoStorage, now: int)
    modifies store
    ensures var s := Initialized(old(store.Snap()), now);
      store.Snap() == if ResetCount(StoredHabits(s), s.completionDates, now) > 0
        then s.(habits := Some(ResetAll(StoredHabits(s), s.completionDates, now)))
        else s
    ensures var s := Initialized(old(store.Snap()), now);
      store.Snap() == s.(habits := Some(ResetAll(StoredHabits(s), s.completionDates, now)))
  {
    InitializeMockData(store, now);
    var habits := GetMockHabits(store);
    var updated, resetCount := ResetPass(store, habits, now);
    if resetCount > 0 {
      SaveMockHabits(store, updated);
    }
  }

  /** `getHabits`: initialise, run the reset pass, and return the stored list. */
  method GetHabits(store: DemoStorage, now: int) returns (hs: seq<Habit>)
    modifies store
    ensures var s := Initialized(old(store.Snap()), now);
      hs == ResetAll(StoredHabits(s), s.completionDates, now)
      && store.Snap() == s.(habits := Some(hs))
  {
    InitializeMockData(store, now);
    InitializedIdempotent(old(store.Snap()), now, now);
    CheckAndResetHabits(store, now);
    hs := GetMockHabits(store);
  }

  /** `getHabit`: the first habit with the id, or not-found. */
  method GetHabit(store: DemoStorage, id: int) returns (r: Result<Habit, ServiceError>)
    ensures !HasId(StoredHabits(store.Snap()), id) ==> r == Failure(NotFound(id))
    ensures HasId(StoredHabits(store.Snap()), id) ==> r.Success? && r.value.id == id
    ensures r.Success? ==>
      exists i :: 0 <= i < |StoredHabits(store.Snap())| && StoredHabits(store.Snap())[i] == r.value
        && forall j :: 0 <= j < i ==> StoredHabits(store.Snap())[j].id != id
  {
    var habits := GetMockHabits(store);
    var idx := FindIndex(habits, id);
    if idx.None? {
      r := Failure(NotFound(id));
    } else {
      r := Success(habits[idx.value]);
    }
  }

  // ---------------------------------------------------------------------
  // Create

  /** `Math.max(0, ...ids)`. */
  function MaxId(hs: seq<Habit>): (m: int)
    ensures m >= 0
    ensures forall i :: 0 <= i < |hs| ==> hs[i].id <= m
    ensures m == 0 || exists i :: 0 <= i < |hs| && hs[i].id == m
  {
    if hs == [] then 0
    else
      var rest := MaxId(hs[1..]);
      assert forall i :: 1 <= i < |hs| ==> hs[i] == hs[1..][i - 1];
      if hs[0].id > rest then hs[0].id else rest
  }

  /** The id `createHabit` assigns: positive and above every existing id. */
  function NextId(hs: seq<Habit>): (id: int)
    ensures id >= 1
    ensures forall i :: 0 <= i < |hs| ==> hs[i].id < id
  {
    MaxId(hs) + 1
  }

  /** The habit `createHabit` builds at time `now`. */
  function NewHabit(id: int, data: CreateHabitData, now: int): (h: Habit)
    ensures h.id == id && h.streak == 0 && !h.completed && !h.isArchived
    ensures h.createdAt == now && h.updatedAt == now && h.lastCompleted.None?
    ensures h.title == data.title && h.description == data.description
    ensures h.frequency == data.frequency && h.category == data.category
    ensures h.timeOfDay.Some? && h.reminderTime.Some?
  {
    Habit(id, data.title, data.description, data.frequency, Some(data.timeOfDay.GetOr("")),
      now, now, 0, false, data.category, Some(data.reminderTime.GetOr("")), false, None)
  }

  /** Appending a freshly created habit keeps ids distinct and streaks non-negative. */
  lemma CreatePreservesInvariant(hs: seq<Habit>, data: CreateHabitData, now: int)
    ensures IdsDistinct(hs) ==> IdsDistinct(hs + [NewHabit(NextId(hs), data, now)])
    ensures StreaksNonNegative(hs) ==> StreaksNonNegative(hs + [NewHabit(NextId(hs), data, now)])
  {
  }

  method CreateHabit(store: DemoStorage, data: CreateHabitData, now: int) returns (h: Habit)
    modifies store
    ensures h == NewHabit(NextId(StoredHabits(old(store.Snap()))), data, now)
    ensures store.Snap() == old(store.Snap()).(habits := Some(StoredHabits(old(store.Snap())) + [h]))
  {
    var habits := GetMockHabits(store);
    var newId := MaxId(habits) + 1;
    h := NewHabit(newId, data, now);
    SaveMockHabits(store, habits + [h]);
  }

  // ---------------------------------------------------------------------
  // Update (completion toggle) and archive toggle

  /** Whether an update marks a habit completed that was not. */
  predicate MarksCompleted(h: Habit, data: UpdateHabitData)
  {
    data.completed == Some(true) && !h.completed
  }

  /** Whether an update marks a completed habit as not completed. */
  predicate MarksUncompleted(h: Habit, data: UpdateHabitData)
  {
    data.completed == Some(false) && h.completed
  }

  /** The streak after an update; a streak supplied in the update plays no part. */
  function NextStreak(h: Habit, data: UpdateHabitData): (s: int)
    ensures h.streak >= 0 ==> s >= 0
  {
    if MarksCompleted(h, data) then h.streak + 1
    else if MarksUncompleted(h, data) then (if h.streak - 1 > 0 then h.streak - 1 else 0)
    else h.streak
  }

  /** `{...oldHabit, ...data, streak, updated_at: now}`. */
  function UpdatedHabit(h: Habit, data: UpdateHabitData, now: int): (r: Habit)
    ensures r.id == h.id && r.createdAt == h.createdAt && r.updatedAt == now
    ensures r.streak == NextStreak(h, data)
    ensures r.completed == data.completed.GetOr(h.completed)
    ensures r.isArchived == data.isArchived.GetOr(h.isArchived)
    ensures r.lastCompleted == data.lastCompleted.GetOr(h.lastCompleted)
    ensures r.title == data.title.GetOr(h.title) && r.category == data.category.GetOr(h.category)
    ensures r.frequency == data.frequency.GetOr(h.frequency)
  {
    Habit(h.id,
      data.title.GetOr(h.title),
      data.description.GetOr(h.description),
      data.frequency.GetOr(h.frequency),
      data.timeOfDay.GetOr(h.timeOfDay),
      h.createdAt,
      now,
      NextStreak(h, data),
      data.completed.GetOr(h.completed),
      data.category.GetOr(h.category),
      data.reminderTime.GetOr(h.reminderTime),
      data.isArchived.GetOr(h.isArchived),
      data.lastCompleted.GetOr(h.lastCompleted))
  }

  /** The streak moves by one on a real transition and not at all otherwise; it never drops below zero. */
  lemma StreakTransitions(h: Habit, data: UpdateHabitData, now: int)
    ensures MarksCompleted(h, data) ==> UpdatedHabit(h, data, now).streak == h.streak + 1
    ensures MarksUncompleted(h, data) && h.streak >= 1 ==> UpdatedHabit(h, data, now).streak == h.streak - 1
    ensures MarksUncompleted(h, data) && h.streak <= 1 ==> UpdatedHabit(h, data, now).streak == 0
    ensures !MarksCompleted(h, data) && !MarksUncompleted(h, data) ==> UpdatedHabit(h, data, now).streak == h.streak
  {
  }

  /** A streak supplied in the update is ignored. */
  lemma SuppliedStreakIgnored(h: Habit, data: UpdateHabitData, streak: int, now: int)
    ensures UpdatedHabit(h, data.(streak := Some(streak)), now) == UpdatedHabit(h, data, now)
  {
  }

  /**
   * Complete then uncomplete restores the streak. Uncomplete then complete
   * restores it too, except that a completed habit with streak 0 ends at 1.
   */
  lemma ToggleTwice(h: Habit, t1: int, t2: int)
    requires h.streak >= 0
    ensures !h.completed ==>
      UpdatedHabit(UpdatedHabit(h, CompletedUpdate(true), t1), CompletedUpdate(false), t2).streak == h.streak
    ensures h.completed ==>
      UpdatedHabit(UpdatedHabit(h, CompletedUpdate(false), t1), CompletedUpdate(true), t2).streak
        == if h.streak >= 1 then h.streak else 1
  {
  }

  /** Replacing one habit by its update keeps ids distinct and streaks non-negative. */
  lemma UpdatePreservesInvariant(hs: seq<Habit>, i: int, data: UpdateHabitData, now: int)
    requires 0 <= i < |hs|
    ensures IdsDistinct(hs) ==> IdsDistinct(hs[i := UpdatedHabit(hs[i], data, now)])
    ensures StreaksNonNegative(hs) ==> StreaksNonNegative(hs[i := UpdatedHabit(hs[i], data, now)])
  {
  }

  /**
   * `updateHabit`: replaces the first habit with the id by its update and,
   * when it becomes completed, records `now` in the completion-date map.
   * Uncompleting leaves the map alone. An absent id writes nothing.
   */
  method UpdateHabit(store: DemoStorage, id: int, data: UpdateHabitData, now: int)
    returns (r: Result<Habit, ServiceError>)
    modifies store
    ensures var hs := StoredHabits(old(store.Snap()));
      FindIndex(hs, id).None? ==> r == Failure(NotFound(id)) && store.Snap() == old(store.Snap())
    ensures var hs := StoredHabits(old(store.Snap()));
      FindIndex(hs, id).Some? ==>
        var i := FindIndex(hs, id).value;
        && r == Success(UpdatedHabit(hs[i], data, now))
        && store.habits == Some(hs[i := r.value])
        && store.completionDates == (if MarksCompleted(hs[i], data)
             then Some(WithDate(old(store.completionDates), id, Some(now)))
             else old(store.completionDates))
        && store.user == old(store.user) && store.token == old(store.token)
  {
    var habits := GetMockHabits(store);
    var habitIndex := FindIndex(habits, id);
    if habitIndex.None? {
      return Failure(NotFound(id));
    }
    var oldHabit := habits[habitIndex.value];
    var streak := oldHabit.streak;
    if data.completed.Some? {
      if data.completed.value && !oldHabit.completed {
        streak := streak + 1;
        SetLastCompletedDate(store, id, Some(now));
      } else if !data.completed.value && oldHabit.completed {
        streak := if streak - 1 > 0 then streak - 1 else 0;
      }
    }
    var updatedHabit := UpdatedHabit(oldHabit, data, now).(streak := streak);
    SaveMockHabits(store, habits[habitIndex.value := updatedHabit]);
    r := Success(updatedHabit);
  }

  /** The habit `toggleArchiveHabit` stores: archive flag flipped, `updated_at` set. */
  function ArchiveToggled(h: Habit, now: int): (r: Habit)
    ensures r.isArchived == !h.isArchived && r.updatedAt == now
    ensures r.(isArchived := h.isArchived, updatedAt := h.updatedAt) == h
  {
    h.(isArchived := !h.isArchived, updatedAt := now)
  }

  method ToggleArchiveHabit(store: DemoStorage, id: int, now: int) returns (r: Result<Habit, ServiceError>)
    modifies store
    ensures var hs := StoredHabits(old(store.Snap()));
      FindIndex(hs, id).None? ==> r == Failure(NotFound(id)) && store.Snap() == old(store.Snap())
    ensures var hs := StoredHabits(old(store.Snap()));
      FindIndex(hs, id).Some? ==>
        var i := FindIndex(hs, id).value;
        r == Success(ArchiveToggled(hs[i], now))
        && store.Snap() == old(store.Snap()).(habits := Some(hs[i := r.value]))
  {
    var habits := GetMockHabits(store);
    var habitIndex := FindIndex(habits, id);
    if habitIndex.None? {
      return Failure(NotFound(id));
    }
    var updatedHabit := ArchiveToggled(habits[habitIndex.value], now);
    SaveMockHabits(store, habits[habitIndex.value := updatedHabit]);
    r := Success(updatedHabit);
  }

  // ---------------------------------------------------------------------
  // Delete

  /**
   * `deleteHabit`: removes every habit with the id and its completion date.
   * When no habit has the id it fails and writes nothing.
   */
  method DeleteHabit(store: DemoStorage, id: int) returns (r: Result<(), ServiceError>)
    modifies store
    ensures var hs := StoredHabits(old(store.Snap()));
      !HasId(hs, id) ==> r == Failure(NotFound(id)) && store.Snap() == old(store.Snap())
    ensures var hs := StoredHabits(old(store.Snap()));
      HasId(hs, id) ==> (r == Success(())
        && store.Snap() == old(store.Snap()).(habits := Some(RemoveId(hs, id)),
             completionDates := Some(WithDate(old(store.completionDates), id, None))))
  {
    var habits := GetMockHabits(store);
    var updatedHabits := RemoveId(habits, id);
    RemoveIdShortensIffPresent(habits, id);
    if |updatedHabits| == |habits| {
      return Failure(NotFound(id));
    }
    SaveMockHabits(store, updatedHabits);
    SetLastCompletedDate(store, id, None);
    r := Success(());
  }
}
