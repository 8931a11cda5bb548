/**
 * The demo-mode persistence layer: four browser-storage keys holding the
 * habit list, the demo user, the demo token and, separately, a map from habit
 * id to the timestamp of its last completion.
 */
module MockData {
  import opened Wrappers
  import opened Calendar
  import opened HabitModel

  const DemoToken: string := "demo_mock_jwt_token"

  /** The demo user, joined on 2024-01-15 (day 19737). */
  function MockUser(): (u: User)
    ensures u.id == 1 && Day(u.createdAt) == 19737
  {
    User(1, "demo@example.com", "Demo User", Midnight(19737))
  }

  /**
   * The ten sample habits, generated at time `now`. The source moves its
   * `now` back by 2, then 3, then 4 more days while building habits 3, 4
   * and 5, so habits 6 and 10 carry `now` minus nine days as their last
   * completion. Fixed dates are given by day number (day 19737 is 2024-01-15).
   */
  function GenerateMockHabits(now: int): (hs: seq<Habit>)
    ensures |hs| == 10
    ensures forall i :: 0 <= i < 10 ==> hs[i].id == i + 1 && hs[i].streak >= 0
    ensures forall i :: 0 <= i < 10 ==> hs[i].lastCompleted.Some?
    ensures forall i :: 0 <= i < 10 ==> (hs[i].completed <==> i + 1 in {1, 3, 5, 6, 7, 10})
    ensures forall i :: 0 <= i < 10 ==> (hs[i].isArchived <==> i + 1 == 8)
    ensures IdsDistinct(hs) && StreaksNonNegative(hs)
  {
    var yesterday := now - MsPerDay;
    var now2 := now - 2 * MsPerDay;
    var now5 := now2 - 3 * MsPerDay;
    var now9 := now5 - 4 * MsPerDay;
    [ Habit(1, Titles[0], Descriptions[0], Daily, Some("06:30"), Midnight(19737), Midnight(19773),
        7, true, Mindfulness, Some("06:25"), false, Some(now)),
      Habit(2, Titles[1], Descriptions[1], Daily, Some("21:00"), Midnight(19738), Midnight(19775),
        4, false, Learning, Some("20:55"), false, Some(yesterday)),
      Habit(3, Titles[2], Descriptions[2], Weekly, Some("17:30"), Midnight(19742), Midnight(19787),
        3, true, Fitness, Some("17:15"), false, Some(now2)),
      Habit(4, Titles[3], Descriptions[3], Daily, Some("22:00"), Midnight(19732), Midnight(19768),
        0, false, Mindfulness, Some("21:55"), false, Some(now5)),
      Habit(5, Titles[4], Descriptions[4], Weekly, Some("18:00"), Midnight(19758), Midnight(19783),
        5, true, Productivity, Some("17:45"), false, Some(now9)),
      Habit(6, Titles[5], Descriptions[5], Daily, Some("19:30"), Midnight(19747), Midnight(19781),
        12, true, Learning, Some("19:25"), false, Some(now9)),
      Habit(7, Titles[6], Descriptions[6], Monthly, Some("10:00"), Midnight(19752), Midnight(19783),
        2, true, Career, Some("09:55"), false, Some(Midnight(19783))),
      Habit(8, Titles[7], Descriptions[7], Daily, None, Midnight(19734), Midnight(19763),
        0, false, Health, None, true, Some(Midnight(19792))),
      Habit(9, Titles[8], Descriptions[8], Weekly, Some("19:00"), Midnight(19761), Midnight(19789),
        4, false, Social, Some("18:45"), false, Some(Midnight(19789))),
      Habit(10, Titles[9], Descriptions[9], Daily, Some("20:00"), Midnight(19768), Midnight(19796),
        1, true, Mindfulness, Some("19:55"), false, Some(now9)) ]
  }

  const Titles: seq<string> := [
    "Morning Meditation", "Read 20 Pages", "Workout Session", "Gratitude Journaling",
    "Weekly Planning", "Learn Spanish", "Monthly Budget Review", "Daily Water Intake",
    "Call a Friend", "Digital Detox Hour"]

  const Descriptions: seq<string> := [
    "Start each day with 10 minutes of mindful meditation to clear your mind and set positive intentions for the day.",
    "Read 20 pages of a non-fiction book to expand knowledge and vocabulary.",
    "Complete a 30-minute strength training workout focusing on major muscle groups.",
    "Write down three things you are grateful for to cultivate positivity and mindfulness.",
    "Plan your goals and tasks for the upcoming week to stay organized and focused.",
    "Practice Spanish vocabulary for 15 minutes using a language learning app.",
    "Review your monthly expenses and update your budget for the coming month.",
    "Drink at least 2 liters of water throughout the day for proper hydration.",
    "Reach out to a friend or family member to maintain social connections.",
    "Spend one hour without digital devices to reduce screen time and improve mental clarity."]

  // ---------------------------------------------------------------------
  // The completion-date map

  /** `getLastCompletedDate`: the stored date of `id`, if the key and the entry exist. */
  function LookupDate(stored: Option<map<int, int>>, id: int): (d: Option<int>)
    ensures d.Some? <==> stored.Some? && id in stored.value
    ensures d.Some? ==> d.value == stored.value[id]
  {
    if stored.Some? && id in stored.value then Some(stored.value[id]) else None
  }

  /** `setLastCompletedDate`: the map written back (an absent key starts from the empty map). */
  function WithDate(stored: Option<map<int, int>>, id: int, date: Option<int>): (m: map<int, int>)
    ensures date.None? ==> id !in m
    ensures date.Some? ==> id in m && m[id] == date.value
    ensures forall k :: k != id ==> LookupDate(Some(m), k) == LookupDate(stored, k)
  {
    var old_ := stored.GetOr(map[]);
    if date.None? then old_ - {id} else old_[id := date.value]
  }

  /** Setting then getting the same id yields what was set; a null deletes the entry. */
  lemma GetAfterSet(stored: Option<map<int, int>>, id: int, date: Option<int>)
    ensures LookupDate(Some(WithDate(stored, id, date)), id) == date
  {
  }

  /** Setting one id leaves every other id's entry as it was. */
  lemma SetLeavesOthers(stored: Option<map<int, int>>, id: int, date: Option<int>, other: int)
    requires other != id
    ensures LookupDate(Some(WithDate(stored, id, date)), other) == LookupDate(stored, other)
  {
  }

  /** The dates `initializeMockData` records: `now` for every completed habit, later ones winning. */
  function InitialCompletionDates(hs: seq<Habit>, now: int): map<int, int>
    decreases |hs|
  {
    if hs == [] then map[]
    else
      var m := InitialCompletionDates(hs[..|hs| - 1], now);
      var h := hs[|hs| - 1];
      if h.completed then m[h.id := now] else m
  }

  lemma {:induction false} InitialCompletionDatesSpec(hs: seq<Habit>, now: int)
    ensures forall id :: id in InitialCompletionDates(hs, now) <==>
      exists i :: 0 <= i < |hs| && hs[i].id == id && hs[i].completed
    ensures forall id :: id in InitialCompletionDates(hs, now) ==> InitialCompletionDates(hs, now)[id] == now
  {
    if hs != [] {
      var init := hs[..|hs| - 1];
      InitialCompletionDatesSpec(init, now);
      forall id ensures id in InitialCompletionDates(hs, now) <==>
        exists i :: 0 <= i < |hs| && hs[i].id == id && hs[i].completed
      {
        if exists i :: 0 <= i < |init| && init[i].id == id && init[i].completed {
          var i :| 0 <= i < |init| && init[i].id == id && init[i].completed;
          assert hs[i] == init[i];
        }
        if exists i :: 0 <= i < |hs| && hs[i].id == id && hs[i].completed {
          var i :| 0 <= i < |hs| && hs[i].id == id && hs[i].completed;
          if i < |init| { assert init[i] == hs[i]; }
        }
      }
    }
  }

  /** The dates `resetMockData` records: each completed habit's own `last_completed`. */
  function ResetCompletionDates(hs: seq<Habit>): map<int, int>
    decreases |hs|
  {
    if hs == [] then map[]
    else
      var m := ResetCompletionDates(hs[..|hs| - 1]);
      var h := hs[|hs| - 1];
      if h.completed && h.lastCompleted.Some? then m[h.id := h.lastCompleted.value] else m
  }

  lemma {:induction false} ResetCompletionDatesSpec(hs: seq<Habit>)
    ensures forall id :: id in ResetCompletionDates(hs) <==>
      exists i :: 0 <= i < |hs| && hs[i].id == id && hs[i].completed && hs[i].lastCompleted.Some?
    ensures IdsDistinct(hs) ==> forall i :: 0 <= i < |hs| && hs[i].completed && hs[i].lastCompleted.Some? ==>
      ResetCompletionDates(hs)[hs[i].id] == hs[i].lastCompleted.value
  {
    if hs != [] {
      var init := hs[..|hs| - 1];
      ResetCompletionDatesSpec(init);
      var m := ResetCompletionDates(hs);
      forall id ensures id in m <==>
        exists i :: 0 <= i < |hs| && hs[i].id == id && hs[i].completed && hs[i].lastCompleted.Some?
      {
        if exists i :: 0 <= i < |init| && init[i].id == id && init[i].completed && init[i].lastCompleted.Some? {
          var i :| 0 <= i < |init| && init[i].id == id && init[i].completed && init[i].lastCompleted.Some?;
          assert hs[i] == init[i];
        }
        if exists i :: 0 <= i < |hs| && hs[i].id == id && hs[i].completed && hs[i].lastCompleted.Some? {
          var i :| 0 <= i < |hs| && hs[i].id == id && hs[i].completed && hs[i].lastCompleted.Some?;
          if i < |init| { assert init[i] == hs[i]; }
        }
        var last := hs[|hs| - 1];
        if last.id == id && last.completed && last.lastCompleted.Some? {
          assert id in m;
          assert hs[|hs| - 1].id == id;
        } else {
          assert id in m <==> id in ResetCompletionDates(init);
        }
      }
      if IdsDistinct(hs) {
        assert IdsDistinct(init);
        forall i | 0 <= i < |hs| && hs[i].completed && hs[i].lastCompleted.Some?
          ensures m[hs[i].id] == hs[i].lastCompleted.value
        {
          if i < |init| {
            assert init[i] == hs[i];
            assert hs[i].id != hs[|hs| - 1].id;
          }
        }
      }
    }
  }

  /** After `resetMockData` the map holds exactly the six completed sample habits. */
  lemma ResetDatesOfGeneratedHabits(now: int)
    ensures ResetCompletionDates(GenerateMockHabits(now)).Keys == {1, 3, 5, 6, 7, 10}
    ensures InitialCompletionDates(GenerateMockHabits(now), now).Keys == {1, 3, 5, 6, 7, 10}
  {
    var hs := GenerateMockHabits(now);
    ResetCompletionDatesSpec(hs);
    InitialCompletionDatesSpec(hs, now);
    forall id | id in {1, 3, 5, 6, 7, 10}
      ensures id in ResetCompletionDates(hs) && id in InitialCompletionDates(hs, now)
    {
      assert hs[id - 1].id == id;
    }
  }

  // ---------------------------------------------------------------------
  // The storage keys

  /** What the four storage keys hold; `None` is an absent key. */
  datatype Snapshot = Snapshot(
    habits: Option<seq<Habit>>,
    user: Option<User>,
    token: Option<string>,
    completionDates: Option<map<int, int>>)

  /** `initializeMockData`: each key written only when it is absent. */
  function Initialized(s: Snapshot, now: int): (r: Snapshot)
    ensures s.habits.Some? ==> r.habits == s.habits
    ensures s.user.Some? ==> r.user == s.user
    ensures s.token.Some? ==> r.token == s.token
    ensures s.completionDates.Some? ==> r.completionDates == s.completionDates
    ensures r.habits.Some? && r.user.Some? && r.token.Some? && r.completionDates.Some?
  {
    Snapshot(
      if s.habits.Some? then s.habits else Some(GenerateMockHabits(now)),
      if s.user.Some? then s.user else Some(MockUser()),
      if s.token.Some? then s.token else Some(DemoToken),
      if s.completionDates.Some? then s.completionDates
      else Some(InitialCompletionDates(GenerateMockHabits(now), now)))
  }

  /** Initialising twice, at any two times, is initialising once. */
  lemma InitializedIdempotent(s: Snapshot, now: int, later: int)
    ensures Initialized(Initialized(s, now), later) == Initialized(s, now)
  {
  }

  /** `resetMockData`: every key overwritten, whatever it held. */
  function ResetState(now: int): (r: Snapshot)
    ensures r.habits == Some(GenerateMockHabits(now)) && r.user == Some(MockUser()) && r.token == Some(DemoToken)
    ensures r.completionDates == Some(ResetCompletionDates(GenerateMockHabits(now)))
    ensures r.completionDates.value.Keys == {1, 3, 5, 6, 7, 10}
  {
    ResetDatesOfGeneratedHabits(now);
    Snapshot(Some(GenerateMockHabits(now)), Some(MockUser()), Some(DemoToken),
      Some(ResetCompletionDates(GenerateMockHabits(now))))
  }

  /** The browser storage the demo mode writes to. */
  class DemoStorage {
    var habits: Option<seq<Habit>>
    var user: Option<User>
    var token: Option<string>
    var completionDates: Option<map<int, int>>

    function Snap(): Snapshot
      reads this
    {
      Snapshot(habits, user, token, completionDates)
    }

    /** An empty storage: no key is present. */
    constructor ()
      ensures Snap() == Snapshot(None, None, None, None)
    {
      habits, user, token, completionDates := None, None, None, None;
    }
  }

  /** The loop of `initializeMockData` that stamps every completed habit with `now`. */
  method CompletionDatesAt(hs: seq<Habit>, now: int) returns (dates: map<int, int>)
    ensures dates == InitialCompletionDates(hs, now)
  {
    dates := map[];
    for i := 0 to |hs|
      invariant dates == InitialCompletionDates(hs[..i], now)
    {
      assert hs[..i + 1][..i] == hs[..i];
      if hs[i].completed {
        dates := dates[hs[i].id := now];
      }
    }
    assert hs[..|hs|] == hs;
  }

  /** The loop of `resetMockData` that records each completed habit's own `last_completed`. */
  method LastCompletionDates(hs: seq<Habit>) returns (dates: map<int, int>)
    ensures dates == ResetCompletionDates(hs)
  {
    dates := map[];
    for i := 0 to |hs|
      invariant dates == ResetCompletionDates(hs[..i])
    {
      assert hs[..i + 1][..i] == hs[..i];
      if hs[i].completed && hs[i].lastCompleted.Some? {
        dates := dates[hs[i].id := hs[i].lastCompleted.value];
      }
    }
    assert hs[..|hs|] == hs;
  }

  method InitializeMockData(store: DemoStorage, now: int)
    modifies store
    ensures store.Snap() == Initialized(old(store.Snap()), now)
  {
    if store.habits.None? {
      store.habits := Some(GenerateMockHabits(now));
    }
    if store.user.None? {
      store.user := Some(MockUser());
    }
    if store.token.None? {
      store.token := Some(DemoToken);
    }
    if store.completionDates.None? {
      var dates := CompletionDatesAt(GenerateMockHabits(now), now);
      store.completionDates := Some(dates);
    }
  }

  method ResetMockData(store: DemoStorage, now: int)
    modifies store
    ensures store.Snap() == ResetState(now)
  {
    store.habits := Some(GenerateMockHabits(now));
    store.user := Some(MockUser());
    store.token := Some(DemoToken);
    var dates := LastCompletionDates(GenerateMockHabits(now));
    store.completionDates := Some(dates);
  }

  /** `getMockHabits`: the stored list, or the empty list when the key is absent. */
  method GetMockHabits(store: DemoStorage) returns (hs: seq<Habit>)
    ensures store.habits.Some? ==> hs == store.habits.value
    ensures store.habits.None? ==> hs == []
  {
    hs := if store.habits.Some? then store.habits.value else [];
  }

  /** `saveMockHabits`: a later `GetMockHabits` returns exactly `hs`. */
  method SaveMockHabits(store: DemoStorage, hs: seq<Habit>)
    modifies store
    ensures store.Snap() == old(store.Snap()).(habits := Some(hs))
  {
    store.habits := Some(hs);
  }

  method GetLastCompletedDate(store: DemoStorage, id: int) returns (d: Option<int>)
    ensures d == LookupDate(store.completionDates, id)
  {
    if store.completionDates.Some? && id in store.completionDates.value {
      d := Some(store.completionDates.value[id]);
    } else {
      d := None;
    }
  }

  method SetLastCompletedDate(store: DemoStorage, id: int, date: Option<int>)
    modifies store
    ensures store.Snap() == old(store.Snap()).(completionDates := Some(WithDate(old(store.completionDates), id, date)))
  {
    var dates := if store.completionDates.Some? then store.completionDates.value else map[];
    if date.None? {
      dates := dates - {id};
    } else {
      dates := dates[id := date.value];
    }
    store.completionDates := Some(dates);
  }
}
