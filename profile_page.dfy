/**
 * The profile page's activity data: one sample per calendar day from
 * January 1 of the previous year through today, each holding how many
 * counted habits were completed on that day and how many were counted, and
 * the streak statistics derived from those samples.
 */
module ProfilePage {
  import opened Wrappers
  import opened Calendar
  import opened HabitModel

  // ---------------------------------------------------------------------
  // The window and the per-day buckets

  /** `oneYearAgo`: January 1 of the previous year, at the same time of day as `today`. */
  function WindowStart(today: int): (t: int)
    ensures Day(t) == DaysFromCivil(Year(today) - 1, 1, 1)
    ensures TimeOfDay(t) == TimeOfDay(today)
    ensures Year(t) == Year(today) - 1 && Month(t) == 0 && CivilFromDays(Day(t)).day == 1
  {
    Jan1RoundTrip(Year(today) - 1);
    DayOf(DaysFromCivil(Year(today) - 1, 1, 1), TimeOfDay(today));
    DaysFromCivil(Year(today) - 1, 1, 1) * MsPerDay + TimeOfDay(today)
  }

  /** Number of days from the window's first day through today. */
  function WindowLength(today: int): nat
  {
    var n := Day(today) - Day(WindowStart(today)) + 1;
    if n > 0 then n else 0
  }

  /** A day's pair of counters (`{ completed, total }`). */
  datatype Bucket = Bucket(completed: int, total: int)

  const Empty: Bucket := Bucket(0, 0)

  function Plus(a: Bucket, b: Bucket): Bucket
  {
    Bucket(a.completed + b.completed, a.total + b.total)
  }

  /** The day of the habit's `last_completed`, if it has one. */
  function CompletionDay(h: Habit): Option<int>
  {
    if h.lastCompleted.Some? then Some(Day(h.lastCompleted.value)) else None
  }

  /** The habit's `last_completed` falls on day `k`. */
  predicate CompletedOn(h: Habit, k: int)
  {
    CompletionDay(h) == Some(k)
  }

  /** `startDate`: the later of the habit's creation and the window start. */
  function CountingStart(h: Habit, windowStart: int): int
  {
    if h.createdAt > windowStart then h.createdAt else windowStart
  }

  /**
   * Number of days the per-habit loop visits when it starts at `s`: it steps
   * one day at a time while the timestamp is not after `today`.
   */
  function Steps(s: int, today: int): int
  {
    if s <= today then (today - s) / MsPerDay + 1 else 0
  }

  /** Day `k` is one of the days the per-habit loop visits. */
  predicate Visits(h: Habit, windowStart: int, today: int, k: int)
  {
    var s := CountingStart(h, windowStart);
    Day(s) <= k < Day(s) + Steps(s, today)
  }

  /** What the `last_completed` step adds to day `k`, for a habit completed on day `done`. */
  function CompletionPart(done: Option<int>, completed: bool, k: int): Bucket
  {
    if done == Some(k) then Bucket(if completed then 1 else 0, 1) else Empty
  }

  /** What the day-by-day step adds to day `k`, counting only its first `steps` days from day `from`. */
  function VisitPart(done: Option<int>, from: int, steps: int, k: int): Bucket
  {
    if from <= k < from + steps && done != Some(k) then Bucket(0, 1) else Empty
  }

  /**
   * Everything one habit adds to day `k`: at most one to the total, and to
   * `completed` only along with the total; archived habits add nothing.
   */
  function Contribution(h: Habit, windowStart: int, today: int, k: int): (b: Bucket)
    ensures b == Empty || b == Bucket(0, 1) || b == Bucket(1, 1)
    ensures h.isArchived ==> b == Empty
  {
    if h.isArchived then Empty
    else
      var s := CountingStart(h, windowStart);
      Plus(CompletionPart(CompletionDay(h), h.completed, k), VisitPart(CompletionDay(h), Day(s), Steps(s, today), k))
  }

  /** Day `k`'s bucket after all habits of `hs` have been counted, in list order. */
  function DayBucket(hs: seq<Habit>, windowStart: int, today: int, k: int): (b: Bucket)
    ensures 0 <= b.completed <= b.total <= |hs|
    decreases |hs|
  {
    if hs == [] then Empty
    else Plus(DayBucket(hs[..|hs| - 1], windowStart, today, k), Contribution(hs[|hs| - 1], windowStart, today, k))
  }

  /** A habit adds one to a day's total when it was completed on or visits that day, and never more. */
  lemma ContributionCountsOnce(h: Habit, windowStart: int, today: int, k: int)
    ensures Contribution(h, windowStart, today, k).total
      == if !h.isArchived && (CompletedOn(h, k) || Visits(h, windowStart, today, k)) then 1 else 0
    ensures Contribution(h, windowStart, today, k).completed == if CountsAsDone(h, k) then 1 else 0
  {
    if !h.isArchived {
      var s := CountingStart(h, windowStart);
      var c := CompletionPart(CompletionDay(h), h.completed, k);
      var v := VisitPart(CompletionDay(h), Day(s), Steps(s, today), k);
      assert Contribution(h, windowStart, today, k) == Plus(c, v);
      if CompletedOn(h, k) {
        assert c.total == 1 && v.total == 0;
      } else {
        assert c == Empty;
        assert v.total == if Visits(h, windowStart, today, k) then 1 else 0;
      }
    } else {
      assert Contribution(h, windowStart, today, k) == Empty;
    }
  }

  /**
   * The day-by-day step covers every day from the counting start to the day
   * before today; today itself only when the counting start's time of day is
   * not later than today's.
   */
  lemma VisitedDays(h: Habit, windowStart: int, today: int, k: int)
    ensures var s := CountingStart(h, windowStart);
      Visits(h, windowStart, today, k) <==>
        (Day(s) <= k < Day(today)) || (k == Day(today) && Day(s) <= k && TimeOfDay(s) <= TimeOfDay(today))
  {
    var s := CountingStart(h, windowStart);
    if s <= today {
      var q := (today - s) / MsPerDay;
      assert q * MsPerDay <= today - s < (q + 1) * MsPerDay;
      assert Day(s) * MsPerDay + TimeOfDay(s) == s;
      assert Day(today) * MsPerDay + TimeOfDay(today) == today;
    } else {
      assert Day(s) * MsPerDay + TimeOfDay(s) == s;
      assert Day(today) * MsPerDay + TimeOfDay(today) == today;
    }
  }

  /** The habit is unarchived, completed, and its `last_completed` falls on day `k`. */
  predicate CountsAsDone(h: Habit, k: int)
  {
    !h.isArchived && h.completed && CompletedOn(h, k)
  }

  /** Habits with no `is_archived` flag set, in list order. */
  function Unarchived(hs: seq<Habit>): (r: seq<Habit>)
    ensures |r| <= |hs|
    decreases |hs|
  {
    if hs == [] then []
    else Unarchived(hs[..|hs| - 1]) + (if hs[|hs| - 1].isArchived then [] else [hs[|hs| - 1]])
  }

  /** Archived habits contribute nothing: dropping them leaves every bucket unchanged. */
  lemma {:induction false} ArchivedContributeNothing(hs: seq<Habit>, windowStart: int, today: int, k: int)
    ensures DayBucket(hs, windowStart, today, k) == DayBucket(Unarchived(hs), windowStart, today, k)
  {
    if hs != [] {
      ArchivedContributeNothing(hs[..|hs| - 1], windowStart, today, k);
      UnarchivedStep(hs, windowStart, today, k);
    }
  }

  /** The induction step of `ArchivedContributeNothing`: the last habit. */
  lemma UnarchivedStep(hs: seq<Habit>, windowStart: int, today: int, k: int)
    requires hs != []
    requires DayBucket(hs[..|hs| - 1], windowStart, today, k) == DayBucket(Unarchived(hs[..|hs| - 1]), windowStart, today, k)
    ensures DayBucket(hs, windowStart, today, k) == DayBucket(Unarchived(hs), windowStart, today, k)
  {
    var init, h := hs[..|hs| - 1], hs[|hs| - 1];
    var b := DayBucket(init, windowStart, today, k);
    assert DayBucket(hs, windowStart, today, k) == Plus(b, Contribution(h, windowStart, today, k));
    if h.isArchived {
      assert Unarchived(hs) == Unarchived(init) + [];
      assert Unarchived(init) + [] == Unarchived(init);
    } else {
      var u := Unarchived(init) + [h];
      assert Unarchived(hs) == u;
      assert u[..|u| - 1] == Unarchived(init);
      assert DayBucket(u, windowStart, today, k) == Plus(b, Contribution(h, windowStart, today, k));
    }
  }

  /** A habit is counted at most once per day: a day's total never exceeds the number of unarchived habits. */
  lemma {:induction false} TotalWithinUnarchived(hs: seq<Habit>, windowStart: int, today: int, k: int)
    ensures DayBucket(hs, windowStart, today, k).total <= |Unarchived(hs)|
  {
    if hs != [] {
      TotalWithinUnarchived(hs[..|hs| - 1], windowStart, today, k);
      ContributionCountsOnce(hs[|hs| - 1], windowStart, today, k);
    }
  }

  /** A day's rate is positive exactly when some unarchived, completed habit has its `last_completed` on that day. */
  lemma {:induction false} PositiveRateIff(hs: seq<Habit>, windowStart: int, today: int, k: int)
    ensures DayBucket(hs, windowStart, today, k).completed > 0 <==> exists i :: 0 <= i < |hs| && CountsAsDone(hs[i], k)
    ensures DayBucket(hs, windowStart, today, k).completed > 0 ==> DayBucket(hs, windowStart, today, k).total > 0
  {
    CompletedIsDoneCount(hs, windowStart, today, k);
    DoneCountPositive(hs, k);
  }

  /** Number of habits in `hs` that count as done on day `k`. */
  function DoneCount(hs: seq<Habit>, k: int): nat
    decreases |hs|
  {
    if hs == [] then 0 else DoneCount(hs[..|hs| - 1], k) + (if CountsAsDone(hs[|hs| - 1], k) then 1 else 0)
  }

  lemma {:induction false} CompletedIsDoneCount(hs: seq<Habit>, windowStart: int, today: int, k: int)
    ensures DayBucket(hs, windowStart, today, k).completed == DoneCount(hs, k)
  {
    if hs == [] {
      assert DayBucket(hs, windowStart, today, k) == Empty;
    } else {
      var init, h := hs[..|hs| - 1], hs[|hs| - 1];
      CompletedIsDoneCount(init, windowStart, today, k);
      ContributionCountsOnce(h, windowStart, today, k);
      assert DayBucket(hs, windowStart, today, k).completed
        == DayBucket(init, windowStart, today, k).completed + Contribution(h, windowStart, today, k).completed;
    }
  }

  lemma {:induction false} DoneCountPositive(hs: seq<Habit>, k: int)
    ensures DoneCount(hs, k) > 0 <==> exists i :: 0 <= i < |hs| && CountsAsDone(hs[i], k)
  {
    if hs != [] {
      var init := hs[..|hs| - 1];
      DoneCountPositive(init, k);
      if DoneCount(init, k) > 0 {
        var i :| 0 <= i < |init| && CountsAsDone(init[i], k);
        assert hs[i] == init[i];
      } else if !CountsAsDone(hs[|hs| - 1], k) {
        forall i | 0 <= i < |hs| ensures !CountsAsDone(hs[i], k) {
          if i < |init| {
            assert hs[i] == init[i];
          }
        }
      }
    }
  }

  /** One sample per day: its day number and its counters. */
  datatype Sample = Sample(date: int, completed: int, total: int)

  /** The sample carries the counters of `b`. */
  predicate SampleOf(s: Sample, b: Bucket)
  {
    s.completed == b.completed && s.total == b.total
  }

  /** The completed counter of day `k` in `m`, 0 for a day with no entry. */
  function CompletedAt(m: map<int, Bucket>, k: int): int
  {
    if k in m then m[k].completed else 0
  }

  /** The total counter of day `k` in `m`, 0 for a day with no entry. */
  function TotalAt(m: map<int, Bucket>, k: int): int
  {
    if k in m then m[k].total else 0
  }

  /** Writing day `key` leaves every other day's counters as they were. */
  lemma UpdateFrame(m: map<int, Bucket>, key: int, b: Bucket, k: int)
    requires k != key
    ensures CompletedAt(m[key := b], k) == CompletedAt(m, k) && TotalAt(m[key := b], k) == TotalAt(m, k)
  {
  }

  /** One iteration of the day-by-day step extends the counted days by one. */
  lemma VisitStep(m0: map<int, Bucket>, before: map<int, Bucket>, after: map<int, Bucket>,
                  done: Option<int>, from: int, j: int, next: int, dayData: Bucket)
    requires j >= 0 && next == j + 1
    requires forall k ::
      CompletedAt(before, k) == CompletedAt(m0, k) + VisitPart(done, from, j, k).completed
      && TotalAt(before, k) == TotalAt(m0, k) + VisitPart(done, from, j, k).total
    requires dayData.completed == CompletedAt(before, from + j)
    requires dayData.total == TotalAt(before, from + j) + (if done == Some(from + j) then 0 else 1)
    requires after == before[from + j := dayData]
    ensures forall k ::
      CompletedAt(after, k) == CompletedAt(m0, k) + VisitPart(done, from, next, k).completed
      && TotalAt(after, k) == TotalAt(m0, k) + VisitPart(done, from, next, k).total
  {
    forall k ensures CompletedAt(after, k) == CompletedAt(m0, k) + VisitPart(done, from, next, k).completed
        && TotalAt(after, k) == TotalAt(m0, k) + VisitPart(done, from, next, k).total {
      assert CompletedAt(before, k) == CompletedAt(m0, k) + VisitPart(done, from, j, k).completed
          && TotalAt(before, k) == TotalAt(m0, k) + VisitPart(done, from, j, k).total;
      if k != from + j {
        UpdateFrame(before, from + j, dayData, k);
      }
    }
  }

  /** After stepping `j` days from `s`, the first timestamp after `today` is reached exactly when `j` days were not after it. */
  lemma StepsCover(s: int, today: int, j: int)
    requires j >= 0 && s + j * MsPerDay > today
    requires j == 0 || s + (j - 1) * MsPerDay <= today
    ensures Steps(s, today) == j
  {
    if j > 0 {
      var q := (today - s) / MsPerDay;
      assert q * MsPerDay <= today - s < (q + 1) * MsPerDay;
      assert (j - 1) * MsPerDay <= today - s < j * MsPerDay;
    }
  }

  /** The first loop: one empty bucket for every day of the window. */
  method EmptyWindow(oneYearAgo: int, today: int) returns (m: map<int, Bucket>)
    requires TimeOfDay(oneYearAgo) == TimeOfDay(today)
    ensures forall k :: k in m <==> Day(oneYearAgo) <= k <= Day(today)
    ensures forall k :: CompletedAt(m, k) == Empty.completed && TotalAt(m, k) == Empty.total
  {
    ghost var first := Day(oneYearAgo);
    ghost var last := Day(today);
    ghost var tod := TimeOfDay(today);
    m := map[];
    var d := oneYearAgo;
    ghost var n := 0;
    while d <= today
      invariant n >= 0 && d == (first + n) * MsPerDay + tod
      invariant n == 0 || first + n - 1 <= last
      invariant forall k :: k in m <==> first <= k < first + n
      invariant forall k :: CompletedAt(m, k) == Empty.completed && TotalAt(m, k) == Empty.total
      decreases today - d
    {
      DayOf(first + n, tod);
      ghost var before := m;
      m := m[Day(d) := Empty];
      forall k ensures CompletedAt(m, k) == Empty.completed && TotalAt(m, k) == Empty.total {
        if k != Day(d) {
          UpdateFrame(before, Day(d), Empty, k);
          assert CompletedAt(before, k) == Empty.completed && TotalAt(before, k) == Empty.total;
        }
      }
      d := d + MsPerDay;
      n := n + 1;
    }
  }

  /** The `last_completed` step of `habits.forEach`. */
  method CountCompletion(m0: map<int, Bucket>, habit: Habit) returns (m: map<int, Bucket>)
    ensures forall k ::
      CompletedAt(m, k) == CompletedAt(m0, k) + CompletionPart(CompletionDay(habit), habit.completed, k).completed
      && TotalAt(m, k) == TotalAt(m0, k) + CompletionPart(CompletionDay(habit), habit.completed, k).total
  {
    m := m0;
    if habit.lastCompleted.Some? {
      var dateKey := Day(habit.lastCompleted.value);
      var dayData := if dateKey in m then m[dateKey] else Empty;
      if habit.completed {
        dayData := dayData.(completed := dayData.completed + 1);
      }
      dayData := dayData.(total := dayData.total + 1);
      m := m[dateKey := dayData];
    }
  }

  /** The day-by-day step of `habits.forEach`, starting at `startDate`. */
  method CountVisits(m0: map<int, Bucket>, habit: Habit, startDate: int, today: int) returns (m: map<int, Bucket>)
    ensures forall k ::
      CompletedAt(m, k) == CompletedAt(m0, k) + VisitPart(CompletionDay(habit), Day(startDate), Steps(startDate, today), k).completed
      && TotalAt(m, k) == TotalAt(m0, k) + VisitPart(CompletionDay(habit), Day(startDate), Steps(startDate, today), k).total
  {
    m := m0;
    var currentDate := startDate;
    ghost var j := 0;
    ghost var from := Day(startDate);
    ghost var done := CompletionDay(habit);
    while currentDate <= today
      invariant j >= 0 && currentDate == startDate + j * MsPerDay
      invariant j == 0 || startDate + (j - 1) * MsPerDay <= today
      invariant forall k ::
        CompletedAt(m, k) == CompletedAt(m0, k) + VisitPart(done, from, j, k).completed
        && TotalAt(m, k) == TotalAt(m0, k) + VisitPart(done, from, j, k).total
      decreases today - currentDate
    {
      DayShift(startDate, j);
      var dateKey := Day(currentDate);
      var dayData := if dateKey in m then m[dateKey] else Empty;
      if !(habit.lastCompleted.Some? && Day(habit.lastCompleted.value) == dateKey) {
        dayData := dayData.(total := dayData.total + 1);
      }
      ghost var before := m;
      m := m[dateKey := dayData];
      VisitStep(m0, before, m, done, from, j, j + 1, dayData);
      currentDate := currentDate + MsPerDay;
      j := j + 1;
    }
    StepsCover(startDate, today, j);
  }

  /** The body of `habits.forEach` for an unarchived habit: adds its contribution to every day. */
  method CountHabit(m0: map<int, Bucket>, habit: Habit, oneYearAgo: int, today: int) returns (m: map<int, Bucket>)
    requires !habit.isArchived
    ensures forall k ::
      CompletedAt(m, k) == CompletedAt(m0, k) + Contribution(habit, oneYearAgo, today, k).completed
      && TotalAt(m, k) == TotalAt(m0, k) + Contribution(habit, oneYearAgo, today, k).total
  {
    var startDate := if habit.createdAt > oneYearAgo then habit.createdAt else oneYearAgo;
    var m1 := CountCompletion(m0, habit);
    m := CountVisits(m1, habit, startDate, today);
    forall k ensures CompletedAt(m, k) == CompletedAt(m0, k) + Contribution(habit, oneYearAgo, today, k).completed
        && TotalAt(m, k) == TotalAt(m0, k) + Contribution(habit, oneYearAgo, today, k).total {
      var c := CompletionPart(CompletionDay(habit), habit.completed, k);
      var v := VisitPart(CompletionDay(habit), Day(startDate), Steps(startDate, today), k);
      assert CompletedAt(m1, k) == CompletedAt(m0, k) + c.completed && TotalAt(m1, k) == TotalAt(m0, k) + c.total;
      assert CompletedAt(m, k) == CompletedAt(m1, k) + v.completed && TotalAt(m, k) == TotalAt(m1, k) + v.total;
      assert CountingStart(habit, oneYearAgo) == startDate;
      assert Contribution(habit, oneYearAgo, today, k).completed == c.completed + v.completed;
      assert Contribution(habit, oneYearAgo, today, k).total == c.total + v.total;
    }
  }

  /** Counting one more habit adds its contribution to every day. */
  lemma {:induction false} DayBucketSnoc(hs: seq<Habit>, h: Habit, windowStart: int, today: int, k: int)
    ensures DayBucket(hs + [h], windowStart, today, k).completed
      == DayBucket(hs, windowStart, today, k).completed + Contribution(h, windowStart, today, k).completed
    ensures DayBucket(hs + [h], windowStart, today, k).total
      == DayBucket(hs, windowStart, today, k).total + Contribution(h, windowStart, today, k).total
  {
    assert (hs + [h])[..|hs|] == hs;
  }

  /** Every day of `m` holds its counters in `m0` plus the buckets of `hs`. */
  ghost predicate CountedOver(m: map<int, Bucket>, m0: map<int, Bucket>, hs: seq<Habit>, windowStart: int, today: int)
  {
    forall k ::
      CompletedAt(m, k) == CompletedAt(m0, k) + DayBucket(hs, windowStart, today, k).completed
      && TotalAt(m, k) == TotalAt(m0, k) + DayBucket(hs, windowStart, today, k).total
  }

  /** If `before` holds the buckets of `hs` over `m0` and `m` adds `h`'s contribution, `m` holds those of `hs + [h]`. */
  lemma CountedSnoc(m0: map<int, Bucket>, before: map<int, Bucket>, m: map<int, Bucket>, hs: seq<Habit>, h: Habit, windowStart: int, today: int)
    requires CountedOver(before, m0, hs, windowStart, today)
    requires forall k ::
      CompletedAt(m, k) == CompletedAt(before, k) + Contribution(h, windowStart, today, k).completed
      && TotalAt(m, k) == TotalAt(before, k) + Contribution(h, windowStart, today, k).total
    ensures CountedOver(m, m0, hs + [h], windowStart, today)
  {
    forall k
      ensures CompletedAt(m, k) == CompletedAt(m0, k) + DayBucket(hs + [h], windowStart, today, k).completed
      ensures TotalAt(m, k) == TotalAt(m0, k) + DayBucket(hs + [h], windowStart, today, k).total
    {
      DayBucketSnoc(hs, h, windowStart, today, k);
    }
  }

  /** `habits.forEach`: archived habits are skipped, every other habit is counted. */
  method CountHabits(m0: map<int, Bucket>, habits: seq<Habit>, oneYearAgo: int, today: int) returns (m: map<int, Bucket>)
    ensures forall k ::
      CompletedAt(m, k) == CompletedAt(m0, k) + DayBucket(habits, oneYearAgo, today, k).completed
      && TotalAt(m, k) == TotalAt(m0, k) + DayBucket(habits, oneYearAgo, today, k).total
  {
    m := m0;
    for i := 0 to |habits|
      invariant CountedOver(m, m0, habits[..i], oneYearAgo, today)
    {
      ghost var before := m;
      if !habits[i].isArchived {
        m := CountHabit(m, habits[i], oneYearAgo, today);
      }
      CountedSnoc(m0, before, m, habits[..i], habits[i], oneYearAgo, today);
      assert habits[..i + 1] == habits[..i] + [habits[i]];
    }
    assert habits[..|habits|] == habits;
  }

  /** The last loop: one sample per day of the window, oldest first, read from `m`. */
  method CollectSamples(m: map<int, Bucket>, oneYearAgo: int, today: int) returns (data: seq<Sample>)
    requires TimeOfDay(oneYearAgo) == TimeOfDay(today)
    ensures |data| == if Day(oneYearAgo) <= Day(today) then Day(today) - Day(oneYearAgo) + 1 else 0
    ensures forall i :: 0 <= i < |data| ==>
      data[i].date == Day(oneYearAgo) + i && data[i].completed == CompletedAt(m, data[i].date) && data[i].total == TotalAt(m, data[i].date)
  {
    ghost var first := Day(oneYearAgo);
    ghost var last := Day(today);
    ghost var tod := TimeOfDay(today);
    data := [];
    var d := oneYearAgo;
    ghost var n := 0;
    while d <= today
      invariant n >= 0 && d == (first + n) * MsPerDay + tod
      invariant n == 0 || first + n - 1 <= last
      invariant |data| == n
      invariant forall i :: 0 <= i < n ==>
        data[i].date == first + i && data[i].completed == CompletedAt(m, data[i].date) && data[i].total == TotalAt(m, data[i].date)
      decreases today - d
    {
      DayOf(first + n, tod);
      var dateKey := Day(d);
      var dayData := if dateKey in m then m[dateKey] else Empty;
      data := data + [Sample(dateKey, dayData.completed, dayData.total)];
      d := d + MsPerDay;
      n := n + 1;
    }
  }

  /**
   * `generateStreakData`, given the service's answer for the habit list:
   * an error gives no samples; otherwise one sample per day of the window,
   * oldest first, each holding that day's counters.
   */
  method GenerateStreakData(fetched: Result<seq<Habit>, string>, today: int) returns (data: seq<Sample>)
    ensures fetched.Failure? ==> data == []
    ensures fetched.Success? ==> |data| == WindowLength(today)
    ensures fetched.Success? ==> forall i :: 0 <= i < |data| ==>
      data[i].date == Day(WindowStart(today)) + i && SampleOf(data[i], DayBucket(fetched.value, WindowStart(today), today, data[i].date))
  {
    if fetched.Failure? {
      return [];
    }
    var habits := fetched.value;
    var oneYearAgo := WindowStart(today);
    var dailyCompletionMap := EmptyWindow(oneYearAgo, today);
    dailyCompletionMap := CountHabits(dailyCompletionMap, habits, oneYearAgo, today);

    data := CollectSamples(dailyCompletionMap, oneYearAgo, today);
    forall i | 0 <= i < |data|
      ensures SampleOf(data[i], DayBucket(habits, oneYearAgo, today, data[i].date))
    {
      assert CompletedAt(dailyCompletionMap, data[i].date) == DayBucket(habits, oneYearAgo, today, data[i].date).completed;
    }
  }

  // ---------------------------------------------------------------------
  // Streak statistics

  /** `count > 0`, where count is completed / total, or 0 when total is 0. */
  predicate Active(s: Sample)
  {
    s.total > 0 && s.completed > 0
  }

  /** Length of the run of active samples starting at `i`. */
  function RunFrom(data: seq<Sample>, i: nat): nat
    requires i <= |data|
    decreases |data| - i
  {
    if i == |data| || !Active(data[i]) then 0 else 1 + RunFrom(data, i + 1)
  }

  /** The longest run of active samples starting at or after `i`. */
  function MaxRunFrom(data: seq<Sample>, i: nat): nat
    requires i <= |data|
    decreases |data| - i
  {
    if i == |data| then 0
    else
      var rest := MaxRunFrom(data, i + 1);
      if RunFrom(data, i) > rest then RunFrom(data, i) else rest
  }

  /** Number of active samples at or after `i`. */
  function ActiveCountFrom(data: seq<Sample>, i: nat): nat
    requires i <= |data|
    decreases |data| - i
  {
    if i == |data| then 0 else (if Active(data[i]) then 1 else 0) + ActiveCountFrom(data, i + 1)
  }

  /** The `len` samples starting at `lo` exist and are all active. */
  predicate ActiveRun(data: seq<Sample>, lo: int, len: int)
  {
    0 <= lo && 0 <= len && lo + len <= |data| && forall j :: lo <= j < lo + len ==> Active(data[j])
  }

  lemma {:induction false} RunFromSpec(data: seq<Sample>, i: nat)
    requires i <= |data|
    ensures ActiveRun(data, i, RunFrom(data, i))
    ensures forall len :: ActiveRun(data, i, len) ==> len <= RunFrom(data, i)
    ensures RunFrom(data, i) <= ActiveCountFrom(data, i)
    decreases |data| - i
  {
    if i < |data| {
      RunFromSpec(data, i + 1);
      forall len | ActiveRun(data, i, len) ensures len <= RunFrom(data, i) {
        if len > 0 {
          assert Active(data[i]);
          assert ActiveRun(data, i + 1, len - 1);
        }
      }
    }
  }

  /**
   * `maxStreak` is the length of the longest run of consecutive active
   * samples; it is 0 exactly when no sample is active, and never more than
   * the number of active samples.
   */
  lemma {:induction false} MaxRunIsLongestRun(data: seq<Sample>, i: nat)
    requires i <= |data|
    ensures forall lo, len :: i <= lo && ActiveRun(data, lo, len) ==> len <= MaxRunFrom(data, i)
    ensures exists lo :: i <= lo && ActiveRun(data, lo, MaxRunFrom(data, i))
    ensures MaxRunFrom(data, i) <= ActiveCountFrom(data, i)
    ensures MaxRunFrom(data, i) == 0 <==> ActiveCountFrom(data, i) == 0
    decreases |data| - i
  {
    if i == |data| {
      assert ActiveRun(data, i, 0);
    } else {
      MaxRunIsLongestRun(data, i + 1);
      RunFromSpec(data, i);
      if RunFrom(data, i) <= MaxRunFrom(data, i + 1) {
        var lo :| i + 1 <= lo && ActiveRun(data, lo, MaxRunFrom(data, i + 1));
      } else {
        assert ActiveRun(data, i, MaxRunFrom(data, i));
      }
      if Active(data[i]) {
        assert ActiveRun(data, i, 1);
      }
    }
  }

  datatype Stats = Stats(currentStreak: nat, maxStreak: nat, totalActiveDays: nat)

  /**
   * `stats`: one pass from the newest sample to the oldest. `currentStreak`
   * is set only while it is still 0, and at that moment the running streak
   * is 1, so it ends as 1 when any sample is active and 0 otherwise.
   */
  method ComputeStats(streakData: seq<Sample>) returns (stats: Stats)
    ensures stats.totalActiveDays == ActiveCountFrom(streakData, 0)
    ensures stats.maxStreak == MaxRunFrom(streakData, 0)
    ensures stats.currentStreak == if stats.totalActiveDays > 0 then 1 else 0
    ensures stats.currentStreak <= stats.maxStreak <= stats.totalActiveDays
  {
    var currentStreak, maxStreak, tempStreak, totalActiveDays := 0, 0, 0, 0;
    var i := |streakData|;
    while i > 0
      invariant 0 <= i <= |streakData|
      invariant tempStreak == RunFrom(streakData, i)
      invariant maxStreak == MaxRunFrom(streakData, i)
      invariant totalActiveDays == ActiveCountFrom(streakData, i)
      invariant currentStreak == if totalActiveDays > 0 then 1 else 0
    {
      RunFromSpec(streakData, i);
      i := i - 1;
      var day := streakData[i];
      if Active(day) {
        tempStreak := tempStreak + 1;
        totalActiveDays := totalActiveDays + 1;
        maxStreak := if tempStreak > maxStreak then tempStreak else maxStreak;
        if currentStreak == 0 {
          currentStreak := tempStreak;
        }
      } else {
        tempStreak := 0;
      }
    }
    MaxRunIsLongestRun(streakData, 0);
    stats := Stats(currentStreak, maxStreak, totalActiveDays);
  }

  /** With no habits, or when the samples are empty, every statistic is 0. */
  lemma {:induction false} NoHabitsNoStats(data: seq<Sample>, today: int)
    requires forall i :: 0 <= i < |data| ==>
      Bucket(data[i].completed, data[i].total) == DayBucket([], WindowStart(today), today, data[i].date)
    ensures ActiveCountFrom(data, 0) == 0 && MaxRunFrom(data, 0) == 0
  {
    NoActiveSamples(data, 0);
    MaxRunIsLongestRun(data, 0);
  }

  lemma {:induction false} NoActiveSamples(data: seq<Sample>, i: nat)
    requires i <= |data|
    requires forall j :: i <= j < |data| ==> data[j].completed == 0
    ensures ActiveCountFrom(data, i) == 0
    decreases |data| - i
  {
    if i < |data| {
      NoActiveSamples(data, i + 1);
    }
  }
}
