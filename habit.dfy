/**
 * The habit record stored by the demo mode (snake_case fields in the source,
 * camelCase here) and the list helpers shared by the service and the pages.
 */
module HabitModel {
  import opened Wrappers

  datatype Frequency = Daily | Weekly | Monthly

  datatype Category =
    | Mindfulness | Learning | Productivity | Health
    | Fitness | Career | Social | Other

  /** One stored habit. Timestamps are milliseconds; `None` is the source's null or missing field. */
  datatype Habit = Habit(
    id: int,
    title: string,
    description: string,
    frequency: Frequency,
    timeOfDay: Option<string>,
    createdAt: int,
    updatedAt: int,
    streak: int,
    completed: bool,
    category: Category,
    reminderTime: Option<string>,
    isArchived: bool,
    lastCompleted: Option<int>)

  /** The demo user record. */
  datatype User = User(id: int, email: string, fullName: string, createdAt: int)

  /** The fields a caller supplies to create a habit. */
  datatype CreateHabitData = CreateHabitData(
    title: string,
    description: string,
    frequency: Frequency,
    timeOfDay: Option<string>,
    category: Category,
    reminderTime: Option<string>)

  /**
   * A partial update: every field present (`Some`) overwrites the habit's field.
   * The id and both timestamps cannot be supplied.
   */
  datatype UpdateHabitData = UpdateHabitData(
    title: Option<string>,
    description: Option<string>,
    frequency: Option<Frequency>,
    timeOfDay: Option<Option<string>>,
    streak: Option<int>,
    completed: Option<bool>,
    category: Option<Category>,
    reminderTime: Option<Option<string>>,
    isArchived: Option<bool>,
    lastCompleted: Option<Option<int>>)

  /** An update that only sets `completed`. */
  function CompletedUpdate(completed: bool): (d: UpdateHabitData)
    ensures d.completed == Some(completed) && d.isArchived.None? && d.streak.None?
    ensures d.title.None? && d.description.None? && d.frequency.None? && d.timeOfDay.None?
    ensures d.category.None? && d.reminderTime.None? && d.lastCompleted.None?
  {
    UpdateHabitData(None, None, None, None, None, Some(completed), None, None, None, None)
  }

  /** An update that only sets `is_archived`. */
  function ArchivedUpdate(isArchived: bool): (d: UpdateHabitData)
    ensures d.isArchived == Some(isArchived) && d.completed.None? && d.streak.None?
    ensures d.title.None? && d.description.None? && d.frequency.None? && d.timeOfDay.None?
    ensures d.category.None? && d.reminderTime.None? && d.lastCompleted.None?
  {
    UpdateHabitData(None, None, None, None, None, None, None, None, Some(isArchived), None)
  }

  /** Every habit carries a different id. */
  predicate IdsDistinct(hs: seq<Habit>)
  {
    forall i, j :: 0 <= i < j < |hs| ==> hs[i].id != hs[j].id
  }

  /** No habit has a negative streak. */
  predicate StreaksNonNegative(hs: seq<Habit>)
  {
    forall i :: 0 <= i < |hs| ==> hs[i].streak >= 0
  }

  predicate HasId(hs: seq<Habit>, id: int)
  {
    exists i :: 0 <= i < |hs| && hs[i].id == id
  }

  /** `findIndex(h => h.id === id)`: the first position holding the id. */
  function FindIndex(hs: seq<Habit>, id: int): (r: Option<nat>)
    ensures r.Some? ==> r.value < |hs| && hs[r.value].id == id
    ensures r.Some? ==> forall j :: 0 <= j < r.value ==> hs[j].id != id
    ensures r.None? <==> !HasId(hs, id)
  {
    if hs == [] then None
    else if hs[0].id == id then Some(0)
    else match FindIndex(hs[1..], id)
      case None => None
      case Some(i) => Some(i + 1)
  }

  /** `filter(h => h.id !== id)`: every habit with the id removed, the rest in order. */
  function RemoveId(hs: seq<Habit>, id: int): (r: seq<Habit>)
    ensures |r| <= |hs|
    ensures forall h :: h in r <==> h in hs && h.id != id
  {
    if hs == [] then []
    else if hs[0].id == id then RemoveId(hs[1..], id)
    else [hs[0]] + RemoveId(hs[1..], id)
  }

  /** Removal shortens the list exactly when the id is present. */
  lemma {:induction false} RemoveIdShortensIffPresent(hs: seq<Habit>, id: int)
    ensures |RemoveId(hs, id)| == |hs| <==> !HasId(hs, id)
    ensures |RemoveId(hs, id)| == |hs| ==> RemoveId(hs, id) == hs
  {
    if hs != [] {
      RemoveIdShortensIffPresent(hs[1..], id);
      if HasId(hs[1..], id) {
        var i :| 0 <= i < |hs[1..]| && hs[1..][i].id == id;
        assert hs[i + 1].id == id;
      }
      if HasId(hs, id) && hs[0].id != id {
        var i :| 0 <= i < |hs| && hs[i].id == id;
        assert hs[1..][i - 1].id == id;
      }
    }
  }

  /** Removal keeps the relative order: it distributes over concatenation. */
  lemma {:induction false} RemoveIdAppend(a: seq<Habit>, b: seq<Habit>, id: int)
    ensures RemoveId(a + b, id) == RemoveId(a, id) + RemoveId(b, id)
  {
    if a != [] {
      assert (a + b)[1..] == a[1..] + b;
      RemoveIdAppend(a[1..], b, id);
    } else {
      assert a + b == b;
    }
  }

  /** Removal keeps streaks non-negative. */
  lemma RemoveIdKeepsStreaks(hs: seq<Habit>, id: int)
    ensures StreaksNonNegative(hs) ==> StreaksNonNegative(RemoveId(hs, id))
  {
    var r := RemoveId(hs, id);
    if StreaksNonNegative(hs) {
      forall k | 0 <= k < |r| ensures r[k].streak >= 0 {
        assert r[k] in hs;
      }
    }
  }

  /** Removal keeps ids distinct. */
  lemma {:induction false} RemoveIdKeepsIdsDistinct(hs: seq<Habit>, id: int)
    ensures IdsDistinct(hs) ==> IdsDistinct(RemoveId(hs, id))
  {
    if hs != [] && IdsDistinct(hs) {
      assert IdsDistinct(hs[1..]);
      RemoveIdKeepsIdsDistinct(hs[1..], id);
      var rest := RemoveId(hs[1..], id);
      if hs[0].id != id {
        var r := [hs[0]] + rest;
        forall i, j | 0 <= i < j < |r| ensures r[i].id != r[j].id {
          assert r[j] == rest[j - 1];
          if i == 0 {
            var k :| 0 <= k < |hs[1..]| && hs[1..][k] == rest[j - 1];
            assert hs[k + 1] == r[j];
          } else {
            assert r[i] == rest[i - 1];
          }
        }
      }
    }
  }
}
