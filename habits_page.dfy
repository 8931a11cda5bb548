/**
 * The habits page: which habits are listed, the per-category counts in the
 * sidebar, and how each handler updates the page's habit list from the
 * service's answer.
 */
module HabitsPage {
  import opened Wrappers
  import opened HabitModel
  import opened MockHabitsService

  // ---------------------------------------------------------------------
  // Filtering and counting

  /** A habit is listed when its archive flag matches the view and, if a category is selected, its category does too. */
  predicate Listed(h: Habit, selectedCategory: Option<Category>, showArchived: bool)
  {
    h.isArchived == showArchived && (selectedCategory.None? || h.category == selectedCategory.value)
  }

  /** `filteredHabits`: the listed habits, in list order. */
  function FilteredHabits(hs: seq<Habit>, selectedCategory: Option<Category>, showArchived: bool): (r: seq<Habit>)
    ensures |r| <= |hs|
    ensures forall h :: h in r <==> h in hs && Listed(h, selectedCategory, showArchived)
  {
    if hs == [] then []
    else
      (if Listed(hs[0], selectedCategory, showArchived) then [hs[0]] else [])
      + FilteredHabits(hs[1..], selectedCategory, showArchived)
  }

  /** Filtering keeps the list order: it distributes over concatenation. */
  lemma {:induction false} FilteredHabitsAppend(a: seq<Habit>, b: seq<Habit>, selectedCategory: Option<Category>, showArchived: bool)
    ensures FilteredHabits(a + b, selectedCategory, showArchived)
      == FilteredHabits(a, selectedCategory, showArchived) + FilteredHabits(b, selectedCategory, showArchived)
  {
    if a == [] {
      assert a + b == b;
    } else {
      assert (a + b)[1..] == a[1..] + b;
      FilteredHabitsAppend(a[1..], b, selectedCategory, showArchived);
    }
  }

  /** Filtering a list extended by one habit adds that habit exactly when it is listed. */
  lemma FilteredSnoc(hs: seq<Habit>, h: Habit, selectedCategory: Option<Category>, showArchived: bool)
    ensures FilteredHabits(hs + [h], selectedCategory, showArchived)
      == FilteredHabits(hs, selectedCategory, showArchived) + (if Listed(h, selectedCategory, showArchived) then [h] else [])
  {
    FilteredHabitsAppend(hs, [h], selectedCategory, showArchived);
    assert [h][1..] == [];
  }

  /** How many habits of `hs` are listed, counted one habit at a time from the front as the counting loop does. */
  function ListedCount(hs: seq<Habit>, selectedCategory: Option<Category>, showArchived: bool): nat
    decreases |hs|
  {
    if hs == [] then 0
    else
      var last := if Listed(hs[|hs| - 1], selectedCategory, showArchived) then 1 else 0;
      ListedCount(hs[..|hs| - 1], selectedCategory, showArchived) + last
  }

  /** The counter and the view agree: the count is the length of the filtered list. */
  lemma {:induction false} FilteredLength(hs: seq<Habit>, selectedCategory: Option<Category>, showArchived: bool)
    ensures |FilteredHabits(hs, selectedCategory, showArchived)| == ListedCount(hs, selectedCategory, showArchived)
  {
    if hs != [] {
      var init := hs[..|hs| - 1];
      FilteredLength(init, selectedCategory, showArchived);
      assert hs == init + [hs[|hs| - 1]];
      FilteredSnoc(init, hs[|hs| - 1], selectedCategory, showArchived);
    }
  }

  /** Every habit is counted either as active or as archived. */
  lemma {:induction false} ActivePlusArchivedCount(hs: seq<Habit>)
    ensures ListedCount(hs, None, false) + ListedCount(hs, None, true) == |hs|
  {
    if hs != [] {
      ActivePlusArchivedCount(hs[..|hs| - 1]);
    }
  }

  /** Every habit is either in the active view or in the archived view. */
  lemma ActivePlusArchivedIsAll(hs: seq<Habit>)
    ensures |FilteredHabits(hs, None, false)| + |FilteredHabits(hs, None, true)| == |hs|
  {
    ActivePlusArchivedCount(hs);
    FilteredLength(hs, None, false);
    FilteredLength(hs, None, true);
  }

  /** Summed over the eight categories, the category counts give the active count. */
  lemma {:induction false} CategoryCountsPartitionActive(hs: seq<Habit>)
    ensures ListedCount(hs, Some(Mindfulness), false) + ListedCount(hs, Some(Learning), false)
          + ListedCount(hs, Some(Productivity), false) + ListedCount(hs, Some(Health), false)
          + ListedCount(hs, Some(Fitness), false) + ListedCount(hs, Some(Career), false)
          + ListedCount(hs, Some(Social), false) + ListedCount(hs, Some(Other), false)
          == ListedCount(hs, None, false)
  {
    if hs != [] {
      CategoryCountsPartitionActive(hs[..|hs| - 1]);
    }
  }

  /** Summed over the eight categories, the category views hold exactly the active habits. */
  lemma CategoryViewsPartitionActive(hs: seq<Habit>)
    ensures |FilteredHabits(hs, Some(Mindfulness), false)| + |FilteredHabits(hs, Some(Learning), false)|
          + |FilteredHabits(hs, Some(Productivity), false)| + |FilteredHabits(hs, Some(Health), false)|
          + |FilteredHabits(hs, Some(Fitness), false)| + |FilteredHabits(hs, Some(Career), false)|
          + |FilteredHabits(hs, Some(Social), false)| + |FilteredHabits(hs, Some(Other), false)|
          == |FilteredHabits(hs, None, false)|
  {
    CategoryCountsPartitionActive(hs);
    FilteredLength(hs, None, false);
    FilteredLength(hs, Some(Mindfulness), false);
    FilteredLength(hs, Some(Learning), false);
    FilteredLength(hs, Some(Productivity), false);
    FilteredLength(hs, Some(Health), false);
    FilteredLength(hs, Some(Fitness), false);
    FilteredLength(hs, Some(Career), false);
    FilteredLength(hs, Some(Social), false);
    FilteredLength(hs, Some(Other), false);
  }

  /** The sidebar counts: active habits, archived habits, and active habits per category. */
  datatype CategoryCounts = CategoryCounts(all: nat, archived: nat, byCategory: map<Category, nat>)

  /** Sum of the eight per-category counts. */
  function NamedCategoriesTotal(m: map<Category, nat>): nat
    requires forall c: Category :: c in m
  {
    m[Mindfulness] + m[Learning] + m[Productivity] + m[Health]
    + m[Fitness] + m[Career] + m[Social] + m[Other]
  }

  /** `categoryCount`: one pass over the list incrementing the matching counters. */
  method CategoryCount(hs: seq<Habit>) returns (counts: CategoryCounts)
    ensures counts.all == |FilteredHabits(hs, None, false)|
    ensures counts.archived == |FilteredHabits(hs, None, true)|
    ensures forall c: Category :: c in counts.byCategory
    ensures forall c: Category :: counts.byCategory[c] == |FilteredHabits(hs, Some(c), false)|
    ensures counts.all + counts.archived == |hs|
    ensures NamedCategoriesTotal(counts.byCategory) == counts.all
  {
    counts := CategoryCounts(0, 0, map[Mindfulness := 0, Learning := 0, Productivity := 0, Health := 0,
      Fitness := 0, Career := 0, Social := 0, Other := 0]);
    assert hs[..0] == [];
    forall c: Category ensures c in counts.byCategory && counts.byCategory[c] == ListedCount(hs[..0], Some(c), false) {
      match c
      case Mindfulness =>
      case Learning =>
      case Productivity =>
      case Health =>
      case Fitness =>
      case Career =>
      case Social =>
      case Other =>
    }
    for i := 0 to |hs|
      invariant counts.all == ListedCount(hs[..i], None, false)
      invariant counts.archived == ListedCount(hs[..i], None, true)
      invariant CountsCategories(counts.byCategory, hs[..i])
    {
      var habit := hs[i];
      assert hs[..i + 1][..i] == hs[..i];
      if !habit.isArchived {
        CountCategoryStep(counts.byCategory, hs[..i + 1]);
        counts := counts.(byCategory := counts.byCategory[habit.category := counts.byCategory[habit.category] + 1],
                          all := counts.all + 1);
      } else {
        CountArchivedStep(counts.byCategory, hs[..i + 1]);
        counts := counts.(archived := counts.archived + 1);
      }
    }
    assert hs[..|hs|] == hs;
    FilteredLength(hs, None, false);
    FilteredLength(hs, None, true);
    ActivePlusArchivedCount(hs);
    forall c: Category ensures counts.byCategory[c] == |FilteredHabits(hs, Some(c), false)| {
      FilteredLength(hs, Some(c), false);
    }
    CategoriesTotal(counts.byCategory, hs);
  }

  /** `m` holds, for every category, how many active habits of `hs` are in it. */
  predicate CountsCategories(m: map<Category, nat>, hs: seq<Habit>)
  {
    forall c: Category :: c in m && m[c] == ListedCount(hs, Some(c), false)
  }

  /** Counting an active last habit bumps exactly its own category. */
  lemma CountCategoryStep(m: map<Category, nat>, hs: seq<Habit>)
    requires hs != [] && !hs[|hs| - 1].isArchived
    requires CountsCategories(m, hs[..|hs| - 1])
    ensures hs[|hs| - 1].category in m
    ensures CountsCategories(m[hs[|hs| - 1].category := m[hs[|hs| - 1].category] + 1], hs)
  {
  }

  /** An archived last habit leaves every category count as it is. */
  lemma CountArchivedStep(m: map<Category, nat>, hs: seq<Habit>)
    requires hs != [] && hs[|hs| - 1].isArchived
    requires CountsCategories(m, hs[..|hs| - 1])
    ensures CountsCategories(m, hs)
  {
  }

  /** The eight category counts add up to the active count. */
  lemma CategoriesTotal(m: map<Category, nat>, hs: seq<Habit>)
    requires CountsCategories(m, hs)
    ensures forall c: Category :: c in m
    ensures NamedCategoriesTotal(m) == ListedCount(hs, None, false)
  {
    CategoryCountsPartitionActive(hs);
  }

  // ---------------------------------------------------------------------
  // Handlers

  const CreateFailed: string := "Failed to create habit. Please try again."
  const UpdateFailed: string := "Failed to update habit. Please try again."
  const DeleteFailed: string := "Failed to delete habit. Please try again."
  const ArchiveFailed: string := "Failed to archive habit. Please try again."

  /** The part of the page state the handlers change. */
  datatype PageState = PageState(habits: seq<Habit>, error: Option<string>)

  /** `map(h => h.id === id ? updated : h)`: every habit with the id replaced, all others kept. */
  function ReplaceById(hs: seq<Habit>, id: int, updated: Habit): (r: seq<Habit>)
    ensures |r| == |hs|
    ensures forall i :: 0 <= i < |hs| ==> r[i] == if hs[i].id == id then updated else hs[i]
  {
    if hs == [] then []
    else [if hs[0].id == id then updated else hs[0]] + ReplaceById(hs[1..], id, updated)
  }

  /** On a list with distinct ids, replacing by id is replacing at the position the service finds. */
  lemma ReplaceByIdAtFoundIndex(hs: seq<Habit>, id: int, updated: Habit)
    requires IdsDistinct(hs)
    ensures FindIndex(hs, id).Some? ==> ReplaceById(hs, id, updated) == hs[FindIndex(hs, id).value := updated]
    ensures FindIndex(hs, id).None? ==> ReplaceById(hs, id, updated) == hs
  {
  }

  /** `handleAddHabit`: the created habit is appended at the end. */
  function HandleAddHabit(st: PageState, created: Result<Habit, string>): (r: PageState)
    ensures created.Success? ==> r.habits == st.habits + [created.value] && r.error.None?
    ensures created.Failure? ==> r.habits == st.habits && r.error == Some(CreateFailed)
  {
    match created
    case Success(h) => PageState(st.habits + [h], None)
    case Failure(_) => PageState(st.habits, Some(CreateFailed))
  }

  /** The update `handleHabitComplete` sends: the negation of the listed habit's `completed`. */
  function CompleteRequest(hs: seq<Habit>, id: int): (d: Option<UpdateHabitData>)
    ensures d.None? <==> !HasId(hs, id)
    ensures d.Some? ==> d.value == CompletedUpdate(!hs[FindIndex(hs, id).value].completed)
  {
    match FindIndex(hs, id)
    case None => None
    case Some(i) => Some(CompletedUpdate(!hs[i].completed))
  }

  /** The update `handleArchiveHabit` sends: the negation of the listed habit's `is_archived`. */
  function ArchiveRequest(hs: seq<Habit>, id: int): (d: Option<UpdateHabitData>)
    ensures d.None? <==> !HasId(hs, id)
    ensures d.Some? ==> d.value == ArchivedUpdate(!hs[FindIndex(hs, id).value].isArchived)
  {
    match FindIndex(hs, id)
    case None => None
    case Some(i) => Some(ArchivedUpdate(!hs[i].isArchived))
  }

  /** The list after an update call answered `updated` (on failure, the list stays and the error is shown). */
  function AfterUpdate(st: PageState, id: int, updated: Result<Habit, string>, failed: string): (r: PageState)
    ensures updated.Success? ==> r == PageState(ReplaceById(st.habits, id, updated.value), None)
    ensures updated.Failure? ==> r == PageState(st.habits, Some(failed))
  {
    match updated
    case Success(h) => PageState(ReplaceById(st.habits, id, h), None)
    case Failure(_) => PageState(st.habits, Some(failed))
  }

  /**
   * `handleHabitComplete`: does nothing (beyond clearing the error) when the
   * id is not listed; otherwise `updated` is the service's answer to
   * `CompleteRequest`.
   */
  function HandleHabitComplete(st: PageState, id: int, updated: Result<Habit, string>): (r: PageState)
    ensures !HasId(st.habits, id) ==> r == PageState(st.habits, None)
    ensures HasId(st.habits, id) ==> r == AfterUpdate(st, id, updated, UpdateFailed)
  {
    if CompleteRequest(st.habits, id).None? then PageState(st.habits, None)
    else AfterUpdate(st, id, updated, UpdateFailed)
  }

  /** `handleHabitUpdate`: the answer replaces the habit with the id. */
  function HandleHabitUpdate(st: PageState, id: int, updated: Result<Habit, string>): (r: PageState)
    ensures |r.habits| == |st.habits|
    ensures forall i :: 0 <= i < |st.habits| && st.habits[i].id != id ==> r.habits[i] == st.habits[i]
  {
    AfterUpdate(st, id, updated, UpdateFailed)
  }

  /** `handleHabitDelete`: on success every habit with the id leaves the list. */
  function HandleHabitDelete(st: PageState, id: int, deleted: Result<(), string>): (r: PageState)
    ensures deleted.Success? ==>
      r.error.None? && !HasId(r.habits, id) && (forall h :: h in st.habits && h.id != id ==> h in r.habits)
    ensures deleted.Failure? ==> r == PageState(st.habits, Some(DeleteFailed))
  {
    match deleted
    case Success(_) => PageState(RemoveId(st.habits, id), None)
    case Failure(_) => PageState(st.habits, Some(DeleteFailed))
  }

  /** `handleArchiveHabit`: as `handleHabitComplete`, sending `ArchiveRequest`. */
  function HandleArchiveHabit(st: PageState, id: int, updated: Result<Habit, string>): (r: PageState)
    ensures !HasId(st.habits, id) ==> r == PageState(st.habits, None)
    ensures HasId(st.habits, id) ==> r == AfterUpdate(st, id, updated, ArchiveFailed)
  {
    if ArchiveRequest(st.habits, id).None? then PageState(st.habits, None)
    else AfterUpdate(st, id, updated, ArchiveFailed)
  }

  /**
   * If the page were wired to the demo store, page and store would stay in
   * step: when the page lists exactly the stored habits (ids distinct), a
   * completion toggle answered by the store's update leaves the page listing
   * what the store now holds, with only `completed` (negated), the streak
   * (moved by the store's rule) and `updated_at` changed. The page as
   * written imports the REST service instead, which this model leaves out.
   */
  lemma CompleteMatchesService(hs: seq<Habit>, id: int, now: int)
    requires IdsDistinct(hs) && HasId(hs, id)
    ensures var i := FindIndex(hs, id).value;
      var u := UpdatedHabit(hs[i], CompleteRequest(hs, id).value, now);
      && u == hs[i].(completed := !hs[i].completed,
                     streak := NextStreak(hs[i], CompletedUpdate(!hs[i].completed)),
                     updatedAt := now)
      && HandleHabitComplete(PageState(hs, None), id, Success(u)) == PageState(hs[i := u], None)
  {
    var i := FindIndex(hs, id).value;
    ReplaceByIdAtFoundIndex(hs, id, UpdatedHabit(hs[i], CompleteRequest(hs, id).value, now));
  }

  /**
   * Likewise, under the same wiring, for the archive button, which goes
   * through the update call: only `is_archived` (negated) and `updated_at`
   * change, the streak and the completion flag stay.
   */
  lemma ArchiveMatchesService(hs: seq<Habit>, id: int, now: int)
    requires IdsDistinct(hs) && HasId(hs, id)
    ensures var i := FindIndex(hs, id).value;
      var u := UpdatedHabit(hs[i], ArchiveRequest(hs, id).value, now);
      && u == hs[i].(isArchived := !hs[i].isArchived, updatedAt := now)
      && HandleArchiveHabit(PageState(hs, None), id, Success(u)) == PageState(hs[i := u], None)
  {
    var i := FindIndex(hs, id).value;
    ReplaceByIdAtFoundIndex(hs, id, UpdatedHabit(hs[i], ArchiveRequest(hs, id).value, now));
  }

  /** Under the same wiring, a successful delete removes from the page exactly what it removes from the store. */
  lemma DeleteMatchesService(hs: seq<Habit>, id: int)
    ensures HandleHabitDelete(PageState(hs, None), id, Success(())).habits == RemoveId(hs, id)
    ensures HasId(hs, id) ==> |RemoveId(hs, id)| < |hs|
  {
    RemoveIdShortensIffPresent(hs, id);
  }
}
