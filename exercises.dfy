/**
 * The exercise library page: the category filter over the loaded exercises,
 * the session row logged when an exercise is marked complete, and the icon
 * and gradient chosen for each exercise card.
 */
module Exercises {
  import opened Wrappers
  import opened Sequences

  /** A row of the `exercises` table, restricted to the fields the page computes with. */
  datatype Exercise = Exercise(id: string, title: string, category: string, durationMinutes: int)

  /** The filter value that shows every exercise. */
  const AllFilter: string := "all"

  /** The filter buttons, in display order. */
  const FilterButtons: seq<string> := ["all", "breathing", "meditation", "cbt"]

  /** The test `e.category === filter` the page filters by. */
  function InCategory(filter: string): Exercise -> bool
  {
    (e: Exercise) => e.category == filter
  }

  /** The exercises the grid shows for the selected filter. */
  function Visible(exercises: seq<Exercise>, filter: string): (r: seq<Exercise>)
    ensures filter == AllFilter ==> r == exercises
    ensures filter != AllFilter ==> forall i :: 0 <= i < |r| ==> r[i].category == filter
    ensures filter != AllFilter ==>
      forall e :: multiset(r)[e] == if e.category == filter then multiset(exercises)[e] else 0
    ensures IsSubsequence(r, exercises)
  {
    if filter == AllFilter then
      SubsequenceRefl(exercises);
      exercises
    else
      var r := Filter(exercises, InCategory(filter));
      assert forall i :: 0 <= i < |r| ==> InCategory(filter)(r[i]);
      r
  }

  /**
   * Under a category filter the grid shows exactly the exercises of that
   * category in their loaded order: any in-order selection of exercises of
   * that category that is as long as the grid is the grid.
   */
  lemma VisibleExactly(exercises: seq<Exercise>, filter: string, r: seq<Exercise>)
    requires filter != AllFilter
    requires IsSubsequence(r, exercises)
    requires forall i :: 0 <= i < |r| ==> r[i].category == filter
    requires |r| == |Visible(exercises, filter)|
    ensures r == Visible(exercises, filter)
  {
    assert forall i :: 0 <= i < |r| ==> InCategory(filter)(r[i]);
    FilterUnique(r, exercises, InCategory(filter));
  }

  /** Applying the same filter to the grid again shows the same grid. */
  lemma VisibleIdempotent(exercises: seq<Exercise>, filter: string)
    ensures Visible(Visible(exercises, filter), filter) == Visible(exercises, filter)
  {
    if filter != AllFilter {
      FilterIdempotent(exercises, InCategory(filter));
    }
  }

  /** A filter of the grid for one category, then another, is empty unless they agree. */
  lemma DistinctCategoriesDisjoint(exercises: seq<Exercise>, f: string, g: string)
    requires f != AllFilter && g != AllFilter && f != g
    ensures Visible(Visible(exercises, f), g) == []
  {
    var v := Visible(exercises, f);
    var w := Visible(v, g);
    forall e: Exercise
      ensures multiset(w)[e] == 0
    {
      if e.category == g {
        // every exercise shown under `f` has category `f`, not `g`
        assert multiset(v)[e] == 0;
      }
    }
    assert multiset(w) == multiset{};
  }

  /** A row of the `user_exercise_sessions` table as the page inserts it. */
  datatype SessionRow = SessionRow(userId: string, exerciseId: string, durationSeconds: int)

  /**
   * The row `handleComplete` inserts for the signed-in user, or `None` when
   * nobody is signed in (the handler returns before inserting).
   */
  function CompletionRow(user: Option<string>, exercise: Exercise): (row: Option<SessionRow>)
    ensures row.None? <==> user.None?
    ensures row.Some? ==> row.value.userId == user.value && row.value.exerciseId == exercise.id
    ensures row.Some? ==>
      row.value.durationSeconds % 60 == 0 && row.value.durationSeconds / 60 == exercise.durationMinutes
  {
    match user
    case None => None
    case Some(id) => Some(SessionRow(id, exercise.id, exercise.durationMinutes * 60))
  }

  /** The card icons the page draws. */
  datatype Icon = Wind | Brain | Heart

  const CategoryIcons: map<string, Icon> := map["breathing" := Wind, "meditation" := Brain, "cbt" := Heart]

  const CategoryColors: map<string, string> := map[
    "breathing" := "from-zen-sky to-zen-sage",
    "meditation" := "from-zen-lavender to-zen-sage",
    "cbt" := "from-zen-coral to-zen-lavender"]

  const DefaultIcon: Icon := Wind

  const DefaultGradient: string := "from-zen-sage to-zen-sky"

  /** A record lookup: the entry, or `undefined` when the key is missing. */
  function Lookup<V>(table: map<string, V>, key: string): Option<V>
  {
    if key in table then Some(table[key]) else None
  }

  /** JavaScript `value || fallback` on an optional string: empty and missing both fall back. */
  function OrElse(value: Option<string>, fallback: string): string
  {
    if value.Some? && value.value != "" then value.value else fallback
  }

  /** `categoryIcons[category] || Wind`; an icon component is never falsy. */
  function IconFor(category: string): (icon: Icon)
    ensures category in CategoryIcons ==> icon == CategoryIcons[category]
    ensures category !in CategoryIcons ==> icon == DefaultIcon
    ensures icon == DefaultIcon <==> category == "breathing" || category !in CategoryIcons
  {
    match Lookup(CategoryIcons, category)
    case Some(i) => i
    case None => DefaultIcon
  }

  /** `categoryColors[category] || "from-zen-sage to-zen-sky"`. */
  function GradientFor(category: string): (gradient: string)
  {
    OrElse(Lookup(CategoryColors, category), DefaultGradient)
  }

  /**
   * Every table entry is a non-empty string, so the `||` fallback happens
   * exactly for categories the table does not name.
   */
  lemma GradientLookup(category: string)
    ensures category in CategoryColors ==> GradientFor(category) == CategoryColors[category]
    ensures category !in CategoryColors ==> GradientFor(category) == DefaultGradient
    ensures GradientFor(category) == DefaultGradient <==> category !in CategoryColors
  {
    if category in CategoryColors {
      assert category == "breathing" || category == "meditation" || category == "cbt";
    }
  }

  /** The filter buttons other than "all" name exactly the categories both tables style. */
  lemma FilterButtonsMatchTables()
    ensures (set i | 1 <= i < |FilterButtons| :: FilterButtons[i]) == CategoryIcons.Keys
    ensures CategoryIcons.Keys == CategoryColors.Keys
    ensures FilterButtons[0] == AllFilter && AllFilter !in CategoryIcons
  {
    var buttons := set i | 1 <= i < |FilterButtons| :: FilterButtons[i];
    assert FilterButtons[1] in buttons && FilterButtons[2] in buttons && FilterButtons[3] in buttons;
  }
}
