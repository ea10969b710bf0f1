/** The Dashboard component: its in-memory goal list, seeded with three
    sample goals, the create / update / delete handlers that replace that
    list, and the statistics shown on the four summary cards. */
module Dashboard {
  import opened Results
  import opened Goals
  import Lists
  import CreateGoalDialog

  /** The sample goals the Dashboard starts with. */
  const MockGoals: seq<Goal> := [
    Goal("1", "Master React Development",
         "Learn React from basics to advanced concepts including hooks, context, and state management",
         65, "2024-12-31", 8, "Programming", Active, 7),
    Goal("2", "Digital Marketing Fundamentals",
         "Understanding SEO, SEM, social media marketing, and content strategy",
         30, "2024-11-15", 5, "Marketing", Active, 3),
    Goal("3", "Data Science with Python",
         "Learn Python, pandas, numpy, and machine learning basics",
         100, "2024-08-30", 6, "Data Science", Completed, 14)
  ]

  // ---------------------------------------------------------------------
  // Statistics

  predicate IsActive(g: Goal) { g.status == Active }
  predicate IsCompleted(g: Goal) { g.status == Completed }
  predicate IsPaused(g: Goal) { g.status == Paused }

  /** `goals.filter(goal => goal.status === 'active')`. */
  function ActiveGoals(goals: seq<Goal>): (r: seq<Goal>)
    ensures forall i :: 0 <= i < |r| ==> r[i].status == Active && r[i] in goals
    ensures forall i :: 0 <= i < |goals| && goals[i].status == Active ==> goals[i] in r
  {
    Lists.Filter(goals, IsActive)
  }

  /** `goals.filter(goal => goal.status === 'completed')`. */
  function CompletedGoals(goals: seq<Goal>): (r: seq<Goal>)
    ensures forall i :: 0 <= i < |r| ==> r[i].status == Completed && r[i] in goals
    ensures forall i :: 0 <= i < |goals| && goals[i].status == Completed ==> goals[i] in r
  {
    Lists.Filter(goals, IsCompleted)
  }

  function PausedGoals(goals: seq<Goal>): seq<Goal>
  {
    Lists.Filter(goals, IsPaused)
  }

  function HoursOf(g: Goal): int { g.hoursPerWeek }
  function ProgressOf(g: Goal): int { g.progress }

  /** What a goal adds to the weekly plan: its hours when active, else 0. */
  function ActiveHoursOf(g: Goal): int
  {
    if g.status == Active then g.hoursPerWeek else 0
  }

  /** What a goal adds to the active progress sum: its progress when
      active, else 0. */
  function ActiveProgressOf(g: Goal): int
  {
    if g.status == Active then g.progress else 0
  }

  /** `activeGoals.reduce((sum, goal) => sum + goal.hoursPerWeek, 0)`: the
      sum over all goals in which paused and completed goals count 0. */
  function TotalHoursThisWeek(goals: seq<Goal>): (r: int)
    ensures r == Lists.Sum(goals, ActiveHoursOf)
  {
    Lists.SumFilter(goals, IsActive, HoursOf, ActiveHoursOf);
    Lists.Sum(ActiveGoals(goals), HoursOf)
  }

  /** `activeGoals.reduce((sum, goal) => sum + goal.progress, 0)`: the sum
      over all goals in which paused and completed goals count 0. */
  function ActiveProgressSum(goals: seq<Goal>): (r: int)
    ensures r == Lists.Sum(goals, ActiveProgressOf)
  {
    Lists.SumFilter(goals, IsActive, ProgressOf, ActiveProgressOf);
    Lists.Sum(ActiveGoals(goals), ProgressOf)
  }

  /** The mean progress of the active goals. The component divides without
      a guard, so it is only a number when some goal is active. */
  function AverageProgress(goals: seq<Goal>): (r: real)
    requires |ActiveGoals(goals)| > 0
    ensures r * (|ActiveGoals(goals)| as real) == ActiveProgressSum(goals) as real
  {
    (ActiveProgressSum(goals) as real) / (|ActiveGoals(goals)| as real)
  }

  /** `Math.max(...goals.map(g => g.streak))`, which is only a number on a
      non-empty list. */
  function BestStreak(goals: seq<Goal>): (r: int)
    requires |goals| > 0
    ensures forall i :: 0 <= i < |goals| ==> goals[i].streak <= r
    ensures exists i :: 0 <= i < |goals| && goals[i].streak == r
  {
    if |goals| == 1 then goals[0].streak
    else
      var rest := BestStreak(goals[1..]);
      if goals[0].streak >= rest then goals[0].streak else rest
  }

  /** The active and completed lists are the order-preserving sub-lists of
      the goals with that status, each goal kept as many times as it
      occurs. */
  lemma StatusListsKeepOrder(goals: seq<Goal>)
    ensures Lists.IsSubsequence(ActiveGoals(goals), goals)
    ensures Lists.IsSubsequence(CompletedGoals(goals), goals)
    ensures forall g: Goal :: g.status == Active ==> multiset(ActiveGoals(goals))[g] == multiset(goals)[g]
    ensures forall g: Goal :: g.status == Completed ==> multiset(CompletedGoals(goals))[g] == multiset(goals)[g]
  {
    Lists.FilterIsSubsequence(goals, IsActive);
    Lists.FilterIsSubsequence(goals, IsCompleted);
    forall g: Goal ensures multiset(ActiveGoals(goals))[g] == if IsActive(g) then multiset(goals)[g] else 0 {
      Lists.FilterMultiplicity(goals, IsActive, g);
    }
    forall g: Goal ensures multiset(CompletedGoals(goals))[g] == if IsCompleted(g) then multiset(goals)[g] else 0 {
      Lists.FilterMultiplicity(goals, IsCompleted, g);
    }
  }

  /** The active, paused and completed lists split the goals exactly,
      duplicates included. */
  lemma StatusPartition(goals: seq<Goal>)
    ensures multiset(ActiveGoals(goals)) + multiset(PausedGoals(goals)) + multiset(CompletedGoals(goals))
         == multiset(goals)
  {
    Lists.FilterPartition3(goals, IsActive, IsPaused, IsCompleted);
  }

  /** Every goal is in exactly one of the active, paused and completed
      lists. */
  lemma {:induction false} StatusCountsAddUp(goals: seq<Goal>)
    ensures |ActiveGoals(goals)| + |PausedGoals(goals)| + |CompletedGoals(goals)| == |goals|
  {
    if goals != [] {
      StatusCountsAddUp(goals[1..]);
    }
  }

  /** With every active goal's progress within 0..100 (what the progress
      rule keeps), the average is within 0..100 too. */
  lemma AverageProgressBounds(goals: seq<Goal>)
    requires |ActiveGoals(goals)| > 0
    requires forall i :: 0 <= i < |goals| ==> 0 <= goals[i].progress <= 100
    ensures 0.0 <= AverageProgress(goals) <= 100.0
  {
    ActiveProgressSumBounds(goals);
    MeanWithinBounds(ActiveProgressSum(goals), |ActiveGoals(goals)|, AverageProgress(goals));
  }

  /** The active progress sum of goals within 0..100 is within
      0..100 times the active count. */
  lemma ActiveProgressSumBounds(goals: seq<Goal>)
    requires forall i :: 0 <= i < |goals| ==> 0 <= goals[i].progress <= 100
    ensures 0 <= ActiveProgressSum(goals) <= 100 * |ActiveGoals(goals)|
  {
    var active := ActiveGoals(goals);
    forall i | 0 <= i < |active| ensures 0 <= ProgressOf(active[i]) <= 100 {
      assert active[i] in goals;
    }
    Lists.SumBounds(active, ProgressOf, 0, 100);
  }

  /** A mean of terms within 0..100 is within 0..100. */
  lemma MeanWithinBounds(sum: int, n: int, mean: real)
    requires n > 0 && 0 <= sum <= 100 * n
    requires mean * (n as real) == sum as real
    ensures 0.0 <= mean <= 100.0
  {
    var nr, sr := n as real, sum as real;
    assert mean == sr / nr;
    assert sr / nr <= (100.0 * nr) / nr;
  }

  // ---------------------------------------------------------------------
  // Collection updates

  /** The goal `handleCreateGoal` builds: the user's fields, a new id, no
      progress, no streak, active. */
  function CreatedGoal(draft: GoalDraft, id: string): (g: Goal)
    ensures DraftOf(g) == draft
    ensures g.id == id && g.progress == 0 && g.streak == 0 && g.status == Active
  {
    Goal(id, draft.title, draft.description, 0, draft.targetDate,
         draft.hoursPerWeek, draft.category, Active, 0)
  }

  /** `goals.map(goal => goal.id === id ? { ...goal, ...updates } : goal)`. */
  function UpdateGoals(goals: seq<Goal>, id: string, updates: GoalPatch): (r: seq<Goal>)
    ensures |r| == |goals|
    ensures forall i :: 0 <= i < |goals| && goals[i].id != id ==> r[i] == goals[i]
    ensures forall i :: 0 <= i < |goals| && goals[i].id == id ==> r[i] == ApplyPatch(goals[i], updates)
  {
    Lists.MergeWhere(goals, GoalId, id, g => ApplyPatch(g, updates))
  }

  /** `goals.filter(goal => goal.id !== id)`. */
  function DeleteGoals(goals: seq<Goal>, id: string): (r: seq<Goal>)
    ensures forall i :: 0 <= i < |r| ==> r[i].id != id && r[i] in goals
    ensures forall i :: 0 <= i < |goals| && goals[i].id != id ==> goals[i] in r
  {
    Lists.Without(goals, GoalId, id)
  }

  /** A delete keeps the surviving goals in order and drops exactly the
      goals with that id, duplicates included. */
  lemma DeleteRemovesExactly(goals: seq<Goal>, id: string)
    ensures Lists.IsSubsequence(DeleteGoals(goals, id), goals)
    ensures multiset(DeleteGoals(goals, id)) + multiset(Lists.WithKey(goals, GoalId, id)) == multiset(goals)
  {
    Lists.WithoutKeepsOrder(goals, GoalId, id);
    Lists.WithoutRemovesExactly(goals, GoalId, id);
  }

  /** Deleting an id no goal carries leaves the list as it was. */
  lemma DeleteAbsentId(goals: seq<Goal>, id: string)
    requires forall i :: 0 <= i < |goals| ==> goals[i].id != id
    ensures DeleteGoals(goals, id) == goals
  {
    Lists.WithoutAbsent(goals, GoalId, id);
  }

  /** Updating an id no goal carries leaves the list as it was: there is
      no not-found error. */
  lemma UpdateAbsentId(goals: seq<Goal>, id: string, updates: GoalPatch)
    requires forall i :: 0 <= i < |goals| ==> goals[i].id != id
    ensures UpdateGoals(goals, id, updates) == goals
  {
    Lists.MergeWhereAbsent(goals, GoalId, id, g => ApplyPatch(g, updates));
  }

  /** Deleting a goal just created under a fresh id gives back the list
      from before the create. */
  lemma DeleteUndoesCreate(goals: seq<Goal>, draft: GoalDraft, id: string)
    requires forall i :: 0 <= i < |goals| ==> goals[i].id != id
    ensures DeleteGoals(goals + [CreatedGoal(draft, id)], id) == goals
  {
    Lists.WithoutAppended(goals, CreatedGoal(draft, id), GoalId);
    DeleteAbsentId(goals, id);
  }

  /** A patch that leaves the id alone does not affect a later delete of
      that id. */
  lemma DeleteAfterUpdate(goals: seq<Goal>, id: string, updates: GoalPatch)
    requires updates.id.None?
    ensures DeleteGoals(UpdateGoals(goals, id, updates), id) == DeleteGoals(goals, id)
  {
    Lists.WithoutAfterMerge(goals, GoalId, id, g => ApplyPatch(g, updates));
  }

  /** Updating the category of a goal and reading it back yields the new
      category with every other field as it was. */
  lemma UpdateCategoryReadBack(goals: seq<Goal>, i: nat, category: string)
    requires i < |goals|
    ensures UpdateGoals(goals, goals[i].id, NoChanges.(category := Some(category)))[i]
         == goals[i].(category := category)
  {
  }

  // ---------------------------------------------------------------------
  // Component state

  /** The Dashboard's state cells: the goal list and whether the creation
      dialog is open. */
  class DashboardState {
    var goals: seq<Goal>
    var isCreateDialogOpen: bool

    constructor ()
      ensures goals == MockGoals && !isCreateDialogOpen
    {
      goals := MockGoals;
      isCreateDialogOpen := false;
    }

    /** The "New Goal" button. */
    method OpenCreateDialog()
      modifies this`isCreateDialogOpen
      ensures isCreateDialogOpen
    {
      isCreateDialogOpen := true;
    }

    /** Appends the new goal at the end and closes the dialog. */
    method HandleCreateGoal(newGoal: GoalDraft, freshId: string)
      modifies this
      ensures goals == old(goals) + [CreatedGoal(newGoal, freshId)]
      ensures !isCreateDialogOpen
    {
      goals := goals + [CreatedGoal(newGoal, freshId)];
      isCreateDialogOpen := false;
    }

    /** Submitting the creation dialog, whose callback is
        `handleCreateGoal`: a complete form adds its draft as a new goal at
        the end and is cleared; an incomplete one changes nothing. */
    method SubmitCreateDialog(form: CreateGoalDialog.GoalForm, parseInt: string -> int, freshId: string)
      modifies this, form
      ensures old(form.HasEmptyField()) ==>
        && goals == old(goals) && isCreateDialogOpen == old(isCreateDialogOpen)
        && form.title == old(form.title) && form.description == old(form.description)
        && form.targetDate == old(form.targetDate) && form.hoursPerWeek == old(form.hoursPerWeek)
        && form.category == old(form.category) && form.isSubmitting == old(form.isSubmitting)
      ensures !old(form.HasEmptyField()) ==>
        && goals == old(goals) + [CreatedGoal(old(form.Draft(parseInt)), freshId)]
        && !isCreateDialogOpen
        && form.title == "" && form.description == "" && form.targetDate == ""
        && form.hoursPerWeek == "" && form.category == ""
        && !form.isSubmitting
    {
      var sent := form.HandleSubmit(parseInt, CreateGoalDialog.Returned);
      if sent.Some? {
        HandleCreateGoal(sent.value, freshId);
      }
    }

    method HandleUpdateGoal(id: string, updates: GoalPatch)
      modifies this`goals
      ensures goals == UpdateGoals(old(goals), id, updates)
    {
      goals := UpdateGoals(goals, id, updates);
    }

    method HandleDeleteGoal(id: string)
      modifies this`goals
      ensures goals == DeleteGoals(old(goals), id)
    {
      goals := DeleteGoals(goals, id);
    }
  }

  /** The sample list shows 2 active goals, 1 completed, 13 planned hours,
      an average progress of 47.5 and a best streak of 14 days. */
  lemma MockGoalsSummary()
    ensures |ActiveGoals(MockGoals)| == 2
    ensures |CompletedGoals(MockGoals)| == 1
    ensures TotalHoursThisWeek(MockGoals) == 13
    ensures AverageProgress(MockGoals) == 47.5
    ensures BestStreak(MockGoals) == 14
  {
  }
}
