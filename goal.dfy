/** The goal record the Dashboard, the goal card and the statistics panel
    share (the `LearningGoal` interface each of them declares), the draft the
    creation dialog hands to the Dashboard, and the partial update the card
    hands back. */
module Goals {
  import opened Results

  datatype Status = Active | Paused | Completed

  /** The string literal each status is written as. */
  function StatusName(s: Status): (name: string)
    ensures name in {"active", "paused", "completed"}
  {
    match s
    case Active => "active"
    case Paused => "paused"
    case Completed => "completed"
  }

  datatype Goal = Goal(
    id: string,
    title: string,
    description: string,
    progress: int,
    targetDate: string,
    hoursPerWeek: int,
    category: string,
    status: Status,
    streak: int)

  function GoalId(g: Goal): string { g.id }

  /** `Omit<LearningGoal, 'id' | 'progress' | 'streak' | 'status'>`: the
      fields a user supplies for a new goal. */
  datatype GoalDraft = GoalDraft(
    title: string,
    description: string,
    targetDate: string,
    hoursPerWeek: int,
    category: string)

  /** The user-supplied fields of a goal. */
  function DraftOf(g: Goal): GoalDraft
  {
    GoalDraft(g.title, g.description, g.targetDate, g.hoursPerWeek, g.category)
  }

  /** `Partial<LearningGoal>`: each field present (`Some`) or absent. */
  datatype GoalPatch = GoalPatch(
    id: Option<string>,
    title: Option<string>,
    description: Option<string>,
    progress: Option<int>,
    targetDate: Option<string>,
    hoursPerWeek: Option<int>,
    category: Option<string>,
    status: Option<Status>,
    streak: Option<int>)

  const NoChanges: GoalPatch :=
    GoalPatch(None, None, None, None, None, None, None, None, None)

  /** `{ ...goal, ...updates }`: present fields of the patch win. */
  function ApplyPatch(g: Goal, u: GoalPatch): (r: Goal)
    ensures u == NoChanges ==> r == g
    ensures u.id.None? ==> r.id == g.id
  {
    Goal(
      u.id.GetOr(g.id),
      u.title.GetOr(g.title),
      u.description.GetOr(g.description),
      u.progress.GetOr(g.progress),
      u.targetDate.GetOr(g.targetDate),
      u.hoursPerWeek.GetOr(g.hoursPerWeek),
      u.category.GetOr(g.category),
      u.status.GetOr(g.status),
      u.streak.GetOr(g.streak))
  }

  /** Merging the same patch twice is merging it once. */
  lemma ApplyPatchIdempotent(g: Goal, u: GoalPatch)
    ensures ApplyPatch(ApplyPatch(g, u), u) == ApplyPatch(g, u)
  {
  }
}
