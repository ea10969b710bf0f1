# Learning-goal collection: a Dafny model

This project models the part of the learning-goal tracker that has rules
worth stating. It covers five parts:

- **Dashboard** (`Dashboard` module, `dashboard.dfy`). The goal list starts
  from three sample goals. The create, update and delete handlers replace
  the list. The four summary figures are derived from it: active and
  completed goals, planned weekly hours, average progress and best streak.
- **Goal card** (`GoalCard`, `goal_card.dfy`). It covers:
  - the "Log Progress" rule (ten more points, capped at 100, with completion
    at 100);
  - the status menu;
  - the status badge colour and the card's style flags.
- **Statistics panel** (`ProgressStats`, `progress_stats.dfy`). It covers
  the category histogram, the pie slices, the colour palette, the overview
  badge colour and the empty-list guard.
- **Creation dialog** (`CreateGoalDialog`, `create_goal_dialog.dfy`). It has
  five text fields and a submitting flag, the submit and cancel handlers,
  the disabled-button expression and the category list.
- **`useLearningGoals` hook** (`LearningGoalsStore`,
  `learning_goals_store.dfy`). A class holds `goals`, `loading` and `error`.
  Its fetch, create, update and delete methods take the remote service's
  reply as a parameter.

Shared modules:

- `Goals` (`goal.dfy`): the goal record the three components share, the
  draft the dialog hands over, and the partial update with its spread-merge.
- `Lists` (`lists.dfy`): generic filter, map-merge and sum over sequences,
  with their order, membership and multiplicity properties.
- `Results` (`results.dfy`): `Option` and `Result`.

Stateful code is modelled as classes whose methods state the new state:
`DashboardState`, `GoalForm` and `GoalStore`. Each new list is given by a
pure function. The properties are proved about those functions.

Behaviours of the code that the model keeps:

- `completed` is not a terminal status: the Resume item sets `active` from
  any status.
- Update and delete have no not-found error. An absent id leaves the list
  as it was.
- The average progress has no zero-goal fallback. The component divides by
  the active count.
- The store does not validate input. Only the dialog checks for empty
  fields.
- The hook keeps the server's row order. It prepends each new row.

## Model

| member | source | states |
|---|---|---|
| `Goals.StatusName` | src/components/Dashboard.tsx:19 | each status is one of the three literals `active`, `paused`, `completed` |
| `Goals.ApplyPatch` | src/components/Dashboard.tsx:82 | `{...goal, ...updates}`: an empty patch leaves the goal unchanged, and a patch without `id` keeps the id |
| `Goals.ApplyPatchIdempotent` | src/components/Dashboard.tsx:82 | merging the same partial update twice is the same as merging it once |
| `Dashboard.ActiveGoals` | src/components/Dashboard.tsx:63 | the result holds goals of the list that are active, and every active goal of the list is in it |
| `Dashboard.CompletedGoals` | src/components/Dashboard.tsx:64 | the same as `ActiveGoals`, for `completed` |
| `Dashboard.StatusListsKeepOrder` | src/components/Dashboard.tsx:63-64 | the active and completed lists are order-preserving sub-lists of the goals, and each goal with that status occurs in them exactly as often as in the goals, which fixes the counts shown at lines 123 and 125 |
| `Dashboard.StatusPartition` | src/components/Dashboard.tsx:63-64 | the active, paused and completed lists together hold exactly the goals, duplicates included |
| `Dashboard.StatusCountsAddUp` | src/components/Dashboard.tsx:63-64 | active, paused and completed counts add up to the number of goals |
| `Dashboard.TotalHoursThisWeek` | src/components/Dashboard.tsx:65 | weekly hours equal the sum over all goals where paused and completed goals count 0 |
| `Dashboard.ActiveProgressSum` | src/components/Dashboard.tsx:66 | the numerator of the average is the sum of progress over all goals where paused and completed goals count 0 |
| `Dashboard.AverageProgress` | src/components/Dashboard.tsx:66 | with at least one active goal, average times the active count equals the active progress sum |
| `Dashboard.AverageProgressBounds` | src/components/Dashboard.tsx:66 | with every progress within 0..100, the average is within 0..100 |
| `Dashboard.ActiveProgressSumBounds` | src/components/Dashboard.tsx:66 | with every progress within 0..100, the active progress sum is within 0..100 times the active count |
| `Dashboard.BestStreak` | src/components/Dashboard.tsx:161 | on a non-empty list, the best streak is at least every goal's streak and is some goal's streak |
| `Dashboard.CreatedGoal` | src/components/Dashboard.tsx:68-75 | the new goal carries the draft's fields and the given id, with progress 0, streak 0 and status active |
| `Dashboard.UpdateGoals` | src/components/Dashboard.tsx:80-84 | length and order are kept, goals with another id are unchanged, and goals with the id get the patch merged in |
| `Dashboard.DeleteGoals` | src/components/Dashboard.tsx:86-88 | no goal with the id survives, and every goal with another id does |
| `Dashboard.DeleteRemovesExactly` | src/components/Dashboard.tsx:86-88 | survivors keep their order, and survivors plus the goals with the id give back the list's multiset |
| `Dashboard.UpdateAbsentId` | src/components/Dashboard.tsx:80-84 | updating an id no goal has leaves the list unchanged |
| `Dashboard.DeleteAbsentId` | src/components/Dashboard.tsx:86-88 | deleting an id no goal has leaves the list unchanged |
| `Dashboard.DeleteUndoesCreate` | src/components/Dashboard.tsx:68-88 | creating a goal under a fresh id and then deleting that id restores the list |
| `Dashboard.DeleteAfterUpdate` | src/components/Dashboard.tsx:80-88 | an update that does not set `id`, followed by a delete of that id, equals the delete alone |
| `Dashboard.UpdateCategoryReadBack` | src/components/Dashboard.tsx:80-84 | updating a goal's category and reading it back gives the new category with every other field unchanged |
| `Dashboard.MockGoalsSummary` | src/components/Dashboard.tsx:23-66 | the sample list has 2 active and 1 completed goals, 13 weekly hours, average 47.5 and best streak 14 (line 161) |
| `Dashboard.DashboardState.constructor` | src/components/Dashboard.tsx:60-61 | the Dashboard starts with the sample goals and the dialog closed |
| `Dashboard.DashboardState.OpenCreateDialog` | src/components/Dashboard.tsx:104-105 | the New Goal button opens the dialog |
| `Dashboard.DashboardState.HandleCreateGoal` | src/components/Dashboard.tsx:68-78 | the new goal is appended at the end, the old goals are unchanged, and the dialog closes |
| `Dashboard.DashboardState.HandleUpdateGoal` | src/components/Dashboard.tsx:80-84 | the list becomes `UpdateGoals` of the old list |
| `Dashboard.DashboardState.HandleDeleteGoal` | src/components/Dashboard.tsx:86-88 | the list becomes `DeleteGoals` of the old list |
| `Dashboard.DashboardState.SubmitCreateDialog` | src/components/Dashboard.tsx:217-221 | a complete form's draft is appended as a new goal and the form is cleared; an incomplete form changes nothing |
| `GoalCard.Min` | src/components/LearningGoalCard.tsx:68 | `Math.min`: the result is no larger than either argument and equals one of them |
| `GoalCard.NextProgress` | src/components/LearningGoalCard.tsx:68 | the next progress is at most 100, is 100 exactly from 90 or more, and is ten more below 90 |
| `GoalCard.ProgressUpdate` | src/components/LearningGoalCard.tsx:66-71 | the update carries only progress and status; progress is at most 100 and never decreases from 100 or below; 100 is reached exactly from 90 or more and then sets completed; otherwise the status is kept |
| `GoalCard.StatusChange` | src/components/LearningGoalCard.tsx:62-64 | merging a status change sets the status and nothing else |
| `GoalCard.ShowsLogProgress` | src/components/LearningGoalCard.tsx:160 | the Log Progress button is shown exactly on goals that are neither paused nor completed |
| `GoalCard.LogProgressScope` | src/components/LearningGoalCard.tsx:66-71 | through the update handler, only progress and status of goals with the card's id change, and no other goal changes |
| `GoalCard.StatusChangeScope` | src/components/LearningGoalCard.tsx:62-64 | through the update handler, only the status of goals with that id changes |
| `GoalCard.LogProgressFromActiveCard` | src/components/LearningGoalCard.tsx:160-179 | on the active cards that show the button, a click moves progress within old..100; the goal is completed exactly at 100 and stays active otherwise |
| `GoalCard.LogProgressAtFullIsIdempotent` | src/components/LearningGoalCard.tsx:68-70 | at 100 a click only marks the goal completed, and a second click changes nothing |
| `GoalCard.LoggedTimesProgress` | src/components/LearningGoalCard.tsx:66-71 | n clicks from progress p in 0..100 give `min(p + 10n, 100)`, completed once 100 is reached, and the user fields are unchanged |
| `GoalCard.TenLogsComplete` | src/components/LearningGoalCard.tsx:66-71 | ten clicks complete every goal that starts within 0..100 |
| `GoalCard.LogProgressExamples` | src/components/LearningGoalCard.tsx:68-69 | from 95 a click gives 100 and completed; from 50 it gives 60 with the status kept |
| `GoalCard.StatusColor` | src/components/LearningGoalCard.tsx:39-48 | the success colour exactly for `completed`, the warning colour exactly for `paused`, and the primary colour for every other string |
| `GoalCard.StatusColorCases` | src/components/LearningGoalCard.tsx:39-48 | active, paused and completed get the primary, warning and success colours, three distinct ones |
| `GoalCard.CardClass` | src/components/LearningGoalCard.tsx:50-59 | exactly one of the completed, active and dimmed flags holds, and glow implies hovered and active |
| `GoalCard.CardClassNames` | src/components/LearningGoalCard.tsx:51-59 | the base classes come first, followed only by flag classes, and no class name repeats |
| `GoalCard.CardClassNamesFollowStatus` | src/components/LearningGoalCard.tsx:50-59 | `glow-effect` appears exactly when hovered and active, and each status marker class appears exactly for its status |
| `ProgressStats.Lookup` | src/components/ProgressStats.tsx:38 | a key that is absent reads as 0, and a positive count is the one stored under that key |
| `ProgressStats.Bump` | src/components/ProgressStats.tsx:38 | one step adds 1 under the category and leaves other counts alone; it adds the key, adds 1 to the total and keeps keys distinct |
| `ProgressStats.TallyCounts` | src/components/ProgressStats.tsx:37-40 | the fold adds to each key's count the number of goals with that category |
| `ProgressStats.Tally` | src/components/ProgressStats.tsx:37-40 | the fold adds the number of goals to the total, adds the categories to the keys and keeps keys distinct |
| `ProgressStats.CategoryHistogram` | src/components/ProgressStats.tsx:37-40 | the keys are the occurring categories, once each, and the counts sum to the number of goals |
| `ProgressStats.CategoryHistogramCounts` | src/components/ProgressStats.tsx:37-40 | each category's count is the number of goals in it, whatever their status |
| `ProgressStats.PieData` | src/components/ProgressStats.tsx:42-45 | one slice per histogram entry, in order, with that entry's name and count |
| `ProgressStats.PieDataTotal` | src/components/ProgressStats.tsx:42-45 | the slice values add up to the histogram total |
| `ProgressStats.CategoryChart` | src/components/ProgressStats.tsx:55-57 | the panel renders nothing exactly for an empty goal list |
| `ProgressStats.CategoryChartShape` | src/components/ProgressStats.tsx:42-57 | on a non-empty list there is one slice per category, each valued at its goal count, summing to the number of goals |
| `ProgressStats.SliceColor` | src/components/ProgressStats.tsx:129 | every slice colour is one of the palette's colours |
| `ProgressStats.NeighbouringSlicesDiffer` | src/components/ProgressStats.tsx:23 | slices fewer than five positions apart get different colours |
| `ProgressStats.OverviewBadgeColor` | src/components/ProgressStats.tsx:162-163 | `bg-success` exactly for completed, `bg-warning` exactly for paused, `bg-primary` exactly for active |
| `ProgressStats.OverviewBadgeMatchesCard` | src/components/ProgressStats.tsx:162-163 | the overview badge's background is the first class of the card badge's colour for the same status |
| `CreateGoalDialog.CategoryOptions` | src/components/CreateGoalDialog.tsx:23-34 | ten distinct categories, `Other` among them |
| `CreateGoalDialog.GoalForm.constructor` | src/components/CreateGoalDialog.tsx:37-42 | all five fields start empty and the form is not submitting |
| `CreateGoalDialog.GoalForm.HasEmptyField` | src/components/CreateGoalDialog.tsx:46 | the submit guard holds exactly when one of the five fields is the empty string |
| `CreateGoalDialog.GoalForm.SubmitDisabled` | src/components/CreateGoalDialog.tsx:207 | the button is disabled exactly when submitting or when the submit guard's empty-field test holds |
| `CreateGoalDialog.GoalForm.Draft` | src/components/CreateGoalDialog.tsx:53-59 | the four text fields pass through unchanged, and the hours text is parsed |
| `CreateGoalDialog.GoalForm.HandleSubmit` | src/components/CreateGoalDialog.tsx:44-72 | with a field empty nothing happens; otherwise one callback with the draft, `isSubmitting` false afterwards, fields cleared only if the callback returned |
| `CreateGoalDialog.GoalForm.HandleCancel` | src/components/CreateGoalDialog.tsx:74-81 | the five fields are cleared and the dialog is asked to close |
| `LearningGoalsStore.BuildInsert` | src/hooks/useLearningGoals.ts:54-59 | the inserted row has progress 0, status `active` and the user's id; the other fields come from the caller |
| `LearningGoalsStore.InsertIgnoresProgressAndStatus` | src/hooks/useLearningGoals.ts:54-59 | caller-supplied progress and status never reach the table |
| `LearningGoalsStore.MergeRow` | src/hooks/useLearningGoals.ts:87 | the merged row takes id, title, owner and timestamps from the reply |
| `LearningGoalsStore.MergeRowProperties` | src/hooks/useLearningGoals.ts:87 | a reply carrying every property replaces the local row, and merging twice equals merging once |
| `LearningGoalsStore.MergeRows` | src/hooks/useLearningGoals.ts:86-88 | length and order are kept, rows with another id are unchanged, and rows with the id get the reply merged in |
| `LearningGoalsStore.RemoveRows` | src/hooks/useLearningGoals.ts:107 | no row with the id survives, and every row with another id does |
| `LearningGoalsStore.RemoveRowsExactly` | src/hooks/useLearningGoals.ts:107 | survivors keep their order, and survivors plus the rows with the id give back the list's multiset |
| `LearningGoalsStore.RemoveUndoesCreate` | src/hooks/useLearningGoals.ts:65-107 | deleting a freshly created row's id after the create restores the list |
| `LearningGoalsStore.RemoveAfterMerge` | src/hooks/useLearningGoals.ts:86-107 | an update whose reply keeps the id, followed by a delete of that id, equals the delete alone |
| `LearningGoalsStore.GoalStore.constructor` | src/hooks/useLearningGoals.ts:20-22 | `goals` empty, `loading` true, `error` null |
| `LearningGoalsStore.GoalStore.FetchGoals` | src/hooks/useLearningGoals.ts:28-45 | success replaces `goals` (null gives empty) and keeps `error`; failure keeps `goals` and sets `error`; `loading` ends false |
| `LearningGoalsStore.GoalStore.CreateGoal` | src/hooks/useLearningGoals.ts:47-73 | no user: throws before any insert; otherwise sends `BuildInsert`; success puts the row first, failure rethrows with `goals` unchanged |
| `LearningGoalsStore.GoalStore.UpdateGoal` | src/hooks/useLearningGoals.ts:75-96 | on success the reply is returned and `goals` becomes `MergeRows`; on failure the error is rethrown and `goals` is unchanged |
| `LearningGoalsStore.GoalStore.DeleteGoal` | src/hooks/useLearningGoals.ts:98-114 | on success `goals` becomes `RemoveRows`; on failure the error is rethrown and `goals` is unchanged |

More detail on three rows:

`CreateGoalDialog.GoalForm.HandleSubmit`:

- With a field empty, it neither calls back nor changes anything.
- Otherwise it calls back once with the draft, and `isSubmitting` ends
  false.
- The fields are cleared only if the callback returned. If the callback
  threw, they are kept.

`LearningGoalsStore.GoalStore.FetchGoals`:

- Success: `goals` becomes the returned rows, or empty for null, and `error`
  is kept.
- Failure: `goals` is kept and `error` gets the message or the fallback
  text.
- `loading` ends false after either outcome.

`LearningGoalsStore.GoalStore.CreateGoal`:

- With no user, it throws before any insert and `goals` is unchanged.
- Otherwise it sends `BuildInsert`.
- On success the returned row goes first and the old rows follow in order.
- On failure the error is rethrown and `goals` is unchanged.
- `loading` and `error` are never touched.

## Left out

- The hosted database client, `supabase.auth.getUser`, toasts and console
  logging. Each remote reply and the signed-in user are parameters of the
  method that uses them.
- The `useEffect` that fetches on mount. React's asynchronous scheduling
  and batching are also left out: every handler is one atomic step.
  Handlers that read a stale `goals` from an earlier render are therefore
  not modelled.
- LearningGoalsStore.GoalStore.UpdateGoal: it does not take the `updates`
  payload. That payload only goes to the service, and the local list
  depends only on the reply.
- LearningGoalsStore.MergeRow: a row property is an `Option`, and `None`
  stands for both an absent property and a `null` column. For a reply
  column that is `null`, the spread `{ ...goal, ...data }` writes the `null`
  over the local value, while `MergeRow` keeps the local value. The two
  agree on every column the reply gives a non-null value.
- GoalPatch cannot express a property present with the value `undefined`.
  In JavaScript such a property would overwrite the field.
- Numbers are unbounded integers, except that the average is an exact real
  quotient.
- Dashboard.AverageProgress: requires at least one active goal. The code
  shows `NaN` otherwise. `Math.round` on the displayed value is not
  modelled.
- Dashboard.BestStreak: requires a non-empty list. `Math.max()` of nothing
  is `-Infinity`.
- `Date.now()` ids are a `freshId` parameter.
- `parseInt` is a `parseInt` function parameter, so `NaN` results are not
  modelled.
- Date formatting and the `today` minimum date are not modelled.
- The hours range 1–40 and the `required` attributes are browser-side
  input constraints. The handler does not check them.
- ProgressStats.CategoryHistogramCounts: holds for categories that are
  ordinary own keys of a fresh object. A category named like an
  `Object.prototype` member behaves differently in the code. For
  `constructor`, `toString` or `valueOf`, `acc[c] || 0` reads the inherited
  function, and the count becomes a string. For `__proto__` the assignment
  is ignored and the category is missing from `Object.entries`. None of the
  ten categories the dialog offers is such a name.
- JavaScript puts integer-like object keys ahead of the others in
  `Object.entries`. The histogram keeps plain insertion order. The two
  orders agree for every category the dialog offers.
- The creation callback's outcome is a parameter (`Returned` / `Threw`).
  The dialog does not `await` it, so an asynchronous rejection would not be
  caught. The Dashboard's callback is synchronous.
- The card's `isHovered` toggle is a parameter of `CardClass`.
- The weekly-progress and recent-activity arrays, all chart rendering,
  `Layout.tsx`, `WelcomeSection.tsx`, `pages/Index.tsx`, `pages/Progress.tsx`
  and the generated `integrations/supabase/types.ts` are not part of this
  model.
