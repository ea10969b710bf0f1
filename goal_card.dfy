/** The goal card: the "Log Progress" rule, the status menu, the status
    badge colour and the card's styling flags. Every change a card makes is
    a partial update it hands to the Dashboard's update handler. */
module GoalCard {
  import opened Results
  import opened Goals
  import Dashboard

  /** `Math.min(a, b)`. */
  function Min(a: int, b: int): (r: int)
    ensures r <= a && r <= b && (r == a || r == b)
  {
    if a <= b then a else b
  }

  /** The progress after one "Log Progress" click. */
  function NextProgress(progress: int): (r: int)
    ensures r <= 100
    ensures r == 100 <==> progress >= 90
    ensures progress < 90 ==> r == progress + 10
  {
    Min(progress + 10, 100)
  }

  /** The update `handleProgressUpdate` sends for goal `g`: ten more points
      of progress, capped at 100, and the status `completed` exactly when
      the cap is reached. */
  function ProgressUpdate(g: Goal): (u: GoalPatch)
    ensures u.progress.Some? && u.status.Some?
    ensures u == NoChanges.(progress := u.progress, status := u.status)
    ensures u.progress.value <= 100
    ensures g.progress <= 100 ==> g.progress <= u.progress.value
    ensures u.progress.value == 100 <==> g.progress >= 90
    ensures u.progress.value == 100 ==> u.status.value == Completed
    ensures u.progress.value != 100 ==> u.status.value == g.status
  {
    var p := NextProgress(g.progress);
    NoChanges.(progress := Some(p), status := Some(if p == 100 then Completed else g.status))
  }

  /** The update a status menu item sends: the status and nothing else. */
  function StatusChange(newStatus: Status): (u: GoalPatch)
    ensures forall h :: ApplyPatch(h, u) == h.(status := newStatus)
  {
    NoChanges.(status := Some(newStatus))
  }

  /** The "Log Progress" button is shown only on active goals: never on a
      paused or a completed one. */
  predicate ShowsLogProgress(status: Status)
    ensures ShowsLogProgress(status) <==> status != Paused && status != Completed
  {
    status == Active
  }

  /** Logging progress on a card changes the progress and status of the
      goals with that card's id and nothing else: no other field of them and
      no other goal. */
  lemma {:induction false} LogProgressScope(goals: seq<Goal>, g: Goal)
    ensures var r := Dashboard.UpdateGoals(goals, g.id, ProgressUpdate(g));
      && |r| == |goals|
      && forall i :: 0 <= i < |goals| ==>
           r[i] == if goals[i].id == g.id
                   then goals[i].(progress := ProgressUpdate(g).progress.value,
                                  status := ProgressUpdate(g).status.value)
                   else goals[i]
  {
  }

  /** A status change through the menu touches only the status of the
      goals with that id. */
  lemma StatusChangeScope(goals: seq<Goal>, id: string, s: Status)
    ensures var r := Dashboard.UpdateGoals(goals, id, StatusChange(s));
      && |r| == |goals|
      && forall i :: 0 <= i < |goals| ==>
           r[i] == if goals[i].id == id then goals[i].(status := s) else goals[i]
  {
  }

  /** From an active card with progress within 0..100 the click yields
      progress within old..100, and the goal stays active or becomes
      completed exactly at 100; it is never paused by it. */
  lemma LogProgressFromActiveCard(g: Goal)
    requires ShowsLogProgress(g.status) && 0 <= g.progress <= 100
    ensures var h := ApplyPatch(g, ProgressUpdate(g));
      && g.progress <= h.progress <= 100
      && (h.status == Completed <==> h.progress == 100)
      && (h.status == Active <==> h.progress != 100)
      && DraftOf(h) == DraftOf(g) && h.id == g.id && h.streak == g.streak
  {
  }

  /** At 100 the click changes nothing but marking the goal completed, and
      a second click changes nothing at all. */
  lemma LogProgressAtFullIsIdempotent(g: Goal)
    requires g.progress == 100
    ensures ApplyPatch(g, ProgressUpdate(g)) == g.(status := Completed)
    ensures var h := ApplyPatch(g, ProgressUpdate(g)); ApplyPatch(h, ProgressUpdate(h)) == h
  {
  }

  /** A goal after `n` progress logs on it. */
  function LoggedTimes(g: Goal, n: nat): Goal
  {
    if n == 0 then g
    else var h := LoggedTimes(g, n - 1); ApplyPatch(h, ProgressUpdate(h))
  }

  /** `n` logs from a progress within 0..100 reach `min(progress + 10n, 100)`,
      and the goal is completed once it reaches 100. */
  lemma {:induction false} LoggedTimesProgress(g: Goal, n: nat)
    requires 0 <= g.progress <= 100
    ensures LoggedTimes(g, n).progress == Min(g.progress + 10 * n, 100)
    ensures LoggedTimes(g, n).status == if n > 0 && LoggedTimes(g, n).progress == 100 then Completed else g.status
    ensures DraftOf(LoggedTimes(g, n)) == DraftOf(g)
  {
    if n > 0 {
      LoggedTimesProgress(g, n - 1);
    }
  }

  /** Ten logs bring every goal with progress within 0..100 to completion. */
  lemma TenLogsComplete(g: Goal)
    requires 0 <= g.progress <= 100
    ensures LoggedTimes(g, 10).progress == 100 && LoggedTimes(g, 10).status == Completed
  {
    LoggedTimesProgress(g, 10);
  }

  /** From 95 one click reaches 100 and completes; from 50 it reaches 60 and
      keeps the status. */
  lemma LogProgressExamples(g: Goal)
    ensures g.progress == 95 ==> ApplyPatch(g, ProgressUpdate(g)) == g.(progress := 100, status := Completed)
    ensures g.progress == 50 ==> ApplyPatch(g, ProgressUpdate(g)) == g.(progress := 60)
  {
  }

  const PrimaryColor := "bg-primary text-primary-foreground"
  const SuccessColor := "bg-success text-success-foreground"
  const WarningColor := "bg-warning text-warning-foreground"

  /** `getStatusColor`: the badge classes for a status string. */
  function StatusColor(status: string): (c: string)
    ensures c == SuccessColor <==> status == "completed"
    ensures c == WarningColor <==> status == "paused"
    ensures c == PrimaryColor <==> status != "completed" && status != "paused"
  {
    if status == "completed" then SuccessColor
    else if status == "paused" then WarningColor
    else PrimaryColor
  }

  /** The three statuses get the primary, warning and success colours, three
      different ones. */
  lemma StatusColorCases()
    ensures StatusColor(StatusName(Active)) == PrimaryColor
    ensures StatusColor(StatusName(Paused)) == WarningColor
    ensures StatusColor(StatusName(Completed)) == SuccessColor
    ensures forall s, t :: s != t ==> StatusColor(StatusName(s)) != StatusColor(StatusName(t))
  {
  }

  /** The conditional classes `getCardClassName` passes to `cn`. */
  datatype CardFlags = CardFlags(completed: bool, active: bool, dimmed: bool, glow: bool)

  function CardClass(status: Status, hovered: bool): (f: CardFlags)
    ensures (if f.completed then 1 else 0) + (if f.active then 1 else 0) + (if f.dimmed then 1 else 0) == 1
    ensures f.glow ==> hovered && f.active
  {
    CardFlags(status == Completed, status == Active, status == Paused, hovered && status == Active)
  }

  const BaseCardClass := "goal-card learning-card-hover transition-all duration-300"

  /** The class names `cn` emits: the base classes, then each flagged class
      in declaration order. */
  function CardClassNames(f: CardFlags): (r: seq<string>)
    ensures |r| >= 1 && r[0] == BaseCardClass
    ensures forall i :: 1 <= i < |r| ==> r[i] in ["goal-card-completed", "goal-card-active", "opacity-75", "glow-effect"]
    ensures forall i, j :: 0 <= i < j < |r| ==> r[i] != r[j]
  {
    [BaseCardClass]
      + (if f.completed then ["goal-card-completed"] else [])
      + (if f.active then ["goal-card-active"] else [])
      + (if f.dimmed then ["opacity-75"] else [])
      + (if f.glow then ["glow-effect"] else [])
  }

  /** A card glows exactly when it is hovered and active, and it carries
      the marker class of its own status. */
  lemma CardClassNamesFollowStatus(status: Status, hovered: bool)
    ensures "glow-effect" in CardClassNames(CardClass(status, hovered)) <==> hovered && status == Active
    ensures ("goal-card-completed" in CardClassNames(CardClass(status, hovered))) == (status == Completed)
    ensures ("goal-card-active" in CardClassNames(CardClass(status, hovered))) == (status == Active)
    ensures ("opacity-75" in CardClassNames(CardClass(status, hovered))) == (status == Paused)
  {
  }
}
