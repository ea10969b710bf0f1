/** The `useLearningGoals` hook: the signed-in user's goal rows kept in step
    with the hosted `learning_goals` table. Each remote call is replaced by
    its reply, passed in as a parameter; the local list changes only after a
    successful reply, and a failed create, update or delete rethrows and
    leaves it alone. */
module LearningGoalsStore {
  import opened Results
  import Lists

  /** A row of the `learning_goals` table. `None` is a property the row
      does not carry. */
  datatype Row = Row(
    id: string,
    title: string,
    description: Option<string>,
    progressPercentage: Option<int>,
    targetDate: Option<string>,
    estimatedHoursPerWeek: Option<int>,
    category: Option<string>,
    status: Option<string>,
    userId: string,
    createdAt: string,
    updatedAt: string)

  function RowId(r: Row): string { r.id }

  /** What a caller passes to `createGoal`: a row without the fields the
      server or the session supplies. */
  datatype NewGoal = NewGoal(
    title: string,
    description: Option<string>,
    progressPercentage: Option<int>,
    targetDate: Option<string>,
    estimatedHoursPerWeek: Option<int>,
    category: Option<string>,
    status: Option<string>)

  /** The object `createGoal` inserts. */
  datatype InsertRow = InsertRow(
    title: string,
    description: Option<string>,
    progressPercentage: int,
    targetDate: Option<string>,
    estimatedHoursPerWeek: Option<int>,
    category: Option<string>,
    status: string,
    userId: string)

  /** `{ ...goalData, progress_percentage: 0, status: 'active', user_id }`:
      the three trailing properties override whatever the caller gave. */
  function BuildInsert(goalData: NewGoal, userId: string): (r: InsertRow)
    ensures r.progressPercentage == 0 && r.status == "active" && r.userId == userId
    ensures r.title == goalData.title && r.description == goalData.description
    ensures r.targetDate == goalData.targetDate && r.estimatedHoursPerWeek == goalData.estimatedHoursPerWeek
    ensures r.category == goalData.category
  {
    InsertRow(goalData.title, goalData.description, 0, goalData.targetDate,
              goalData.estimatedHoursPerWeek, goalData.category, "active", userId)
  }

  /** The caller's progress and status never reach the table: two inputs
      that differ only there insert the same row. */
  lemma InsertIgnoresProgressAndStatus(a: NewGoal, b: NewGoal, userId: string)
    requires a.(progressPercentage := None, status := None) == b.(progressPercentage := None, status := None)
    ensures BuildInsert(a, userId) == BuildInsert(b, userId)
  {
  }

  /** `{ ...goal, ...data }`: the returned row's properties win, and a
      property it does not carry keeps the local value. */
  function MergeRow(goal: Row, data: Row): (r: Row)
    ensures r.id == data.id && r.title == data.title && r.userId == data.userId
    ensures r.createdAt == data.createdAt && r.updatedAt == data.updatedAt
  {
    Row(data.id, data.title,
        data.description.Or(goal.description),
        data.progressPercentage.Or(goal.progressPercentage),
        data.targetDate.Or(goal.targetDate),
        data.estimatedHoursPerWeek.Or(goal.estimatedHoursPerWeek),
        data.category.Or(goal.category),
        data.status.Or(goal.status),
        data.userId, data.createdAt, data.updatedAt)
  }

  /** A reply that carries every property replaces the local row outright,
      and merging the same reply twice is merging it once. */
  lemma MergeRowProperties(goal: Row, data: Row)
    ensures data.description.Some? && data.progressPercentage.Some? && data.targetDate.Some?
         && data.estimatedHoursPerWeek.Some? && data.category.Some? && data.status.Some?
         ==> MergeRow(goal, data) == data
    ensures MergeRow(MergeRow(goal, data), data) == MergeRow(goal, data)
  {
  }

  /** The list after a successful update: the returned row merged into
      every row with that id. */
  function MergeRows(goals: seq<Row>, id: string, data: Row): (r: seq<Row>)
    ensures |r| == |goals|
    ensures forall i :: 0 <= i < |goals| && goals[i].id != id ==> r[i] == goals[i]
    ensures forall i :: 0 <= i < |goals| && goals[i].id == id ==> r[i] == MergeRow(goals[i], data)
  {
    Lists.MergeWhere(goals, RowId, id, g => MergeRow(g, data))
  }

  /** The list after a successful delete. */
  function RemoveRows(goals: seq<Row>, id: string): (r: seq<Row>)
    ensures forall i :: 0 <= i < |r| ==> r[i].id != id && r[i] in goals
    ensures forall i :: 0 <= i < |goals| && goals[i].id != id ==> goals[i] in r
  {
    Lists.Without(goals, RowId, id)
  }

  /** A delete keeps the other rows in order and drops exactly the rows
      with that id. */
  lemma RemoveRowsExactly(goals: seq<Row>, id: string)
    ensures Lists.IsSubsequence(RemoveRows(goals, id), goals)
    ensures multiset(RemoveRows(goals, id)) + multiset(Lists.WithKey(goals, RowId, id)) == multiset(goals)
  {
    Lists.WithoutKeepsOrder(goals, RowId, id);
    Lists.WithoutRemovesExactly(goals, RowId, id);
  }

  /** Deleting a row just created under an id no other row has gives back
      the list from before the create. */
  lemma RemoveUndoesCreate(goals: seq<Row>, created: Row)
    requires forall i :: 0 <= i < |goals| ==> goals[i].id != created.id
    ensures RemoveRows([created] + goals, created.id) == goals
  {
    Lists.FilterAppend([created], goals, x => RowId(x) != created.id);
    Lists.WithoutAbsent(goals, RowId, created.id);
  }

  /** An update whose reply keeps the id does not affect a later delete of
      that id. */
  lemma RemoveAfterMerge(goals: seq<Row>, id: string, data: Row)
    requires data.id == id
    ensures RemoveRows(MergeRows(goals, id, data), id) == RemoveRows(goals, id)
  {
    Lists.WithoutAfterMerge(goals, RowId, id, g => MergeRow(g, data));
  }

  /** The reply of a remote call: its data, or the error the client
      returned. */
  datatype Reply<T> = Ok(data: T) | Err(message: string)

  /** The reply of the list query: `data` may be null; a failure may be an
      `Error` (with its message) or some other thrown value. */
  datatype FetchReply = Fetched(data: Option<seq<Row>>) | FetchFailed(errorMessage: Option<string>)

  /** What a rejected create, update or delete rethrows. */
  datatype Thrown = NotAuthenticated | RemoteError(message: string)

  const FetchFallbackMessage := "Failed to fetch goals"

  /** The hook's three state cells. */
  class GoalStore {
    var goals: seq<Row>
    var loading: bool
    var error: Option<string>

    /** The state before the first fetch. */
    constructor ()
      ensures goals == [] && loading && error == None
    {
      goals := [];
      loading := true;
      error := None;
    }

    /** `fetchGoals`: on success the list becomes the returned rows (none
        for a null reply) and `error` is left as it was; on failure the list
        is kept and `error` records the message. Either way `loading` ends
        false. */
    method FetchGoals(reply: FetchReply)
      modifies this
      ensures !loading
      ensures reply.Fetched? ==> goals == reply.data.GetOr([]) && error == old(error)
      ensures reply.FetchFailed? ==>
        goals == old(goals) && error == Some(reply.errorMessage.GetOr(FetchFallbackMessage))
    {
      loading := true;
      match reply {
        case Fetched(data) =>
          goals := data.GetOr([]);
        case FetchFailed(message) =>
          error := Some(message.GetOr(FetchFallbackMessage));
      }
      loading := false;
    }

    /** `createGoal`: without a signed-in user it throws before inserting
        (`sent` is `None`); otherwise it inserts `BuildInsert(goalData,
        user)` and, on success, puts the returned row first. `loading` and
        `error` are never touched. */
    method CreateGoal(user: Option<string>, goalData: NewGoal, reply: Reply<Row>)
        returns (sent: Option<InsertRow>, result: Result<Row, Thrown>)
      modifies this`goals
      ensures user.None? ==> sent == None && result == Failure(NotAuthenticated) && goals == old(goals)
      ensures user.Some? ==> sent == Some(BuildInsert(goalData, user.value))
      ensures user.Some? && reply.Ok? ==>
        result == Success(reply.data) && goals == [reply.data] + old(goals)
      ensures user.Some? && reply.Err? ==>
        result == Failure(RemoteError(reply.message)) && goals == old(goals)
    {
      if user.None? {
        return None, Failure(NotAuthenticated);
      }
      sent := Some(BuildInsert(goalData, user.value));
      match reply
      case Ok(data) =>
        goals := [data] + goals;
        result := Success(data);
      case Err(message) =>
        result := Failure(RemoteError(message));
    }

    /** `updateGoal`: sends the partial update for `id` (abstracted into
        `reply`); on success merges the returned row into every row with
        that id, on failure rethrows with the list unchanged. */
    method UpdateGoal(id: string, reply: Reply<Row>) returns (result: Result<Row, Thrown>)
      modifies this`goals
      ensures reply.Ok? ==> result == Success(reply.data) && goals == MergeRows(old(goals), id, reply.data)
      ensures reply.Err? ==> result == Failure(RemoteError(reply.message)) && goals == old(goals)
    {
      match reply
      case Ok(data) =>
        goals := MergeRows(goals, id, data);
        result := Success(data);
      case Err(message) =>
        result := Failure(RemoteError(message));
    }

    /** `deleteGoal`: on success drops the rows with that id, on failure
        rethrows with the list unchanged. */
    method DeleteGoal(id: string, reply: Reply<()>) returns (result: Result<(), Thrown>)
      modifies this`goals
      ensures reply.Ok? ==> result == Success(()) && goals == RemoveRows(old(goals), id)
      ensures reply.Err? ==> result == Failure(RemoteError(reply.message)) && goals == old(goals)
    {
      match reply
      case Ok(_) =>
        goals := RemoveRows(goals, id);
        result := Success(());
      case Err(message) =>
        result := Failure(RemoteError(message));
    }
  }
}
