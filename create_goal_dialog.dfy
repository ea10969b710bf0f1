/** The goal creation dialog: five text fields, a submitting flag, the
    submit handler that validates, hands a draft to the creation callback
    and resets the form, and the cancel handler. */
module CreateGoalDialog {
  import opened Results
  import opened Goals

  /** The fixed list of categories the category select offers. */
  function CategoryOptions(): (r: seq<string>)
    ensures |r| == 10
    ensures forall i, j :: 0 <= i < j < |r| ==> r[i] != r[j]
    ensures "Other" in r
  {
    ["Programming", "Design", "Marketing", "Data Science", "Business",
     "Language", "Music", "Art", "Science", "Other"]
  }

  /** How the creation callback ended: it returned, or it threw (the
      handler catches and logs that). */
  datatype CallbackEnd = Returned | Threw

  class GoalForm {
    var title: string
    var description: string
    var targetDate: string
    /** The raw text of the number input. */
    var hoursPerWeek: string
    var category: string
    var isSubmitting: bool

    constructor ()
      ensures title == "" && description == "" && targetDate == ""
      ensures hoursPerWeek == "" && category == ""
      ensures !isSubmitting
    {
      title, description, targetDate, hoursPerWeek, category := "", "", "", "", "";
      isSubmitting := false;
    }

    /** The submit guard: some field is still the empty string. */
    predicate HasEmptyField()
      reads this
      ensures HasEmptyField() <==> "" in [title, description, targetDate, hoursPerWeek, category]
    {
      title == "" || description == "" || targetDate == "" || hoursPerWeek == "" || category == ""
    }

    /** The submit button's `disabled` expression. */
    function SubmitDisabled(): (disabled: bool)
      reads this
      ensures disabled <==> isSubmitting || HasEmptyField()
      ensures !disabled ==> title != "" && description != "" && targetDate != "" && hoursPerWeek != "" && category != ""
    {
      isSubmitting || !(title != "") || !(description != "") || !(targetDate != "")
        || !(hoursPerWeek != "") || !(category != "")
    }

    /** The draft built from the current fields, with the hours text parsed
        by `parseInt`. */
    function Draft(parseInt: string -> int): (d: GoalDraft)
      reads this
      ensures d.title == title && d.description == description && d.targetDate == targetDate
      ensures d.category == category && d.hoursPerWeek == parseInt(hoursPerWeek)
    {
      GoalDraft(title, description, targetDate, parseInt(hoursPerWeek), category)
    }

    /** `handleSubmit`. With a field empty it returns without calling back
        and without touching the form. Otherwise it calls back exactly once
        with the draft (`sent`), clears the five fields only if the callback
        returned, and leaves `isSubmitting` false either way. */
    method HandleSubmit(parseInt: string -> int, callback: CallbackEnd) returns (sent: Option<GoalDraft>)
      modifies this
      ensures old(HasEmptyField()) ==>
        && sent == None
        && title == old(title) && description == old(description) && targetDate == old(targetDate)
        && hoursPerWeek == old(hoursPerWeek) && category == old(category)
        && isSubmitting == old(isSubmitting)
      ensures !old(HasEmptyField()) ==>
        && sent == Some(old(Draft(parseInt)))
        && !isSubmitting
        && (callback == Returned ==>
              title == "" && description == "" && targetDate == "" && hoursPerWeek == "" && category == "")
        && (callback == Threw ==>
              title == old(title) && description == old(description) && targetDate == old(targetDate)
              && hoursPerWeek == old(hoursPerWeek) && category == old(category))
    {
      if HasEmptyField() {
        return None;
      }
      isSubmitting := true;
      sent := Some(Draft(parseInt));
      if callback == Returned {
        title, description, targetDate, hoursPerWeek, category := "", "", "", "", "";
      }
      isSubmitting := false;
    }

    /** `handleCancel`: clears the five fields and asks the dialog to close
        (the `open` value it passes on). */
    method HandleCancel() returns (open: bool)
      modifies this
      ensures title == "" && description == "" && targetDate == ""
      ensures hoursPerWeek == "" && category == ""
      ensures isSubmitting == old(isSubmitting)
      ensures !open
    {
      title, description, targetDate, hoursPerWeek, category := "", "", "", "", "";
      open := false;
    }
  }
}
