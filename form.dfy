/** The create/edit form: its fields, the blank-title check, the payload it submits,
    reset, and prefill from the task being edited. */
module Form {
  import opened Wrappers
  import opened Types
  import Text

  const TITLE_REQUIRED := "Title is required"

  /** `validateForm`'s error for the title: present exactly when the title is blank
      once trimmed. */
  function TitleError(title: string): (e: Option<string>)
    ensures e.Some? <==> Text.IsBlank(title, Text.IsJsSpace)
    ensures e.Some? ==> e.value == TITLE_REQUIRED
  {
    Text.TrimEmptyIffBlank(title, Text.IsJsSpace);
    if Text.Trim(title, Text.IsJsSpace) == [] then Some(TITLE_REQUIRED) else None
  }

  /** The body `handleSubmit` builds: trimmed title, trimmed description or none when
      that is empty, status unchanged. */
  function Payload(title: string, description: string, status: Status): (p: TaskRequest)
    ensures p.title == Text.Trim(title, Text.IsJsSpace)
    ensures p.description.None? <==> Text.IsBlank(description, Text.IsJsSpace)
    ensures p.description.Some? ==> p.description.value == Text.Trim(description, Text.IsJsSpace)
    ensures p.status == status
  {
    Text.TrimEmptyIffBlank(description, Text.IsJsSpace);
    var d := Text.Trim(description, Text.IsJsSpace);
    TaskRequest(Text.Trim(title, Text.IsJsSpace), if d == [] then None else Some(d), status)
  }

  /** A title that passes validation is submitted non-empty, without surrounding spaces. */
  lemma SubmittedTitleIsNonEmpty(title: string, description: string, status: Status)
    requires TitleError(title).None?
    ensures var t := Payload(title, description, status).title;
      t != [] && !Text.IsJsSpace(t[0]) && !Text.IsJsSpace(t[|t| - 1])
  {
    Text.TrimEmptyIffBlank(title, Text.IsJsSpace);
  }

  /** The payload is already normalised: submitting it again, its missing description
      shown as the empty string, sends the same payload. */
  lemma PayloadIsNormalised(title: string, description: string, status: Status)
    ensures var p := Payload(title, description, status);
      Payload(p.title, p.description.GetOr(""), p.status) == p
  {
    Text.TrimIdempotent(title, Text.IsJsSpace);
    Text.TrimIdempotent(description, Text.IsJsSpace);
    Text.TrimEmptyIffBlank(description, Text.IsJsSpace);
    Text.TrimEmptyIffBlank(Text.Trim(description, Text.IsJsSpace), Text.IsJsSpace);
  }

  /** The state of a `TaskForm` component. */
  class TaskForm {
    var title: string
    var description: string
    var status: Status
    var titleError: Option<string>

    /** The initial state: empty fields, TODO, no errors. */
    constructor ()
      ensures title == "" && description == "" && status == TODO && titleError.None?
    {
      title, description, status, titleError := "", "", TODO, None;
    }

    /** The effect run when the form receives a task: copy its title and status, a
        missing description shown as the empty string. Without a task nothing changes. */
    method Prefill(task: Option<UiTask>)
      modifies this`title, this`description, this`status
      ensures task.None? ==> unchanged(this)
      ensures task.Some? ==> title == task.value.title && status == task.value.status
      ensures task.Some? ==> description == task.value.description.GetOr("")
    {
      if task.Some? {
        title := task.value.title;
        description := task.value.description.GetOr("");
        status := task.value.status;
      }
    }

    /** `validateForm`: record the title error, report whether there is none. */
    method Validate() returns (ok: bool)
      modifies this`titleError
      ensures titleError == TitleError(title)
      ensures ok <==> !Text.IsBlank(title, Text.IsJsSpace)
    {
      titleError := TitleError(title);
      ok := titleError.None?;
    }

    /** `handleSubmit`: blocked, with the title error set, when the title is blank;
        otherwise the normalised payload is submitted. */
    method Submit() returns (submitted: Option<TaskRequest>)
      modifies this`titleError
      ensures titleError == TitleError(title)
      ensures submitted.None? <==> Text.IsBlank(title, Text.IsJsSpace)
      ensures submitted.Some? ==> submitted.value == Payload(title, description, status) && submitted.value.title != []
    {
      var ok := Validate();
      if !ok {
        return None;
      }
      SubmittedTitleIsNonEmpty(title, description, status);
      submitted := Some(Payload(title, description, status));
    }

    /** `handleReset`. */
    method Reset()
      modifies this
      ensures title == "" && description == "" && status == TODO && titleError.None?
    {
      title, description, status, titleError := "", "", TODO, None;
    }
  }
}
