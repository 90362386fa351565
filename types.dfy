/** The record shapes the browser client exchanges with the server. */
module Types {
  import opened Wrappers

  /** A task's workflow stage: a closed set of three labels with no transition order. */
  datatype Status = TODO | IN_PROGRESS | DONE

  /** A task as the client holds it. The server always fills in `id`; `description`
      may be missing. */
  datatype UiTask = UiTask(id: Option<string>, title: string, description: Option<string>, status: Status)

  /** The body of a create or update request. The form always sends a status, so one
      shape serves both requests. */
  datatype TaskRequest = TaskRequest(title: string, description: Option<string>, status: Status)
}
