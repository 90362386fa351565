/** `TaskController`: the five HTTP routes under `/tasks`. It picks the query for the
    listing route, rejects invalid bodies, and maps service results to status codes. */
module Controller {
  import opened Wrappers
  import opened Types
  import opened Model
  import opened Repository
  import opened Service
  import Text

  const OK: nat := 200
  const CREATED: nat := 201
  const NO_CONTENT: nat := 204
  const BAD_REQUEST: nat := 400
  const NOT_FOUND: nat := 404
  /** What the servlet runtime answers for an exception no handler catches. */
  const INTERNAL_SERVER_ERROR: nat := 500

  datatype Response<T> = Response(code: nat, body: Option<T>)

  /** The query behind `GET /tasks`. */
  datatype Query = ByStatus(status: Status) | ByTitle(text: string) | Everything

  /** A status filter wins; otherwise a search with a character above U+0020 is run
      as given, untrimmed; otherwise every task is listed. */
  function SelectQuery(status: Option<Status>, search: Option<string>): (q: Query)
    ensures status.Some? ==> q == ByStatus(status.value)
    ensures status.None? && search.Some? && !Text.IsBlank(search.value, Text.IsJavaSpace) ==> q == ByTitle(search.value)
    ensures status.None? && (search.None? || Text.IsBlank(search.value, Text.IsJavaSpace)) ==> q == Everything
  {
    Text.TrimEmptyIffBlank(search.GetOr(""), Text.IsJavaSpace);
    if status.Some? then ByStatus(status.value)
    else if search.Some? && Text.Trim(search.value, Text.IsJavaSpace) != [] then ByTitle(search.value)
    else Everything
  }

  /** `Optional.map(ResponseEntity::ok).orElse(notFound)`. */
  function OkOrNotFound<T>(found: Option<T>): (r: Response<T>)
    ensures r.code == OK <==> found.Some?
    ensures r.code == NOT_FOUND <==> found.None?
    ensures r.body == found
  {
    match found
    case Some(v) => Response(OK, Some(v))
    case None => Response(NOT_FOUND, None)
  }

  /** `deleted ? noContent : notFound`; neither carries a body. */
  function NoContentOrNotFound(deleted: bool): (r: Response<()>)
    ensures r.code == NO_CONTENT <==> deleted
    ensures r.code == NOT_FOUND <==> !deleted
    ensures r.body.None?
  {
    Response(if deleted then NO_CONTENT else NOT_FOUND, None)
  }

  class TaskController {
    const service: TaskService

    constructor (service: TaskService)
      ensures this.service == service
    {
      this.service := service;
    }

    /** `GET /tasks?status=&search=`. */
    method GetAllTasks(status: Option<Status>, search: Option<string>) returns (resp: Response<Rows>)
      ensures resp.code == OK && resp.body.Some?
      ensures status.Some? ==> resp.body.value == FindByStatus(service.repository.rows, status.value)
      ensures status.None? && search.Some? && !Text.IsBlank(search.value, Text.IsJavaSpace) ==>
        resp.body.value == FindByTitleContainingIgnoreCase(service.repository.rows, search.value)
      ensures status.None? && (search.None? || Text.IsBlank(search.value, Text.IsJavaSpace)) ==>
        resp.body.value == service.repository.rows
    {
      var tasks: Rows;
      match SelectQuery(status, search) {
        case ByStatus(s) => tasks := service.GetTasksByStatus(s);
        case ByTitle(text) => tasks := service.SearchTasksByTitle(text);
        case Everything => tasks := service.GetAllTasks();
      }
      resp := Response(OK, Some(tasks));
    }

    /** `GET /tasks/{id}`: 200 with the task, or 404. */
    method GetTaskById(id: Id) returns (resp: Response<TaskData>)
      ensures id in service.repository.rows ==> resp == Response(OK, Some(service.repository.rows[id]))
      ensures id !in service.repository.rows ==> resp == Response(NOT_FOUND, None)
    {
      var task := service.GetTaskById(id);
      resp := OkOrNotFound(task);
    }

    /** `POST /tasks`: 400 for a body that fails validation, without calling the
        service; 201 with the created task; 500 when the store refuses the row. */
    method CreateTask(task: Task) returns (resp: Response<TaskData>)
      requires service.repository.Valid()
      modifies service.repository, task
      ensures service.repository.Valid()
      ensures !IsValid(old(task.Data())) ==> resp == Response(BAD_REQUEST, None) && unchanged(service.repository, task)
      ensures IsValid(old(task.Data())) ==>
        var row := WithId(old(task.Data()), old(service.repository.nextId));
        && (resp.code == CREATED <==> FitsColumns(row))
        && (resp.code == CREATED ==> resp.body == Some(row) && service.repository.rows == old(service.repository.rows)[row.id.value := row])
        && (resp.code != CREATED ==> resp == Response(INTERNAL_SERVER_ERROR, None) && service.repository.rows == old(service.repository.rows))
      // a body without an id is filed under an id no stored task had
      ensures old(task.id).None? ==> old(service.repository.nextId) !in old(service.repository.rows)
    {
      if !IsValid(task.Data()) {
        return Response(BAD_REQUEST, None);
      }
      var created := service.CreateTask(task);
      match created
      case Normal(t) =>
        resp := Response(CREATED, Some(t.Data()));
      case Threw(_) =>
        resp := Response(INTERNAL_SERVER_ERROR, None);
    }

    /** `PUT /tasks/{id}`: 400 for a body that fails validation; 200 with the updated
        task; 404 for an unknown id; 500 when the store refuses the row. */
    method UpdateTask(id: Id, task: Task) returns (resp: Response<TaskData>)
      requires service.repository.Valid()
      modifies service.repository
      ensures service.repository.Valid()
      ensures !IsValid(task.Data()) ==> resp == Response(BAD_REQUEST, None) && unchanged(service.repository)
      ensures IsValid(task.Data()) && id !in old(service.repository.rows) ==>
        resp == Response(NOT_FOUND, None) && service.repository.rows == old(service.repository.rows)
      ensures IsValid(task.Data()) && id in old(service.repository.rows) ==>
        var row := old(service.repository.rows[id]).(title := task.title, description := task.description, status := task.status);
        && (resp.code == OK <==> FitsColumns(row))
        && (resp.code == OK ==> resp.body == Some(row) && service.repository.rows == old(service.repository.rows)[id := row])
        && (resp.code != OK ==> resp == Response(INTERNAL_SERVER_ERROR, None) && service.repository.rows == old(service.repository.rows))
    {
      if !IsValid(task.Data()) {
        return Response(BAD_REQUEST, None);
      }
      var updated := service.UpdateTask(id, task);
      match updated
      case Normal(found) =>
        var data := if found.Some? then Some(found.value.Data()) else None;
        resp := OkOrNotFound(data);
      case Threw(_) =>
        resp := Response(INTERNAL_SERVER_ERROR, None);
    }

    /** `DELETE /tasks/{id}`: 204 when a task was deleted, 404 otherwise. */
    method DeleteTask(id: Id) returns (resp: Response<()>)
      requires service.repository.Valid()
      modifies service.repository
      ensures service.repository.Valid()
      ensures resp.code == NO_CONTENT <==> id in old(service.repository.rows)
      ensures resp.code == NOT_FOUND <==> id !in old(service.repository.rows)
      ensures service.repository.rows == old(service.repository.rows) - {id}
    {
      var deleted := service.DeleteTask(id);
      resp := NoContentOrNotFound(deleted);
    }
  }
}
