# Task manager — a Dafny model

This project models the core of a small task-tracking application. It has a Java
back end (a REST controller, a service and a repository over one `Task` entity) and a
React front end (the task list with its status filter and the create/edit form).

The model covers:

- **Store and service.** The relational store is a map from identifier to row
  (`Repository.Rows`). The repository bean (`Repository.TaskStore`) holds that map and
  an identifier generator. The derived queries `findByStatus` and
  `findByTitleContainingIgnoreCase` are pure functions over the map. `save` follows
  Spring Data's persist-or-merge rule. It refuses rows that fail the entity's
  validation constraints or do not fit their columns: the title column has JPA's
  default width of 255, the description column a width of 1000. `Service.TaskService` is a class over the store. Its methods state the
  whole new store and what the caller gets back.
- **The entity.** `Model.Task` is a class with the Java fields, both constructors and
  the four setters. `Model.TaskData` is the value of its fields, which is also a stored
  row. Java `null` is `Option.None`.
- **The controller.** The choice of query for `GET /tasks` and the mapping from service
  results to status codes are pure functions. `Controller.TaskController` composes them
  with the service, one method per route.
- **The browser client.** The status filter, the per-status counts and the list
  updates are pure sequence functions. `App.AppState` holds the component state that
  the `handle*` callbacks change. The server's answer to each request is a parameter
  (`None` when the request failed), and each handler returns the request it sends.
  `Form.TaskForm` holds the form state: prefill, validation, the submitted payload and
  reset.

Constants come from the source: status codes 200/201/204/400/404/500, the title
column width of 255 (JPA's default for a column that declares no length), the
description column width of 1000, the default status `TODO` and the client's error messages.

Behaviour worth noting:

- A null status in an update. `updateTask` copies the null onto the loaded entity, but the entity's
  `@NotNull` status (and its `nullable = false` column) makes the save fail. The
  stored row keeps its old status and the call throws. `Service.TaskService.UpdateTask`
  states this: the call returns normally exactly when the replaced row is persistable.
  Through the controller the case cannot arise, because `@Valid` rejects a body with a
  null status with 400.
- An omitted status on create. Java's field initialiser already makes it `TODO` before
  validation (`Model.Task.constructor`), so the service's own defaulting only matters
  to direct callers of the service.
- "Blank" means different things on the two sides. The server trims with Java's
  `String.trim`, which strips characters up to U+0020. The browser trims with
  JavaScript's `trim`, which also strips U+00A0, U+2028, U+3000 and the other Unicode
  spaces. A search for a lone no-break space reloads every task in the browser, but the
  server would run it as a title search.
- An id in a create body. `Task` has a public `setId`, so an `"id"` in a `POST /tasks`
  body is bound. `save` then merges instead of persisting, and an existing task with
  that id is overwritten. `Service.TaskService.CreateTask` and
  `Controller.TaskController.CreateTask` state this: the row is written under the
  body's id when it has one, and under a fresh id only when it has none.

## Model

| member | source | states |
|---|---|---|
| `Text.Trim` | backend/src/main/java/com/taskmanager/controller/TaskController.java:37 | `trim()` for a given notion of space (Java's `c <= ' '` here, JavaScript's set at frontend/src/components/TaskForm.tsx:34 and frontend/src/App.tsx:108): no longer than its input, and it neither starts nor ends with a space |
| `Text.TrimRemovesOnlySpaces` | frontend/src/components/TaskForm.tsx:50-51 | the trimmed string is a slice of the input with only spaces before and after it, so trimming removes nothing else |
| `Text.TrimEmptyIffBlank` | backend/src/main/java/com/taskmanager/controller/TaskController.java:37 | `s.trim().isEmpty()` holds exactly when every character of `s` is a space, for either notion of space |
| `Text.TrimIdempotent` | frontend/src/components/TaskForm.tsx:50-51 | trimming an already trimmed string changes nothing |
| `Text.ToLower` | backend/src/main/java/com/taskmanager/repository/TaskRepository.java:16 | the case mapping applied to both sides of the case-insensitive match: same length, each character ASCII lower-cased |
| `Text.ToLowerForgetsCase` | backend/src/main/java/com/taskmanager/repository/TaskRepository.java:16 | lower-casing is idempotent and undoes upper-casing, so letter case is forgotten |
| `Text.ContainsEmpty` | backend/src/main/java/com/taskmanager/repository/TaskRepository.java:16 | the containment test `Text.Contains` behind `LIKE '%text%'` holds for the empty text in every string |
| `Text.ContainsTransitive` | backend/src/main/java/com/taskmanager/repository/TaskRepository.java:16 | a string contains whatever its substrings contain |
| `Model.ValidIffTitleAndStatus` | backend/src/main/java/com/taskmanager/model/Task.java:16-25 | a task passes validation (`@NotBlank` title, `@NotNull` status) iff its title is present and not empty after `String.trim`, which keeps characters above U+0020 only, and its status is non-null |
| `Model.PersistableIgnoresId` | backend/src/main/java/com/taskmanager/model/Task.java:12-26 | whether a row meets the entity's constraints does not depend on its id |
| `Model.OrTodo` | backend/src/main/java/com/taskmanager/model/Task.java:35 | a null status becomes TODO; a present status is kept |
| `Model.Task.constructor` | backend/src/main/java/com/taskmanager/model/Task.java:26-29 | a default-constructed task has no id, null title and description, and status TODO |
| `Model.Task.WithFields` | backend/src/main/java/com/taskmanager/model/Task.java:32-36 | title and description as given, no id, status as given or TODO when null |
| `Model.Task.SetId` | backend/src/main/java/com/taskmanager/model/Task.java:43-45 | changes the id and no other field |
| `Model.Task.SetTitle` | backend/src/main/java/com/taskmanager/model/Task.java:51-53 | changes the title and no other field |
| `Model.Task.SetDescription` | backend/src/main/java/com/taskmanager/model/Task.java:59-61 | changes the description and no other field |
| `Model.Task.SetStatus` | backend/src/main/java/com/taskmanager/model/Task.java:67-69 | changes the status and no other field |
| `Repository.FindById` | backend/src/main/java/com/taskmanager/service/TaskService.java:27-29 | a row is found exactly when its id is stored, and it is the stored row |
| `Repository.FindByStatus` | backend/src/main/java/com/taskmanager/repository/TaskRepository.java:15 | the result holds only stored rows with that status, and every such row |
| `Repository.FindByTitleContainingIgnoreCase` | backend/src/main/java/com/taskmanager/repository/TaskRepository.java:16 | the result holds only stored rows whose lower-cased title contains the lower-cased text, and every such row |
| `Repository.StatusQueriesPartition` | backend/src/main/java/com/taskmanager/repository/TaskRepository.java:15 | in a well-formed store the three status queries are disjoint and together list every task |
| `Repository.SearchIgnoresCase` | backend/src/main/java/com/taskmanager/repository/TaskRepository.java:16 | searching for the lower-cased or upper-cased text gives the same result as the text itself |
| `Repository.TitleMatchesItself` | backend/src/main/java/com/taskmanager/repository/TaskRepository.java:16 | the per-row test `Repository.TitleMatches` finds a title when searching for that title, typed in its own case or upper-cased |
| `Repository.SearchForEmptyFindsAll` | backend/src/main/java/com/taskmanager/repository/TaskRepository.java:16 | in a well-formed store, searching for the empty string returns every stored task |
| `Repository.SearchNarrows` | backend/src/main/java/com/taskmanager/repository/TaskRepository.java:16 | every task matching a text also matches any text it contains, ignoring case |
| `Repository.Rejection` | backend/src/main/java/com/taskmanager/model/Task.java:16-25 | a row is refused exactly when it is not persistable: a constraint violation for a blank title or null status, otherwise a value too long for its column (title over 255, description over 1000 characters) |
| `Repository.WithId` | backend/src/main/java/com/taskmanager/model/Task.java:12-14 | a row without an id receives the generated one; a row with an id keeps it |
| `Repository.TaskStore.constructor` | backend/src/main/java/com/taskmanager/repository/TaskRepository.java:11-12 | the store starts empty and well-formed |
| `Repository.TaskStore.Materialise` | backend/src/main/java/com/taskmanager/service/TaskService.java:40 | a new entity carrying exactly the stored row |
| `Repository.TaskStore.FindEntityById` | backend/src/main/java/com/taskmanager/service/TaskService.java:40-41 | a new entity for the stored row, or none exactly when the id is unknown |
| `Repository.TaskStore.Save` | backend/src/main/java/com/taskmanager/model/Task.java:12-26 | writes the row under its id (a fresh generated one when it had none) exactly when it is persistable, otherwise throws and leaves the store as it was; keeps every stored row valid, filed under its own id, with a title of at most 255 and a description of at most 1000 characters |
| `Repository.TaskStore.DeleteById` | backend/src/main/java/com/taskmanager/service/TaskService.java:51 | removes that id and nothing else |
| `Service.TaskService.constructor` | backend/src/main/java/com/taskmanager/service/TaskService.java:19-21 | the service uses the injected store |
| `Service.TaskService.GetAllTasks` | backend/src/main/java/com/taskmanager/service/TaskService.java:23-25 | every stored task |
| `Service.TaskService.GetTaskById` | backend/src/main/java/com/taskmanager/service/TaskService.java:27-29 | the stored task when the id is known, none otherwise |
| `Service.TaskService.CreateTask` | backend/src/main/java/com/taskmanager/service/TaskService.java:31-37 | the argument's null status becomes TODO and a present one is kept; the call returns normally exactly when that row is persistable; the row is then written under the argument's id, or, when the argument carries no id, under a fresh id with the argument itself returned and all earlier rows unchanged; the store is unchanged when the row is refused; an argument that carries an id keeps it |
| `Service.TaskService.UpdateTask` | backend/src/main/java/com/taskmanager/service/TaskService.java:39-47 | an unknown id gives none and leaves the store unchanged; otherwise title, description and status are replaced by the update's (null included), the id is kept, no other row changes, and the call throws exactly when the result is not persistable (a blank title, a null status, or a title or description too long for its column) |
| `Service.TaskService.DeleteTask` | backend/src/main/java/com/taskmanager/service/TaskService.java:49-55 | true iff the id was stored; afterwards it is absent and every other row is unchanged; false leaves the store unchanged |
| `Service.TaskService.GetTasksByStatus` | backend/src/main/java/com/taskmanager/service/TaskService.java:57-59 | the status query over the current store |
| `Service.TaskService.SearchTasksByTitle` | backend/src/main/java/com/taskmanager/service/TaskService.java:61-63 | the case-insensitive title search over the current store |
| `Controller.SelectQuery` | backend/src/main/java/com/taskmanager/controller/TaskController.java:35-41 | a status filter wins whatever the search; a missing or all-space search means every task; otherwise the untrimmed search text is used |
| `Controller.OkOrNotFound` | backend/src/main/java/com/taskmanager/controller/TaskController.java:49-50 | 200 with the value exactly when there is one, 404 exactly when there is none |
| `Controller.NoContentOrNotFound` | backend/src/main/java/com/taskmanager/controller/TaskController.java:69-70 | 204 exactly when deleted, 404 otherwise, never a body |
| `Controller.TaskController.constructor` | backend/src/main/java/com/taskmanager/controller/TaskController.java:24-26 | the controller uses the injected service |
| `Controller.TaskController.GetAllTasks` | backend/src/main/java/com/taskmanager/controller/TaskController.java:28-44 | 200 with the status query's rows when a status is given, the title search's for a search with a character above U+0020, every row otherwise |
| `Controller.TaskController.GetTaskById` | backend/src/main/java/com/taskmanager/controller/TaskController.java:46-51 | 200 with the stored task when the id is known, 404 with no body otherwise |
| `Controller.TaskController.CreateTask` | backend/src/main/java/com/taskmanager/controller/TaskController.java:53-57 | 400 without touching the store for a blank title or null status; 201 with the stored task, written under the body's id or, when the body carries none, under a fresh id, exactly when the title and description fit their columns; otherwise 500 with the store unchanged |
| `Controller.TaskController.UpdateTask` | backend/src/main/java/com/taskmanager/controller/TaskController.java:59-64 | 400 for an invalid body; 404 for an unknown id; 200 with the replaced row exactly when its title and description fit their columns; otherwise 500 with the store unchanged |
| `Controller.TaskController.DeleteTask` | backend/src/main/java/com/taskmanager/controller/TaskController.java:66-71 | 204 iff the id was stored, 404 otherwise; the id is absent afterwards |
| `App.Filter` | frontend/src/App.tsx:138 | the result keeps elements of the input in their original order, holds exactly the elements that pass the test, and each of them as many times as the input does |
| `App.FilterKeepingAll` | frontend/src/App.tsx:72 | a filter every element passes returns its input |
| `App.WithStatus` | frontend/src/App.tsx:143-145 | the tasks with that status, each as many times as in the list, in their original order |
| `App.FilteredTasks` | frontend/src/App.tsx:136-138 | the whole list for ALL; otherwise exactly the tasks with the chosen status, each as many times as in the list, in their original order |
| `App.StatusCountsAddUp` | frontend/src/App.tsx:140-146 | the three per-status counts add up to the length of the list |
| `App.TaskCounts` | frontend/src/App.tsx:140-147 | total is the list length, each count is the length of that status's filter, and the three sum to the total |
| `App.ReplaceById` | frontend/src/App.tsx:53-55 | same length; each task with the id becomes the server's task, every other task is unchanged |
| `App.ReplaceAbsentId` | frontend/src/App.tsx:89 | replacing an id no task carries leaves the list as it was |
| `App.RemoveById` | frontend/src/App.tsx:72 | no task with the id remains; every other task stays, as many times as before and in its original order |
| `App.RemoveAbsentId` | frontend/src/App.tsx:72 | removing an id no task carries leaves the list as it was |
| `App.FindById` | frontend/src/App.tsx:81 | none exactly when no task has the id; otherwise the first task that has it |
| `App.SearchCall` | frontend/src/App.tsx:107-115 | an all-space term (JavaScript spaces) reloads every task; any other term is searched untrimmed |
| `App.Message` | frontend/src/App.tsx:29 | every error banner begins with "Failed to "; the exact texts are those of frontend/src/App.tsx lines 29, 43, 60, 75, 92 and 119 |
| `App.MessagesDistinct` | frontend/src/App.tsx:22-124 | two errors show the same banner exactly when they are the same error, so the banner names the request that failed |
| `App.EditedId` | frontend/src/App.tsx:49 | the edited task's id, or none when no task is edited or its id is missing or empty |
| `App.AppState.constructor` | frontend/src/App.tsx:9-15 | the initial state: empty list, no error, form closed, nothing edited, filter ALL, empty search |
| `App.AppState.LoadTasks` | frontend/src/App.tsx:22-34 | the list becomes the server's, or it stays and the load error is shown |
| `App.AppState.HandleCreateTask` | frontend/src/App.tsx:36-46 | on success the new task is appended at the end and the form closes; on failure the list stays and the create error is shown |
| `App.AppState.HandleUpdateTask` | frontend/src/App.tsx:48-63 | nothing at all without an edited id; otherwise every task with that id becomes the server's task, the form closes and editing ends, or on failure the update error is shown |
| `App.AppState.HandleDeleteTask` | frontend/src/App.tsx:65-78 | nothing without confirmation; on success no task with the id remains and the others keep their order |
| `App.AppState.HandleMarkAsDone` | frontend/src/App.tsx:80-95 | nothing for an id not in the list; otherwise the first such task's fields are sent with status DONE and the server's task replaces it |
| `App.AppState.HandleEditTask` | frontend/src/App.tsx:97-100 | the form opens on the given task |
| `App.AppState.HandleCloseForm` | frontend/src/App.tsx:102-105 | the form closes and editing ends |
| `App.AppState.HandleSearch` | frontend/src/App.tsx:107-124 | a blank term reloads every task; otherwise the server's matches for the untrimmed term replace the list; a failure shows the matching error |
| `App.AppState.HandleFormSubmit` | frontend/src/App.tsx:126-134 | with no task being edited, a create: on success the reply is appended, the form closes and the error clears, on failure only the create error is set; with a task being edited, an update: nothing at all when its id is missing or empty, otherwise the tasks with that id become the reply, the form closes and editing ends, or on failure only the update error is set |
| `Form.TitleError` | frontend/src/components/TaskForm.tsx:31-40 | "Title is required" exactly when the title is blank once trimmed |
| `Form.Payload` | frontend/src/components/TaskForm.tsx:49-53 | the title trimmed; the description trimmed, or absent exactly when that is empty; the status unchanged |
| `Form.SubmittedTitleIsNonEmpty` | frontend/src/components/TaskForm.tsx:45-53 | a title that passes validation is submitted non-empty, with no space at either end |
| `Form.PayloadIsNormalised` | frontend/src/components/TaskForm.tsx:49-53 | building the payload from a payload gives it back unchanged |
| `Form.TaskForm.constructor` | frontend/src/components/TaskForm.tsx:18-21 | empty title and description, status TODO, no errors |
| `Form.TaskForm.Prefill` | frontend/src/components/TaskForm.tsx:23-28 | copies the task's title and status, a missing description becoming the empty string; nothing without a task |
| `Form.TaskForm.Validate` | frontend/src/components/TaskForm.tsx:31-40 | records the title error and reports true iff the title is not blank |
| `Form.TaskForm.Submit` | frontend/src/components/TaskForm.tsx:42-56 | blocked, with the title error set, iff the title is blank; otherwise the normalised payload, whose title is non-empty |
| `Form.TaskForm.Reset` | frontend/src/components/TaskForm.tsx:58-63 | empty title and description, status TODO, no errors |

## Left out

- Spring wiring, annotations as such, JSON (de)serialisation and HTTP transport. The
  controller methods take the already deserialised body and return a code and a body.
- Hibernate and JPA internals, transactions, isolation and concurrent requests. Each
  call is one atomic step on the map.
- UUID generation. Identifiers are natural numbers handed out by a counter that stays
  above every stored id. The model relies only on the generated id being fresh.
- `Repository.TaskStore.Save`: an entity that already carries an id is merged and its
  row written under that id. When no row has that id, Hibernate's actual behaviour
  depends on its version (a newly generated id, or an optimistic-locking error), and
  that is not modelled.
- `Service.TaskService.CreateTask`: when the store refuses a new row, Hibernate may
  already have assigned a generated id to the argument. The model assigns it as well
  and states only that the store is unchanged.
- Query results are returned as maps of rows, not as lists of entity objects. List
  order, which the store leaves unspecified, and object identity are not modelled.
- `searchTasksByTitle` called directly with a null string is not modelled. The
  controller never does that.
- Case-insensitive matching uses ASCII case mapping. The database's `UPPER` on
  non-ASCII letters is not modelled, and neither is Unicode case folding.
- Strings are sequences of Unicode scalar values. Java counts UTF-16 code units, so
  lengths differ for characters outside the Basic Multilingual Plane.
- Unhandled exceptions become 500. The error page the servlet runtime renders is not
  modelled.
- `Task.toString` and the getters. The getters are plain field reads.
- `frontend/src/services/taskService.ts`, the HTTP client. Requests are the returned
  `App.ApiCall` values, and answers are parameters.
- The `console.error` logging in each handler's failure path
  (frontend/src/App.tsx lines 30, 44, 61, 76, 93 and 120). It is output only and changes no state.
- React rendering, hooks scheduling, `window.confirm` (a parameter), the loading flag,
  and `frontend/src/components/TaskList.tsx`.
- `App.AppState.HandleMarkAsDone`: the spread `{...task, status: DONE}` also puts the
  task's id in the body. The model sends title, description and status, and the id in
  the path. The back end ignores an id in an update body.
- `App.AppState.HandleUpdateTask` and `App.AppState.HandleCreateTask`: the payload
  passed in is forwarded to the server unchanged. The task that comes back is the
  reply parameter, not derived from the payload.
- Tests and `TaskManagerApplicationTest.java`. Their assertions appear as contracts
  above.
