/** The browser client's task list: the status filter, the per-status counts, and how
    the list changes once the server has answered a create, update, delete,
    mark-as-done, load or search. Server answers are parameters (`None` when the
    request failed). */
module App {
  import opened Wrappers
  import opened Types
  import Text

  /** `a` is `b` with some elements left out, the rest in their original order. */
  ghost predicate IsSubsequence<T>(a: seq<T>, b: seq<T>)
    decreases |b|
  {
    a == [] || (b != [] && ((a[0] == b[0] && IsSubsequence(a[1..], b[1..])) || IsSubsequence(a, b[1..])))
  }

  /** `Array.prototype.filter`. */
  function Filter<T(!new)>(s: seq<T>, keep: T -> bool): (r: seq<T>)
    ensures IsSubsequence(r, s)
    ensures forall x :: x in r <==> x in s && keep(x)
    ensures forall x :: multiset(r)[x] == if keep(x) then multiset(s)[x] else 0
  {
    assert s != [] ==> s == [s[0]] + s[1..];
    if s == [] then []
    else
      var rest := Filter(s[1..], keep);
      if keep(s[0]) then
        assert ([s[0]] + rest)[1..] == rest;
        [s[0]] + rest
      else rest
  }

  /** A filter that keeps everything returns its input. */
  lemma {:induction false} FilterKeepingAll<T(!new)>(s: seq<T>, keep: T -> bool)
    requires forall x | x in s :: keep(x)
    ensures Filter(s, keep) == s
  {
    if s != [] {
      FilterKeepingAll(s[1..], keep);
    }
  }

  /** The choice of the status drop-down. */
  datatype StatusFilter = All | Only(status: Status)

  /** `tasks.filter(task => task.status === status)`. */
  function WithStatus(tasks: seq<UiTask>, status: Status): (r: seq<UiTask>)
    ensures IsSubsequence(r, tasks)
    ensures forall t :: t in r <==> t in tasks && t.status == status
    ensures forall t :: multiset(r)[t] == if t.status == status then multiset(tasks)[t] else 0
  {
    Filter(tasks, (t: UiTask) => t.status == status)
  }

  /** `filteredTasks`: the whole list under ALL, otherwise exactly the tasks with
      the chosen status, each as often as in the list, in their original order. */
  function FilteredTasks(tasks: seq<UiTask>, filter: StatusFilter): (r: seq<UiTask>)
    ensures filter.All? ==> r == tasks
    ensures filter.Only? ==> IsSubsequence(r, tasks) && forall t :: t in r <==> t in tasks && t.status == filter.status
    ensures filter.Only? ==> forall t :: multiset(r)[t] == if t.status == filter.status then multiset(tasks)[t] else 0
  {
    match filter
    case All => tasks
    case Only(s) => WithStatus(tasks, s)
  }

  /** Every task has one of the three statuses, so the three filters share out the list. */
  lemma {:induction false} StatusCountsAddUp(tasks: seq<UiTask>)
    ensures |WithStatus(tasks, TODO)| + |WithStatus(tasks, IN_PROGRESS)| + |WithStatus(tasks, DONE)| == |tasks|
  {
    if tasks != [] {
      StatusCountsAddUp(tasks[1..]);
    }
  }

  datatype Counts = Counts(total: nat, todo: nat, inProgress: nat, done: nat)

  /** `getTaskCounts`. */
  function TaskCounts(tasks: seq<UiTask>): (c: Counts)
    ensures c.total == |tasks|
    ensures c.todo + c.inProgress + c.done == c.total
    ensures c.todo == |FilteredTasks(tasks, Only(TODO))|
    ensures c.inProgress == |FilteredTasks(tasks, Only(IN_PROGRESS))|
    ensures c.done == |FilteredTasks(tasks, Only(DONE))|
  {
    StatusCountsAddUp(tasks);
    Counts(|tasks|, |WithStatus(tasks, TODO)|, |WithStatus(tasks, IN_PROGRESS)|, |WithStatus(tasks, DONE)|)
  }

  /** `tasks.map(t => t.id === id ? updated : t)`: same length, the tasks with that id
      replaced, every other task untouched. */
  function ReplaceById(tasks: seq<UiTask>, id: string, updated: UiTask): (r: seq<UiTask>)
    ensures |r| == |tasks|
    ensures forall i | 0 <= i < |tasks| && tasks[i].id == Some(id) :: r[i] == updated
    ensures forall i | 0 <= i < |tasks| && tasks[i].id != Some(id) :: r[i] == tasks[i]
  {
    if tasks == [] then []
    else [if tasks[0].id == Some(id) then updated else tasks[0]] + ReplaceById(tasks[1..], id, updated)
  }

  /** Replacing an id no task carries leaves the list as it was. */
  lemma ReplaceAbsentId(tasks: seq<UiTask>, id: string, updated: UiTask)
    requires forall t | t in tasks :: t.id != Some(id)
    ensures ReplaceById(tasks, id, updated) == tasks
  {
    var r := ReplaceById(tasks, id, updated);
    forall i | 0 <= i < |tasks|
      ensures r[i] == tasks[i]
    {
      assert tasks[i] in tasks;
    }
  }

  /** `tasks.filter(task => task.id !== id)`: no task with that id remains, and every
      other task stays, as often as before and in its original order. */
  function RemoveById(tasks: seq<UiTask>, id: string): (r: seq<UiTask>)
    ensures IsSubsequence(r, tasks)
    ensures forall t | t in r :: t.id != Some(id)
    ensures forall t | t in tasks && t.id != Some(id) :: t in r
    ensures forall t: UiTask | t.id != Some(id) :: multiset(r)[t] == multiset(tasks)[t]
  {
    Filter(tasks, (t: UiTask) => t.id != Some(id))
  }

  /** Removing an id no task carries leaves the list as it was. */
  lemma RemoveAbsentId(tasks: seq<UiTask>, id: string)
    requires forall t | t in tasks :: t.id != Some(id)
    ensures RemoveById(tasks, id) == tasks
  {
    FilterKeepingAll(tasks, (t: UiTask) => t.id != Some(id));
  }

  /** `tasks.find(t => t.id === id)`: the first task with that id, if any. */
  function FindById(tasks: seq<UiTask>, id: string): (r: Option<UiTask>)
    ensures r.None? <==> forall t | t in tasks :: t.id != Some(id)
    ensures r.Some? ==> exists i | 0 <= i < |tasks| ::
      (tasks[i] == r.value && tasks[i].id == Some(id) && forall j | 0 <= j < i :: tasks[j].id != Some(id))
  {
    if tasks == [] then None
    else if tasks[0].id == Some(id) then Some(tasks[0])
    else
      var r := FindById(tasks[1..], id);
      assert r.Some? ==> exists i | 1 <= i < |tasks| ::
        (tasks[i] == r.value && tasks[i].id == Some(id) && forall j | 0 <= j < i :: tasks[j].id != Some(id));
      r
  }

  /** `handleSearch`: a term that is blank once trimmed reloads every task instead
      of searching; otherwise the untrimmed term is searched. */
  function SearchCall(term: string): (c: ApiCall)
    ensures c == GetAll <==> Text.IsBlank(term, Text.IsJsSpace)
    ensures c != GetAll ==> c == Search(term)
  {
    Text.TrimEmptyIffBlank(term, Text.IsJsSpace);
    if Text.Trim(term, Text.IsJsSpace) == [] then GetAll else Search(term)
  }

  /** The request a handler sends to the server. */
  datatype ApiCall =
    | GetAll
    | Search(term: string)
    | Create(body: TaskRequest)
    | Update(id: string, body: TaskRequest)
    | Delete(id: string)

  /** The error banners the handlers raise. */
  datatype AppError = LoadFailed | CreateFailed | UpdateFailed | DeleteFailed | MarkDoneFailed | SearchFailed

  /** The banner text of each error: "Failed to " and what failed. */
  function Message(e: AppError): (m: string)
    ensures |m| > 10 && m[..10] == "Failed to "
  {
    "Failed to " + Failure(e)
  }

  /** What failed, as the banner words it. */
  function Failure(e: AppError): (f: string) {
    match e
    case LoadFailed => "load tasks. Please check if the backend is running."
    case CreateFailed => "create task"
    case UpdateFailed => "update task"
    case DeleteFailed => "delete task"
    case MarkDoneFailed => "mark task as done"
    case SearchFailed => "search tasks"
  }

  /** Each error has a banner of its own, so the banner tells which request failed. */
  lemma MessagesDistinct(e: AppError, f: AppError)
    ensures Message(e) == Message(f) <==> e == f
  {
    if Message(e) == Message(f) {
      assert Failure(e) == Message(e)[10..];
      assert Failure(f) == Message(f)[10..];
      // the banners differ in their first letter after "Failed to "
      assert Failure(e)[0] == Failure(f)[0];
    }
  }

  /** The id `handleUpdateTask` updates: none when no task is being edited or its id
      is missing or empty (a falsy value in JavaScript). */
  function EditedId(editing: Option<UiTask>): (id: Option<string>)
    ensures id.Some? <==> editing.Some? && editing.value.id.Some? && editing.value.id.value != ""
    ensures id.Some? ==> id == editing.value.id
  {
    if editing.Some? && editing.value.id.Some? && editing.value.id.value != "" then editing.value.id else None
  }

  /** The state of the `App` component that the handlers change. */
  class AppState {
    var tasks: seq<UiTask>
    var error: Option<AppError>
    var showForm: bool
    var editingTask: Option<UiTask>
    var statusFilter: StatusFilter
    var searchTerm: string

    constructor ()
      ensures tasks == [] && error == None && !showForm && editingTask == None
      ensures statusFilter == All && searchTerm == ""
    {
      tasks, error, showForm, editingTask := [], None, false, None;
      statusFilter, searchTerm := All, "";
    }

    /** `loadTasks`: replace the list with the server's, or report the failure. */
    method LoadTasks(reply: Option<seq<UiTask>>) returns (sent: ApiCall)
      modifies this`tasks, this`error
      ensures sent == GetAll
      ensures reply.Some? ==> tasks == reply.value && error == None
      ensures reply.None? ==> tasks == old(tasks) && error == Some(LoadFailed)
    {
      error := None;
      sent := GetAll;
      match reply {
        case Some(data) => tasks := data;
        case None => error := Some(LoadFailed);
      }
    }

    /** `handleCreateTask`: on success the new task is appended and the form closed. */
    method HandleCreateTask(taskData: TaskRequest, reply: Option<UiTask>) returns (sent: ApiCall)
      modifies this`tasks, this`showForm, this`error
      ensures sent == Create(taskData)
      ensures reply.Some? ==> tasks == old(tasks) + [reply.value] && !showForm && error == None
      ensures reply.None? ==> tasks == old(tasks) && showForm == old(showForm) && error == Some(CreateFailed)
    {
      sent := Create(taskData);
      match reply {
        case Some(newTask) =>
          tasks := tasks + [newTask];
          showForm := false;
          error := None;
        case None =>
          error := Some(CreateFailed);
      }
    }

    /** `handleUpdateTask`: nothing unless an edited task with an id is open; on
        success every task with that id becomes the server's task and the form closes. */
    method HandleUpdateTask(taskData: TaskRequest, reply: Option<UiTask>) returns (sent: Option<ApiCall>)
      modifies this`tasks, this`editingTask, this`showForm, this`error
      ensures var id := EditedId(old(editingTask));
        && (id.None? ==> sent.None? && unchanged(this))
        && (id.Some? ==> sent == Some(Update(id.value, taskData)))
        && (id.Some? && reply.Some? ==>
              tasks == ReplaceById(old(tasks), id.value, reply.value) && editingTask.None? && !showForm && error == None)
        && (id.Some? && reply.None? ==>
              tasks == old(tasks) && editingTask == old(editingTask) && showForm == old(showForm) && error == Some(UpdateFailed))
    {
      var id := EditedId(editingTask);
      if id.None? {
        return None;
      }
      sent := Some(Update(id.value, taskData));
      match reply {
        case Some(updatedTask) =>
          tasks := ReplaceById(tasks, id.value, updatedTask);
          editingTask := None;
          showForm := false;
          error := None;
        case None =>
          error := Some(UpdateFailed);
      }
    }

    /** `handleDeleteTask`: nothing unless the user confirms; on success no task with
        that id remains. */
    method HandleDeleteTask(id: string, confirmed: bool, ok: bool) returns (sent: Option<ApiCall>)
      modifies this`tasks, this`error
      ensures !confirmed ==> sent.None? && unchanged(this)
      ensures confirmed ==> sent == Some(Delete(id))
      ensures confirmed && ok ==> tasks == RemoveById(old(tasks), id) && error == None
      ensures confirmed && !ok ==> tasks == old(tasks) && error == Some(DeleteFailed)
    {
      if !confirmed {
        return None;
      }
      sent := Some(Delete(id));
      if ok {
        tasks := RemoveById(tasks, id);
        error := None;
      } else {
        error := Some(DeleteFailed);
      }
    }

    /** `handleMarkAsDone`: nothing for an id not in the list; otherwise that task's
        fields are sent with status DONE and the server's task replaces it. */
    method HandleMarkAsDone(id: string, reply: Option<UiTask>) returns (sent: Option<ApiCall>)
      modifies this`tasks, this`error
      ensures var found := FindById(old(tasks), id);
        && (found.None? ==> sent.None? && unchanged(this))
        && (found.Some? ==> sent == Some(Update(id, TaskRequest(found.value.title, found.value.description, DONE))))
        && (found.Some? && reply.Some? ==> tasks == ReplaceById(old(tasks), id, reply.value) && error == None)
        && (found.Some? && reply.None? ==> tasks == old(tasks) && error == Some(MarkDoneFailed))
    {
      var task := FindById(tasks, id);
      if task.None? {
        return None;
      }
      sent := Some(Update(id, TaskRequest(task.value.title, task.value.description, DONE)));
      match reply {
        case Some(updatedTask) =>
          tasks := ReplaceById(tasks, id, updatedTask);
          error := None;
        case None =>
          error := Some(MarkDoneFailed);
      }
    }

    /** `handleEditTask`: open the form on `task`. */
    method HandleEditTask(task: UiTask)
      modifies this`editingTask, this`showForm
      ensures editingTask == Some(task) && showForm
    {
      editingTask := Some(task);
      showForm := true;
    }

    /** `handleCloseForm`. */
    method HandleCloseForm()
      modifies this`editingTask, this`showForm
      ensures editingTask.None? && !showForm
    {
      showForm := false;
      editingTask := None;
    }

    /** `handleSearch`: a blank term reloads every task; otherwise the server's
        matches for the untrimmed term replace the list. */
    method HandleSearch(reply: Option<seq<UiTask>>) returns (sent: ApiCall)
      modifies this`tasks, this`error
      ensures sent == SearchCall(old(searchTerm))
      ensures reply.Some? ==> tasks == reply.value && error == None
      ensures reply.None? ==> tasks == old(tasks)
      ensures reply.None? && sent.GetAll? ==> error == Some(LoadFailed)
      ensures reply.None? && sent.Search? ==> error == Some(SearchFailed)
    {
      sent := SearchCall(searchTerm);
      if sent.GetAll? {
        var reload := LoadTasks(reply);
      } else if reply.Some? {
        tasks := reply.value;
        error := None;
      } else {
        error := Some(SearchFailed);
      }
    }

    /** `handleFormSubmit`: an update while a task is being edited, a create otherwise. */
    method HandleFormSubmit(taskData: TaskRequest, reply: Option<UiTask>) returns (sent: Option<ApiCall>)
      modifies this`tasks, this`editingTask, this`showForm, this`error
      // no task is being edited: the create path
      ensures old(editingTask).None? ==>
        && sent == Some(Create(taskData)) && editingTask.None?
        && (reply.Some? ==> tasks == old(tasks) + [reply.value] && !showForm && error == None)
        && (reply.None? ==> tasks == old(tasks) && showForm == old(showForm) && error == Some(CreateFailed))
      // a task is being edited: the update path, which does nothing without a truthy id
      ensures old(editingTask).Some? ==> var id := EditedId(old(editingTask));
        && (id.None? ==> sent.None? && unchanged(this))
        && (id.Some? ==> sent == Some(Update(id.value, taskData)))
        && (id.Some? && reply.Some? ==>
              tasks == ReplaceById(old(tasks), id.value, reply.value) && editingTask.None? && !showForm && error == None)
        && (id.Some? && reply.None? ==>
              tasks == old(tasks) && editingTask == old(editingTask) && showForm == old(showForm) && error == Some(UpdateFailed))
    {
      if editingTask.Some? {
        sent := HandleUpdateTask(taskData, reply);
      } else {
        var call := HandleCreateTask(taskData, reply);
        sent := Some(call);
      }
    }
  }
}
