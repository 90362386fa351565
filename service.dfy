/** `TaskService`: the business layer between the controller and the store. Its one
    rule is the default status on creation; everything else delegates to the store. */
module Service {
  import opened Wrappers
  import opened Types
  import opened Model
  import opened Repository

  class TaskService {
    const repository: TaskStore

    /** The store is injected through the constructor. */
    constructor (repository: TaskStore)
      ensures this.repository == repository
    {
      this.repository := repository;
    }

    /** `getAllTasks`: every stored task. */
    method GetAllTasks() returns (r: Rows)
      ensures r == repository.rows
    {
      r := repository.rows;
    }

    /** `getTaskById`: the stored task, or none when the id is unknown. */
    method GetTaskById(id: Id) returns (r: Option<TaskData>)
      ensures r.Some? <==> id in repository.rows
      ensures r.Some? ==> r.value == repository.rows[id]
    {
      r := FindById(repository.rows, id);
    }

    /** `createTask`: a null status on the argument is set to TODO, then the
        argument is saved. The result is what the store returned. */
    method CreateTask(task: Task) returns (r: Completion<Task>)
      requires repository.Valid()
      modifies repository, task
      ensures repository.Valid()
      // the argument itself is defaulted, whether or not the save succeeds
      ensures task.status == OrTodo(old(task.status))
      ensures task.title == old(task.title) && task.description == old(task.description)
      ensures var sent := old(task.Data()).(status := OrTodo(old(task.status)));
        var row := WithId(sent, old(repository.nextId));
        && (r.Normal? <==> Persistable(sent))
        && (r.Normal? ==> r.value.Data() == row && repository.rows == old(repository.rows)[row.id.value := row])
        && (r.Threw? ==> repository.rows == old(repository.rows))
      // a new task is filed under an id no stored task had, and is returned itself
      // an argument that carries an id is merged, and its id is left as it was
      ensures old(task.id).Some? ==> task.id == old(task.id)
      ensures old(task.id).None? && r.Normal? ==>
        && r.value == task
        && task.id.Some? && task.id.value !in old(repository.rows)
        && task.status == OrTodo(old(task.status))
    {
      ghost var sent := task.Data().(status := OrTodo(task.status));
      if task.status.None? {
        task.SetStatus(Some(TODO));
      }
      assert task.Data() == sent;
      ghost var row := WithId(sent, repository.nextId);
      PersistableIgnoresId(sent, row.id);
      r := repository.Save(task);
      assert r.Normal? ==> repository.rows == old(repository.rows)[row.id.value := row];
      assert task.status == sent.status;
    }

    /** `updateTask`: on an unknown id, none and no save. Otherwise the stored task's
        title, description and status are all replaced by the update's, null status
        included, and the result is saved. */
    method UpdateTask(id: Id, taskUpdate: Task) returns (r: Completion<Option<Task>>)
      requires repository.Valid()
      modifies repository
      ensures repository.Valid()
      ensures id !in old(repository.rows) ==> r == Normal(None) && repository.rows == old(repository.rows)
      ensures id in old(repository.rows) ==>
        var row := old(repository.rows[id]).(title := taskUpdate.title, description := taskUpdate.description, status := taskUpdate.status);
        && (r.Normal? <==> Persistable(row))
        && (r.Normal? ==> r.value.Some? && r.value.value.Data() == row && repository.rows == old(repository.rows)[id := row])
        && (r.Threw? ==> repository.rows == old(repository.rows))
    {
      var found := repository.FindEntityById(id);
      if found.None? {
        return Normal(None);
      }
      var existingTask := found.value;
      ghost var row := repository.rows[id].(title := taskUpdate.title, description := taskUpdate.description, status := taskUpdate.status);
      existingTask.SetTitle(taskUpdate.title);
      existingTask.SetDescription(taskUpdate.description);
      existingTask.SetStatus(taskUpdate.status);
      assert existingTask.Data() == row;
      var saved := repository.Save(existingTask);
      match saved
      case Normal(t) => r := Normal(Some(t));
      case Threw(f) => r := Threw(f);
    }

    /** `deleteTask`: true, after deleting, exactly when the id was stored. */
    method DeleteTask(id: Id) returns (deleted: bool)
      requires repository.Valid()
      modifies repository
      ensures repository.Valid()
      ensures deleted <==> id in old(repository.rows)
      ensures repository.rows == old(repository.rows) - {id}
      ensures !deleted ==> repository.rows == old(repository.rows)
    {
      if id in repository.rows {
        repository.DeleteById(id);
        return true;
      }
      assert repository.rows - {id} == repository.rows;
      return false;
    }

    /** `getTasksByStatus`. */
    method GetTasksByStatus(status: Status) returns (r: Rows)
      ensures r == FindByStatus(repository.rows, status)
    {
      r := FindByStatus(repository.rows, status);
    }

    /** `searchTasksByTitle`. */
    method SearchTasksByTitle(title: string) returns (r: Rows)
      ensures r == FindByTitleContainingIgnoreCase(repository.rows, title)
    {
      r := FindByTitleContainingIgnoreCase(repository.rows, title);
    }
  }
}
