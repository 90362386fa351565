/** The task store: the rows the relational database holds, keyed by identifier,
    the derived queries of the repository interface, and `save` / `deleteById`. */
module Repository {
  import opened Wrappers
  import opened Types
  import opened Model
  import Text

  /** The stored rows, keyed by identifier. */
  type Rows = map<Id, TaskData>

  /** Why the store refused a write: a bean-validation failure at insert or update
      time, or a value wider than its column. */
  datatype Fault = ConstraintViolation | ValueTooLong

  /** How a call ended: it returned, or it threw. */
  datatype Completion<T> = Normal(value: T) | Threw(fault: Fault)

  /** The store's invariant: every row is filed under its own identifier, meets the
      entity's constraints, and lies below the next identifier to be generated. */
  ghost predicate WellFormed(rows: Rows, nextId: Id) {
    forall id | id in rows :: id < nextId && rows[id].id == Some(id) && Persistable(rows[id])
  }

  /** `findById`. */
  function FindById(rows: Rows, id: Id): (r: Option<TaskData>)
    ensures r.Some? <==> id in rows
    ensures r.Some? ==> r.value == rows[id]
  {
    if id in rows then Some(rows[id]) else None
  }

  /** `findByStatus`: the rows whose status equals `status`. */
  function FindByStatus(rows: Rows, status: Status): (r: Rows)
    ensures r.Keys <= rows.Keys
    ensures forall id | id in r :: r[id] == rows[id] && r[id].status == Some(status)
    ensures forall id | id in rows && rows[id].status == Some(status) :: id in r
  {
    map id | id in rows && rows[id].status == Some(status) :: rows[id]
  }

  /** The case-insensitive `LIKE '%text%'` test on a title; SQL's NULL never matches. */
  predicate TitleMatches(title: Option<string>, text: string) {
    title.Some? && Text.Contains(Text.ToLower(title.value), Text.ToLower(text))
  }

  /** `findByTitleContainingIgnoreCase`: the rows whose title contains `text`,
      ignoring letter case. */
  function FindByTitleContainingIgnoreCase(rows: Rows, text: string): (r: Rows)
    ensures r.Keys <= rows.Keys
    ensures forall id | id in r :: r[id] == rows[id] && TitleMatches(r[id].title, text)
    ensures forall id | id in rows && TitleMatches(rows[id].title, text) :: id in r
  {
    map id | id in rows && TitleMatches(rows[id].title, text) :: rows[id]
  }

  /** In a well-formed store each task is found under exactly one status. */
  lemma StatusQueriesPartition(rows: Rows, nextId: Id)
    requires WellFormed(rows, nextId)
    ensures FindByStatus(rows, TODO).Keys + FindByStatus(rows, IN_PROGRESS).Keys + FindByStatus(rows, DONE).Keys == rows.Keys
    ensures FindByStatus(rows, TODO).Keys !! FindByStatus(rows, IN_PROGRESS).Keys
    ensures FindByStatus(rows, TODO).Keys !! FindByStatus(rows, DONE).Keys
    ensures FindByStatus(rows, IN_PROGRESS).Keys !! FindByStatus(rows, DONE).Keys
  {
    var todo, doing, done := FindByStatus(rows, TODO), FindByStatus(rows, IN_PROGRESS), FindByStatus(rows, DONE);
    forall id | id in rows
      ensures id in todo.Keys + doing.Keys + done.Keys
    {
      match rows[id].status.value
      case TODO => assert id in todo;
      case IN_PROGRESS => assert id in doing;
      case DONE => assert id in done;
    }
    assert todo.Keys + doing.Keys + done.Keys == rows.Keys;
  }

  /** The search does not depend on the letter case of the search text. */
  lemma SearchIgnoresCase(rows: Rows, text: string)
    ensures FindByTitleContainingIgnoreCase(rows, Text.ToLower(text)) == FindByTitleContainingIgnoreCase(rows, text)
    ensures FindByTitleContainingIgnoreCase(rows, Text.ToUpper(text)) == FindByTitleContainingIgnoreCase(rows, text)
  {
    Text.ToLowerForgetsCase(text);
    var lower, upper, given := FindByTitleContainingIgnoreCase(rows, Text.ToLower(text)),
      FindByTitleContainingIgnoreCase(rows, Text.ToUpper(text)), FindByTitleContainingIgnoreCase(rows, text);
    assert lower.Keys == given.Keys;
    assert upper.Keys == given.Keys;
  }

  /** A title matches a search for itself, in whatever letter case it is typed. */
  lemma TitleMatchesItself(title: string)
    ensures TitleMatches(Some(title), title)
    ensures TitleMatches(Some(title), Text.ToUpper(title))
  {
    var lower := Text.ToLower(title);
    Text.ToLowerForgetsCase(title);
    assert Text.OccursAt(lower, lower, 0) by {
      assert lower[0..|lower|] == lower;
    }
  }

  /** Every title contains the empty string, so searching for it lists every stored task. */
  lemma SearchForEmptyFindsAll(rows: Rows, nextId: Id)
    requires WellFormed(rows, nextId)
    ensures FindByTitleContainingIgnoreCase(rows, "") == rows
  {
    forall id | id in rows
      ensures TitleMatches(rows[id].title, "")
    {
      Text.ContainsEmpty(Text.ToLower(rows[id].title.value));
    }
  }

  /** Searching for a longer text narrows the result: whatever matches `longer`
      matches every text that `longer` contains, ignoring case. */
  lemma SearchNarrows(rows: Rows, shorter: string, longer: string)
    requires Text.Contains(Text.ToLower(longer), Text.ToLower(shorter))
    ensures FindByTitleContainingIgnoreCase(rows, longer).Keys <= FindByTitleContainingIgnoreCase(rows, shorter).Keys
  {
    forall id | id in FindByTitleContainingIgnoreCase(rows, longer)
      ensures TitleMatches(rows[id].title, shorter)
    {
      Text.ContainsTransitive(Text.ToLower(rows[id].title.value), Text.ToLower(longer), Text.ToLower(shorter));
    }
  }

  /** The fault, if any, with which the store refuses to write `t`. */
  function Rejection(t: TaskData): (f: Option<Fault>)
    ensures f.None? <==> Persistable(t)
    ensures f == Some(ConstraintViolation) <==> !IsValid(t)
  {
    if !IsValid(t) then Some(ConstraintViolation)
    else if !FitsColumns(t) then Some(ValueTooLong)
    else None
  }

  /** The row `save` writes for `t`: a task without an id receives `generated`. */
  function WithId(t: TaskData, generated: Id): (r: TaskData)
    ensures r.id.Some?
    ensures t.id.Some? ==> r == t
    ensures t.id.None? ==> r == t.(id := Some(generated))
  {
    if t.id.None? then t.(id := Some(generated)) else t
  }

  /** The repository bean: the database's rows and its identifier generator. */
  class TaskStore {
    var rows: Rows
    var nextId: Id

    ghost predicate Valid()
      reads this
    {
      WellFormed(rows, nextId)
    }

    constructor ()
      ensures Valid() && rows == map[]
    {
      rows, nextId := map[], 0;
    }

    /** A fresh entity holding `row`, as the persistence layer materialises one. */
    static method Materialise(row: TaskData) returns (t: Task)
      ensures fresh(t) && t.Data() == row
    {
      t := new Task();
      t.SetId(row.id);
      t.SetTitle(row.title);
      t.SetDescription(row.description);
      t.SetStatus(row.status);
    }

    /** `findById`, yielding a new entity for the stored row. */
    method FindEntityById(id: Id) returns (r: Option<Task>)
      requires Valid()
      ensures r.Some? <==> id in rows
      ensures r.Some? ==> fresh(r.value) && r.value.Data() == rows[id] && r.value.id == Some(id)
    {
      if id in rows {
        var t := Materialise(rows[id]);
        r := Some(t);
      } else {
        r := None;
      }
    }

    /** `save`. An entity without an id is persisted: the generator assigns it an id
        and the entity itself is returned. An entity with an id is merged: its state
        is written under that id and a new managed entity is returned. Either way the
        row is written only if it meets the entity's constraints. */
    method Save(task: Task) returns (r: Completion<Task>)
      requires Valid()
      modifies this, task
      ensures Valid()
      ensures var row := WithId(old(task.Data()), old(nextId));
        && (r.Normal? <==> Persistable(row))
        && (r.Normal? ==> rows == old(rows)[row.id.value := row] && r.value.Data() == row)
        && (r.Threw? ==> rows == old(rows) && r.fault == Rejection(row).value)
      ensures old(task.id).None? ==> old(nextId) !in old(rows) && task.Data() == WithId(old(task.Data()), old(nextId))
      ensures old(task.id).None? && r.Normal? ==> r.value == task
      ensures old(task.id).Some? ==> task.Data() == old(task.Data()) && (r.Normal? ==> fresh(r.value))
    {
      var managed: Task;
      if task.id.None? {
        task.SetId(Some(nextId));
        nextId := nextId + 1;
        managed := task;
      } else {
        managed := Materialise(task.Data());
        if task.id.value >= nextId {
          nextId := task.id.value + 1;
        }
      }
      var row := task.Data();
      var rejection := Rejection(row);
      if rejection.Some? {
        return Threw(rejection.value);
      }
      rows := rows[row.id.value := row];
      r := Normal(managed);
    }

    /** `deleteById`. */
    method DeleteById(id: Id)
      requires Valid()
      modifies this`rows
      ensures Valid()
      ensures rows == old(rows) - {id}
    {
      rows := rows - {id};
    }
  }
}
