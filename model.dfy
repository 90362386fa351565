/** The `Task` entity: its four fields, its constructors and setters, and the
    constraints a stored task must meet. */
module Model {
  import opened Wrappers
  import opened Types
  import Text

  /** A task identifier. The store generates it; the model only relies on its
      being distinct from every identifier in use. */
  type Id = nat

  /** Width of the `title` column: it declares no length, so the JPA default applies. */
  const TITLE_MAX: nat := 255

  /** Width of the `description` column. */
  const DESCRIPTION_MAX: nat := 1000

  /** The values of a `Task`'s fields. Each may be null (`None`) in Java. */
  datatype TaskData = TaskData(id: Option<Id>, title: Option<string>, description: Option<string>, status: Option<Status>)

  /** `@NotBlank`: present, with a character that `String.trim` would keep
      (`ValidIffTitleAndStatus` ties this to trimming). */
  predicate TitleNotBlank(title: Option<string>) {
    title.Some? && !Text.IsBlank(title.value, Text.IsJavaSpace)
  }

  /** The bean-validation constraints on a task: `@NotBlank` title, `@NotNull` status. */
  predicate IsValid(t: TaskData) {
    TitleNotBlank(t.title) && t.status.Some?
  }

  /** The column constraints beyond validation: the title and the description fit
      their columns. */
  predicate FitsColumns(t: TaskData) {
    && (t.title.None? || |t.title.value| <= TITLE_MAX)
    && (t.description.None? || |t.description.value| <= DESCRIPTION_MAX)
  }

  /** What a row must satisfy for the store to accept it. */
  predicate Persistable(t: TaskData) {
    IsValid(t) && FitsColumns(t)
  }

  /** The constraints do not look at the identifier. */
  lemma PersistableIgnoresId(t: TaskData, id: Option<Id>)
    ensures Persistable(t.(id := id)) <==> Persistable(t)
  {
  }

  /** A task passes validation exactly when its title is present and not empty once
      trimmed by `String.trim`, and its status is present. */
  lemma ValidIffTitleAndStatus(t: TaskData)
    ensures IsValid(t) <==> t.title.Some? && Text.Trim(t.title.value, Text.IsJavaSpace) != [] && t.status.Some?
  {
    if t.title.Some? {
      Text.TrimEmptyIffBlank(t.title.value, Text.IsJavaSpace);
    }
  }

  /** The status the three-argument constructor and the service fill in for a null one. */
  function OrTodo(status: Option<Status>): (s: Option<Status>)
    ensures s.Some?
    ensures status.Some? ==> s == status
    ensures status.None? ==> s == Some(TODO)
  {
    if status.Some? then status else Some(TODO)
  }

  /** The mutable entity. */
  class Task {
    var id: Option<Id>
    var title: Option<string>
    var description: Option<string>
    var status: Option<Status>

    /** The entity's current field values. */
    function Data(): (d: TaskData)
      reads this
    {
      TaskData(id, title, description, status)
    }

    /** `new Task()`: every field null except `status`, whose initialiser is TODO. */
    constructor ()
      ensures Data() == TaskData(None, None, None, Some(TODO))
    {
      id, title, description, status := None, None, None, Some(TODO);
    }

    /** `new Task(title, description, status)`: no id, a null status becomes TODO. */
    constructor WithFields(title: Option<string>, description: Option<string>, status: Option<Status>)
      ensures Data() == TaskData(None, title, description, OrTodo(status))
    {
      this.id := None;
      this.title := title;
      this.description := description;
      this.status := OrTodo(status);
    }

    method SetId(id: Option<Id>)
      modifies this
      ensures Data() == old(Data()).(id := id)
    {
      this.id := id;
    }

    method SetTitle(title: Option<string>)
      modifies this
      ensures Data() == old(Data()).(title := title)
    {
      this.title := title;
    }

    method SetDescription(description: Option<string>)
      modifies this
      ensures Data() == old(Data()).(description := description)
    {
      this.description := description;
    }

    method SetStatus(status: Option<Status>)
      modifies this
      ensures Data() == old(Data()).(status := status)
    {
      this.status := status;
    }
  }
}
