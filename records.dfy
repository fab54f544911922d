/** The shapes of data that travel between the server and the page: a row of
    the `tasks` table, the JSON object `/api/tasks` makes of it, an entry of a
    reorder request, the values a JSON body can carry, and the replies. */
module Records {
  import opened Wrappers

  // The status and priority values of forms.py (the choices of TaskForm).
  const PENDING := "Pending"
  const IN_PROGRESS := "In Progress"
  const COMPLETED := "Completed"
  const HIGH := "High"
  const MEDIUM := "Medium"
  const LOW := "Low"

  /** A row of the `tasks` table (models.py `Task`); a date is a day number. */
  datatype Task = Task(
    id: int,
    title: string,
    description: Option<string>,
    category: string,
    dueDate: int,
    status: string,
    priority: string,
    tags: Option<string>,
    userId: int,
    order: int,
    timeSpent: int,
    notes: Option<string>,
    progress: int)

  /** A task as `/api/tasks` sends it and the page keeps it in `allTasks`. */
  datatype TaskJson = TaskJson(
    id: int,
    title: string,
    description: Option<string>,
    category: string,
    dueDate: int,
    status: string,
    priority: string,
    tags: Option<string>,
    order: int,
    timeSpent: int,
    notes: Option<string>,
    progress: int,
    isOverdue: bool)

  /** The `is_overdue` flag: due before today and not completed. */
  predicate IsOverdue(t: Task, today: int)
  {
    t.dueDate < today && t.status != COMPLETED
  }

  /** The JSON object of one row, with `is_overdue` computed against `today`. */
  function ToJson(t: Task, today: int): TaskJson
  {
    TaskJson(t.id, t.title, t.description, t.category, t.dueDate, t.status, t.priority,
             t.tags, t.order, t.timeSpent, t.notes, t.progress, IsOverdue(t, today))
  }

  /** One `{id, order}` entry of a reorder request. */
  datatype OrderEntry = OrderEntry(id: int, order: int)

  /** A value of a JSON request body as Python's `json` module decodes it:
      an integer, a boolean (Python's `bool` is a subclass of `int`), or
      anything else (a float, a string, null, a list, an object). */
  datatype JsonValue = JInt(i: int) | JBool(b: bool) | JOther

  /** A key of a JSON body: absent, or present with a value. */
  datatype Field<+T> = Missing | Present(value: T)

  /** The outcome of a request: 200, 400, 403 or 404. */
  datatype Reply = Success | BadRequest | Forbidden | NotFound
}
