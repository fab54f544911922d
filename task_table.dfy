/** The server's `tasks` table and the request handlers of app.py that change
    it. The table is a map from primary key to row; each handler checks that
    the row exists (404) and belongs to the signed-in user (403), updates the
    row and commits. */
module TaskTable {
  import opened Wrappers
  import opened Records
  import opened ServerRules
  import Sets

  /** What a valid TaskForm submission carries (forms.py `TaskForm`). */
  datatype TaskForm = TaskForm(
    title: string,
    description: Option<string>,
    category: string,
    dueDate: int,
    status: string,
    priority: string,
    tags: Option<string>)

  /** The row `add_task` builds: the form's fields, the owner, the order, and
      the column defaults of models.py for time spent, notes and progress. */
  function NewRow(id: int, user: int, form: TaskForm, order: int): (t: Task)
    ensures t.id == id && t.userId == user && t.order == order
    ensures t.timeSpent == 0 && t.notes == None && t.progress == 0
    ensures && t.title == form.title && t.description == form.description
            && t.category == form.category && t.dueDate == form.dueDate
            && t.status == form.status && t.priority == form.priority && t.tags == form.tags
  {
    Task(id, form.title, form.description, form.category, form.dueDate, form.status,
         form.priority, form.tags, user, order, 0, None, 0)
  }

  /** `(max(order) over the user's rows or 0) + 1`: one past the largest order
      among the user's tasks, or 1 when the user has none. */
  method NextOrder(rows: map<int, Task>, user: int) returns (order: int)
    ensures forall id :: id in rows && rows[id].userId == user ==> rows[id].order < order
    ensures || (exists id :: id in rows && rows[id].userId == user && rows[id].order == order - 1)
            || (order == 1 && forall id :: id in rows ==> rows[id].userId != user)
  {
    var max: Option<int> := None;
    var rest := rows.Keys;
    while rest != {}
      invariant rest <= rows.Keys
      invariant forall id :: id in rows && id !in rest && rows[id].userId == user ==>
        max.Some? && rows[id].order <= max.value
      invariant max.Some? ==>
        exists id :: id in rows && id !in rest && rows[id].userId == user && rows[id].order == max.value
      decreases |rest|
    {
      ghost var some := Sets.Pick(rest);
      var id :| id in rest;
      if rows[id].userId == user && (max.None? || rows[id].order > max.value) {
        max := Some(rows[id].order);
      }
      rest := rest - {id};
    }
    order := (if max.Some? then max.value else 0) + 1;
  }

  /** The dashboard's two tallies over the user's tasks: each starts with its
      three form choices at zero and counts every task under its status and
      under its priority. */
  method Dashboard(tasks: seq<Task>) returns (statusCounts: map<string, nat>, priorityCounts: map<string, nat>)
    ensures Tallies(statusCounts, {PENDING, IN_PROGRESS, COMPLETED}, Statuses(tasks))
    ensures Tallies(priorityCounts, {HIGH, MEDIUM, LOW}, Priorities(tasks))
  {
    statusCounts := map[PENDING := 0, IN_PROGRESS := 0, COMPLETED := 0];
    priorityCounts := map[HIGH := 0, MEDIUM := 0, LOW := 0];
    TallyStart(PENDING, IN_PROGRESS, COMPLETED);
    TallyStart(HIGH, MEDIUM, LOW);
    assert Statuses(tasks[..0]) == [] && Priorities(tasks[..0]) == [];
    for i := 0 to |tasks|
      invariant Tallies(statusCounts, {PENDING, IN_PROGRESS, COMPLETED}, Statuses(tasks[..i]))
      invariant Tallies(priorityCounts, {HIGH, MEDIUM, LOW}, Priorities(tasks[..i]))
    {
      var t := tasks[i];
      DashboardStep(statusCounts, {PENDING, IN_PROGRESS, COMPLETED}, priorityCounts, {HIGH, MEDIUM, LOW}, tasks, i);
      statusCounts := statusCounts[t.status := (if t.status in statusCounts then statusCounts[t.status] else 0) + 1];
      priorityCounts := priorityCounts[t.priority := (if t.priority in priorityCounts then priorityCounts[t.priority] else 0) + 1];
    }
    assert tasks[..|tasks|] == tasks;
  }

  /** One task counted under its status and its priority keeps both tallies. */
  lemma DashboardStep(sc: map<string, nat>, sb: set<string>, pc: map<string, nat>, pb: set<string>, tasks: seq<Task>, i: nat)
    requires i < |tasks|
    requires Tallies(sc, sb, Statuses(tasks[..i]))
    requires Tallies(pc, pb, Priorities(tasks[..i]))
    ensures var t := tasks[i];
            Tallies(sc[t.status := (if t.status in sc then sc[t.status] else 0) + 1], sb, Statuses(tasks[..i + 1]))
    ensures var t := tasks[i];
            Tallies(pc[t.priority := (if t.priority in pc then pc[t.priority] else 0) + 1], pb, Priorities(tasks[..i + 1]))
  {
    ColumnsStep(tasks, i);
    TallyStep(sc, sb, Statuses(tasks[..i]), tasks[i].status);
    TallyStep(pc, pb, Priorities(tasks[..i]), tasks[i].priority);
  }

  /** The `tasks` table. */
  class Table {
    var rows: map<int, Task>

    /** Every row is stored under its own primary key. */
    ghost predicate Valid()
      reads this
    {
      IdsAgree(rows)
    }

    constructor (initial: map<int, Task>)
      requires IdsAgree(initial)
      ensures Valid() && rows == initial
    {
      rows := initial;
    }

    /** POST /api/update_progress/<id>: the requested progress (the stored one
        when the key is absent) must be an integer from 0 to 100; it is stored,
        100 completes the task and less than 100 reopens a completed one. */
    method UpdateProgress(user: int, id: int, progress: Field<JsonValue>) returns (reply: Reply)
      requires Valid()
      modifies this
      ensures Valid()
      ensures reply == ProgressReply(old(rows), user, id, progress)
      ensures reply == Success ==>
        rows == old(rows)[id := WithProgress(old(rows)[id], ProgressOf(RequestedProgress(old(rows)[id], progress)).value)]
      ensures reply == Success ==> Consistent(rows[id])
      ensures reply != Success ==> rows == old(rows)
    {
      if id !in rows {
        return NotFound;
      }
      var task := rows[id];
      if task.userId != user {
        return Forbidden;
      }
      var value := match progress case Missing => JInt(task.progress) case Present(v) => v;
      var p := ProgressOf(value);
      if p.None? {
        return BadRequest;
      }
      ProgressMakesConsistent(task, value);
      task := task.(progress := p.value);
      if p.value == 100 {
        task := task.(status := COMPLETED);
      } else if task.status == COMPLETED && p.value < 100 {
        task := task.(status := IN_PROGRESS);
      }
      rows := rows[id := task];
      reply := Success;
    }

    /** POST /api/mark_complete/<id>: status Completed and progress 100. */
    method MarkComplete(user: int, id: int) returns (reply: Reply)
      requires Valid()
      modifies this
      ensures Valid()
      ensures reply == Access(old(rows), user, id)
      ensures reply == Success ==> rows == old(rows)[id := MarkCompleted(old(rows)[id])]
      ensures reply == Success ==> Consistent(rows[id])
      ensures reply != Success ==> rows == old(rows)
    {
      if id !in rows {
        return NotFound;
      }
      var task := rows[id];
      if task.userId != user {
        return Forbidden;
      }
      rows := rows[id := task.(status := COMPLETED, progress := 100)];
      reply := Success;
    }

    /** POST /api/update_time/<id>: `time_spent` replaced when the body has it. */
    method UpdateTime(user: int, id: int, timeSpent: Field<int>) returns (reply: Reply)
      requires Valid()
      modifies this
      ensures Valid()
      ensures reply == Access(old(rows), user, id)
      ensures reply == Success ==> rows == old(rows)[id := WithTime(old(rows)[id], timeSpent)]
      ensures reply != Success ==> rows == old(rows)
    {
      if id !in rows {
        return NotFound;
      }
      var task := rows[id];
      if task.userId != user {
        return Forbidden;
      }
      var v := match timeSpent case Missing => task.timeSpent case Present(s) => s;
      rows := rows[id := task.(timeSpent := v)];
      reply := Success;
    }

    /** POST /api/update_notes/<id>: `notes` replaced when the body has it
        (a JSON null clears them). */
    method UpdateNotes(user: int, id: int, notes: Field<Option<string>>) returns (reply: Reply)
      requires Valid()
      modifies this
      ensures Valid()
      ensures reply == Access(old(rows), user, id)
      ensures reply == Success ==> rows == old(rows)[id := WithNotes(old(rows)[id], notes)]
      ensures reply != Success ==> rows == old(rows)
    {
      if id !in rows {
        return NotFound;
      }
      var task := rows[id];
      if task.userId != user {
        return Forbidden;
      }
      var v := match notes case Missing => task.notes case Present(n) => n;
      rows := rows[id := task.(notes := v)];
      reply := Success;
    }

    /** POST /api/reorder_tasks: the entries are applied one by one to the
        session; the first unknown or foreign id ends the request before the
        commit, so either every entry is stored or none is. */
    method ReorderTasks(user: int, orders: seq<OrderEntry>) returns (reply: Reply)
      requires Valid()
      modifies this
      ensures Valid()
      ensures reply == ReorderReply(old(rows), user, orders)
      ensures reply == Success ==> rows == ApplyOrders(old(rows), orders)
      ensures reply != Success ==> rows == old(rows)
    {
      var staged := rows;
      var i := 0;
      while i < |orders|
        invariant 0 <= i <= |orders|
        invariant rows == old(rows)
        invariant staged == ApplyOrders(rows, orders[..i])
        invariant ReorderReply(rows, user, orders) == ReorderReply(rows, user, orders[i..])
      {
        var e := orders[i];
        ApplyOrdersKeepsRest(rows, orders[..i]);
        if e.id !in staged {
          return NotFound;
        }
        if staged[e.id].userId != user {
          return Forbidden;
        }
        staged := staged[e.id := staged[e.id].(order := e.order)];
        assert orders[..i + 1][..i] == orders[..i];
        assert orders[i..][1..] == orders[i + 1..];
        i := i + 1;
      }
      assert orders[..i] == orders;
      ApplyOrdersKeepsRest(rows, orders);
      rows := staged;
      reply := Success;
    }

    /** POST /add_task with a valid form: a new row under the fresh key
        `newId`, placed after the user's other tasks. */
    method AddTask(user: int, newId: int, form: TaskForm) returns (order: int)
      requires Valid() && newId !in rows
      modifies this
      ensures Valid()
      ensures rows == old(rows)[newId := NewRow(newId, user, form, order)]
      ensures forall id :: id in old(rows) && old(rows)[id].userId == user ==> old(rows)[id].order < order
      ensures (forall id :: id in old(rows) ==> old(rows)[id].userId != user) ==> order == 1
      ensures || (exists id :: id in old(rows) && old(rows)[id].userId == user && old(rows)[id].order == order - 1)
              || (order == 1 && forall id :: id in old(rows) ==> old(rows)[id].userId != user)
    {
      order := NextOrder(rows, user);
      rows := rows[newId := NewRow(newId, user, form, order)];
    }
  }
}
