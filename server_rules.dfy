/** The rules the Flask handlers of app.py apply to rows of the `tasks` table,
    written as functions of the rows, and what they guarantee. The handlers
    themselves, which change the table, are in module TaskTable. */
module ServerRules {
  import opened Wrappers
  import opened Records
  import Sets

  /** The primary key: every row is stored under its own id. */
  ghost predicate IdsAgree(rows: map<int, Task>)
  {
    forall id :: id in rows ==> rows[id].id == id
  }

  /** `Task.query.get_or_404(task_id)` followed by the check
      `task.user_id != current_user.id`. */
  function Access(rows: map<int, Task>, user: int, id: int): Reply
  {
    if id !in rows then NotFound
    else if rows[id].userId != user then Forbidden
    else Success
  }

  /** A row whose status and progress agree: progress in [0, 100], and the
      status is "Completed" exactly when progress is 100. */
  predicate Consistent(t: Task)
  {
    0 <= t.progress <= 100 && (t.progress == 100 <==> t.status == COMPLETED)
  }

  // ---------------------------------------------------------------------------
  // update_progress

  /** `data.get('progress', task.progress)`. */
  function RequestedProgress(t: Task, field: Field<JsonValue>): JsonValue
  {
    match field
    case Missing => JInt(t.progress)
    case Present(v) => v
  }

  /** The validation `not isinstance(progress, int) or progress < 0 or
      progress > 100`: a JSON integer in [0, 100] is accepted, and so is a
      JSON boolean, which Python treats as the integer 0 or 1. */
  function ProgressOf(v: JsonValue): Option<int>
  {
    match v
    case JInt(i) => if 0 <= i <= 100 then Some(i) else None
    case JBool(b) => Some(if b then 1 else 0)
    case JOther => None
  }

  /** The row after `task.progress = progress` and the status rule. */
  function WithProgress(t: Task, p: int): Task
  {
    var status :=
      if p == 100 then COMPLETED
      else if t.status == COMPLETED && p < 100 then IN_PROGRESS
      else t.status;
    t.(progress := p, status := status)
  }

  /** The reply of `update_progress`. */
  function ProgressReply(rows: map<int, Task>, user: int, id: int, field: Field<JsonValue>): Reply
  {
    var access := Access(rows, user, id);
    if access != Success then access
    else if ProgressOf(RequestedProgress(rows[id], field)).None? then BadRequest
    else Success
  }

  /** What `update_progress` accepts: an integer in [0, 100] or a boolean; a
      missing key is replaced by the current progress, which then has to pass
      the same check. */
  lemma ProgressValidation(t: Task, field: Field<JsonValue>)
    ensures ProgressOf(RequestedProgress(t, field)).Some? <==>
      || (field.Missing? && 0 <= t.progress <= 100)
      || (field.Present? && field.value.JInt? && 0 <= field.value.i <= 100)
      || (field.Present? && field.value.JBool?)
  {
  }

  /** The status rule of `update_progress`: 100 completes the task, dropping
      below 100 reopens a completed task as "In Progress", and otherwise the
      status stays; nothing but progress and status changes. */
  lemma ProgressStatusRule(t: Task, p: int)
    ensures WithProgress(t, p).progress == p
    ensures p == 100 ==> WithProgress(t, p).status == COMPLETED
    ensures p < 100 && t.status == COMPLETED ==> WithProgress(t, p).status == IN_PROGRESS
    ensures p < 100 && t.status != COMPLETED ==> WithProgress(t, p).status == t.status
    ensures WithProgress(t, p).(progress := t.progress, status := t.status) == t
  {
  }

  /** A successful progress update leaves the row consistent, whatever state it
      was in before. */
  lemma ProgressMakesConsistent(t: Task, v: JsonValue)
    requires ProgressOf(v).Some?
    ensures Consistent(WithProgress(t, ProgressOf(v).value))
  {
  }

  // ---------------------------------------------------------------------------
  // mark_complete, update_time, update_notes

  /** `task.status = 'Completed'; task.progress = 100`. */
  function MarkCompleted(t: Task): Task
  {
    t.(status := COMPLETED, progress := 100)
  }

  /** A completed row is consistent and is never overdue. */
  lemma MarkCompletedFacts(t: Task, today: int)
    ensures Consistent(MarkCompleted(t))
    ensures !IsOverdue(MarkCompleted(t), today)
    ensures MarkCompleted(t).(status := t.status, progress := t.progress) == t
  {
  }

  /** `task.time_spent = data.get('time_spent', task.time_spent)`. */
  function WithTime(t: Task, field: Field<int>): Task
  {
    match field
    case Missing => t
    case Present(v) => t.(timeSpent := v)
  }

  /** `task.notes = data.get('notes', task.notes)`; a JSON null clears the notes. */
  function WithNotes(t: Task, field: Field<Option<string>>): Task
  {
    match field
    case Missing => t
    case Present(v) => t.(notes := v)
  }

  /** Time and notes updates keep the supplied value, or the old one when the
      key is missing, and leave status and progress alone. */
  lemma TimeAndNotesFacts(t: Task, time: Field<int>, notes: Field<Option<string>>)
    ensures WithTime(t, time).timeSpent == (if time.Present? then time.value else t.timeSpent)
    ensures WithTime(t, time).(timeSpent := t.timeSpent) == t
    ensures WithNotes(t, notes).notes == (if notes.Present? then notes.value else t.notes)
    ensures WithNotes(t, notes).(notes := t.notes) == t
    ensures Consistent(t) ==> Consistent(WithTime(t, time)) && Consistent(WithNotes(t, notes))
  {
  }

  // ---------------------------------------------------------------------------
  // reorder_tasks

  /** The reply of `reorder_tasks`: the entries are looked up in order, and the
      first one that is missing (404) or not the user's (403) ends the request. */
  function ReorderReply(rows: map<int, Task>, user: int, orders: seq<OrderEntry>): Reply
  {
    if orders == [] then Success
    else
      var access := Access(rows, user, orders[0].id);
      if access != Success then access else ReorderReply(rows, user, orders[1..])
  }

  /** One `task.order = order` assignment. */
  function SetOrder(rows: map<int, Task>, e: OrderEntry): map<int, Task>
  {
    if e.id in rows then rows[e.id := rows[e.id].(order := e.order)] else rows
  }

  /** The rows after the loop of `reorder_tasks` has made all its assignments. */
  function ApplyOrders(rows: map<int, Task>, orders: seq<OrderEntry>): map<int, Task>
    decreases |orders|
  {
    if orders == [] then rows
    else SetOrder(ApplyOrders(rows, orders[..|orders| - 1]), orders[|orders| - 1])
  }

  /** The whole request is accepted exactly when every listed task exists and
      belongs to the user. */
  lemma {:induction false} ReorderReplySuccess(rows: map<int, Task>, user: int, orders: seq<OrderEntry>)
    ensures ReorderReply(rows, user, orders) == Success <==>
      forall k :: 0 <= k < |orders| ==> orders[k].id in rows && rows[orders[k].id].userId == user
  {
    if orders != [] {
      ReorderReplySuccess(rows, user, orders[1..]);
      assert forall k :: 1 <= k < |orders| ==> orders[k] == orders[1..][k - 1];
    }
  }

  /** Assigning orders keeps the set of rows, and changes nothing but `order`. */
  lemma {:induction false} ApplyOrdersKeepsRest(rows: map<int, Task>, orders: seq<OrderEntry>)
    ensures ApplyOrders(rows, orders).Keys == rows.Keys
    ensures forall id :: id in rows ==>
      ApplyOrders(rows, orders)[id] == rows[id].(order := ApplyOrders(rows, orders)[id].order)
    decreases |orders|
  {
    if orders != [] {
      ApplyOrdersKeepsRest(rows, orders[..|orders| - 1]);
    }
  }

  /** A task the request does not list keeps its row. */
  lemma {:induction false} ApplyOrdersUnlisted(rows: map<int, Task>, orders: seq<OrderEntry>, id: int)
    requires forall k :: 0 <= k < |orders| ==> orders[k].id != id
    ensures id in rows ==> id in ApplyOrders(rows, orders) && ApplyOrders(rows, orders)[id] == rows[id]
    decreases |orders|
  {
    if orders != [] {
      ApplyOrdersUnlisted(rows, orders[..|orders| - 1], id);
      ApplyOrdersKeepsRest(rows, orders[..|orders| - 1]);
    }
  }

  /** When no task is listed twice, each listed task gets the order supplied for it. */
  lemma {:induction false} ApplyOrdersListed(rows: map<int, Task>, orders: seq<OrderEntry>, k: nat)
    requires k < |orders| && orders[k].id in rows
    requires forall a, b :: 0 <= a < b < |orders| ==> orders[a].id != orders[b].id
    ensures orders[k].id in ApplyOrders(rows, orders)
    ensures ApplyOrders(rows, orders)[orders[k].id].order == orders[k].order
    decreases |orders|
  {
    var n := |orders| - 1;
    var init := orders[..n];
    ApplyOrdersKeepsRest(rows, init);
    if k < n {
      ApplyOrdersListed(rows, init, k);
    }
  }

  // ---------------------------------------------------------------------------
  // api_tasks and tasks: filter and sort

  /** `filter_by(user_id=...)` and the category and status filters, where the
      value "all" means no filter. */
  predicate Selected(t: Task, user: int, category: string, status: string)
  {
    t.userId == user && (category == "all" || t.category == category) && (status == "all" || t.status == status)
  }

  /** String order of the database (binary collation: UTF-8 bytes compare in
      code point order). */
  predicate StrLeq(a: string, b: string)
    decreases |a|
  {
    a == [] || (b != [] && (a[0] < b[0] || (a[0] == b[0] && StrLeq(a[1..], b[1..]))))
  }

  lemma {:induction false} StrLeqTotal(a: string, b: string)
    ensures StrLeq(a, b) || StrLeq(b, a)
    decreases |a|
  {
    if a != [] && b != [] && a[0] == b[0] {
      StrLeqTotal(a[1..], b[1..]);
    }
  }

  lemma {:induction false} StrLeqTrans(a: string, b: string, c: string)
    requires StrLeq(a, b) && StrLeq(b, c)
    ensures StrLeq(a, c)
    decreases |a|
  {
    if a != [] && a[0] == b[0] && b[0] == c[0] {
      StrLeqTrans(a[1..], b[1..], c[1..]);
    }
  }

  /** The `order_by` of the handler: due date ascending or descending,
      priority string ascending, and `order` ascending for any other value. */
  predicate KeyLeq(a: Task, b: Task, sort: string)
  {
    if sort == "due_date_asc" then a.dueDate <= b.dueDate
    else if sort == "due_date_desc" then a.dueDate >= b.dueDate
    else if sort == "priority" then StrLeq(a.priority, b.priority)
    else a.order <= b.order
  }

  lemma KeyLeqTotal(a: Task, b: Task, sort: string)
    ensures KeyLeq(a, b, sort) || KeyLeq(b, a, sort)
  {
    StrLeqTotal(a.priority, b.priority);
  }

  lemma KeyLeqTrans(a: Task, b: Task, c: Task, sort: string)
    requires KeyLeq(a, b, sort) && KeyLeq(b, c, sort)
    ensures KeyLeq(a, c, sort)
  {
    if sort == "priority" {
      StrLeqTrans(a.priority, b.priority, c.priority);
    }
  }

  ghost function SelectedIds(rows: map<int, Task>, user: int, category: string, status: string): set<int>
  {
    set id | id in rows && Selected(rows[id], user, category, status)
  }

  /** `m` comes first among `ids` in the sort order. */
  ghost predicate IsFirst(rows: map<int, Task>, ids: set<int>, m: int, sort: string)
    requires ids <= rows.Keys
  {
    m in ids && forall x :: x in ids ==> KeyLeq(rows[m], rows[x], sort)
  }

  /** Adding one id to a set whose first element is known. */
  lemma ExtendFirst(rows: map<int, Task>, ids: set<int>, y: int, m: int, sort: string)
    requires y in ids && ids <= rows.Keys
    requires IsFirst(rows, ids - {y}, m, sort)
    ensures IsFirst(rows, ids, if KeyLeq(rows[m], rows[y], sort) then m else y, sort)
  {
    KeyLeqTotal(rows[m], rows[y], sort);
    if !KeyLeq(rows[m], rows[y], sort) {
      forall x | x in ids
        ensures KeyLeq(rows[y], rows[x], sort)
      {
        if x != y {
          KeyLeqTrans(rows[y], rows[m], rows[x], sort);
        } else {
          KeyLeqTotal(rows[y], rows[y], sort);
        }
      }
    }
  }

  lemma {:induction false} FirstExists(rows: map<int, Task>, ids: set<int>, sort: string) returns (m: int)
    requires ids != {} && ids <= rows.Keys
    ensures IsFirst(rows, ids, m, sort)
    decreases |ids|
  {
    var y := Sets.Pick(ids);
    if ids == {y} {
      m := y;
      KeyLeqTotal(rows[y], rows[y], sort);
    } else {
      var m' := FirstExists(rows, ids - {y}, sort);
      ExtendFirst(rows, ids, y, m', sort);
      m := if KeyLeq(rows[m'], rows[y], sort) then m' else y;
    }
  }

  lemma HasFirst(rows: map<int, Task>, ids: set<int>, sort: string)
    requires ids != {} && ids <= rows.Keys
    ensures exists m :: IsFirst(rows, ids, m, sort)
  {
    var m := FirstExists(rows, ids, sort);
  }

  /** The ids in sort order, picking a first element again and again. Rows
      with equal keys come out in an order the database does not define; the
      model picks one. */
  ghost function SortIds(rows: map<int, Task>, ids: set<int>, sort: string): (r: seq<int>)
    requires ids <= rows.Keys
    ensures |r| == |ids|
    ensures forall i :: 0 <= i < |r| ==> r[i] in ids
    ensures forall x :: x in ids ==> x in r
    ensures forall i, j :: 0 <= i < j < |r| ==> r[i] != r[j] && KeyLeq(rows[r[i]], rows[r[j]], sort)
    decreases |ids|
  {
    if ids == {} then []
    else
      HasFirst(rows, ids, sort);
      var m :| IsFirst(rows, ids, m, sort);
      [m] + SortIds(rows, ids - {m}, sort)
  }

  /** The rows stored under a sequence of ids. */
  function RowsOf(rows: map<int, Task>, ids: seq<int>): (r: seq<Task>)
    requires forall i :: 0 <= i < |ids| ==> ids[i] in rows
    ensures |r| == |ids| && forall i :: 0 <= i < |ids| ==> r[i] == rows[ids[i]]
  {
    seq(|ids|, i requires 0 <= i < |ids| => rows[ids[i]])
  }

  lemma RowsOfSelected(rows: map<int, Task>, ids: seq<int>, sel: set<int>)
    requires forall i :: 0 <= i < |ids| ==> ids[i] in rows
    requires forall x :: x in sel ==> x in ids
    ensures forall x :: x in sel ==> rows[x] in RowsOf(rows, ids)
  {
    forall x | x in sel
      ensures rows[x] in RowsOf(rows, ids)
    {
      var i :| 0 <= i < |ids| && ids[i] == x;
      assert RowsOf(rows, ids)[i] == rows[x];
    }
  }

  /** The rows `query.all()` returns: exactly the user's rows that pass the
      filters, each once, in sort order. */
  ghost function QueryRows(rows: map<int, Task>, user: int, category: string, status: string, sort: string): (r: seq<Task>)
    requires IdsAgree(rows)
    ensures |r| == |SelectedIds(rows, user, category, status)|
    ensures forall i :: 0 <= i < |r| ==> r[i].id in rows && rows[r[i].id] == r[i] && Selected(r[i], user, category, status)
    ensures forall id :: id in rows && Selected(rows[id], user, category, status) ==> rows[id] in r
    ensures forall i, j :: 0 <= i < j < |r| ==> r[i].id != r[j].id && KeyLeq(r[i], r[j], sort)
  {
    var sel := SelectedIds(rows, user, category, status);
    var ids := SortIds(rows, sel, sort);
    RowsOfSelected(rows, ids, sel);
    RowsOf(rows, ids)
  }

  /** The JSON list `/api/tasks` answers with. */
  ghost function ApiTasks(rows: map<int, Task>, user: int, category: string, status: string, sort: string, today: int): seq<TaskJson>
    requires IdsAgree(rows)
  {
    var q := QueryRows(rows, user, category, status, sort);
    seq(|q|, i requires 0 <= i < |q| => ToJson(q[i], today))
  }

  /** `/api/tasks` lists only the user's tasks that pass the filters, as
      many as there are, each once, as the JSON of the stored row, and flags
      a task overdue exactly when its due date has passed and it is not
      Completed. */
  lemma ApiTasksListing(rows: map<int, Task>, user: int, category: string, status: string, sort: string, today: int)
    requires IdsAgree(rows)
    ensures var r := ApiTasks(rows, user, category, status, sort, today);
      && |r| == |SelectedIds(rows, user, category, status)|
      && (forall i :: 0 <= i < |r| ==>
            && r[i].id in rows && Selected(rows[r[i].id], user, category, status)
            && r[i] == ToJson(rows[r[i].id], today)
            && (r[i].isOverdue <==> r[i].dueDate < today && r[i].status != COMPLETED))
      && (forall i, j :: 0 <= i < j < |r| ==> r[i].id != r[j].id)
  {
  }

  /** `/api/tasks` keeps the order of the query: the i-th entry is the JSON of
      the i-th row, so the list is sorted by the requested key. */
  lemma ApiTasksSorted(rows: map<int, Task>, user: int, category: string, status: string, sort: string, today: int)
    requires IdsAgree(rows)
    ensures var r := ApiTasks(rows, user, category, status, sort, today);
            var q := QueryRows(rows, user, category, status, sort);
      && |r| == |q|
      && (forall i :: 0 <= i < |r| ==> r[i].id == q[i].id)
      && (forall i, j :: 0 <= i < j < |r| ==> KeyLeq(rows[r[i].id], rows[r[j].id], sort))
  {
  }

  /** Every one of the user's tasks that passes the filters is listed. */
  lemma ApiTasksComplete(rows: map<int, Task>, user: int, category: string, status: string, sort: string, today: int)
    requires IdsAgree(rows)
    ensures var r := ApiTasks(rows, user, category, status, sort, today);
      forall id :: id in rows && Selected(rows[id], user, category, status) ==>
        exists i :: 0 <= i < |r| && r[i].id == id
  {
    var q := QueryRows(rows, user, category, status, sort);
    var r := ApiTasks(rows, user, category, status, sort, today);
    forall id | id in rows && Selected(rows[id], user, category, status)
      ensures exists i :: 0 <= i < |r| && r[i].id == id
    {
      var i :| 0 <= i < |q| && q[i] == rows[id];
      assert r[i].id == id;
    }
  }

  // ---------------------------------------------------------------------------
  // dashboard: counts

  /** Number of times `k` occurs in `xs`. */
  function Occurrences(xs: seq<string>, k: string): nat
  {
    if xs == [] then 0 else Occurrences(xs[..|xs| - 1], k) + (if xs[|xs| - 1] == k then 1 else 0)
  }

  function Statuses(tasks: seq<Task>): seq<string>
  {
    seq(|tasks|, i requires 0 <= i < |tasks| => tasks[i].status)
  }

  function Priorities(tasks: seq<Task>): seq<string>
  {
    seq(|tasks|, i requires 0 <= i < |tasks| => tasks[i].priority)
  }

  /** One more task adds its status and its priority at the end. */
  lemma ColumnsStep(tasks: seq<Task>, i: nat)
    requires i < |tasks|
    ensures Statuses(tasks[..i + 1]) == Statuses(tasks[..i]) + [tasks[i].status]
    ensures Priorities(tasks[..i + 1]) == Priorities(tasks[..i]) + [tasks[i].priority]
  {
  }

  /** `counts` is the dashboard's tally of `xs` started from the keys `base`:
      one key per starting key and per value seen, each with the number of
      times it occurs, and the counts add up to the number of values. */
  ghost predicate Tallies(counts: map<string, nat>, base: set<string>, xs: seq<string>)
  {
    && counts.Keys == base + (set x | x in xs)
    && (forall k :: k in counts ==> counts[k] == Occurrences(xs, k))
    && Total(counts) == |xs|
  }

  /** The starting tally: every starting key at zero. */
  lemma TallyStart(a: string, b: string, c: string)
    requires a != b && b != c && a != c
    ensures Tallies(map[a := 0, b := 0, c := 0], {a, b, c}, [])
  {
    var m0: map<string, nat> := map[];
    assert Total(m0) == 0;
    TotalUpdate(m0, a, 0);
    TotalUpdate(m0[a := 0], b, 0);
    TotalUpdate(m0[a := 0][b := 0], c, 0);
    assert m0[a := 0][b := 0][c := 0] == map[a := 0, b := 0, c := 0];
  }

  /** One step of `counts[x] = counts.get(x, 0) + 1` keeps the tally. */
  lemma TallyStep(counts: map<string, nat>, base: set<string>, xs: seq<string>, x: string)
    requires Tallies(counts, base, xs)
    ensures Tallies(counts[x := (if x in counts then counts[x] else 0) + 1], base, xs + [x])
  {
    var ys := xs + [x];
    assert ys[..|ys| - 1] == xs;
    var v := (if x in counts then counts[x] else 0) + 1;
    var c' := counts[x := v];
    TotalUpdate(counts, x, v);
    assert c'.Keys == counts.Keys + {x};
    forall y
      ensures y in c'.Keys <==> y in base + (set z | z in ys)
    {
      assert y in counts.Keys <==> y in base || y in xs;
    }
    if x !in counts {
      assert x !in xs by {
        assert x in xs ==> x in counts.Keys;
      }
      OccurrencesAbsent(xs, x);
    }
    forall k | k in c'
      ensures c'[k] == Occurrences(ys, k)
    {
      assert Occurrences(ys, k) == Occurrences(xs, k) + (if x == k then 1 else 0);
    }
  }

  lemma {:induction false} OccurrencesAbsent(xs: seq<string>, k: string)
    requires k !in xs
    ensures Occurrences(xs, k) == 0
  {
    if xs != [] {
      OccurrencesAbsent(xs[..|xs| - 1], k);
    }
  }

  /** The sum of the counts of a tally. */
  ghost function Total(m: map<string, nat>): nat
    decreases |m|
  {
    if m == map[] then 0
    else
      var k :| k in m;
      assert |m - {k}| < |m| by { assert (m - {k}).Keys == m.Keys - {k}; }
      m[k] + Total(m - {k})
  }

  /** The sum does not depend on which key is taken out first. */
  lemma {:induction false} TotalRemove(m: map<string, nat>, k: string)
    requires k in m
    ensures Total(m) == m[k] + Total(m - {k})
    decreases |m|
  {
    var j :| j in m && Total(m) == m[j] + Total(m - {j});
    if j != k {
      assert (m - {j}).Keys == m.Keys - {j};
      assert (m - {k}).Keys == m.Keys - {k};
      TotalRemove(m - {j}, k);
      TotalRemove(m - {k}, j);
      assert m - {j} - {k} == m - {k} - {j};
    }
  }

  /** Setting one count changes the sum by the difference. */
  lemma TotalUpdate(m: map<string, nat>, k: string, v: nat)
    ensures Total(m[k := v]) == Total(m) - (if k in m then m[k] else 0) + v
  {
    var m' := m[k := v];
    TotalRemove(m', k);
    assert m' - {k} == m - {k};
    if k in m {
      TotalRemove(m, k);
    } else {
      assert m - {k} == m;
    }
  }
}
