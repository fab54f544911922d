/** The page's copy of the task list (`allTasks` in scripts.js) and the two
    places that patch it after a successful request: the progress slider
    (`saveProgress`) and the notes dialog. A patch is applied only when the
    response is OK, the task's card is on the page (the card is updated
    first, and a missing card throws before the cache is touched), and the
    task is in the cache (the first task with that id is patched). */
module TaskCache {
  import opened Wrappers
  import opened Records
  import ServerRules
  import CardView

  /** `allTasks.find(t => t.id === id)`, as a position: the first task with that id. */
  function FindIndex(tasks: seq<TaskJson>, id: int): (r: Option<nat>)
    ensures r.Some? ==> r.value < |tasks| && tasks[r.value].id == id
    ensures r.Some? ==> forall j :: 0 <= j < r.value ==> tasks[j].id != id
    ensures r.None? ==> forall j :: 0 <= j < |tasks| ==> tasks[j].id != id
  {
    if tasks == [] then None
    else if tasks[0].id == id then Some(0)
    else match FindIndex(tasks[1..], id)
      case None => None
      case Some(i) => Some(i + 1)
  }

  /** The status the page gives a task after a progress save. */
  function PageStatus(progress: int): string
  {
    if progress == 100 then COMPLETED else IN_PROGRESS
  }

  /** What the handler writes on the card after a progress save: the bar's
      value, the status it writes as `Status: <status>`, and whether the
      complete button is disabled. Where the status text lands is modelled in
      `CardLines`: as written it replaces the Due Date line
      (`CardLines.StatusLandsOnDueDate`); `CardLines.StatusLineFixed` writes
      it into the Status line. */
  datatype ProgressView = ProgressView(progress: int, status: string, completeDisabled: bool)

  /** The page's status after a save agrees with the status the server stores
      exactly when the progress is 100 or the task was already Completed or In
      Progress: a Pending task moved below 100 shows "In Progress" on the page
      but stays Pending on the server. The slider and the server both keep
      the progress between 0 and 100. */
  lemma ProgressStatusAgreement(t: Task, p: int)
    requires 0 <= p <= 100
    ensures PageStatus(p) == ServerRules.WithProgress(t, p).status <==>
      (p == 100 || t.status == COMPLETED || t.status == IN_PROGRESS)
  {
  }

  /** The page's copy of the tasks and the task whose notes dialog was opened last. */
  class Cache {
    var tasks: seq<TaskJson>
    var currentTaskId: Option<int>

    constructor ()
      ensures tasks == [] && currentTaskId == None
    {
      tasks := [];
      currentTaskId := None;
    }

    /** `fetchTasks`: the cache becomes the list `/api/tasks` returned. */
    method Load(fetched: seq<TaskJson>)
      modifies this
      ensures tasks == fetched && currentTaskId == old(currentTaskId)
    {
      tasks := fetched;
    }

    /** `saveProgress(id, progress)` once the response has arrived: on success
        with the card present the card shows the new progress and status, the
        complete button is disabled exactly at 100, and the first cached task
        with that id takes the progress and the page's status. Otherwise the
        cache is unchanged. */
    method SaveProgress(id: int, progress: int, ok: bool, cardShown: bool) returns (view: Option<ProgressView>)
      modifies this
      ensures view == (if ok && cardShown then Some(ProgressView(progress, PageStatus(progress), progress == 100)) else None)
      ensures currentTaskId == old(currentTaskId)
      ensures ok && cardShown && FindIndex(old(tasks), id).Some? ==>
        var i := FindIndex(old(tasks), id).value;
        tasks == old(tasks)[i := old(tasks)[i].(progress := progress, status := PageStatus(progress))]
      ensures !(ok && cardShown && FindIndex(old(tasks), id).Some?) ==> tasks == old(tasks)
    {
      if !ok || !cardShown {
        return None;
      }
      view := Some(ProgressView(progress, PageStatus(progress), progress == 100));
      var found := FindIndex(tasks, id);
      if found.Some? {
        var i := found.value;
        tasks := tasks[i := tasks[i].(progress := progress)];
        tasks := tasks[i := tasks[i].(status := PageStatus(progress))];
      }
    }

    /** A click on a card's notes button: the dialog is bound to that task and
        its input shows the task's notes, or nothing when it has none. The
        dialog is not filled when the task is not in the cache. */
    method OpenNotes(id: int) returns (input: Option<string>)
      modifies this
      ensures currentTaskId == Some(id) && tasks == old(tasks)
      ensures FindIndex(tasks, id).None? ==> input == None
      ensures FindIndex(tasks, id).Some? ==>
        var t := tasks[FindIndex(tasks, id).value];
        input == Some(if t.notes.Some? then t.notes.value else "")
    {
      currentTaskId := Some(id);
      var found := FindIndex(tasks, id);
      if found.None? {
        return None;
      }
      var t := tasks[found.value];
      input := Some(if t.notes.Some? then t.notes.value else "");
    }

    /** The dialog's Save button once the response has arrived: on success
        with the card present the card's preview shows the new notes and the
        first cached task with the dialog's id takes them. */
    method SaveNotes(notes: string, ok: bool, cardShown: bool) returns (preview: Option<string>)
      modifies this
      ensures currentTaskId == old(currentTaskId)
      ensures preview == (if ok && cardShown && currentTaskId.Some? then Some(CardView.NotesPreview(Some(notes))) else None)
      ensures ok && cardShown && currentTaskId.Some? && FindIndex(old(tasks), currentTaskId.value).Some? ==>
        var i := FindIndex(old(tasks), currentTaskId.value).value;
        tasks == old(tasks)[i := old(tasks)[i].(notes := Some(notes))]
      ensures !(ok && cardShown && currentTaskId.Some? && FindIndex(old(tasks), currentTaskId.value).Some?) ==>
        tasks == old(tasks)
    {
      if !ok || !cardShown || currentTaskId.None? {
        return None;
      }
      preview := Some(CardView.NotesPreview(Some(notes)));
      var found := FindIndex(tasks, currentTaskId.value);
      if found.Some? {
        var i := found.value;
        tasks := tasks[i := tasks[i].(notes := Some(notes))];
      }
    }
  }

  /** After a successful progress save, the patched cache entry agrees with
      the row the server stored in every field but the status and the overdue
      flag, which the page does not recompute (see ProgressStatusAgreement). */
  lemma CachedProgressMatchesServer(t: Task, v: JsonValue, today: int)
    requires ServerRules.ProgressOf(v).Some?
    ensures var p := ServerRules.ProgressOf(v).value;
            var cached := ToJson(t, today).(progress := p, status := PageStatus(p));
            var stored := ServerRules.WithProgress(t, p);
            && cached.progress == stored.progress
            && cached.(status := stored.status, isOverdue := IsOverdue(stored, today)) == ToJson(stored, today)
  {
  }
}
