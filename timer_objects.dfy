/** The timer handler of scripts.js at the level of its JavaScript objects.
    Each `timerState` object lives at an index of `objects`; the `timers` map
    holds indices; a live interval remembers the task id and the object its
    callback closes over. Here the difference between "the object in the map"
    and "a fresh object" is visible.

    `StartAsWritten` is the Start button as the code has it: the object it
    starts is stored by the first tick and not before. `Start` is the intended
    handler, which stores it at once; with it every live interval belongs to
    the stored timer of its task, and the page behaves as module Timers says. */
module TimerObjects {
  import Timers

  /** A `timerState` object; `intervalId` 0 stands for `null` (the ids
      `setInterval` hands out are positive). */
  datatype TimerObject = TimerObject(seconds: int, intervalId: int)

  /** A live interval: the task it updates and the object it increments. */
  datatype Ticker = Ticker(task: int, obj: nat)

  /** The objects made so far, the `timers` map, the live intervals by id, the
      next interval id, each card's `data-time`, and the saves made. */
  datatype Page = Page(
    objects: seq<TimerObject>,
    timers: map<int, nat>,
    intervals: map<int, Ticker>,
    nextId: int,
    shown: map<int, int>,
    saved: seq<Timers.Save>)

  /** Indices point at objects and interval ids lie below the next one. */
  ghost predicate Wf(p: Page)
  {
    && p.nextId >= 1
    && (forall t :: t in p.timers ==> p.timers[t] < |p.objects|)
    && (forall id :: id in p.intervals ==> 1 <= id < p.nextId && p.intervals[id].obj < |p.objects|)
  }

  /** The page once the cards with their times are drawn and no timer has been used. */
  function Fresh(shown: map<int, int>): (p: Page)
    ensures Wf(p) && p.timers == map[] && p.intervals == map[]
  {
    Page([], map[], map[], 1, shown, [])
  }

  /** The page after `timers.get(taskId) || {...}`: a new object seeded from
      the card's `data-time` is made when the map has none. */
  function Seeded(p: Page, task: int): (q: Page)
    requires Wf(p) && task in p.shown
    ensures Wf(q) && |p.objects| <= |q.objects| && Handle(p, task) < |q.objects|
    ensures q.objects[..|p.objects|] == p.objects
    ensures q.timers == p.timers && q.intervals == p.intervals && q.nextId == p.nextId
    ensures q.shown == p.shown && q.saved == p.saved
    ensures task !in p.timers ==> q.objects[Handle(p, task)] == TimerObject(p.shown[task], 0)
  {
    if task in p.timers then p else p.(objects := p.objects + [TimerObject(p.shown[task], 0)])
  }

  /** The object `timerState` refers to in the handler. */
  function Handle(p: Page, task: int): nat
  {
    if task in p.timers then p.timers[task] else |p.objects|
  }

  /** The Start button as written: a stopped object gets a new interval whose
      callback increments it, but the object is not put in `timers`. */
  function StartAsWritten(p: Page, task: int): (r: Page)
    requires Wf(p) && task in p.shown
    ensures Wf(r)
  {
    var q := Seeded(p, task);
    var o := Handle(p, task);
    if q.objects[o].intervalId != 0 then q
    else q.(objects := q.objects[o := q.objects[o].(intervalId := q.nextId)],
            intervals := q.intervals[q.nextId := Ticker(task, o)],
            nextId := q.nextId + 1)
  }

  /** The intended Start button: as written, and the started object is
      stored in `timers` as well. */
  function Start(p: Page, task: int): (r: Page)
    requires Wf(p) && task in p.shown
    ensures Wf(r)
  {
    var r := StartAsWritten(p, task);
    if Seeded(p, task).objects[Handle(p, task)].intervalId != 0 then r
    else r.(timers := r.timers[task := Handle(p, task)])
  }

  /** One callback of the live interval `id`: its object gains a second, the
      card shows it, and the object is stored under the task. */
  function Tick(p: Page, id: int): (r: Page)
    requires Wf(p) && id in p.intervals
    ensures Wf(r)
  {
    var tk := p.intervals[id];
    var secs := p.objects[tk.obj].seconds + 1;
    p.(objects := p.objects[tk.obj := p.objects[tk.obj].(seconds := secs)],
       shown := if tk.task in p.shown then p.shown[tk.task := secs] else p.shown,
       timers := p.timers[tk.task := tk.obj])
  }

  /** The Pause button: the object's interval is cleared (none when it is
      null), the object is stopped and its seconds are saved. */
  function Pause(p: Page, task: int): (r: Page)
    requires Wf(p) && task in p.shown
    ensures Wf(r)
  {
    var q := Seeded(p, task);
    var o := Handle(p, task);
    q.(intervals := q.intervals - {q.objects[o].intervalId},
       objects := q.objects[o := q.objects[o].(intervalId := 0)],
       saved := q.saved + [Timers.Save(task, q.objects[o].seconds)])
  }

  /** The Reset button: the object's interval is cleared, the object is set
      to zero and stored, the card shows zero and zero is saved. */
  function Reset(p: Page, task: int): (r: Page)
    requires Wf(p) && task in p.shown
    ensures Wf(r)
  {
    var q := Seeded(p, task);
    var o := Handle(p, task);
    q.(intervals := q.intervals - {q.objects[o].intervalId},
       objects := q.objects[o := TimerObject(0, 0)],
       shown := q.shown[task := 0],
       saved := q.saved + [Timers.Save(task, 0)],
       timers := q.timers[task := o])
  }

  /** A successful mark-complete: only a stored object with an interval is
      stopped; its seconds are saved only when the card still shows the Pause
      button, since without it the handler throws before `saveTime`. */
  function Complete(p: Page, task: int, pauseShown: bool): (r: Page)
    requires Wf(p)
    ensures Wf(r)
  {
    if task in p.timers && p.objects[p.timers[task]].intervalId != 0 then
      var o := p.timers[task];
      p.(intervals := p.intervals - {p.objects[o].intervalId},
         objects := p.objects[o := p.objects[o].(intervalId := 0)],
         saved := if pauseShown then p.saved + [Timers.Save(task, p.objects[o].seconds)] else p.saved)
    else p
  }

  // ---------------------------------------------------------------------------
  // The code as written

  /** Start, then Pause before the first second is up, then Start again: the
      pause saves the time but clears nothing, because it acts on a new
      object, and the second start adds a second interval for the same task. */
  lemma PauseBeforeFirstTick()
    ensures var p1 := StartAsWritten(Fresh(map[7 := 0]), 7);
            var p2 := Pause(p1, 7);
            var p3 := StartAsWritten(p2, 7);
            && p2.saved == [Timers.Save(7, 0)]
            && 1 in p2.intervals
            && 1 in p3.intervals && 2 in p3.intervals
            && p3.intervals[1].task == 7 && p3.intervals[2].task == 7
  {
    var p1 := StartAsWritten(Fresh(map[7 := 0]), 7);
    assert p1 == Page([TimerObject(0, 1)], map[], map[1 := Ticker(7, 0)], 2, map[7 := 0], []);
    var p2 := Pause(p1, 7);
    assert p2 == Page([TimerObject(0, 1), TimerObject(0, 0)], map[], map[1 := Ticker(7, 0)], 2, map[7 := 0],
                      [Timers.Save(7, 0)]);
    var p3 := StartAsWritten(p2, 7);
    assert p3.intervals == map[1 := Ticker(7, 0), 2 := Ticker(7, 2)];
  }

  /** Start, then Reset before the first second is up: the first tick puts
      the old object back and the card shows the old time plus one. */
  lemma ResetBeforeFirstTick()
    ensures var p1 := StartAsWritten(Fresh(map[7 := 5]), 7);
            var p2 := Reset(p1, 7);
            && p2.shown[7] == 0 && 1 in p2.intervals
            && Tick(p2, 1).shown[7] == 6
  {
    var p1 := StartAsWritten(Fresh(map[7 := 5]), 7);
    assert p1 == Page([TimerObject(5, 1)], map[], map[1 := Ticker(7, 0)], 2, map[7 := 5], []);
    var p2 := Reset(p1, 7);
    assert p2.intervals == map[1 := Ticker(7, 0)] && p2.objects[0] == TimerObject(5, 1);
  }

  /** The same pause with the intended Start: it stops the only interval,
      and the second start is the only ticker. */
  lemma PauseBeforeFirstTickFixed()
    ensures var p1 := Start(Fresh(map[7 := 0]), 7);
            var p2 := Pause(p1, 7);
            var p3 := Start(p2, 7);
            && p2.saved == [Timers.Save(7, 0)]
            && p2.intervals == map[]
            && p3.intervals == map[2 := Ticker(7, 0)]
  {
    var p1 := Start(Fresh(map[7 := 0]), 7);
    assert p1 == Page([TimerObject(0, 1)], map[7 := 0], map[1 := Ticker(7, 0)], 2, map[7 := 0], []);
    var p2 := Pause(p1, 7);
    assert p2 == Page([TimerObject(0, 0)], map[7 := 0], map[], 2, map[7 := 0], [Timers.Save(7, 0)]);
  }

  /** The same reset with the intended Start: no interval is left that could
      bring the old time back. */
  lemma ResetBeforeFirstTickFixed()
    ensures var p1 := Start(Fresh(map[7 := 5]), 7);
            var p2 := Reset(p1, 7);
            && p2.shown[7] == 0 && p2.intervals == map[]
  {
    var p1 := Start(Fresh(map[7 := 5]), 7);
    assert p1 == Page([TimerObject(5, 1)], map[7 := 0], map[1 := Ticker(7, 0)], 2, map[7 := 5], []);
  }

  // ---------------------------------------------------------------------------
  // The intended handler

  /** Every live interval belongs to the stored object of its task and is that
      object's interval; a stored object with an interval has a live one; no
      object is stored under two tasks. */
  ghost predicate Coherent(p: Page)
  {
    && Wf(p)
    && (forall id :: id in p.intervals ==>
          && p.intervals[id].task in p.timers
          && p.timers[p.intervals[id].task] == p.intervals[id].obj
          && p.objects[p.intervals[id].obj].intervalId == id)
    && (forall t :: t in p.timers && p.objects[p.timers[t]].intervalId != 0 ==>
          && p.objects[p.timers[t]].intervalId in p.intervals
          && p.intervals[p.objects[p.timers[t]].intervalId].task == t)
    && (forall a, b :: a in p.timers && b in p.timers && a != b ==> p.timers[a] != p.timers[b])
  }

  /** Under `Coherent` a task has at most one live interval. */
  lemma OneTicker(p: Page, id1: int, id2: int)
    requires Coherent(p) && id1 in p.intervals && id2 in p.intervals
    requires p.intervals[id1].task == p.intervals[id2].task
    ensures id1 == id2
  {
  }

  lemma FreshCoherent(shown: map<int, int>)
    ensures Coherent(Fresh(shown))
  {
  }

  lemma StartCoherent(p: Page, task: int)
    requires Coherent(p) && task in p.shown
    ensures Coherent(Start(p, task))
  {
    var q := Seeded(p, task);
    var o := Handle(p, task);
    var r := Start(p, task);
    if q.objects[o].intervalId == 0 {
      assert r.objects == q.objects[o := TimerObject(q.objects[o].seconds, p.nextId)];
      assert r.intervals == p.intervals[p.nextId := Ticker(task, o)];
      assert r.timers == p.timers[task := o];
      forall a, b | a in r.timers && b in r.timers && a != b
        ensures r.timers[a] != r.timers[b]
      {
        if task !in p.timers {
          assert o == |p.objects|;
        }
      }
      forall id | id in r.intervals
        ensures r.intervals[id].task in r.timers
        ensures r.timers[r.intervals[id].task] == r.intervals[id].obj
        ensures r.objects[r.intervals[id].obj].intervalId == id
      {
        if id != p.nextId {
          var tk := p.intervals[id];
          assert tk.obj != o by {
            if task !in p.timers { assert tk.obj < |p.objects|; }
          }
          assert tk.task != task by {
            if task in p.timers { assert p.timers[task] == o; }
          }
        }
      }
    }
  }

  lemma TickCoherent(p: Page, id: int)
    requires Coherent(p) && id in p.intervals
    ensures Coherent(Tick(p, id))
  {
    var tk := p.intervals[id];
    assert p.timers[tk.task := tk.obj] == p.timers;
  }

  lemma PauseCoherent(p: Page, task: int)
    requires Coherent(p) && task in p.shown
    ensures Coherent(Pause(p, task))
  {
    var q := Seeded(p, task);
    var o := Handle(p, task);
    var r := Pause(p, task);
    var gone := q.objects[o].intervalId;
    forall i | i in r.intervals
      ensures r.intervals[i].task in r.timers
      ensures r.timers[r.intervals[i].task] == r.intervals[i].obj
      ensures r.objects[r.intervals[i].obj].intervalId == i
    {
      assert i != gone;
      assert p.intervals[i].obj != o;
    }
    forall t | t in r.timers && r.objects[r.timers[t]].intervalId != 0
      ensures r.objects[r.timers[t]].intervalId in r.intervals
    {
      assert p.timers[t] != o;
      assert p.objects[p.timers[t]].intervalId != gone;
    }
  }

  lemma ResetCoherent(p: Page, task: int)
    requires Coherent(p) && task in p.shown
    ensures Coherent(Reset(p, task))
  {
    var q := Seeded(p, task);
    var o := Handle(p, task);
    var r := Reset(p, task);
    var gone := q.objects[o].intervalId;
    forall i | i in r.intervals
      ensures r.intervals[i].task in r.timers
      ensures r.timers[r.intervals[i].task] == r.intervals[i].obj
      ensures r.objects[r.intervals[i].obj].intervalId == i
    {
      assert i != gone;
      assert p.intervals[i].obj != o;
      assert p.intervals[i].task != task;
    }
    forall a, b | a in r.timers && b in r.timers && a != b
      ensures r.timers[a] != r.timers[b]
    {
      if task !in p.timers {
        assert o == |p.objects|;
      }
    }
  }

  lemma CompleteCoherent(p: Page, task: int, pauseShown: bool)
    requires Coherent(p)
    ensures Coherent(Complete(p, task, pauseShown))
  {
    if task in p.timers && p.objects[p.timers[task]].intervalId != 0 {
      var o := p.timers[task];
      var gone := p.objects[o].intervalId;
      var r := Complete(p, task, pauseShown);
      forall t | t in r.timers && r.objects[r.timers[t]].intervalId != 0
        ensures r.objects[r.timers[t]].intervalId in r.intervals
      {
        assert p.timers[t] != o;
      }
    }
  }

  // ---------------------------------------------------------------------------
  // The intended handler behaves as module Timers says

  /** What the timers hold, seen through the `timers` map. */
  function Abstract(p: Page): Timers.Snapshot
    requires Wf(p)
  {
    Timers.Snapshot(
      map t | t in p.timers :: Timers.TimerState(p.objects[p.timers[t]].seconds, p.objects[p.timers[t]].intervalId != 0),
      p.saved)
  }

  lemma StartRefines(p: Page, task: int)
    requires Coherent(p) && task in p.shown
    ensures Abstract(Start(p, task)) == Timers.AfterStart(Abstract(p), task, p.shown[task])
  {
    var q := Seeded(p, task);
    var o := Handle(p, task);
    var r := Start(p, task);
    var a := Abstract(r).entries;
    var b := Timers.AfterStart(Abstract(p), task, p.shown[task]).entries;
    if q.objects[o].intervalId == 0 {
      assert a.Keys == b.Keys;
      forall t | t in a
        ensures a[t] == b[t]
      {
        if t != task {
          assert p.timers[t] != o by {
            if task !in p.timers { assert p.timers[t] < |p.objects|; }
          }
        }
      }
    }
  }

  lemma TickRefines(p: Page, id: int)
    requires Coherent(p) && id in p.intervals
    ensures var task := p.intervals[id].task;
            && task in Abstract(p).entries && Abstract(p).entries[task].running
            && Abstract(Tick(p, id)) == Timers.AfterTick(Abstract(p), task)
  {
    var tk := p.intervals[id];
    var r := Tick(p, id);
    assert r.timers == p.timers;
    var a := Abstract(r).entries;
    var b := Timers.AfterTick(Abstract(p), tk.task).entries;
    assert a.Keys == b.Keys;
    forall t | t in a
      ensures a[t] == b[t]
    {
      if t != tk.task {
        assert p.timers[t] != tk.obj;
      }
    }
  }

  lemma PauseRefines(p: Page, task: int)
    requires Coherent(p) && task in p.shown
    ensures Abstract(Pause(p, task)) == Timers.AfterPause(Abstract(p), task, p.shown[task])
  {
    var q := Seeded(p, task);
    var o := Handle(p, task);
    var r := Pause(p, task);
    var a := Abstract(r).entries;
    var b := Timers.AfterPause(Abstract(p), task, p.shown[task]).entries;
    assert a.Keys == b.Keys;
    forall t | t in a
      ensures a[t] == b[t]
    {
      if t != task {
        assert p.timers[t] != o by {
          if task !in p.timers { assert p.timers[t] < |p.objects|; }
        }
      }
    }
  }

  lemma ResetRefines(p: Page, task: int)
    requires Coherent(p) && task in p.shown
    ensures Abstract(Reset(p, task)) == Timers.AfterReset(Abstract(p), task)
  {
    var q := Seeded(p, task);
    var o := Handle(p, task);
    var r := Reset(p, task);
    var a := Abstract(r).entries;
    var b := Timers.AfterReset(Abstract(p), task).entries;
    assert a.Keys == b.Keys;
    forall t | t in a
      ensures a[t] == b[t]
    {
      if t != task {
        assert p.timers[t] != o by {
          if task !in p.timers { assert p.timers[t] < |p.objects|; }
        }
      }
    }
  }

  lemma CompleteRefines(p: Page, task: int, pauseShown: bool)
    requires Coherent(p)
    ensures Abstract(Complete(p, task, pauseShown)) == Timers.AfterComplete(Abstract(p), task, pauseShown)
  {
    var r := Complete(p, task, pauseShown);
    var a := Abstract(r).entries;
    var b := Timers.AfterComplete(Abstract(p), task, pauseShown).entries;
    assert a.Keys == b.Keys;
    if task in p.timers && p.objects[p.timers[task]].intervalId != 0 {
      forall t | t in a
        ensures a[t] == b[t]
      {
        if t != task {
          assert p.timers[t] != p.timers[task];
        }
      }
    }
  }
}
