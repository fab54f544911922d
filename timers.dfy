/** The page's per-task stopwatches (scripts.js, the timer buttons, the
    interval callback and the stop on completion), at the level of what each
    task's timer holds: its seconds and whether it is running. Every
    "persist" is a `saveTime` call, recorded in the order it is made.

    This is the intended behaviour, with `start` storing the timer it starts;
    module TimerObjects shows that the code as written does not store it and
    what follows from that. */
module Timers {

  /** A timer: the seconds it holds and whether an interval is ticking it. */
  datatype TimerState = TimerState(seconds: int, running: bool)

  /** One `saveTime(taskId, seconds)` call. */
  datatype Save = Save(task: int, seconds: int)

  /** The `timers` map and the sequence of saves made so far. */
  datatype Snapshot = Snapshot(entries: map<int, TimerState>, saved: seq<Save>)

  /** `timers.get(taskId) || { seconds: parseInt(timerEl.dataset.time), intervalId: null }`:
      the stored timer, or a stopped one seeded from the card's displayed time. */
  function Current(s: Snapshot, task: int, dataTime: int): (t: TimerState)
    ensures task !in s.entries ==> t == TimerState(dataTime, false)
    ensures task in s.entries ==> t == s.entries[task]
  {
    if task in s.entries then s.entries[task] else TimerState(dataTime, false)
  }

  /** The Start button: a stopped timer starts from the seconds it holds and
      is stored; a running one is left alone, so it never gets a second ticker. */
  function AfterStart(s: Snapshot, task: int, dataTime: int): (r: Snapshot)
    ensures task in r.entries && r.entries[task] == Current(s, task, dataTime).(running := true)
    ensures Current(s, task, dataTime).running ==> r == s
    ensures forall k :: k != task ==> (k in r.entries <==> k in s.entries)
    ensures forall k :: k in s.entries && k != task ==> r.entries[k] == s.entries[k]
    ensures r.saved == s.saved
  {
    var t := Current(s, task, dataTime);
    if t.running then s else s.(entries := s.entries[task := t.(running := true)])
  }

  /** One interval callback: a running timer gains one second. */
  function AfterTick(s: Snapshot, task: int): (r: Snapshot)
    requires task in s.entries && s.entries[task].running
    ensures r.entries == s.entries[task := TimerState(s.entries[task].seconds + 1, true)]
    ensures r.saved == s.saved
  {
    var t := s.entries[task];
    s.(entries := s.entries[task := t.(seconds := t.seconds + 1)])
  }

  /** The Pause button: the timer stops with its seconds unchanged and those
      seconds are saved. A task with no stored timer saves the displayed time
      and stores nothing. */
  function AfterPause(s: Snapshot, task: int, dataTime: int): (r: Snapshot)
    ensures r.saved == s.saved + [Save(task, Current(s, task, dataTime).seconds)]
    ensures task in s.entries ==> r.entries == s.entries[task := s.entries[task].(running := false)]
    ensures task !in s.entries ==> r.entries == s.entries
  {
    var t := Current(s, task, dataTime);
    Snapshot(if task in s.entries then s.entries[task := t.(running := false)] else s.entries,
             s.saved + [Save(task, t.seconds)])
  }

  /** The Reset button: from any state the timer is stopped at zero, stored,
      and zero is saved. */
  function AfterReset(s: Snapshot, task: int): (r: Snapshot)
    ensures r.entries == s.entries[task := TimerState(0, false)]
    ensures r.saved == s.saved + [Save(task, 0)]
  {
    Snapshot(s.entries[task := TimerState(0, false)], s.saved + [Save(task, 0)])
  }

  /** A successful mark-complete: a running timer is stopped and, when the
      card still shows its Pause button, its seconds are saved; without that
      button (the list was redrawn while the timer ran, and every redraw draws
      Start) the handler throws right after stopping it and nothing is saved.
      A stopped or absent timer is left untouched. */
  function AfterComplete(s: Snapshot, task: int, pauseShown: bool): (r: Snapshot)
    ensures task in s.entries && s.entries[task].running ==>
      && r.entries == s.entries[task := s.entries[task].(running := false)]
      && r.saved == (if pauseShown then s.saved + [Save(task, s.entries[task].seconds)] else s.saved)
    ensures !(task in s.entries && s.entries[task].running) ==> r == s
  {
    if task in s.entries && s.entries[task].running then
      var t := s.entries[task];
      Snapshot(s.entries[task := t.(running := false)],
               if pauseShown then s.saved + [Save(task, t.seconds)] else s.saved)
    else s
  }

  /** Starting twice is starting once. */
  lemma StartIdempotent(s: Snapshot, task: int, dataTime: int)
    ensures AfterStart(AfterStart(s, task, dataTime), task, dataTime) == AfterStart(s, task, dataTime)
  {
  }

  /** Start, `n` ticks and a pause save the seconds the timer started from
      plus `n`, and leave the timer stopped there. */
  lemma StartTicksPause(s: Snapshot, task: int, dataTime: int, n: nat)
    requires !Current(s, task, dataTime).running
    ensures var r := AfterPause(Ticks(AfterStart(s, task, dataTime), task, n), task, dataTime);
            var from := Current(s, task, dataTime).seconds;
            && r.entries[task] == TimerState(from + n, false)
            && r.saved == s.saved + [Save(task, from + n)]
  {
  }

  /** `n` interval callbacks in a row: the timer is still running, holds `n`
      more seconds, and nothing else has changed. */
  function Ticks(s: Snapshot, task: int, n: nat): (r: Snapshot)
    requires task in s.entries && s.entries[task].running
    ensures r.entries == s.entries[task := TimerState(s.entries[task].seconds + n, true)]
    ensures r.saved == s.saved
  {
    if n == 0 then s
    else AfterTick(Ticks(s, task, n - 1), task)
  }

  /** The timers of the page, updated in place. */
  class TimerRegistry {
    var entries: map<int, TimerState>
    var saved: seq<Save>

    function State(): Snapshot
      reads this
    {
      Snapshot(entries, saved)
    }

    constructor ()
      ensures entries == map[] && saved == []
    {
      entries := map[];
      saved := [];
    }

    method Start(task: int, dataTime: int)
      modifies this
      ensures State() == AfterStart(old(State()), task, dataTime)
    {
      var state := if task in entries then entries[task] else TimerState(dataTime, false);
      if !state.running {
        state := state.(running := true);
        entries := entries[task := state];
      }
    }

    method Tick(task: int)
      requires task in entries && entries[task].running
      modifies this
      ensures State() == AfterTick(old(State()), task)
    {
      var state := entries[task];
      state := state.(seconds := state.seconds + 1);
      entries := entries[task := state];
    }

    method Pause(task: int, dataTime: int)
      modifies this
      ensures State() == AfterPause(old(State()), task, dataTime)
    {
      var state := if task in entries then entries[task] else TimerState(dataTime, false);
      state := state.(running := false);
      if task in entries {
        entries := entries[task := state];
      }
      saved := saved + [Save(task, state.seconds)];
    }

    method Reset(task: int)
      modifies this
      ensures State() == AfterReset(old(State()), task)
    {
      entries := entries[task := TimerState(0, false)];
      saved := saved + [Save(task, 0)];
    }

    method Complete(task: int, pauseShown: bool)
      modifies this
      ensures State() == AfterComplete(old(State()), task, pauseShown)
    {
      if task in entries && entries[task].running {
        var state := entries[task];
        entries := entries[task := state.(running := false)];
        if pauseShown {
          saved := saved + [Save(task, state.seconds)];
        }
      }
    }
  }
}
