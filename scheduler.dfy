/**
 * The `Countdown` scheduler of others/countdown.js: a task queue, a clock offset, the
 * drift baseline `lastMoment`, an optional time fixer and the 500 ms tick timer.
 *
 * Every clock reading `now()` becomes a parameter; timers, the fixer's promise and the
 * callbacks queued by `addTask` are explicit state, and their firing is an event method.
 */
module Scheduler {
  import opened Basics
  import Counting
  import opened Processing

  /** The value stored as `timeFixer`: none (undefined or null), a non-function, or a function. */
  datatype Fixer = NoFixer | NonFunctionFixer | FixerFn(id: nat)

  /** `getMoment(offset)`: a raw clock sample corrected by an offset. */
  function GetMoment(sample: int, offset: int): int
  {
    sample - offset
  }

  /**
   * `moment - (baseTimeStamp || moment)`: a missing or zero base (both falsy) gives no
   * offset; any other base makes the corrected clock read the base at `moment`.
   */
  function OffsetFor(base: Option<int>, moment: int): (offset: int)
    ensures base == None || base == Some(0) ==> offset == 0
    ensures base.Some? && base.value != 0 ==> GetMoment(moment, offset) == base.value
  {
    moment - (if base.Some? && base.value != 0 then base.value else moment)
  }

  /** The test in `count()`: a function is registered as fixer and the clock has jumped. */
  predicate ShouldFix(f: Fixer, moment: int, lastMoment: int)
  {
    f.FixerFn? && !Steady(moment, lastMoment)
  }

  class Countdown {
    var tasks: seq<Task>        // taskQueue
    var timeOffset: int
    var lastMoment: int
    var timeFixer: Fixer
    var timer: Option<nat>      // this.timer: the handle of the last timer armed
    var armed: set<nat>         // handles of 500 ms ticks that are still to fire
    var nextTimer: nat          // the handle the next setTimeout returns
    var pendingFixes: nat       // fixer promises not yet settled
    var pendingImmediate: nat   // processTasks runs queued by addTask, not yet run

    /** Every slot stores its own position as its index; every handle was handed out. */
    ghost predicate Valid()
      reads this
    {
      && (forall k :: 0 <= k < |tasks| ==> tasks[k].index == k)
      && (timer.Some? ==> timer.value < nextTimer)
      && (forall t :: t in armed ==> t < nextTimer)
    }

    /**
     * `new Countdown({ baseTime })`: `start` is the first sample, `fixMoment` and `fixLast`
     * are the samples `fixTimeOffset` takes, `countMoment` the one `count()` takes. `count()`
     * runs before `timeFixer` is assigned, so it always arms the first tick.
     */
    constructor (baseTime: Option<int>, start: int, fixMoment: int, fixLast: int, countMoment: int)
      ensures Valid()
      ensures tasks == []
      ensures timeOffset == OffsetFor(baseTime, fixMoment) && lastMoment == fixLast
      ensures timeFixer == NoFixer
      ensures timer == Some(0) && armed == {0} && nextTimer == 1
      ensures pendingFixes == 0 && pendingImmediate == 0
    {
      tasks := [];
      timeOffset := 0;
      lastMoment := start;
      timeFixer := NoFixer;
      timer := None;
      armed := {};
      nextTimer := 0;
      pendingFixes := 0;
      pendingImmediate := 0;
      new;
      FixTimeOffset(baseTime, fixMoment, fixLast);
      Count(countMoment);
      timeFixer := NoFixer;
    }

    /**
     * `addTask(time, task)`: appends the slot `[time, task, length]`, queues one immediate
     * run of `processTasks` and returns the new slot's index. Its type guard never rejects.
     */
    method AddTask(time: int, handler: Handler) returns (index: nat)
      requires Valid()
      modifies this`tasks, this`pendingImmediate
      ensures Valid()
      ensures tasks == old(tasks) + [Task(time, handler, |old(tasks)|)]
      ensures index == |old(tasks)| == |tasks| - 1
      ensures pendingImmediate == old(pendingImmediate) + 1
    {
      var length := |tasks|;
      tasks := tasks + [Task(time, handler, length)];
      pendingImmediate := pendingImmediate + 1;
      index := |tasks| - 1;
    }

    /**
     * `shiftTask(index, time, task)`: replaces the time and the callback of an existing
     * slot, keeping its stored index. Only a missing slot throws (a TypeError on undefined).
     */
    method ShiftTask(index: int, time: int, handler: Handler) returns (err: Option<Error>)
      requires Valid()
      modifies this`tasks
      ensures Valid()
      ensures err == None <==> 0 <= index < |old(tasks)|
      ensures err != None ==> err == Some(NoSuchSlot) && tasks == old(tasks)
      ensures err == None ==> tasks == old(tasks)[index := Task(time, handler, old(tasks)[index].index)]
    {
      if !(0 <= index < |tasks|) {
        return Some(NoSuchSlot);
      }
      var slot := tasks[index];
      tasks := tasks[index := Task(time, handler, slot.index)];
      err := None;
    }

    /** `removeTask(index)`: `shiftTask` to the slot's own time and the no-op sentinel. */
    method RemoveTask(index: int) returns (err: Option<Error>)
      requires Valid()
      modifies this`tasks
      ensures Valid()
      ensures err == None <==> 0 <= index < |old(tasks)|
      ensures err != None ==> err == Some(NoSuchSlot) && tasks == old(tasks)
      ensures err == None ==> tasks == old(tasks)[index := old(tasks)[index].(handler := EmptyHandler)]
    {
      if !(0 <= index < |tasks|) {
        return Some(NoSuchSlot);
      }
      err := ShiftTask(index, tasks[index].time, EmptyHandler);
    }

    /**
     * `processTasks()`: `now` is the sample the pass starts with and `resample(k)` the raw
     * sample taken for an overdue slot `k`. The pass changes no field of the scheduler.
     */
    method ProcessTasks(now: int, resample: nat -> int, world: World) returns (pass: Pass)
      ensures pass == ProcessSpec(tasks, Sampling(GetMoment(now, timeOffset), lastMoment, resample, world))
    {
      var moment := GetMoment(now, timeOffset);
      ghost var s := Sampling(moment, lastMoment, resample, world);
      var errQueue: seq<Error> := [];
      var calls: seq<Call> := [];
      for i := 0 to |tasks|
        invariant calls == CallsBefore(tasks, i, s)
        invariant errQueue == ErrorsBefore(tasks, i, s)
        invariant forall k :: 0 <= k < i ==> !Stops(tasks[k].handler)
      {
        var task := tasks[i];
        if task.handler == Falsy || task.handler == EmptyHandler {
          return Pass(calls, None);
        }
        var duration := task.time - moment;
        var count := Counting.Calculate(duration, moment, world.weekday);
        var called := true;
        if duration < 0 {
          var recheck := GetMoment(resample(i), 0);
          called := Abs(recheck - lastMoment) <= MagicTime;
        }
        if called {
          calls := calls + [Call(i, task.handler, count)];
          var thrown := Invoke(task.handler, count, world);
          if thrown.Some? {
            errQueue := errQueue + [thrown.value];
          }
        }
      }
      if |errQueue| > 0 {
        pass := Pass(calls, Some(errQueue[0]));
      } else {
        pass := Pass(calls, None);
      }
    }

    /** `addTimeFixer(callback)`: replaces any earlier fixer; its type guard never rejects. */
    method AddTimeFixer(fixer: Fixer)
      modifies this`timeFixer
      ensures timeFixer == fixer
    {
      timeFixer := fixer;
    }

    /** `fixTimeOffset(baseTimeStamp)`, taking the samples `moment` and then `after`. */
    method FixTimeOffset(base: Option<int>, moment: int, after: int)
      modifies this`timeOffset, this`lastMoment
      ensures timeOffset == OffsetFor(base, moment)
      ensures lastMoment == after
    {
      timeOffset := GetMoment(moment, if base.Some? && base.value != 0 then base.value else moment);
      lastMoment := GetMoment(after, 0);
    }

    /** `setTimer()`: arms a new 500 ms tick and remembers its handle. */
    method SetTimer()
      requires Valid()
      modifies this`timer, this`armed, this`nextTimer
      ensures Valid()
      ensures timer == Some(old(nextTimer))
      ensures armed == old(armed) + {old(nextTimer)}
      ensures nextTimer == old(nextTimer) + 1
    {
      timer := Some(nextTimer);
      armed := armed + {nextTimer};
      nextTimer := nextTimer + 1;
    }

    /**
     * `count()` with the clock sample `moment`: calls the fixer when one is registered and
     * the clock has jumped since `lastMoment`, and arms the next tick otherwise.
     */
    method Count(moment: int)
      requires Valid()
      modifies this`timer, this`armed, this`nextTimer, this`pendingFixes
      ensures Valid()
      ensures ShouldFix(timeFixer, moment, lastMoment) ==>
        && pendingFixes == old(pendingFixes) + 1
        && timer == old(timer) && armed == old(armed) && nextTimer == old(nextTimer)
      ensures !ShouldFix(timeFixer, moment, lastMoment) ==>
        && pendingFixes == old(pendingFixes)
        && timer == Some(old(nextTimer)) && armed == old(armed) + {old(nextTimer)}
        && nextTimer == old(nextTimer) + 1
    {
      if timeFixer.FixerFn? && Abs(moment - lastMoment) > MagicTime {
        pendingFixes := pendingFixes + 1;
      } else {
        SetTimer();
      }
    }

    /** `pause()`: clears the timer `this.timer` names, and nothing else. */
    method Pause()
      requires Valid()
      modifies this`armed
      ensures Valid()
      ensures armed == if timer.Some? then old(armed) - {timer.value} else old(armed)
    {
      if timer.Some? {
        armed := armed - {timer.value};
      }
    }

    /**
     * The armed tick `id` fires: `processTasks()` (samples `now` and `resample`), then
     * `count()` (sample `countMoment`), then `lastMoment = getMoment()` (sample `after`).
     * An error thrown by the pass leaves the tick callback before the other two steps.
     */
    method Tick(id: nat, now: int, resample: nat -> int, world: World, countMoment: int, after: int)
      returns (pass: Pass)
      requires Valid() && id in armed
      modifies this`timer, this`armed, this`nextTimer, this`pendingFixes, this`lastMoment
      ensures Valid()
      ensures pass == ProcessSpec(tasks, Sampling(GetMoment(now, timeOffset), old(lastMoment), resample, world))
      ensures pass.thrown != None ==>
        && armed == old(armed) - {id} && timer == old(timer) && nextTimer == old(nextTimer)
        && pendingFixes == old(pendingFixes) && lastMoment == old(lastMoment)
      ensures pass.thrown == None && ShouldFix(timeFixer, countMoment, old(lastMoment)) ==>
        && armed == old(armed) - {id} && timer == old(timer) && nextTimer == old(nextTimer)
        && pendingFixes == old(pendingFixes) + 1 && lastMoment == after
      ensures pass.thrown == None && !ShouldFix(timeFixer, countMoment, old(lastMoment)) ==>
        && armed == old(armed) - {id} + {old(nextTimer)} && timer == Some(old(nextTimer))
        && nextTimer == old(nextTimer) + 1
        && pendingFixes == old(pendingFixes) && lastMoment == after
    {
      armed := armed - {id};
      pass := ProcessTasks(now, resample, world);
      if pass.thrown != None {
        return;
      }
      Count(countMoment);
      lastMoment := GetMoment(after, 0);
    }

    /**
     * A fixer promise resolves with `base`: `fixTimeOffset(base)` (samples `moment` and
     * `after`), then `setTimer()`.
     */
    method FixerResolved(base: Option<int>, moment: int, after: int)
      requires Valid() && pendingFixes > 0
      modifies this`pendingFixes, this`timeOffset, this`lastMoment, this`timer, this`armed, this`nextTimer
      ensures Valid()
      ensures pendingFixes == old(pendingFixes) - 1
      ensures timeOffset == OffsetFor(base, moment) && lastMoment == after
      ensures timer == Some(old(nextTimer)) && armed == old(armed) + {old(nextTimer)}
      ensures nextTimer == old(nextTimer) + 1
    {
      pendingFixes := pendingFixes - 1;
      FixTimeOffset(base, moment, after);
      SetTimer();
    }

    /** A fixer promise rejects with `value`: `setTimer()`, then the error is thrown again. */
    method FixerRejected(value: nat) returns (rethrown: Error)
      requires Valid() && pendingFixes > 0
      modifies this`pendingFixes, this`timer, this`armed, this`nextTimer
      ensures Valid()
      ensures rethrown == Raised(value)
      ensures pendingFixes == old(pendingFixes) - 1
      ensures timer == Some(old(nextTimer)) && armed == old(armed) + {old(nextTimer)}
      ensures nextTimer == old(nextTimer) + 1
    {
      pendingFixes := pendingFixes - 1;
      SetTimer();
      rethrown := Raised(value);
    }

    /** One `processTasks` run queued by `addTask` fires; what it throws escapes to the event loop. */
    method RunImmediate(now: int, resample: nat -> int, world: World) returns (pass: Pass)
      requires pendingImmediate > 0
      modifies this`pendingImmediate
      ensures pendingImmediate == old(pendingImmediate) - 1
      ensures pass == ProcessSpec(tasks, Sampling(GetMoment(now, timeOffset), lastMoment, resample, world))
    {
      pendingImmediate := pendingImmediate - 1;
      pass := ProcessTasks(now, resample, world);
    }
  }
}
