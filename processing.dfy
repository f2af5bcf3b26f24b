/**
 * What one `processTasks` pass of others/countdown.js does with the task slots,
 * stated as functions of the slots and of the clock samples taken during the pass.
 */
module Processing {
  import opened Basics
  import opened Counting

  /** The gap between two clock samples above which the clock is taken to have jumped (ms). */
  const MagicTime: int := 10000

  /**
   * The value stored as a task's callback. The type guards of the source never reject
   * anything, so any value can end up in a slot: the private no-op sentinel
   * `EMPTY_EVENT_HANDLER` that `removeTask` installs, a falsy value, a truthy value that
   * is not a function, or a user function, known by an identifier.
   */
  datatype Handler = EmptyHandler | Falsy | NonFunction | Fn(id: nat)

  /** An error thrown during a pass, or by the scheduler's own methods. */
  datatype Error =
    | Raised(value: nat)   // thrown by a user callback
    | CalledNonFunction    // TypeError: the stored callback is not a function
    | NoSuchSlot           // TypeError: `taskQueue[index]` is undefined

  /** What a user callback does when it is called with a Count. */
  datatype Outcome = Returned | Threw(value: nat)

  /** The world outside the scheduler: the local weekday of an instant and the user callbacks. */
  datatype World = World(weekday: int -> Weekday, run: (nat, Count) -> Outcome)

  /** A slot `[time, handler, index]` of the task queue. */
  datatype Task = Task(time: int, handler: Handler, index: int)

  /**
   * The clock as one pass sees it: `moment` is the offset-corrected sample taken at the
   * start, `resample(k)` the raw sample taken when slot `k` turns out to be overdue.
   */
  datatype Sampling = Sampling(moment: int, lastMoment: int, resample: nat -> int, world: World)

  /** One invocation of a stored callback. */
  datatype Call = Call(slot: nat, handler: Handler, count: Count)

  /** Everything a pass does: the calls it makes, in order, and the error it throws, if any. */
  datatype Pass = Pass(calls: seq<Call>, thrown: Option<Error>)

  /** `!resolver || resolver === EMPTY_EVENT_HANDLER`: the pass stops at such a slot. */
  predicate Stops(h: Handler)
  {
    h == EmptyHandler || h == Falsy
  }

  /** Two clock samples close enough together that no clock jump is suspected. */
  predicate Steady(a: int, b: int)
  {
    Abs(a - b) <= MagicTime
  }

  function CountFor(t: Task, s: Sampling): Count
  {
    Calculate(t.time - s.moment, s.moment, s.world.weekday)
  }

  /** Slot `k` is called: its deadline has not passed, or a fresh sample shows a steady clock. */
  predicate Delivers(t: Task, k: nat, s: Sampling)
  {
    t.time - s.moment >= 0 || Steady(s.resample(k), s.lastMoment)
  }

  /** What calling `h` with `c` throws, if anything. */
  function Invoke(h: Handler, c: Count, w: World): (e: Option<Error>)
    ensures h == EmptyHandler ==> e == None
    ensures h == NonFunction || h == Falsy ==> e == Some(CalledNonFunction)
  {
    match h
    case EmptyHandler => None
    case Fn(id) => (match w.run(id, c) case Returned => None case Threw(v) => Some(Raised(v)))
    case _ => Some(CalledNonFunction)
  }

  /** The first slot at which a pass stops, or the number of slots. */
  function FirstStop(tasks: seq<Task>): (k: nat)
    ensures k <= |tasks|
    ensures k < |tasks| ==> Stops(tasks[k].handler)
    ensures forall j :: 0 <= j < k ==> !Stops(tasks[j].handler)
  {
    if tasks == [] then 0
    else if Stops(tasks[0].handler) then 0
    else 1 + FirstStop(tasks[1..])
  }

  function CallAt(tasks: seq<Task>, k: nat, s: Sampling): Call
    requires k < |tasks|
  {
    Call(k, tasks[k].handler, CountFor(tasks[k], s))
  }

  /** The calls made for slots `0 .. n-1`, the pass not having stopped among them. */
  function CallsBefore(tasks: seq<Task>, n: nat, s: Sampling): seq<Call>
    requires n <= |tasks|
  {
    if n == 0 then []
    else CallsBefore(tasks, n - 1, s)
         + (if Delivers(tasks[n - 1], n - 1, s) then [CallAt(tasks, n - 1, s)] else [])
  }

  /** The errors captured for slots `0 .. n-1`, in order. */
  function ErrorsBefore(tasks: seq<Task>, n: nat, s: Sampling): seq<Error>
    requires n <= |tasks|
  {
    if n == 0 then []
    else ErrorsBefore(tasks, n - 1, s)
         + (if Delivers(tasks[n - 1], n - 1, s) then
              match Invoke(tasks[n - 1].handler, CountFor(tasks[n - 1], s), s.world)
              case None => []
              case Some(e) => [e]
            else [])
  }

  /**
   * A whole pass: reaching a stopping slot returns at once, dropping the errors seen so
   * far; a pass that reaches the end throws the first error captured.
   */
  function ProcessSpec(tasks: seq<Task>, s: Sampling): Pass
  {
    var stop := FirstStop(tasks);
    if stop < |tasks| then Pass(CallsBefore(tasks, stop, s), None)
    else
      var errs := ErrorsBefore(tasks, |tasks|, s);
      Pass(CallsBefore(tasks, |tasks|, s), if errs == [] then None else Some(errs[0]))
  }

  /** Every call before `n` is the call of a delivering slot before `n`. */
  lemma {:induction false} CallsBeforeSound(tasks: seq<Task>, n: nat, s: Sampling)
    requires n <= |tasks|
    ensures forall j :: 0 <= j < |CallsBefore(tasks, n, s)| ==>
      var c := CallsBefore(tasks, n, s)[j];
      c.slot < n && Delivers(tasks[c.slot], c.slot, s) && c == CallAt(tasks, c.slot, s)
  {
    if n > 0 {
      CallsBeforeSound(tasks, n - 1, s);
      var prev := CallsBefore(tasks, n - 1, s);
      var calls := CallsBefore(tasks, n, s);
      if Delivers(tasks[n - 1], n - 1, s) {
        assert calls == prev + [CallAt(tasks, n - 1, s)];
        forall j | 0 <= j < |calls|
          ensures calls[j].slot < n && Delivers(tasks[calls[j].slot], calls[j].slot, s)
          ensures calls[j] == CallAt(tasks, calls[j].slot, s)
        {
          if j < |prev| {
            assert calls[j] == prev[j];
          }
        }
      } else {
        assert calls == prev;
      }
    }
  }

  /** The calls before `n` are made in slot order, each slot at most once. */
  lemma {:induction false} CallsBeforeOrdered(tasks: seq<Task>, n: nat, s: Sampling)
    requires n <= |tasks|
    ensures forall i, j :: 0 <= i < j < |CallsBefore(tasks, n, s)| ==>
      CallsBefore(tasks, n, s)[i].slot < CallsBefore(tasks, n, s)[j].slot
  {
    if n > 0 {
      CallsBeforeOrdered(tasks, n - 1, s);
      CallsBeforeSound(tasks, n - 1, s);
      var prev := CallsBefore(tasks, n - 1, s);
      var calls := CallsBefore(tasks, n, s);
      if Delivers(tasks[n - 1], n - 1, s) {
        assert calls == prev + [CallAt(tasks, n - 1, s)];
        forall i, j | 0 <= i < j < |calls|
          ensures calls[i].slot < calls[j].slot
        {
          assert calls[i] == prev[i];
          if j < |prev| {
            assert calls[j] == prev[j];
          }
        }
      } else {
        assert calls == prev;
      }
    }
  }

  /** The calls for the slots before `m` come first among the calls for the slots before `n`. */
  lemma {:induction false} CallsBeforePrefix(tasks: seq<Task>, m: nat, n: nat, s: Sampling)
    requires m <= n <= |tasks|
    ensures |CallsBefore(tasks, m, s)| <= |CallsBefore(tasks, n, s)|
    ensures CallsBefore(tasks, n, s)[..|CallsBefore(tasks, m, s)|] == CallsBefore(tasks, m, s)
    decreases n - m
  {
    if m < n {
      CallsBeforePrefix(tasks, m, n - 1, s);
      var calls := CallsBefore(tasks, n, s);
      var prev := CallsBefore(tasks, n - 1, s);
      assert calls[..|prev|] == prev;
    }
  }

  /**
   * Every delivering slot `k` before `n` is called: its call sits in the list right
   * after the calls of the slots before it.
   */
  lemma CallsBeforeComplete(tasks: seq<Task>, n: nat, k: nat, s: Sampling)
    requires k < n <= |tasks| && Delivers(tasks[k], k, s)
    ensures |CallsBefore(tasks, k, s)| < |CallsBefore(tasks, n, s)|
    ensures CallsBefore(tasks, n, s)[|CallsBefore(tasks, k, s)|] == CallAt(tasks, k, s)
  {
    CallsBeforePrefix(tasks, k + 1, n, s);
    var before := CallsBefore(tasks, k, s);
    assert CallsBefore(tasks, k + 1, s) == before + [CallAt(tasks, k, s)];
    assert CallsBefore(tasks, n, s)[..|before| + 1][|before|] == CallAt(tasks, k, s);
  }

  /** A failing slot is one that is called and whose call throws. */
  predicate Fails(tasks: seq<Task>, k: nat, s: Sampling)
    requires k < |tasks|
  {
    Delivers(tasks[k], k, s) && Invoke(tasks[k].handler, CountFor(tasks[k], s), s.world).Some?
  }

  /**
   * The errors before `n` are empty exactly when no slot before `n` fails, and otherwise
   * start with the error of the earliest failing slot.
   */
  lemma {:induction false} ErrorsBeforeFirst(tasks: seq<Task>, n: nat, s: Sampling)
    requires n <= |tasks|
    ensures var errs := ErrorsBefore(tasks, n, s);
      && (errs == [] <==> forall k :: 0 <= k < n ==> !Fails(tasks, k, s))
      && (errs != [] ==> exists k :: (0 <= k < n && Fails(tasks, k, s)
            && Invoke(tasks[k].handler, CountFor(tasks[k], s), s.world) == Some(errs[0])
            && forall j :: 0 <= j < k ==> !Fails(tasks, j, s)))
  {
    if n > 0 {
      ErrorsBeforeFirst(tasks, n - 1, s);
      var prev := ErrorsBefore(tasks, n - 1, s);
      var errs := ErrorsBefore(tasks, n, s);
      assert errs[..|prev|] == prev;
      if prev == [] && Fails(tasks, n - 1, s) {
        assert errs == [Invoke(tasks[n - 1].handler, CountFor(tasks[n - 1], s), s.world).value];
      }
      if !Fails(tasks, n - 1, s) {
        assert errs == prev;
      }
    }
  }

  /**
   * Delivery rule: the pass calls exactly the slots before the first stopping slot whose
   * deadline has not passed or whose fresh sample lies within `MagicTime` of
   * `lastMoment`, each with `Calculate(time - moment, moment)` (in slot order, by
   * `CallsBeforeOrdered`).
   */
  lemma DeliveryRule(tasks: seq<Task>, s: Sampling)
    ensures forall j :: 0 <= j < |ProcessSpec(tasks, s).calls| ==>
      var c := ProcessSpec(tasks, s).calls[j];
      && c.slot < FirstStop(tasks)
      && Delivers(tasks[c.slot], c.slot, s)
      && c.handler == tasks[c.slot].handler
      && c.count == Calculate(tasks[c.slot].time - s.moment, s.moment, s.world.weekday)
    ensures forall k :: 0 <= k < FirstStop(tasks) && Delivers(tasks[k], k, s) ==>
      exists j :: 0 <= j < |ProcessSpec(tasks, s).calls| && ProcessSpec(tasks, s).calls[j].slot == k
  {
    var stop := FirstStop(tasks);
    var calls := ProcessSpec(tasks, s).calls;
    assert calls == CallsBefore(tasks, stop, s);
    CallsBeforeSound(tasks, stop, s);
    forall k | 0 <= k < stop && Delivers(tasks[k], k, s)
      ensures exists j :: 0 <= j < |calls| && calls[j].slot == k
    {
      CallsBeforeComplete(tasks, stop, k, s);
      var j := |CallsBefore(tasks, k, s)|;
      assert calls[j].slot == k;
    }
  }

  /** Early exit: a pass that meets a removed or falsy slot throws nothing, whatever failed before it. */
  lemma EarlyExit(tasks: seq<Task>, s: Sampling, k: nat)
    requires k < |tasks| && Stops(tasks[k].handler)
    ensures ProcessSpec(tasks, s).thrown == None
    ensures forall c :: c in ProcessSpec(tasks, s).calls ==> c.slot < k
  {
    var stop := FirstStop(tasks);
    assert stop <= k;
    var calls := ProcessSpec(tasks, s).calls;
    assert calls == CallsBefore(tasks, stop, s);
    CallsBeforeSound(tasks, stop, s);
    forall c | c in calls
      ensures c.slot < k
    {
      var j :| 0 <= j < |calls| && calls[j] == c;
    }
  }

  /**
   * First error: a pass that meets no stopping slot throws nothing exactly when no call
   * failed, and otherwise throws what the earliest failing call threw.
   */
  lemma FirstErrorThrown(tasks: seq<Task>, s: Sampling)
    requires forall k :: 0 <= k < |tasks| ==> !Stops(tasks[k].handler)
    ensures var p := ProcessSpec(tasks, s);
      && (p.thrown == None <==> forall k :: 0 <= k < |tasks| ==> !Fails(tasks, k, s))
      && (p.thrown != None ==> exists k :: (0 <= k < |tasks| && Fails(tasks, k, s)
            && Invoke(tasks[k].handler, CountFor(tasks[k], s), s.world) == p.thrown
            && forall j :: 0 <= j < k ==> !Fails(tasks, j, s)))
  {
    ErrorsBeforeFirst(tasks, |tasks|, s);
  }

  /** With no stopping slot, the pass throws what its earliest failing call threw. */
  lemma ThrowsEarliestFailure(tasks: seq<Task>, s: Sampling, k: nat)
    requires forall i :: 0 <= i < |tasks| ==> !Stops(tasks[i].handler)
    requires k < |tasks| && Fails(tasks, k, s)
    requires forall j :: 0 <= j < k ==> !Fails(tasks, j, s)
    ensures ProcessSpec(tasks, s).thrown == Invoke(tasks[k].handler, CountFor(tasks[k], s), s.world)
  {
    FirstErrorThrown(tasks, s);
    var k' :| 0 <= k' < |tasks| && Fails(tasks, k', s)
      && Invoke(tasks[k'].handler, CountFor(tasks[k'], s), s.world) == ProcessSpec(tasks, s).thrown
      && forall j :: 0 <= j < k' ==> !Fails(tasks, j, s);
    assert k' == k;
  }

  /**
   * A called slot holding a value that is not a function makes the pass throw a TypeError,
   * and one whose callback throws makes the pass rethrow that value, unless an earlier slot
   * already failed or some slot stops the pass.
   */
  lemma CalledSlotThrows(tasks: seq<Task>, s: Sampling, k: nat)
    requires forall i :: 0 <= i < |tasks| ==> !Stops(tasks[i].handler)
    requires k < |tasks| && Delivers(tasks[k], k, s)
    requires forall j :: 0 <= j < k ==> !Fails(tasks, j, s)
    ensures tasks[k].handler == NonFunction ==> ProcessSpec(tasks, s).thrown == Some(CalledNonFunction)
    ensures forall id, v ::
      tasks[k].handler == Fn(id) && s.world.run(id, CountFor(tasks[k], s)) == Threw(v) ==>
        ProcessSpec(tasks, s).thrown == Some(Raised(v))
  {
    var h := tasks[k].handler;
    if h == NonFunction || (h.Fn? && s.world.run(h.id, CountFor(tasks[k], s)).Threw?) {
      ThrowsEarliestFailure(tasks, s, k);
    }
  }
}
