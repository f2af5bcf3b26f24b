# Countdown scheduler, modelled in Dafny

This project models `others/countdown.js`, a small in-browser countdown scheduler, in
three parts.

- **Count** (`counting.dfy`, module `Counting`). `Calculate` is the `Count` constructor. It
  splits a signed millisecond delta into days, hours, minutes and seconds. It also has a
  `day` count adjusted by comparing the weekdays of `moment` and `moment + duration`.
  JavaScript's truncating `%` is `JsRem`. `Math.floor(x / n)` for a positive `n` is
  Dafny's `/`. `new Date(ms).getDay()` is a function parameter `weekday: int -> Weekday`.
- **Scheduler** (`processing.dfy`, module `Processing`, and `scheduler.dfy`, module
  `Scheduler`). `Processing.ProcessSpec` says what one `processTasks` pass does:
  - the callbacks it calls, in order, each with its `Count`;
  - the error it throws, if any.

  The class `Scheduler.Countdown` has the fields of the source's class:
  - a task queue of `Task(time, handler, index)` slots, a `seq` that the methods reassign;
  - `timeOffset`, `lastMoment` and `timeFixer`;
  - the tick timer.

  The things JavaScript runs later are explicit state, each fired by an event method:
  - armed 500 ms ticks (`Tick`);
  - unsettled fixer promises (`FixerResolved`, `FixerRejected`);
  - runs of `processTasks` queued by `addTask` (`RunImmediate`).

  Every `Date.now()` reading becomes a method parameter: the pass's starting sample
  `now`, and `resample(k)` for the fresh sample taken when slot `k` is overdue.
  `calculate` is `Counting.Calculate`. `getMoment` is `Scheduler.GetMoment`.
- **Formatters** (`formatters.dfy`, module `Formatters`). `DaysTransfer` is
  `daysTransfer` and `CountDownToText` is `countDownToText`. Both take non-negative
  integers. The current weekday of `daysTransfer` is a parameter. `IntToString` (and
  `NatToString` for non-negative values) is the decimal text a template literal writes
  for an integer a JavaScript number holds exactly, that is one of magnitude at most
  `MaxSafeInteger` = 2^53 − 1. `x | 0` is `ToInt32`, the signed 32-bit integer congruent
  to `x` modulo 2^32. A parser, `ParseCountDownText`, is proved to be the exact inverse of
  `CountDownToText` on the clocks the source writes digit for digit (`InRange`: day and
  hour at most 2^53 − 1, minute and second below 2^31).

The model follows the code where the code and its documented intent differ:

- The type guards `!task instanceof Function` parse as `(!task) instanceof Function`, so
  they are always false. `addTask`, `shiftTask` and `addTimeFixer` accept any value.
  `Handler` therefore includes `Falsy` and `NonFunction`. Calling a `NonFunction` throws
  a TypeError, which the pass captures like any other error.
- A removed (`EMPTY_EVENT_HANDLER`) or falsy slot makes `processTasks` `return`. The rest
  of the queue is not evaluated, and errors already captured are dropped.
- `fixTimeOffset` uses `||`, so a base time of `0` counts as absent.
- `shiftTask` and `removeTask` on an index that has no slot throw a TypeError, because
  `taskQueue[index]` is undefined. This is the `NoSuchSlot` error.
- `count()` only arms the timer or calls the fixer. The pass itself runs in the timer's
  callback, which is `Tick`.
- The constructor calls `count()` before it assigns `timeFixer`, so the first tick is
  always armed.
- `pause()` clears only the timer that `this.timer` names. A fixer promise still pending
  re-arms a tick when it settles. `setTimer` and `count` are public, so several ticks can
  be armed at once; `armed` is a set for that reason.
- For a passed deadline, `hour`, `minute` and `second` are zero or negative, not clock
  readings.

## Model

| member | source | states |
|---|---|---|
| `Counting.JsRem` | others/countdown.js:33 | JavaScript remainder: magnitude below the divisor, sign of the dividend, congruent to the dividend, equal to `%` for non-negative dividends |
| `Counting.DaysOff` | others/countdown.js:29 | `daysOff` is in [0,6] and is the forward distance in weekdays from today's weekday to the destiny's |
| `Counting.Calculate` | others/countdown.js:22-45 | `outTime` holds exactly when the delta is negative; `secondTotal` is the raw delta; `day` is `days` or `days+1`, equal to `days` exactly when `days % 7` (JavaScript) equals `daysOff`, and `days+1` whenever `days` is negative with a non-zero remainder |
| `Counting.CountBreakdown` | others/countdown.js:24-43 | for a delta ≥ 0: `days ≥ 0`, hour in [0,23], minute and second in [0,59], and `days*86400 + hour*3600 + minute*60 + second == floor(duration/1000)` |
| `Counting.CountBreakdownOverdue` | others/countdown.js:39-43 | for a negative delta: `outTime`, negative `days`, hour in [-24,0], minute in [-60,0], second in [-59,0] |
| `Counting.DayCountsMidnights` | others/countdown.js:26-37 | in a zone with a fixed offset, `day` of a deadline not yet passed is the number of local midnights between `moment` and the deadline |
| `Counting.CountExample` | others/countdown.js:22-45 | a delta of 3661000 ms is 0 days, 1 hour, 1 minute, 1 second, not overdue |
| `Formatters.NatToString` | others/countdown.js:268-269 | the decimal text of a number is non-empty, all digits, and has no leading zero |
| `Formatters.IntToString` | others/countdown.js:254 | the text of an integer is non-empty, starts with a minus sign exactly when the integer is negative, and is the digits alone otherwise |
| `Formatters.ToInt32` | others/countdown.js:254 | JavaScript's bitwise or with 0 gives a signed 32-bit integer congruent to `x` modulo 2^32, and is `x` itself for every `x` already in that range |
| `Formatters.DaysTransfer` | others/countdown.js:244-256 | `daysTransfer` itself, with the current weekday as a parameter; what its labels mean is stated by `DaysTransferExamples`, `DaysTransferNamesWeekday`, `DaysTransferLastChar`, `DaysTransferInjective` and `DaysTransferWraps` |
| `Formatters.DigitsRoundTrip` | others/countdown.js:254 | reading the decimal text of `n` back gives `n` |
| `Formatters.DaysTransferExamples` | others/countdown.js:245-248 | days 0, 1, 2 read "今日", "明日", "后天"; day 10 reads "10天后" |
| `Formatters.DaysTransferNamesWeekday` | others/countdown.js:249-252 | for 3 ≤ day < 8 the index `weekday + day` is inside the 14-character weekday table, and the label is "下周" or "本周" followed by the name of the weekday `day` days after today, "下" exactly when `weekday + day > 6` |
| `Formatters.DaysTransferLastChar` | others/countdown.js:244-256 | a label ends in "后" exactly when the day is 8 or more |
| `Formatters.DaysTransferInjective` | others/countdown.js:244-256 | for a fixed current weekday, different day counts below 2^31 get different labels |
| `Formatters.DaysTransferWraps` | others/countdown.js:253-254 | from eight days on, counts 2^32 apart get the same label (the bitwise or with 0), and the label starts with a minus sign exactly when the count modulo 2^32 is 2^31 or more |
| `Formatters.CountDownToText` | others/countdown.js:267-272 | `countDownToText` itself, minute and second going through a bitwise or with 0; what its texts mean is stated by `CountDownTextRoundTrip`, `ParsedTextIsCountDownText` and `CountDownTextWraps` |
| `Formatters.CountDownTextRoundTrip` | others/countdown.js:267-272 | for a clock in range, the countdown text parses back to exactly the day, hour, minute and second it was made from (zero day and hour being left out) |
| `Formatters.ParsedTextIsCountDownText` | others/countdown.js:267-272 | every text the parser accepts reads a clock in range, and is the countdown text of that clock |
| `Formatters.CountDownTextWraps` | others/countdown.js:271 | a second count from 2^31 to 2^32 − 1 is written as "0分-" followed by the digits of 2^32 minus the count, and that text does not parse |
| `Formatters.CountTextReadsBack` | others/countdown.js:281-288 | the countdown text of a Count not yet overdue (with at most 2^53 − 1 whole days) reads back its days, hours, minutes and seconds, which add up to the whole seconds left |
| `Basics.Abs` | others/countdown.js:9 | `Math.abs`: the result is never negative and is `x` or `−x` |
| `Processing.Stops` | others/countdown.js:129 | the test that the slot's handler is falsy or is `EMPTY_EVENT_HANDLER`; `EarlyExit` states what it does to a pass |
| `Processing.Delivers` | others/countdown.js:131-143 | the test that decides whether a slot is called: deadline not passed, or a fresh sample within 10000 ms of `lastMoment`; `DeliveryRule` states that the pass calls exactly these slots |
| `Processing.ProcessSpec` | others/countdown.js:119-156 | one `processTasks` pass as a value: the calls and the thrown error; its meaning is stated by `DeliveryRule`, `EarlyExit`, `FirstErrorThrown`, `ThrowsEarliestFailure` and `CalledSlotThrows`, and `Scheduler.Countdown.ProcessTasks` is proved to compute it |
| `Processing.ThrowsEarliestFailure` | others/countdown.js:125-155 | in a pass that meets no stopping slot, the error thrown is the one the earliest failing call threw |
| `Processing.CalledSlotThrows` | others/countdown.js:125-155 | in a pass that meets no stopping slot, a called slot holding a non-function makes the pass throw a TypeError, and a called callback that throws makes the pass rethrow its value, unless an earlier call failed |
| `Processing.FirstStop` | others/countdown.js:125-129 | the first slot whose handler is falsy or the sentinel, or the length of the queue |
| `Processing.DeliveryRule` | others/countdown.js:119-143 | the pass calls exactly the slots before the first stop whose deadline has not passed or whose fresh sample is within 10000 ms of `lastMoment`, each with its own handler and `Calculate(time - moment, moment)` |
| `Processing.EarlyExit` | others/countdown.js:125-129 | a pass that reaches a removed or falsy slot throws nothing and calls no slot at or after it |
| `Processing.FirstErrorThrown` | others/countdown.js:125-155 | a pass that meets no stopping slot throws nothing exactly when no call failed, and otherwise throws the error of the earliest failing call |
| `Processing.CallsBeforeSound` | others/countdown.js:125-143 | each recorded call is the call of a delivering slot, with that slot's handler and Count |
| `Processing.CallsBeforeOrdered` | others/countdown.js:125 | calls are made in strictly increasing slot order, so each slot at most once |
| `Processing.CallsBeforeComplete` | others/countdown.js:125-143 | every delivering slot is called, right after the calls of the slots before it |
| `Processing.ErrorsBeforeFirst` | others/countdown.js:148-149 | captured errors are empty exactly when no call failed, and start with the earliest failure |
| `Scheduler.GetMoment` | others/countdown.js:230-232 | `getMoment(offset)`: the clock sample minus the offset; `OffsetFor` is stated through it |
| `Scheduler.ShouldFix` | others/countdown.js:206-209 | the test in `count()`: the fixer is a function and the sample is more than 10000 ms from `lastMoment`; `Scheduler.Countdown.Count` states what follows from it |
| `Scheduler.OffsetFor` | others/countdown.js:186-188 | a missing or zero base gives offset 0; any other base makes the corrected clock read the base |
| `Scheduler.Countdown.constructor` | others/countdown.js:56-66 | empty queue, offset from `baseTime`, `lastMoment` from the fix, no fixer, exactly one tick armed |
| `Scheduler.Countdown.AddTask` | others/countdown.js:76-90 | appends exactly `[time, task, oldLength]`, returns the old length (new length − 1), queues one immediate pass |
| `Scheduler.Countdown.ShiftTask` | others/countdown.js:105-112 | sets slot `i` to the new time and handler, keeping its index and every other slot; fails only when there is no slot `i` |
| `Scheduler.Countdown.RemoveTask` | others/countdown.js:95-97 | the slot keeps its time and index and gets the sentinel handler; fails only when there is no slot |
| `Scheduler.Countdown.ProcessTasks` | others/countdown.js:119-156 | the pass is `ProcessSpec` of the queue with `moment = now - timeOffset` and the scheduler's `lastMoment`; no field changes |
| `Scheduler.Countdown.AddTimeFixer` | others/countdown.js:164-170 | the fixer is replaced by the given value, and nothing else changes |
| `Scheduler.Countdown.FixTimeOffset` | others/countdown.js:186-191 | `timeOffset` becomes `OffsetFor(base, moment)` and `lastMoment` the later sample; nothing else changes |
| `Scheduler.Countdown.SetTimer` | others/countdown.js:193-200 | one new tick is armed, and its handle is remembered |
| `Scheduler.Countdown.Count` | others/countdown.js:202-223 | the fixer is called exactly when it is a function and the sample is more than 10000 ms from `lastMoment`; otherwise a tick is armed |
| `Scheduler.Countdown.Pause` | others/countdown.js:234-236 | only the tick named by `this.timer` is disarmed |
| `Scheduler.Countdown.Tick` | others/countdown.js:194-198 | the fired tick runs the pass; a thrown error skips `count()` and the `lastMoment` update; otherwise `count()` runs and `lastMoment` becomes the last sample |
| `Scheduler.Countdown.FixerResolved` | others/countdown.js:210-214 | the offset is fixed from the resolved base, `lastMoment` reset, and a tick armed |
| `Scheduler.Countdown.FixerRejected` | others/countdown.js:215-218 | a tick is armed and the rejection is thrown again |
| `Scheduler.Countdown.RunImmediate` | others/countdown.js:86-87 | the pass queued by `addTask` runs as `ProcessSpec` and changes no other field |

## Left out

- `image-process/load-img-from-url.js` and `image-process/download-file-by-url.js`: one-shot browser I/O with no state or logic.
- Real timing: `setTimeout`, `clearTimeout`, the 500 ms and 0 ms delays and `Date.now()` become event methods and clock parameters. The order in which the event loop fires them is the caller's choice of which event method to call.
- Promise asynchrony: a fixer call is a pending promise that settles later through `FixerResolved` or `FixerRejected`. A fixer that throws synchronously, or returns something that is not a promise, is not modelled. Unhandled-rejection reporting is only the returned `rethrown` error.
- Time zones and locales: `getDay()` is the parameter `weekday`. `DayCountsMidnights` assumes a zone with a fixed offset (no daylight-saving change).
- JavaScript coercions: fractional and non-numeric times, `| 0` on fractions or `undefined`, default parameters and `daysSet[negative]`. All times are integers, and the formatters take `nat`. `| 0` on integers is modelled exactly by `ToInt32`.
- CountDownToText: `day` and `hour` are written in plain decimal whatever their size. JavaScript writes exactly the same text up to 2^53 − 1; above that a number no longer holds every integer, and from 10^21 on it is written with an exponent. `CountDownTextRoundTrip`, `ParsedTextIsCountDownText` and `CountTextReadsBack` are stated only up to 2^53 − 1 for that reason.
- DaysTransfer: day counts above 2^53 − 1, which a JavaScript number does not hold exactly, are taken as exact integers.
- DaysTransferInjective: stated for counts below 2^31 only, because `day | 0` makes larger counts share labels, as `DaysTransferWraps` shows.
- CountDownTextRoundTrip: stated for clocks in `InRange` only; a minute or second of 2^31 or more is written wrapped by `| 0` (`CountDownTextWraps`), and day and hour are exact only up to 2^53 − 1.
- ParsedTextIsCountDownText: the parser accepts only clocks in `InRange`, the ones whose text the source writes digit for digit.
- User callbacks: a callback's effect is only its `Outcome`, a function of its identity and the Count it gets. Callbacks that change the scheduler while a pass runs are not modelled.
- The unused `timeFixerIndex` field and the ignored argument of `setTimer(2)`.
- The identity of handler functions beyond `EMPTY_EVENT_HANDLER`. The sentinel can reach the caller: `taskQueue` is a public field, so `taskQueue[i][1]` of a removed slot is the sentinel itself. `AddTask` and `ShiftTask` take any `Handler`, `EmptyHandler` included, so storing it again is modelled. Passing it to `addTimeFixer` makes `count()` call a function that returns `undefined` and throw on `.then`; that is the synchronous fixer failure not modelled above.
