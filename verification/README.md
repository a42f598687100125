# Coalescing job queue and badge label of HTTP Switchboard

This project models two sequential pieces of `js/async.js` from the HTTP
Switchboard browser extension and proves properties of the model in Dafny.

1. **The coalescing job queue** (`asyncJobEntry`, `asyncJobQueue.add`,
   `asyncJobQueue._process`, `asyncJobQueueHandler`). Producers file a named
   job with a payload, a callback and a delay. A later request under the same
   name overwrites the pending job in place, so a burst of requests collapses
   into one firing of the last one. A timer tick visits a snapshot of the job
   names. It skips jobs that are not due. It fires each due job, then
   reschedules it when its period is non-zero, or else retires its cleared
   record to the `junkyard` free list. `add` reuses that list before it
   allocates anything. The tick skips the scan when no job is pending.
2. **The badge label** (the count-to-text block of `updateBadgeCallback`).
   A request count becomes its decimal numeral below 1000. Above that it
   becomes `d.dK`, `NNNK`, `d.dM` or `NNM`, cut out of the numeral with
   `String.prototype.slice`, so digits are dropped and never rounded.

Files:

- `job_queue.dfy` (module `JobQueue`): the entry, queue and event datatypes.
  It also holds the queue invariant `Valid`, `Add`, the loop body `Visit`, the
  reference `AfterProcess` of a whole pass, and the methods `Process` (the
  `while (i--)` loop) and `Handler`.
- `job_queue_properties.dfy` (module `JobQueueProperties`): coalescing, the
  fate of each job in a pass, fire-exactly-once, the idle fast path, and the
  two scenarios the queue exists for.
- `decimal.dfy` (module `Decimal`): `NatToString`, the decimal rendering of
  `Number.prototype.toString()`, with its inverse `StringToNat` and digit facts.
- `js_string.dfy` (module `JsString`): ECMAScript `String.prototype.slice`
  on integer arguments.
- `badge.dfy` (module `Badge`): `FormatBadge`, the label written as the source
  writes it. It also holds `ParseBadge`, which reads a label back to the number
  it stands for, and the lemmas about both.
- `wrappers.dfy` (module `Wrappers`): `Option`.

Modelling choices:

- State is immutable. `Add` returns the new queue. `Process` and `Handler`
  return the new queue together with the trace of callbacks they fired.
- The clock (`Date.now()`) is a `now` parameter.
- The key snapshot (`Object.keys(this.jobs)`) is a `keys` parameter. Any
  sequence of distinct pending names is accepted. `Object.keys` always gives
  one that lists every pending name, which is a special case.
- Payloads and callbacks are opaque references (`Value`). Calling a callback
  is recorded as a `Fired(name, callback, data)` event.
- `Entry.rid` stands for JavaScript object identity. The source never reads
  it. It makes "reuse a junkyard record" distinguishable from "allocate a new
  one". `Queue.nextRid` counts allocations.
- `Valid` is the invariant of every reachable queue:
  - `jobCount` equals the number of pending jobs;
  - each job is filed under its own name and has a callback;
  - every junkyard record is cleared;
  - every record ever allocated is in exactly one place: pending under one
    name, or once in the junkyard.

Where the code departs from how such a queue is usually described, the model follows the code:

- The junkyard is a stack (`pop`/`push` at the end), not an unordered pool.
- A pass visits the snapshot from its last name to its first.
- A callback failure is not isolated. Nothing in the code catches it, and the
  model does not add any catching (see "Left out").
- `period` is both the interval and the recurring flag. A recurring request
  with delay 0 therefore behaves as a one-shot job
  (`JobQueueProperties.ZeroDelayRecurringRetires`).

## Model

| member | source | states |
|---|---|---|
| JobQueue.Empty | js/async.js:37-40 | the queue as created (no jobs, count 0, empty junkyard) satisfies the invariant |
| JobQueue.Nullify | js/async.js:32-35 | a nullified record holds neither payload nor callback, and keeps its identity, name, due time and period |
| JobQueue.Add | js/async.js:43-59 | after `add` the name is pending with the latest payload and callback, `when == now + delay` and `period == (recurrent ? delay : 0)`; the key set gains exactly that name and no other entry changes; `jobCount` grows by one exactly when the name was absent; a pending record is updated in place; otherwise the last junkyard record is reused and the junkyard shrinks by one; a record is allocated if and only if the name was absent and the junkyard empty |
| JobQueue.AddKeepsValid | js/async.js:44-58 | `add` preserves the invariant: one entry per name filed under its own name, `jobCount == |jobs|`, cleared junkyard, every record in exactly one place |
| JobQueue.Visit | js/async.js:67-79 | one loop turn: a job not due is skipped with no effect; a due job fires once with its own callback and payload; the invariant is preserved and every other job is untouched |
| JobQueue.ProcessStep | js/async.js:64-80 | visiting the next name of the snapshot (walking backwards) finds its job untouched by the earlier turns, and extends the pass over the later names to the pass over one more name |
| JobQueue.ProcessKeepsValid | js/async.js:71-79 | a pass over any suffix of the snapshot preserves the invariant; in particular retiring decrements `jobCount` in step with the table |
| JobQueue.ProcessEmptyTable | js/async.js:61-81 | over an empty table a pass fires nothing and changes nothing |
| JobQueue.Process | js/async.js:61-81 | the `while (i--)` loop computes exactly the reference pass `AfterProcess`: the jobs, count, junkyard and fired trace it describes; the result is valid |
| JobQueue.Handler | js/async.js:84-88 | with `jobCount == 0` the handler changes nothing and fires nothing; in every case its result equals a full pass, so the fast path is exact, and the result is valid |
| JobQueueProperties.AddCoalesces | js/async.js:44-58 | two `add` calls under one name give the same queue as the second alone: the earlier request is dropped and can never fire |
| JobQueueProperties.BurstCoalesces | js/async.js:43-59 | any non-empty burst of `add` calls under one name gives the same queue as its last call alone |
| JobQueueProperties.ZeroDelayRecurringRetires | js/async.js:58 | a recurring request with delay 0 gets period 0, fires once and is retired like a one-shot job |
| JobQueueProperties.ProcessLeavesOthers | js/async.js:63-70 | a job that is not due, or whose name is not in the snapshot, is left exactly as it was |
| JobQueueProperties.ProcessReschedules | js/async.js:72-73 | a due recurring job stays pending with `when == now + period`, everything else about it unchanged |
| JobQueueProperties.ProcessRetires | js/async.js:74-79 | a due one-shot job leaves the table; the old junkyard stays a prefix and the job's cleared record is among the records pushed after it |
| JobQueueProperties.RetiredHolds | js/async.js:74-78 | every due one-shot job of the snapshot contributes its cleared record to the records the pass retires |
| JobQueueProperties.FiresExactlyOnce | js/async.js:66-71 | a pass fires a name exactly once when it is in the snapshot, pending and due, and never otherwise |
| JobQueueProperties.FiredFromTable | js/async.js:67-71 | every firing is of a due job of the snapshot and passes that job's own payload to that job's own callback |
| JobQueueProperties.IdleTickDoesNothing | js/async.js:84-88 | for a valid queue with `jobCount == 0`, a pass would fire nothing and change nothing, so skipping it loses nothing |
| JobQueueProperties.BurstScenario | js/async.js:43-81 | two requests for "A" 50 ms apart with ticks every 100 ms: nothing fires at 100 or 200; at 300 only the second callback fires, with the second payload, and the record is retired |
| JobQueueProperties.RecurringScenario | js/async.js:43-81 | a recurring 250 ms job fires at the 300 ms tick, is due again at 550, fires again at 600 with the same payload and callback, and stays pending |
| Decimal.NatToString | js/async.js:111 | the numeral of a count is canonical (digits only, no leading zero), ends in the count's last digit, and has one character exactly for counts below 10 |
| Decimal.StringToNatOfNatToString | js/async.js:111 | reading back the numeral gives the count |
| Decimal.NatToStringOfStringToNat | js/async.js:111 | every canonical numeral is the rendering of its value, so rendering is a bijection onto canonical numerals |
| Decimal.PrefixIsDropDigits | js/async.js:116 | cutting the last `k` characters off a numeral gives the numeral of the number with its `k` lowest digits dropped |
| JsString.RelativeIndex | js/async.js:114 | a `slice` argument lands in `[0, len]`; a non-negative one in range is kept, a negative one counts back from the end |
| JsString.Slice | js/async.js:114-120 | `slice` returns the characters between the two resolved positions, or the empty string when they cross |
| Badge.BadgeBelowThousand | js/async.js:111-112 | counts below 1000 are shown as their plain numeral |
| Badge.BadgeThousands | js/async.js:113-114 | counts in [1000, 10000) are shown as the thousands digit, `.`, the hundreds digit, `K` |
| Badge.BadgeTensOfThousands | js/async.js:115-116 | counts in [10^4, 10^6) are shown as the numeral of `count div 1000` followed by `K` |
| Badge.BadgeMillions | js/async.js:117-118 | counts in [10^6, 10^7) are shown as the millions digit, `.`, the hundred-thousands digit, `M` |
| Badge.BadgeTensOfMillions | js/async.js:119-120 | counts from 10^7 on are shown as the numeral of `count div 10^6` followed by `M` |
| Badge.BadgeFitsFour | js/async.js:110-122 | every label for a count below 10^9 has one to four characters |
| Badge.BadgeAtBillion | js/async.js:119-120 | the four-character bound is tight: 10^9 is shown as "1000M" |
| Badge.BadgeTruncates | js/async.js:111-122 | every label reads back as the count rounded down to the label's last shown digit (1, 100, 1000, 10^5 or 10^6), so it never overstates the count and understates it by less than one unit of that digit |
| Badge.BadgeExamplesSmall | js/async.js:111-114 | 999 is "999", 1000 is "1.0K", 1999 is "1.9K" |
| Badge.BadgeExamplesThousands | js/async.js:115-116 | 10000 is "10K", 999999 is "999K" |
| Badge.BadgeExamplesMillions | js/async.js:117-120 | 1500000 is "1.5M", 9999999 is "9.9M", 123456789 is "123M" |

## Left out

- The timer driver `setInterval(asyncJobQueueHandler, 100)` and the clock `Date.now()` are I/O. The tick time is the `now` parameter.
- The `resolution: 200` field of `asyncJobQueue` is not modelled, because no code reads it.
- Callback bodies and all host calls (`chrome.browserAction.*`, `chrome.runtime.sendMessage`, `chrome.tabs.create`) are side effects in the host. Each callback call is recorded as a `Fired` event.
- Re-entrant `add` calls made from inside a firing callback are not modelled. Callbacks are treated as non-reentrant, so the snapshot and every entry stay as the pass left them between turns.
- Exceptions thrown by callbacks are not modelled. In the code such an exception escapes `_process` and abandons the rest of that pass, and the model adds no catching of its own.
- JobQueue.Add: the callback argument is a non-null function reference. A call with a null or missing callback, which only fails when the job fires, is not modelled.
- JobQueue.Add: `delay` is an integer and `recurrent` a boolean. Non-numeric or fractional delays and truthy non-boolean flags are not modelled, and JavaScript's double arithmetic on `now + delay` is taken as exact, as it is for realistic timestamps.
- JobQueue.Add: names are plain map keys. A name that coincides with an `Object.prototype` property such as `toString` is not modelled; in the code the lookup `this.jobs[name]` would find the inherited property.
- JobQueue.Process: the snapshot order is a parameter. `Object.keys` order is not modelled (integer-like names first, then insertion order); every property holds for any order of distinct pending names.
- Decimal.NatToString: does not model the exponential notation `toString()` switches to at 10^21 and above, because a badge count is a number of recorded requests and never gets that large.
- The lookups in `updateBadgeCallback` (`HTTPSB.behindTheSceneURL`, `tabIdFromPageUrl`, `pageStatsFromTabId`) and the request counting before the label are foreign lookups not shown here. Only the count-to-label block is modelled.
- The producers `updateBadge`, `permissionsChanged` and `urlStatsChanged` are thin wrappers over `add` and are not modelled. Neither is `onMessageHandler`, which is message dispatch to external functions plus settings persistence.
