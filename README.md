# progress: a verified model of the `Progress` stream decorator

`Progress<R>` (src/lib.rs) wraps a reader or a writer. Every successful `read` or
`write` is forwarded to the wrapped stream, and the number of bytes it confirms is
added to `current`. When more than `interval` bytes have gone unreported since
`lastupdate`, the user's printer is called with `(current, total)` and
`lastupdate` catches up with `current`. Errors from the wrapped stream are
returned at once (`try!`) and change nothing. `flush` only delegates.

The model has two modules:

- `Throttle` (throttle.dfy) describes the counters as values. `Counter` holds
  `total`, `current`, `lastupdate` and `interval`. `Step` is one `read`/`write`
  given the wrapped stream's answer (`Ok(amt)` or `Err(e)`). `Run` folds `Step`
  over a sequence of answers and collects the printer calls. `Throttled` is the
  relation that holds between calls:
  `lastupdate <= current && current - lastupdate <= interval`.
  The lemmas state what one call does and what any sequence of calls adds up to.
- `ProgressStream` (progress.dfy) holds the class `Progress`. Its fields are the
  four counters of the Rust struct. Two ghost fields record the wrapped stream's
  answers (`history`) and the printer calls (`reports`). `Valid()` says the
  counters and the log are what `Run` gives for `history` from a fresh object,
  and that `Throttled` holds. `Record` is the body shared by `read` and `write`.
  It updates the fields in place as the Rust code does and is proved equal to
  `Step`. `Read` and `Write` call it. `Lifetime` turns the `Run` lemmas into
  facts about any reachable object.

The wrapped stream is not modelled. Its answer to each call is an input
parameter (`inner`). The printer closure is a ghost log of the pairs it receives.

The source has two `new` functions, one for readers and one for writers. Both
set `current`, `lastupdate` and `interval` to 0, and no setter for `interval`
exists. The model has one constructor that takes `interval` as a parameter, so
the throttle rule is stated for every interval. With `interval = 0` it behaves
as shipped: `RunReportCount` and `IntervalZeroReportsEveryChunk` cover that case.

Two worked traces: `ExampleIntervalZero` uses `total = 1000`, `interval = 0`
and reads of 100, 0 and 50 bytes; it reports `(100, 1000)` and then
`(150, 1000)`. `ExampleInterval200` uses `total = 500`, `interval = 200` and six
writes of 50 bytes; it reports once, `(250, 500)`, after the fifth write. The
next report would need more than 450 bytes in all.

## Model

| member | source | states |
|---|---|---|
| `ProgressStream.Progress.constructor` | src/lib.rs:15-23 | a new decorator starts with `current == 0`, `lastupdate == 0`, the given `total` (and `interval`), no printer call and the throttle relation holding |
| `ProgressStream.Progress.Record` | src/lib.rs:41-50 | the shared read/write step: it returns the inner answer unchanged, and the new counters and printer log are exactly those `Step` gives from the old ones; `Valid()` is kept |
| `ProgressStream.Progress.Read` | src/lib.rs:40-52 | `read` returns the wrapped stream's answer unchanged and moves the counters and log as `Step` says |
| `ProgressStream.Progress.Write` | src/lib.rs:54-65 | `write` returns the wrapped stream's answer unchanged and moves the counters and log as `Step` says |
| `ProgressStream.Progress.Flush` | src/lib.rs:67-69 | `flush` returns the wrapped stream's answer and changes no counter and no log entry |
| `ProgressStream.Progress.Lifetime` | src/lib.rs:5-12 | in every reachable state, `current` is the sum of confirmed byte counts, `lastupdate <= current <= lastupdate + interval`, the reported values strictly increase, none exceeds `lastupdate`, each carries `total`, the last one equals `lastupdate`, and there is at most one report per non-empty success (exactly one when `interval == 0`) |
| `Throttle.ErrChangesNothing` | src/lib.rs:42 | an inner error is returned as it is, with counters unchanged and no printer call |
| `Throttle.OkCountsAndReports` | src/lib.rs:43-50 | on `Ok(amt)`: `Ok(amt)` is returned, `current` grows by exactly `amt`, `total` and `interval` stay the same, and the printer is called iff `current - lastupdate > interval` after the addition; when called it gets `(current, total)` and `lastupdate` becomes `current`, otherwise `lastupdate` stays |
| `Throttle.StepKeepsThrottled` | src/lib.rs:43-48 | every call keeps `lastupdate <= current && current - lastupdate <= interval`, so the subtraction in the guard never goes below zero, and `lastupdate` never moves back |
| `Throttle.ZeroBytesNeverReport` | src/lib.rs:43-48 | between calls, a zero-byte success changes nothing and does not call the printer |
| `Throttle.IntervalZeroReportsEveryChunk` | src/lib.rs:44-48 | with `interval == 0`, every success of at least one byte calls the printer with the new `(current, total)` |
| `Throttle.RunCountsConfirmed` | src/lib.rs:43 | after any sequence of calls, `current` has grown by exactly the sum of the successful calls' `amt`; `total` and `interval` never change |
| `Throttle.RunReportsIncrease` | src/lib.rs:44-48 | over any sequence of calls from a throttled state, the relation still holds, the reported `current` values strictly increase, each is above the starting `lastupdate` and at most the final `current`, each carries the unchanged `total`, and `lastupdate` is the last reported value |
| `Throttle.RunReportCount` | src/lib.rs:44-48 | errors and zero-byte successes never call the printer, so there are at most as many printer calls as non-empty successes; with `interval == 0` there are exactly as many |
| `Throttle.RunSplit` | src/lib.rs:40-51 | running two sequences of calls one after the other is running their concatenation: the printer log of the whole is the two logs in order |
| `Throttle.ReportIsConfirmedSoFar` | src/lib.rs:43-46 | no over-reporting: a printer call reports exactly the bytes confirmed by the calls up to and including the one that made it, together with `total` |
| `Throttle.ExampleIntervalZero` | src/lib.rs:40-51 | reads of 100, 0 and 50 bytes with `interval = 0` and `total = 1000` report `(100, 1000)` and `(150, 1000)` and nothing else |
| `Throttle.ExampleInterval200` | src/lib.rs:54-65 | six 50-byte writes with `interval = 200` and `total = 500` report only `(250, 500)` |

## Left out

- The wrapped stream (`inner`), the buffers and their contents: the stream is foreign code. Its answer to each call is a parameter of `Read`, `Write` and `Flush`.
- The printer closure: it is opaque user code. Each call is a ghost log entry. A panic raised inside the printer is not modelled.
- `u64` width: `current`, `lastupdate`, `interval` and `total` are unbounded `nat`. The overflow of `current += amt as u64` (a panic in debug builds, wrap-around in release builds) is not modelled. The `usize` to `u64` conversion of `amt` is treated as exact.
- `ProgressStream.Progress.constructor`: the source's two `new` functions always set `interval` to 0. The model takes `interval` as a constructor argument, and the source's behaviour is the `interval == 0` case.
- The two `new` functions differ only in their trait bound (`Read` or `Write`). They are modelled by one constructor, and `Read` and `Write` are both methods of one class.
- The test `it_works` (src/lib.rs:73-75) asserts nothing and has no counterpart.
