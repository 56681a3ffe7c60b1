/**
 * The counter and throttle state machine of the `Progress` stream decorator,
 * as values: what one successful or failed read/write does to the counters,
 * whether it calls the printer, and what a whole sequence of such calls adds up to.
 *
 * The class in progress.dfy keeps its fields equal to these values.
 */
module Throttle {

  datatype Option<T> = None | Some(value: T)

  /** Stands for `std::io::Error`: the decorator never looks inside it, it only passes it on. */
  datatype IoError = IoError(code: int)

  /** Stands for `std::io::Result<T>`, the result of the wrapped stream's own call. */
  datatype IoResult<T> = Ok(value: T) | Err(error: IoError)

  /** The pair `(current, total)` handed to the printer. */
  type Report = (nat, nat)

  /** The four counters of a `Progress` value (`total`, `current`, `lastupdate`, `interval`). */
  datatype Counter = Counter(total: nat, current: nat, lastupdate: nat, interval: nat)

  /** What one call does: the counters afterwards, the printer call it made (if any), and what it returns. */
  datatype Effect = Effect(after: Counter, report: Option<Report>, returned: IoResult<nat>)

  /** The counters after a sequence of calls, and every printer call made, oldest first. */
  datatype Trace = Trace(final: Counter, reports: seq<Report>)

  /**
   * The relation that holds between calls: the last report is not ahead of the
   * count, and fewer than `interval + 1` bytes have gone unreported.
   */
  predicate Throttled(c: Counter) {
    c.lastupdate <= c.current && c.current - c.lastupdate <= c.interval
  }

  /** The counters of a freshly constructed decorator. */
  function Start(total: nat, interval: nat): Counter {
    Counter(total, 0, 0, interval)
  }

  /**
   * One `read` or `write`: an error from the wrapped stream is returned at once
   * with nothing changed; `amt` confirmed bytes are added to `current`, and if
   * more than `interval` bytes are now unreported the printer gets
   * `(current, total)` and `lastupdate` catches up with `current`.
   */
  function Step(c: Counter, res: IoResult<nat>): Effect {
    match res
    case Err(_) => Effect(c, None, res)
    case Ok(amt) =>
      var added := c.(current := c.current + amt);
      if added.current - added.lastupdate > added.interval then
        Effect(added.(lastupdate := added.current), Some((added.current, added.total)), res)
      else
        Effect(added, None, res)
  }

  function ReportsOf(o: Option<Report>): seq<Report> {
    match o
    case None => []
    case Some(p) => [p]
  }

  /** Runs the calls `rs` in order from the counters `c`. */
  function Run(c: Counter, rs: seq<IoResult<nat>>): Trace
    decreases |rs|
  {
    if rs == [] then Trace(c, [])
    else
      var prev := Run(c, rs[..|rs| - 1]);
      var e := Step(prev.final, rs[|rs| - 1]);
      Trace(e.after, prev.reports + ReportsOf(e.report))
  }

  /** Bytes a call's result confirms as transferred. */
  function Confirmed(res: IoResult<nat>): nat {
    match res
    case Ok(amt) => amt
    case Err(_) => 0
  }

  /** The sum of the byte counts of the successful calls in `rs`. */
  function SumConfirmed(rs: seq<IoResult<nat>>): nat
    decreases |rs|
  {
    if rs == [] then 0 else SumConfirmed(rs[..|rs| - 1]) + Confirmed(rs[|rs| - 1])
  }

  /** The number of successful calls in `rs` that moved at least one byte. */
  function NonEmpty(rs: seq<IoResult<nat>>): nat
    decreases |rs|
  {
    if rs == [] then 0
    else NonEmpty(rs[..|rs| - 1]) + (if Confirmed(rs[|rs| - 1]) > 0 then 1 else 0)
  }

  predicate StrictlyIncreasing(reports: seq<Report>) {
    forall i, j :: 0 <= i < j < |reports| ==> reports[i].0 < reports[j].0
  }

  // ---------------------------------------------------------------------------
  // One call
  // ---------------------------------------------------------------------------

  /** A failing inner call is returned as it is and changes nothing (`try!`). */
  lemma ErrChangesNothing(c: Counter, e: IoError)
    ensures Step(c, Err(e)) == Effect(c, None, Err(e))
  {
  }

  /**
   * A successful inner call: `Ok(amt)` is returned unchanged, `current` grows by
   * exactly `amt`, the printer is called (once) exactly when more than `interval`
   * bytes are unreported, with `(current, total)`, and then `lastupdate == current`.
   */
  lemma OkCountsAndReports(c: Counter, amt: nat)
    ensures var e := Step(c, Ok(amt));
      && e.returned == Ok(amt)
      && e.after.current == c.current + amt
      && e.after.total == c.total && e.after.interval == c.interval
      && (e.report.Some? <==> c.current + amt - c.lastupdate > c.interval)
      && (e.report.Some? ==> e.report.value == (e.after.current, c.total) && e.after.lastupdate == e.after.current)
      && (e.report.None? ==> e.after.lastupdate == c.lastupdate)
  {
  }

  /** Every call keeps the between-calls relation, so `current - lastupdate` never goes below zero. */
  lemma StepKeepsThrottled(c: Counter, res: IoResult<nat>)
    requires Throttled(c)
    ensures Throttled(Step(c, res).after)
    ensures c.lastupdate <= Step(c, res).after.lastupdate
  {
  }

  /** A zero-byte success (end of stream) never calls the printer and changes nothing. */
  lemma ZeroBytesNeverReport(c: Counter)
    requires Throttled(c)
    ensures Step(c, Ok(0)) == Effect(c, None, Ok(0))
  {
  }

  /** With `interval == 0`, every success that moves at least one byte calls the printer. */
  lemma IntervalZeroReportsEveryChunk(c: Counter, amt: nat)
    requires Throttled(c) && c.interval == 0 && amt > 0
    ensures Step(c, Ok(amt)).report == Some((c.current + amt, c.total))
  {
  }

  // ---------------------------------------------------------------------------
  // A sequence of calls
  // ---------------------------------------------------------------------------

  /** Unfolds `Run` for a trace that ends in the call `r`. */
  lemma RunSnoc(c: Counter, rs: seq<IoResult<nat>>, r: IoResult<nat>)
    ensures var prev := Run(c, rs);
      var e := Step(prev.final, r);
      Run(c, rs + [r]) == Trace(e.after, prev.reports + ReportsOf(e.report))
  {
    assert (rs + [r])[..|rs|] == rs;
  }

  /** After any calls, `current` has grown by exactly the sum of the confirmed byte counts. */
  lemma {:induction false} RunCountsConfirmed(c: Counter, rs: seq<IoResult<nat>>)
    ensures Run(c, rs).final.current == c.current + SumConfirmed(rs)
    ensures Run(c, rs).final.total == c.total && Run(c, rs).final.interval == c.interval
    decreases |rs|
  {
    if rs != [] {
      RunCountsConfirmed(c, rs[..|rs| - 1]);
    }
  }

  /**
   * Over any calls from a throttled state: the relation still holds, the values
   * of `current` handed to the printer strictly increase, each lies above the
   * starting `lastupdate` and at most at the final `current`, every report carries
   * `total` unchanged, and `lastupdate` is the last reported value.
   */
  lemma {:induction false} RunReportsIncrease(c: Counter, rs: seq<IoResult<nat>>)
    requires Throttled(c)
    ensures var t := Run(c, rs);
      && Throttled(t.final)
      && c.lastupdate <= t.final.lastupdate
      && StrictlyIncreasing(t.reports)
      && (forall k :: 0 <= k < |t.reports| ==>
            c.lastupdate < t.reports[k].0 <= t.final.lastupdate <= t.final.current && t.reports[k].1 == c.total)
      && (t.reports == [] ==> t.final.lastupdate == c.lastupdate)
      && (t.reports != [] ==> t.reports[|t.reports| - 1].0 == t.final.lastupdate)
    decreases |rs|
  {
    if rs != [] {
      var init, r := rs[..|rs| - 1], rs[|rs| - 1];
      RunReportsIncrease(c, init);
      RunCountsConfirmed(c, init);
      var prev := Run(c, init);
      var e := Step(prev.final, r);
      StepKeepsThrottled(prev.final, r);
      assert Run(c, rs) == Trace(e.after, prev.reports + ReportsOf(e.report));
      match e.report
      case None =>
        assert e.after.lastupdate == prev.final.lastupdate;
      case Some(p) =>
        OkCountsAndReports(prev.final, Confirmed(r));
        assert p.0 == e.after.lastupdate && p.1 == c.total;
        assert prev.final.lastupdate < p.0;
        ReportsAppended(c, prev.reports, p, prev.final.lastupdate, e.after.lastupdate, e.after.current);
    }
  }

  /** Appending a report above every earlier one keeps the log increasing and bounded. */
  lemma ReportsAppended(c: Counter, reports: seq<Report>, p: Report, last: nat, next: nat, current: nat)
    requires StrictlyIncreasing(reports)
    requires forall k :: 0 <= k < |reports| ==> c.lastupdate < reports[k].0 <= last && reports[k].1 == c.total
    requires c.lastupdate <= last < p.0 == next <= current && p.1 == c.total
    ensures var all := reports + [p];
      && StrictlyIncreasing(all)
      && (forall k :: 0 <= k < |all| ==> c.lastupdate < all[k].0 <= next <= current && all[k].1 == c.total)
      && all[|all| - 1].0 == next
  {
  }

  /**
   * Only non-empty successes call the printer; with `interval == 0` every one of
   * them does, so the printer is called exactly once per non-empty success.
   */
  lemma {:induction false} RunReportCount(c: Counter, rs: seq<IoResult<nat>>)
    requires Throttled(c)
    ensures |Run(c, rs).reports| <= NonEmpty(rs)
    ensures c.interval == 0 ==> |Run(c, rs).reports| == NonEmpty(rs)
    decreases |rs|
  {
    if rs != [] {
      var init := rs[..|rs| - 1];
      RunReportCount(c, init);
      RunReportsIncrease(c, init);
      RunCountsConfirmed(c, init);
    }
  }

  /** Running `a` then `b` is running `a + b`: the printer log of the whole is the two logs in order. */
  lemma {:induction false} RunSplit(c: Counter, a: seq<IoResult<nat>>, b: seq<IoResult<nat>>)
    ensures var mid := Run(c, a);
      var rest := Run(mid.final, b);
      Run(c, a + b) == Trace(rest.final, mid.reports + rest.reports)
    decreases |b|
  {
    if b == [] {
      assert a + b == a;
    } else {
      var init := b[..|b| - 1];
      var r := b[|b| - 1];
      assert b == init + [r];
      assert a + b == (a + init) + [r];
      RunSplit(c, a, init);
      RunSnoc(c, a + init, r);
      RunSnoc(Run(c, a).final, init, r);
    }
  }

  /**
   * No over-reporting: when the call `r` that follows the calls `pre` calls the
   * printer, the `current` it reports is exactly the number of bytes confirmed by
   * `pre + [r]`, and it reports `total`.
   */
  lemma ReportIsConfirmedSoFar(c: Counter, pre: seq<IoResult<nat>>, r: IoResult<nat>)
    requires Step(Run(c, pre).final, r).report.Some?
    ensures Step(Run(c, pre).final, r).report.value == (c.current + SumConfirmed(pre + [r]), c.total)
  {
    RunCountsConfirmed(c, pre);
    assert (pre + [r])[..|pre|] == pre;
    OkCountsAndReports(Run(c, pre).final, Confirmed(r));
  }

  // ---------------------------------------------------------------------------
  // Two worked traces
  // ---------------------------------------------------------------------------

  /** `total = 1000`, `interval = 0`, reads of 100, 0 and 50 bytes: reports at 100 and at 150. */
  lemma ExampleIntervalZero()
    ensures Run(Start(1000, 0), [Ok(100), Ok(0), Ok(50)]).reports == [(100, 1000), (150, 1000)]
  {
    var c := Start(1000, 0);
    var a, b, d: IoResult<nat> := Ok(100), Ok(0), Ok(50);
    RunSnoc(c, [], a);
    assert [] + [a] == [a];
    RunSnoc(c, [a], b);
    assert [a] + [b] == [a, b];
    RunSnoc(c, [a, b], d);
    assert [a, b] + [d] == [a, b, d];
  }

  /** `total = 500`, `interval = 200`, six writes of 50 bytes: one report, at 250. */
  lemma ExampleInterval200()
    ensures Run(Start(500, 200), [Ok(50), Ok(50), Ok(50), Ok(50), Ok(50), Ok(50)]).reports == [(250, 500)]
  {
    var c := Start(500, 200);
    var w: IoResult<nat> := Ok(50);
    RunSnoc(c, [], w);
    assert [] + [w] == [w];
    RunSnoc(c, [w], w);
    assert [w] + [w] == [w, w];
    RunSnoc(c, [w, w], w);
    assert [w, w] + [w] == [w, w, w];
    RunSnoc(c, [w, w, w], w);
    assert [w, w, w] + [w] == [w, w, w, w];
    RunSnoc(c, [w, w, w, w], w);
    assert [w, w, w, w] + [w] == [w, w, w, w, w];
    RunSnoc(c, [w, w, w, w, w], w);
    assert [w, w, w, w, w] + [w] == [w, w, w, w, w, w];
  }
}
