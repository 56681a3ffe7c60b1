/**
 * The `Progress` decorator itself: an object whose counters are updated in
 * place by every `read` and `write` it forwards. The wrapped stream's answer
 * to each call is an input (`inner`), and the printer is a ghost log of the
 * `(current, total)` pairs it has been called with.
 */
module ProgressStream {
  import opened Throttle

  class Progress {
    var total: nat
    var current: nat
    var lastupdate: nat
    var interval: nat

    /** Every answer the wrapped stream has given, oldest first. */
    ghost var history: seq<IoResult<nat>>
    /** Every call of the printer, oldest first. */
    ghost var reports: seq<Report>

    /** The counters as a value. */
    function Snapshot(): Counter
      reads this
    {
      Counter(total, current, lastupdate, interval)
    }

    /**
     * The counters and the printer log are what running the recorded answers
     * from a fresh decorator gives, and the throttle relation holds between calls.
     */
    ghost predicate Valid()
      reads this
    {
      && Run(Start(total, interval), history) == Trace(Snapshot(), reports)
      && Throttled(Snapshot())
    }

    /** Both `new` constructors: counters at zero, no printer call yet. */
    constructor (total: nat, interval: nat)
      ensures Valid()
      ensures this.total == total && this.interval == interval
      ensures current == 0 && lastupdate == 0
      ensures history == [] && reports == []
    {
      this.total := total;
      current := 0;
      lastupdate := 0;
      this.interval := interval;
      history := [];
      reports := [];
    }

    /**
     * The step shared by `read` and `write`: an error is returned at once with
     * nothing changed; on `Ok(amt)` the counters advance and the printer may be
     * called, as `Step` says, and `Ok(amt)` is returned unchanged.
     */
    method Record(inner: IoResult<nat>) returns (r: IoResult<nat>)
      requires Valid()
      modifies this
      ensures Valid()
      ensures r == inner
      ensures history == old(history) + [inner]
      ensures var e := Step(old(Snapshot()), inner);
        Snapshot() == e.after && reports == old(reports) + ReportsOf(e.report)
    {
      ghost var e := Step(Snapshot(), inner);
      ghost var next := ReportsOf(e.report);
      RunSnoc(Start(total, interval), history, inner);
      StepKeepsThrottled(Snapshot(), inner);
      history := history + [inner];
      assert Run(Start(total, interval), history) == Trace(e.after, reports + next);
      match inner
      case Err(err) =>
        assert e.after == Snapshot() && next == [];
        return Err(err);
      case Ok(amt) =>
        current := current + amt;
        if current - lastupdate > interval {
          assert next == [(current, total)];
          reports := reports + [(current, total)];
          lastupdate := current;
        } else {
          assert next == [];
        }
        assert Snapshot() == e.after;
        return Ok(amt);
    }

    /** `Read::read`: forwards the wrapped stream's answer through `Record`. */
    method Read(inner: IoResult<nat>) returns (r: IoResult<nat>)
      requires Valid()
      modifies this
      ensures Valid()
      ensures r == inner
      ensures history == old(history) + [inner]
      ensures var e := Step(old(Snapshot()), inner);
        Snapshot() == e.after && reports == old(reports) + ReportsOf(e.report)
    {
      r := Record(inner);
    }

    /** `Write::write`: forwards the wrapped stream's answer through `Record`. */
    method Write(inner: IoResult<nat>) returns (r: IoResult<nat>)
      requires Valid()
      modifies this
      ensures Valid()
      ensures r == inner
      ensures history == old(history) + [inner]
      ensures var e := Step(old(Snapshot()), inner);
        Snapshot() == e.after && reports == old(reports) + ReportsOf(e.report)
    {
      r := Record(inner);
    }

    /** `Write::flush`: returns the wrapped stream's answer and touches no counter. */
    method Flush(inner: IoResult<()>) returns (r: IoResult<()>)
      requires Valid()
      ensures Valid()
      ensures r == inner
    {
      r := inner;
    }

    /**
     * What holds of the decorator at any point of its life: `current` is the
     * sum of the confirmed byte counts, the reported values strictly increase,
     * each is at most `current` and carries `total`, and the printer has been
     * called at most once per non-empty success (exactly once when `interval == 0`).
     */
    lemma Lifetime()
      requires Valid()
      ensures current == SumConfirmed(history)
      ensures lastupdate <= current && current - lastupdate <= interval
      ensures StrictlyIncreasing(reports)
      ensures forall k :: 0 <= k < |reports| ==> reports[k].0 <= lastupdate && reports[k].1 == total
      ensures reports != [] ==> reports[|reports| - 1].0 == lastupdate
      ensures |reports| <= NonEmpty(history)
      ensures interval == 0 ==> |reports| == NonEmpty(history)
    {
      RunCountsConfirmed(Start(total, interval), history);
      RunReportsIncrease(Start(total, interval), history);
      RunReportCount(Start(total, interval), history);
    }
  }

  /** A caller's view: the trace of 100, 0 and 50 bytes read with `total = 1000`, `interval = 0`. */
  method ReadThreeChunks()
  {
    var p := new Progress(1000, 0);
    var r := p.Read(Ok(100));
    assert r == Ok(100) && p.reports == [(100, 1000)];
    r := p.Read(Ok(0));
    assert p.reports == [(100, 1000)];
    r := p.Read(Err(IoError(5)));
    assert r == Err(IoError(5)) && p.current == 100;
    r := p.Read(Ok(50));
    assert p.reports == [(100, 1000), (150, 1000)];
    p.Lifetime();
    assert p.current == SumConfirmed(p.history) == 150;
  }
}
