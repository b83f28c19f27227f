/**
 * `runPortScan` (pscan.go:179-207): ports are dispatched in ascending order,
 * and after every port that is a multiple of `Threads` the loop waits for
 * everything in flight; one last wait ends the scan. Goroutines and the
 * WaitGroup are replaced by a trace of dispatch and wait events. The count
 * kept here is of probes dispatched since the last wait. Each probe's
 * `wg.Done` is not modelled, so this count is the worst case: the
 * WaitGroup's counter never exceeds it, and equals it when no probe of the
 * batch has finished yet.
 */
module Dispatch {
  import opened Options
  import opened Banner
  import opened Services
  import opened Probe

  /** One step of the scan loop: `wg.Add(1); go scanPort(...)`, or `wg.Wait()`. */
  datatype Event = Dispatch(port: int) | Wait

  function Abs(t: int): nat {
    if t < 0 then -t else t
  }

  // ---------------------------------------------------------------------
  // The schedule the loop follows
  // ---------------------------------------------------------------------

  /**
   * The events for ports start .. stop-1. Go's `%` truncates where Dafny's
   * is Euclidean, but both are zero exactly on multiples, which is all the
   * loop tests.
   */
  function Steps(start: int, stop: int, threads: int): seq<Event>
    requires threads != 0
    decreases stop - start
  {
    if stop <= start then []
    else
      var port := stop - 1;
      Steps(start, port, threads) + [Dispatch(port)] + (if port % threads == 0 then [Wait] else [])
  }

  /** The whole trace of a scan of ports start .. end, closed by the final wait. */
  function Schedule(start: int, end: int, threads: int): seq<Event>
    requires threads != 0
  {
    Steps(start, end + 1, threads) + [Wait]
  }

  // ---------------------------------------------------------------------
  // What a trace means
  // ---------------------------------------------------------------------

  /** The dispatched ports, in dispatch order. */
  function Dispatched(trace: seq<Event>): seq<int> {
    if trace == [] then []
    else
      var last := trace[|trace| - 1];
      Dispatched(trace[..|trace| - 1]) + (if last.Dispatch? then [last.port] else [])
  }

  /**
   * Probes dispatched since the last wait at the end of the trace: an upper
   * bound on the WaitGroup counter, reached when none of them has finished.
   */
  function InFlight(trace: seq<Event>): nat {
    if trace == [] || trace[|trace| - 1] == Wait then 0
    else InFlight(trace[..|trace| - 1]) + 1
  }

  /** The largest number of probes ever dispatched since the previous wait along the trace. */
  function Peak(trace: seq<Event>): nat {
    if trace == [] then 0
    else
      var before := Peak(trace[..|trace| - 1]);
      if InFlight(trace) > before then InFlight(trace) else before
  }

  /** The ports start .. stop-1, in ascending order. */
  function Interval(start: int, stop: int): (ports: seq<int>)
    ensures |ports| == if stop <= start then 0 else stop - start
    ensures forall i | 0 <= i < |ports| :: ports[i] == start + i
  {
    if stop <= start then [] else seq(stop - start, i requires 0 <= i < stop - start => start + i)
  }

  // ---------------------------------------------------------------------
  // The loop
  // ---------------------------------------------------------------------

  /**
   * The dispatch loop of `runPortScan`. Returns the event trace and the
   * peak of the count of probes dispatched since the last wait, the most
   * that can be running at once.
   */
  method RunPortScan(options: ScanOptions) returns (trace: seq<Event>, peak: nat)
    requires options.threads != 0
    ensures trace == Schedule(options.startPort, options.endPort, options.threads)
    ensures peak == Peak(trace)
    ensures Dispatched(trace) == Interval(options.startPort, options.endPort + 1)
    ensures peak <= Abs(options.threads)
  {
    var start, end, threads := options.startPort, options.endPort, options.threads;
    trace, peak := [], 0;
    var inFlight: nat := 0;  // probes dispatched since the last wait
    var port := start;
    while port <= end
      invariant start <= port && (port <= end + 1 || port == start)
      invariant trace == Steps(start, port, threads)
      invariant inFlight == InFlight(trace)
      invariant peak == Peak(trace)
      decreases end + 1 - port
    {
      StepsNext(start, port, threads);
      DispatchEvent(trace, port);
      trace := trace + [Dispatch(port)];
      inFlight := inFlight + 1;
      if inFlight > peak {
        peak := inFlight;
      }
      if port % threads == 0 {
        WaitEvent(trace);
        trace := trace + [Wait];
        inFlight := 0;
      }
      port := port + 1;
    }
    WaitEvent(trace);
    trace := trace + [Wait];
    ScheduleCoverage(start, end, threads);
    SchedulePeak(start, end, threads);
  }

  lemma StepsNext(start: int, port: int, threads: int)
    requires threads != 0 && start <= port
    ensures Steps(start, port + 1, threads)
         == Steps(start, port, threads) + [Dispatch(port)] + (if port % threads == 0 then [Wait] else [])
  {
  }

  /** A dispatch adds its port and one outstanding probe. */
  lemma DispatchEvent(trace: seq<Event>, port: int)
    ensures Dispatched(trace + [Dispatch(port)]) == Dispatched(trace) + [port]
    ensures InFlight(trace + [Dispatch(port)]) == InFlight(trace) + 1
    ensures Peak(trace + [Dispatch(port)]) == if InFlight(trace) + 1 > Peak(trace) then InFlight(trace) + 1 else Peak(trace)
  {
    var next := trace + [Dispatch(port)];
    assert next[..|trace|] == trace;
  }

  /** A wait leaves no probe outstanding and changes nothing else. */
  lemma WaitEvent(trace: seq<Event>)
    ensures Dispatched(trace + [Wait]) == Dispatched(trace)
    ensures InFlight(trace + [Wait]) == 0
    ensures Peak(trace + [Wait]) == Peak(trace)
  {
    var next := trace + [Wait];
    assert next[..|trace|] == trace;
  }

  // ---------------------------------------------------------------------
  // Coverage: every port once, in ascending order
  // ---------------------------------------------------------------------

  lemma {:induction false} DispatchedSteps(start: int, stop: int, threads: int)
    requires threads != 0
    ensures Dispatched(Steps(start, stop, threads)) == Interval(start, stop)
    decreases stop - start
  {
    if stop > start {
      var port := stop - 1;
      var before := Steps(start, port, threads);
      DispatchedSteps(start, port, threads);
      DispatchEvent(before, port);
      if port % threads == 0 {
        WaitEvent(before + [Dispatch(port)]);
        assert Steps(start, stop, threads) == before + [Dispatch(port)] + [Wait];
      } else {
        assert Steps(start, stop, threads) == before + [Dispatch(port)];
      }
      IntervalNext(start, port);
    }
  }

  lemma IntervalNext(start: int, port: int)
    requires start <= port
    ensures Interval(start, port + 1) == Interval(start, port) + [port]
  {
  }

  /** The scan probes the ports start .. end, each exactly once, in ascending order. */
  lemma ScheduleCoverage(start: int, end: int, threads: int)
    requires threads != 0
    ensures Dispatched(Schedule(start, end, threads)) == Interval(start, end + 1)
  {
    DispatchedSteps(start, end + 1, threads);
    WaitEvent(Steps(start, end + 1, threads));
  }

  // ---------------------------------------------------------------------
  // Where the waits fall
  // ---------------------------------------------------------------------

  /**
   * Every wait directly follows the dispatch of a multiple of `threads`, and
   * a dispatched port is directly followed by a wait exactly when it is such
   * a multiple.
   */
  predicate WaitRule(trace: seq<Event>, threads: int)
    requires threads != 0
  {
    && (forall i | 0 <= i < |trace| && trace[i] == Wait ::
          i > 0 && trace[i - 1].Dispatch? && trace[i - 1].port % threads == 0)
    && (forall i | 0 <= i < |trace| && trace[i].Dispatch? ::
          trace[i].port % threads == 0 <==> i + 1 < |trace| && trace[i + 1] == Wait)
  }

  lemma {:induction false} StepsWaitRule(start: int, stop: int, threads: int)
    requires threads != 0
    ensures WaitRule(Steps(start, stop, threads), threads)
    decreases stop - start
  {
    if stop > start {
      var port := stop - 1;
      var before := Steps(start, port, threads);
      StepsWaitRule(start, port, threads);
      var after := Steps(start, stop, threads);
      var n := |before|;
      assert after[..n] == before;
      assert after[n] == Dispatch(port);
      assert before == [] || before[n - 1] == Wait || before[n - 1].port % threads != 0;
    }
  }

  /** Steps(start, stop, _) dispatches only ports in start .. stop-1. */
  lemma {:induction false} StepsPortsBelow(start: int, stop: int, threads: int, i: int)
    requires threads != 0
    requires 0 <= i < |Steps(start, stop, threads)| && Steps(start, stop, threads)[i].Dispatch?
    ensures start <= Steps(start, stop, threads)[i].port < stop
    decreases stop - start
  {
    var port := stop - 1;
    var before := Steps(start, port, threads);
    if i < |before| {
      StepsPortsBelow(start, port, threads, i);
      assert Steps(start, stop, threads)[i] == before[i];
    }
  }

  /**
   * In the whole scan the same rule holds, except that the last port is
   * always followed by the final wait.
   */
  lemma ScheduleWaitRule(start: int, end: int, threads: int)
    requires threads != 0
    ensures var trace := Schedule(start, end, threads);
      && trace[|trace| - 1] == Wait
      && forall i | 0 <= i < |trace| - 1 && trace[i].Dispatch? ::
           (trace[i].port % threads == 0 || trace[i].port == end) <==> trace[i + 1] == Wait
  {
    var body := Steps(start, end + 1, threads);
    var trace := Schedule(start, end, threads);
    var before := Steps(start, end, threads);
    StepsWaitRule(start, end + 1, threads);
    forall i | 0 <= i < |trace| - 1 && trace[i].Dispatch?
      ensures (trace[i].port % threads == 0 || trace[i].port == end) <==> trace[i + 1] == Wait
    {
      assert trace[i] == body[i];
      if i + 1 < |body| {
        assert trace[i + 1] == body[i + 1];
        if i < |before| {
          assert body[i] == before[i];
          StepsPortsBelow(start, end, threads, i);
        }
      } else {
        StepsPortsBelow(start, end + 1, threads, i);
        assert end + 1 > start;
        assert body[i] == Dispatch(end);
      }
    }
  }

  // ---------------------------------------------------------------------
  // Never more than |threads| probes in flight
  // ---------------------------------------------------------------------

  lemma MulAtLeast(a: nat, b: nat)
    ensures b >= 1 ==> a * b >= a
  {
    if b >= 1 {
      assert a * b == a * (b - 1) + a;
      assert a * (b - 1) >= 0;
    }
  }

  lemma MulMod(t: int, k: int)
    requires t != 0
    ensures (t * k) % t == 0
  {
    var q := t * k;
    var d, r := q / t, q % t;
    assert q == t * d + r && 0 <= r < Abs(t);
    var m := k - d;
    assert t * m == r;
    MulAtLeast(Abs(t), Abs(m));
    assert Abs(t) * Abs(m) == Abs(t * m);
  }

  /** Among any |t| consecutive integers ending at x there is a multiple of t. */
  lemma MultipleBelow(x: int, t: int) returns (q: int)
    requires t != 0
    ensures q % t == 0 && x - Abs(t) < q <= x
  {
    q := x - x % t;
    assert q == t * (x / t);
    MulMod(t, x / t);
  }

  /** The probes outstanding after Steps(start, stop, _) are for ports that are not multiples. */
  lemma {:induction false} InFlightSteps(start: int, stop: int, threads: int)
    requires threads != 0
    ensures forall q | stop - InFlight(Steps(start, stop, threads)) <= q < stop :: q % threads != 0
    decreases stop - start
  {
    if stop > start {
      var port := stop - 1;
      var before := Steps(start, port, threads);
      InFlightSteps(start, port, threads);
      DispatchEvent(before, port);
      if port % threads == 0 {
        WaitEvent(before + [Dispatch(port)]);
        assert Steps(start, stop, threads) == before + [Dispatch(port)] + [Wait];
      } else {
        assert Steps(start, stop, threads) == before + [Dispatch(port)];
      }
    }
  }

  /** Between two loop iterations fewer than |threads| probes are in flight. */
  lemma InFlightBelow(start: int, stop: int, threads: int)
    requires threads != 0
    ensures InFlight(Steps(start, stop, threads)) < Abs(threads)
  {
    var n := InFlight(Steps(start, stop, threads));
    InFlightSteps(start, stop, threads);
    var q := MultipleBelow(stop - 1, threads);
    assert !(stop - n <= q < stop);
  }

  lemma {:induction false} PeakSteps(start: int, stop: int, threads: int)
    requires threads != 0
    ensures Peak(Steps(start, stop, threads)) <= Abs(threads)
    decreases stop - start
  {
    if stop > start {
      var port := stop - 1;
      var before := Steps(start, port, threads);
      PeakSteps(start, port, threads);
      InFlightBelow(start, port, threads);
      DispatchEvent(before, port);
      if port % threads == 0 {
        WaitEvent(before + [Dispatch(port)]);
        assert Steps(start, stop, threads) == before + [Dispatch(port)] + [Wait];
      } else {
        assert Steps(start, stop, threads) == before + [Dispatch(port)];
      }
    }
  }

  /** The whole scan never has more than |threads| probes in flight. */
  lemma SchedulePeak(start: int, end: int, threads: int)
    requires threads != 0
    ensures Peak(Schedule(start, end, threads)) <= Abs(threads)
  {
    PeakSteps(start, end + 1, threads);
    WaitEvent(Steps(start, end + 1, threads));
  }

  // ---------------------------------------------------------------------
  // Batches
  // ---------------------------------------------------------------------

  /** Dispatches of the ports lo .. hi-1 with no wait between them. */
  function Batch(lo: int, hi: int): (batch: seq<Event>)
    requires lo <= hi
    ensures |batch| == hi - lo && Wait !in batch
  {
    seq(hi - lo, i requires 0 <= i < hi - lo => Dispatch(lo + i))
  }

  lemma {:induction false} StepsConcat(a: int, b: int, c: int, threads: int)
    requires threads != 0 && a <= b <= c
    ensures Steps(a, c, threads) == Steps(a, b, threads) + Steps(b, c, threads)
    decreases c - b
  {
    if c > b {
      StepsConcat(a, b, c - 1, threads);
    }
  }

  /** A run of ports with no multiple among them is dispatched without waiting. */
  lemma {:induction false} StepsBatch(lo: int, hi: int, threads: int)
    requires threads != 0 && lo <= hi
    requires forall q | lo <= q < hi :: q % threads != 0
    ensures Steps(lo, hi, threads) == Batch(lo, hi)
    decreases hi - lo
  {
    if hi > lo {
      StepsBatch(lo, hi - 1, threads);
      assert Batch(lo, hi) == Batch(lo, hi - 1) + [Dispatch(hi - 1)];
    }
  }

  /** A run that ends on a multiple is one batch followed by a wait. */
  lemma FullBatch(lo: int, hi: int, threads: int)
    requires threads != 0 && lo < hi
    requires forall q | lo <= q < hi - 1 :: q % threads != 0
    requires (hi - 1) % threads == 0
    ensures Steps(lo, hi, threads) == Batch(lo, hi) + [Wait]
  {
    StepsBatch(lo, hi - 1, threads);
    assert Batch(lo, hi) == Batch(lo, hi - 1) + [Dispatch(hi - 1)];
  }

  /** Three runs, the first two ending on a multiple, make three batches. */
  lemma ThreeBatches(a: int, b: int, c: int, d: int, threads: int)
    requires threads != 0 && a < b < c <= d
    requires forall q | a <= q < b - 1 :: q % threads != 0
    requires forall q | b <= q < c - 1 :: q % threads != 0
    requires forall q | c <= q < d :: q % threads != 0
    requires (b - 1) % threads == 0 && (c - 1) % threads == 0
    ensures Steps(a, d, threads) == Batch(a, b) + [Wait] + Batch(b, c) + [Wait] + Batch(c, d)
  {
    StepsConcat(a, b, d, threads);
    StepsConcat(b, c, d, threads);
    FullBatch(a, b, threads);
    FullBatch(b, c, threads);
    StepsBatch(c, d, threads);
    var x, y, z := Batch(a, b), Batch(b, c), Batch(c, d);
    assert Steps(a, d, threads) == (x + [Wait]) + ((y + [Wait]) + z);
  }

  /**
   * With 10 threads, ports 1-25 go out as 1-10, 11-20 and 21-25, each batch
   * closed by a wait.
   */
  lemma TenThreadBatches()
    ensures Schedule(1, 25, 10) == Batch(1, 11) + [Wait] + Batch(11, 21) + [Wait] + Batch(21, 26) + [Wait]
  {
    ThreeBatches(1, 11, 21, 26, 10);
  }

  /** Appending events never lowers the peak. */
  lemma {:induction false} PeakGrows(trace: seq<Event>, more: seq<Event>)
    ensures Peak(trace + more) >= Peak(trace)
    decreases |more|
  {
    if more != [] {
      var n := |more| - 1;
      PeakGrows(trace, more[..n]);
      var all := trace + more;
      assert all[..|all| - 1] == trace + more[..n];
      assert Peak(all) >= Peak(all[..|all| - 1]);
    } else {
      assert trace + more == trace;
    }
  }

  /** A batch with nothing before it has all its probes outstanding at its end. */
  lemma {:induction false} InFlightBatch(lo: int, hi: int)
    requires lo <= hi
    ensures InFlight(Batch(lo, hi)) == hi - lo
    decreases hi - lo
  {
    if hi > lo {
      InFlightBatch(lo, hi - 1);
      assert Batch(lo, hi)[..hi - 1 - lo] == Batch(lo, hi - 1);
    }
  }

  /**
   * The bound is reached: with 10 threads the scan of ports 1-25 has 10
   * probes outstanding at once, so 10 can be running together.
   */
  lemma TenThreadPeak()
    ensures Peak(Schedule(1, 25, 10)) == 10
  {
    SchedulePeak(1, 25, 10);
    TenThreadBatches();
    var first := Batch(1, 11);
    var rest := [Wait] + Batch(11, 21) + [Wait] + Batch(21, 26) + [Wait];
    assert Schedule(1, 25, 10) == first + rest;
    PeakGrows(first, rest);
    InFlightBatch(1, 11);
    assert Peak(first) >= InFlight(first);
  }

  // ---------------------------------------------------------------------
  // What the scan prints
  // ---------------------------------------------------------------------

  /**
   * The lines the probes of `ports` print, taken one probe after the other
   * in dispatch order, given each port's dial outcome and banner read.
   */
  function ScanOutput(options: ScanOptions, ports: seq<int>, dial: int -> DialResult, reply: int -> ReadResult): seq<Line> {
    if ports == [] then []
    else
      var port := ports[|ports| - 1];
      ScanOutput(options, ports[..|ports| - 1], dial, reply) + ScanPort(options, port, dial(port), reply(port)).lines
  }

  /** The probes of N ports print at most 2N lines, and with -v at least N. */
  lemma {:induction false} ScanOutputLength(options: ScanOptions, ports: seq<int>, dial: int -> DialResult, reply: int -> ReadResult)
    ensures var out := ScanOutput(options, ports, dial, reply);
      |out| <= 2 * |ports| && (options.verbose ==> |ports| <= |out|)
    decreases |ports|
  {
    if ports != [] {
      ScanOutputLength(options, ports[..|ports| - 1], dial, reply);
    }
  }

  /** The ports that the port lines among `lines` report, in order; banner lines are skipped. */
  function LinePorts(lines: seq<Line>): seq<int> {
    if lines == [] then []
    else
      var line := lines[|lines| - 1];
      LinePorts(lines[..|lines| - 1]) + (if line.BannerLine? then [] else [line.port])
  }

  lemma {:induction false} LinePortsConcat(a: seq<Line>, b: seq<Line>)
    ensures LinePorts(a + b) == LinePorts(a) + LinePorts(b)
    decreases |b|
  {
    if b == [] {
      assert a + b == a;
    } else {
      var n := |b| - 1;
      LinePortsConcat(a, b[..n]);
      assert (a + b)[..|a + b| - 1] == a + b[..n];
    }
  }

  /** The open ports among `ports`, each as its "open" line. */
  function OpenLines(ports: seq<int>, dial: int -> DialResult): seq<Line> {
    if ports == [] then []
    else
      var port := ports[|ports| - 1];
      OpenLines(ports[..|ports| - 1], dial) + (if dial(port).Connected? then [OpenLine(port, ServiceName(port))] else [])
  }

  /** Without -v the scan prints one line per open port and nothing else. */
  lemma {:induction false} QuietOutput(options: ScanOptions, ports: seq<int>, dial: int -> DialResult, reply: int -> ReadResult)
    requires !options.verbose
    ensures ScanOutput(options, ports, dial, reply) == OpenLines(ports, dial)
    decreases |ports|
  {
    if ports != [] {
      QuietOutput(options, ports[..|ports| - 1], dial, reply);
      var port := ports[|ports| - 1];
      var r := ScanPort(options, port, dial(port), reply(port));
      assert dial(port).Connected? ==> r.lines == [OpenLine(port, ServiceName(port))];
    }
  }

  /**
   * With -v every probed port prints exactly one port line, in dispatch
   * order; any other line is a banner line.
   */
  lemma {:induction false} VerboseOutput(options: ScanOptions, ports: seq<int>, dial: int -> DialResult, reply: int -> ReadResult)
    requires options.verbose
    ensures LinePorts(ScanOutput(options, ports, dial, reply)) == ports
    decreases |ports|
  {
    if ports != [] {
      var n := |ports| - 1;
      assert ports == ports[..n] + [ports[n]];
      VerboseOutput(options, ports[..n], dial, reply);
      VerboseLast(options, ports, dial, reply);
    }
  }

  /** With -v the last probe adds one port line, for the last port. */
  lemma VerboseLast(options: ScanOptions, ports: seq<int>, dial: int -> DialResult, reply: int -> ReadResult)
    requires options.verbose && ports != []
    ensures var n := |ports| - 1;
      LinePorts(ScanOutput(options, ports, dial, reply)) == LinePorts(ScanOutput(options, ports[..n], dial, reply)) + [ports[n]]
  {
    var n := |ports| - 1;
    var port := ports[n];
    var before := ScanOutput(options, ports[..n], dial, reply);
    var lines := ScanPort(options, port, dial(port), reply(port)).lines;
    ScanOutputLast(options, ports, dial, reply);
    ProbeLinePorts(options, port, dial(port), reply(port));
    LinePortsConcat(before, lines);
  }

  /** The output of a scan is that of all ports but the last, then the last probe's lines. */
  lemma ScanOutputLast(options: ScanOptions, ports: seq<int>, dial: int -> DialResult, reply: int -> ReadResult)
    requires ports != []
    ensures var n := |ports| - 1;
      ScanOutput(options, ports, dial, reply) == ScanOutput(options, ports[..n], dial, reply) + ScanPort(options, ports[n], dial(ports[n]), reply(ports[n])).lines
  {
  }

  /** With -v one probe prints one port line, for its own port. */
  lemma ProbeLinePorts(options: ScanOptions, port: int, dial: DialResult, reply: ReadResult)
    requires options.verbose
    ensures LinePorts(ScanPort(options, port, dial, reply).lines) == [port]
  {
    var lines := ScanPort(options, port, dial, reply).lines;
    assert LinePorts(lines[..1]) == [port] by {
      assert lines[..1][..0] == [];
    }
    if |lines| == 2 {
      assert lines[..|lines| - 1] == lines[..1];
    } else {
      assert lines == lines[..1];
    }
  }

  /**
   * With -v and no listener on any port, the scan prints exactly one line
   * per port, each reporting that port as filtered or closed.
   */
  lemma {:induction false} VerboseNoListener(options: ScanOptions, ports: seq<int>, dial: int -> DialResult, reply: int -> ReadResult)
    requires options.verbose
    requires forall i | 0 <= i < |ports| :: dial(ports[i]).DialFailed?
    ensures var out := ScanOutput(options, ports, dial, reply);
      |out| == |ports| && forall i | 0 <= i < |out| :: IsNotOpen(out[i]) && out[i].port == ports[i]
    decreases |ports|
  {
    if ports != [] {
      var n := |ports| - 1;
      VerboseNoListener(options, ports[..n], dial, reply);
    }
  }

  /** Without -v a scan reports exactly its open ports, in ascending order. */
  lemma QuietScan(options: ScanOptions, dial: int -> DialResult, reply: int -> ReadResult)
    requires options.threads != 0 && !options.verbose
    ensures var trace := Schedule(options.startPort, options.endPort, options.threads);
      ScanOutput(options, Dispatched(trace), dial, reply) == OpenLines(Interval(options.startPort, options.endPort + 1), dial)
  {
    var trace := Schedule(options.startPort, options.endPort, options.threads);
    ScheduleCoverage(options.startPort, options.endPort, options.threads);
    QuietOutput(options, Dispatched(trace), dial, reply);
  }
}
