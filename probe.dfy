/**
 * `scanPort` (pscan.go:63-110) without the network: the dial's outcome is a
 * parameter, and the function yields the lines the probe prints and the
 * bytes it writes to an open connection.
 */
module Probe {
  import opened Wrappers
  import opened GoText
  import opened GoStrconv
  import opened Services
  import opened Banner
  import opened Options

  /** What `dialer.Dial` returned: a connection, or an error with its text. */
  datatype DialResult = Connected | DialFailed(err: string)

  /** One printed line (pscan.go:87, 89, 97, 103, 105, 107). */
  datatype Line =
    | OpenLine(port: int, service: string)  // "Port %d/tcp open", with " - %s" when service != ""
    | BannerLine(text: seq<byte>)          // "  └─ Banner: %s"
    | FilteredLine(port: int)              // "Port %d/tcp filtered (timeout)"
    | RefusedLine(port: int)               // "Port %d/tcp closed (connection refused)"
    | ClosedLine(port: int, err: string)   // "Port %d/tcp closed (%s)"

  /** A line that reports a port that did not accept the connection. */
  predicate IsNotOpen(line: Line) {
    line.FilteredLine? || line.RefusedLine? || line.ClosedLine?
  }

  /** What one probe does: the lines it prints, and what it writes to the connection. */
  datatype ProbeResult = ProbeResult(lines: seq<Line>, sent: seq<byte>)

  /**
   * The verbose report of a failed dial (pscan.go:102-108): "timeout" in the
   * error text means filtered, and wins over "refused"; "refused" alone
   * means closed by refusal; any other error is shown as it is.
   */
  function Classify(port: int, err: string): (line: Line)
    ensures IsNotOpen(line) && line.port == port
    ensures line.FilteredLine? <==> Contains(err, "timeout")
    ensures line.RefusedLine? <==> !Contains(err, "timeout") && Contains(err, "refused")
    ensures line.ClosedLine? ==> line.err == err
  {
    if Contains(err, "timeout") then FilteredLine(port)
    else if Contains(err, "refused") then RefusedLine(port)
    else ClosedLine(port, err)
  }

  /**
   * One probe of `port`. An open port always gives one open line, naming
   * the service exactly when the table knows the port, and in verbose mode
   * a banner line after it exactly when the banner is not empty; a failed
   * dial prints nothing unless verbose, and then one classified line. The
   * HEAD request is written only to an open web port in verbose mode.
   */
  function ScanPort(options: ScanOptions, port: int, dial: DialResult, reply: ReadResult): (r: ProbeResult)
    ensures |r.lines| <= 2
    ensures dial.Connected? ==> |r.lines| >= 1 && r.lines[0] == OpenLine(port, ServiceName(port))
    ensures dial.Connected? ==> (|r.lines| == 2 <==> options.verbose && GetBanner(port, reply).banner != [])
    ensures |r.lines| == 2 ==> r.lines[1] == BannerLine(GetBanner(port, reply).banner)
    ensures dial.DialFailed? ==> (r.lines == [] <==> !options.verbose)
    ensures dial.DialFailed? && options.verbose ==> r.lines == [Classify(port, dial.err)]
    ensures r.sent != [] <==> dial.Connected? && options.verbose && SendsGreeting(port)
    ensures r.sent != [] ==> r.sent == HeadRequest
  {
    match dial
    case Connected => OpenProbe(options, port, reply)
    case DialFailed(err) => ProbeResult(if options.verbose then [Classify(port, err)] else [], [])
  }

  /** The probe of a port that accepted the connection (pscan.go:89-99). */
  function OpenProbe(options: ScanOptions, port: int, reply: ReadResult): (r: ProbeResult)
    ensures 1 <= |r.lines| <= 2 && r.lines[0] == OpenLine(port, ServiceName(port))
    ensures |r.lines| == 2 <==> options.verbose && GetBanner(port, reply).banner != []
    ensures |r.lines| == 2 ==> r.lines[1] == BannerLine(GetBanner(port, reply).banner)
    ensures r.sent != [] <==> options.verbose && SendsGreeting(port)
    ensures r.sent != [] ==> r.sent == HeadRequest
  {
    var open := [OpenLine(port, ServiceName(port))];
    if options.verbose then
      var x := GetBanner(port, reply);
      ProbeResult(if x.banner != [] then open + [BannerLine(x.banner)] else open, x.sent)
    else ProbeResult(open, [])
  }

  /** Timeout text wins, even when the error also says "refused". */
  lemma {:induction false} TimeoutWins(port: int, a: string, b: string)
    ensures Classify(port, a + "timeout" + b) == FilteredLine(port)
  {
    ContainsInfix(a, "timeout", b);
  }

  /** Refusal text without a timeout is a refused-connection line. */
  lemma {:induction false} RefusedWithoutTimeout(port: int, a: string, b: string)
    requires !Contains(a + "refused" + b, "timeout")
    ensures Classify(port, a + "refused" + b) == RefusedLine(port)
  {
    ContainsInfix(a, "refused", b);
  }

  /** Without verbose output, a probe that fails leaves no trace at all. */
  lemma {:induction false} QuietFailure(options: ScanOptions, port: int, err: string, reply: ReadResult)
    requires !options.verbose
    ensures ScanPort(options, port, DialFailed(err), reply) == ProbeResult([], [])
  {
  }

  /** An open SSH port prints one line naming the service. */
  lemma OpenSshPort(options: ScanOptions, reply: ReadResult)
    ensures ScanPort(options, 22, Connected, reply).lines[0] == OpenLine(22, "SSH")
    ensures !options.verbose ==> ScanPort(options, 22, Connected, reply) == ProbeResult([OpenLine(22, "SSH")], [])
  {
  }

  // ---------------------------------------------------------------------
  // The printed text
  // ---------------------------------------------------------------------

  /** Bytes shown as text, one character each, the way `%s` passes them through. */
  function AsText(b: seq<byte>): (s: string)
    ensures |s| == |b|
  {
    seq(|b|, i requires 0 <= i < |b| => b[i] as int as char)
  }

  /** "Port <n>/tcp " that starts every port line. */
  function PortPrefix(port: int): string {
    "Port " + Itoa(port) + "/tcp "
  }

  /** The text `fmt.Printf` produces for a line, without its newline. */
  function Render(line: Line): (text: string)
    ensures !line.BannerLine? ==> PortPrefix(line.port) <= text
    ensures line.OpenLine? && line.service == "" ==> text == PortPrefix(line.port) + "open"
    ensures line.OpenLine? && line.service != "" ==> text == PortPrefix(line.port) + "open - " + line.service
    ensures line.FilteredLine? ==> text == PortPrefix(line.port) + "filtered (timeout)"
    ensures line.RefusedLine? ==> text == PortPrefix(line.port) + "closed (connection refused)"
    ensures line.ClosedLine? ==> text == PortPrefix(line.port) + "closed (" + line.err + ")"
    ensures line.BannerLine? ==> text == "  └─ Banner: " + AsText(line.text)
  {
    match line
    case OpenLine(port, service) =>
      PortPrefix(port) + "open" + (if service != "" then " - " + service else "")
    case BannerLine(text) => "  └─ Banner: " + AsText(text)
    case FilteredLine(port) => PortPrefix(port) + "filtered (timeout)"
    case RefusedLine(port) => PortPrefix(port) + "closed (connection refused)"
    case ClosedLine(port, err) => PortPrefix(port) + "closed (" + err + ")"
  }

  /**
   * An open line names the service exactly for the ports the table lists,
   * as " - <name>" after "open".
   */
  lemma OpenLineText(port: int)
    ensures port in KnownPorts <==> Render(OpenLine(port, ServiceName(port))) != PortPrefix(port) + "open"
    ensures port in KnownPorts ==> Render(OpenLine(port, ServiceName(port))) == PortPrefix(port) + "open - " + CommonPorts[port]
  {
    var text := Render(OpenLine(port, ServiceName(port)));
    if port in KnownPorts {
      assert |text| > |PortPrefix(port) + "open"|;
    }
  }

  /** An open port 22 prints "Port 22/tcp open - SSH". */
  lemma OpenSshText()
    ensures Render(OpenLine(22, ServiceName(22))) == "Port 22/tcp open - SSH"
  {
    OpenLineText(22);
    assert Itoa(22) == "22";
  }

  /**
   * The port number can be read back from a port line: the text between
   * "Port " and the first '/' parses to the port.
   */
  lemma {:induction false} PortReadBack(line: Line)
    requires !line.BannerLine?
    ensures var text := Render(line);
            var head := Split(text, '/')[0];
            |head| >= 5 && Atoi(head[5..]) == Some(line.port)
  {
    var text := Render(line);
    var num := Itoa(line.port);
    assert '/' !in num by {
      forall i | 0 <= i < |num| ensures num[i] != '/' {
        if line.port >= 0 { assert IsDigit(num[i]); }
        else if i > 0 { assert num[1..] == Digits(-line.port) && IsDigit(num[1..][i - 1]); }
      }
    }
    var rest := text[|"Port " + num| + 1..];
    assert text == ("Port " + num) + ['/'] + rest;
    SplitAtFirst("Port " + num, '/', rest);
    assert ("Port " + num)[5..] == num;
    AtoiItoa(line.port);
  }
}
