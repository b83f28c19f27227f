# pscan in Dafny

A model of the deterministic core of `pscan.go`, a small TCP port scanner
written in Go, with proofs about it. The scanner reads a port range or a mode
flag, probes every port in the range with a TCP connect, prints one line per
open port (naming the service for well-known ports), and in verbose mode also
reports closed and filtered ports and grabs a one-line banner from open ones.
Probes run concurrently. The loop waits for every probe in flight after each
port that is a multiple of the thread count.

The model follows the program's structure, one module per concern:

- `Wrappers` (`wrappers.dfy`): `Option` and `Result`.
- `GoText` (`gotext.dfy`): what the program uses from Go's `strings`
  package. That is `Split` with a one-element separator and its inverse
  `Join`, `Contains`, and `TrimSpace` on bytes. It also has `Bytes`, which
  reads an ASCII string literal as Go would hold it in a byte slice.
- `GoStrconv` (`gostrconv.dfy`): `strconv.Atoi`, and `Itoa` for the `%d`
  in the printed lines.
- `PortRange` (`portrange.dfy`): `parsePortRange`, with its six error paths
  in the order the source checks them.
- `Options` (`options.dfy`): the `ScanOptions` record and the branch of
  `main` that picks the interval. `-all` gives 1-65535. Otherwise `-common`
  gives 1-1024. Otherwise the `-ports` string is parsed.
- `Services` (`services.dfy`): the 21-entry port-to-service table of
  `getServiceName`.
- `Banner` (`banner.dfy`): `getBanner` without the socket. It covers which
  ports get the HEAD request and how the bytes of the one read are cleaned:
  trim, first line, trim again, cut to 80 bytes plus "...".
- `Probe` (`probe.dfy`): `scanPort` without the socket. The dial outcome
  and the read outcome are parameters. The result is the lines the probe
  prints, as a `Line` datatype, and the bytes it writes. `Render` gives the
  exact text of each line.
- `Dispatch` (`dispatch.dfy`): the dispatch loop of `runPortScan`, as a
  method with a `while` loop. It records a trace of `Dispatch(port)` and
  `Wait` events and the peak number of probes dispatched since the last wait.
  That number bounds how many probes can run at once. The proofs about the trace
  cover coverage, where the waits fall, the in-flight bound and the batches.

## Model

| member | source | states |
|---|---|---|
| PortRange.ParsePortRange | pscan.go:27-61 | on error both ports are 0; on success 1 <= start < end <= 65535; the format error occurs exactly when the string does not hold exactly one '-' |
| PortRange.ParseFormatted | pscan.go:27-61 | "a-b" written with decimal integers parses if and only if 1 <= a < b <= 65535, and then gives back a and b |
| PortRange.StartTokenFirst | pscan.go:29-39 | with one hyphen, a start token that is not an integer is reported, naming the token, whatever the end token is |
| PortRange.EndTokenSecond | pscan.go:41-45 | with one hyphen and an integer start token, a bad end token is reported, naming it |
| PortRange.BoundsInOrder | pscan.go:47-60 | with integer tokens a and b, the checks apply in order: a < 1, then b <= a, then b > 65535; a range passing all three is returned as read |
| PortRange.LonePort | pscan.go:29-33 | "80" is a format error |
| PortRange.TwoHyphens | pscan.go:29-33 | "1-2-3" is a format error |
| PortRange.NegativeStart | pscan.go:29-33 | "-5-10" is a format error, because the minus sign is a second hyphen |
| PortRange.EmptyRange | pscan.go:29-33 | "" is a format error |
| PortRange.StartTokenNamed | pscan.go:36-39 | "abc-10" fails with the start token "abc" |
| PortRange.EmptyEndToken | pscan.go:42-45 | "10-" fails with the empty end token |
| PortRange.ZeroStart | pscan.go:48-50 | "0-0" fails the start check before the order check |
| PortRange.ReversedRange | pscan.go:52-54 | "100-50" fails the end-above-start check |
| PortRange.SinglePortRange | pscan.go:52-54 | "5-5" is refused: the end must be greater than the start |
| PortRange.EndTooLarge | pscan.go:56-58 | "1-99999" fails the upper-bound check |
| Options.SelectRange | pscan.go:254-269 | -all gives 1-65535 and -common gives 1-1024, each whatever the port string says; otherwise the result fails exactly when parsing fails, with the same error, and else carries the parsed ports; no other option changes; on success the interval is valid |
| Options.ModeIgnoresPortString | pscan.go:255-261 | under -all or -common the port string cannot change or fail the selection |
| Services.ServiceName | pscan.go:113-142 | a port gets a non-empty name exactly when it is one of the 21 listed ports, and the name is that table entry |
| Services.ServiceNameExamples | pscan.go:114-141 | 22 is SSH, 111 and 135 are both RPC, 8080 is HTTP-Proxy; 0, 8443 and 65535 get "" |
| GoText.Split | pscan.go:165 | strings.Split gives at least one piece, and no piece holds the separator |
| GoText.SplitCount | pscan.go:29 | strings.Split gives one more piece than the input has separators |
| GoText.JoinSplit | pscan.go:29 | joining the pieces back with the separator gives the input |
| GoText.SplitJoin | pscan.go:29 | splitting separator-free pieces joined by the separator gives the pieces back |
| GoText.SplitNoSeparator | pscan.go:165 | an input without the separator splits into itself alone |
| GoText.SplitAtFirst | pscan.go:165 | the first piece is everything before the first separator |
| GoText.SplitTwo | pscan.go:29-31 | a-b with no separator in a or b splits into exactly [a, b] |
| GoText.Contains | pscan.go:102-104 | strings.Contains holds exactly when the substring occurs at some offset |
| GoText.ContainsInfix | pscan.go:102-104 | a text that has the substring inside contains it |
| GoText.TrimSpace | pscan.go:163 | the result does not start or end with white space and is no longer than the input |
| GoText.TrimSpaceSlice | pscan.go:163 | the result is a contiguous slice of the input with only white space around it |
| GoText.TrimSpaceUnique | pscan.go:163 | white space around a non-empty core that starts and ends with other bytes is exactly what is removed |
| GoText.TrimSpaceAvoids | pscan.go:163-167 | a byte absent from the input is absent from the result |
| GoText.TrimSpaceFixed | pscan.go:167 | TrimSpace leaves its input unchanged exactly when neither end is white space |
| GoStrconv.Atoi | pscan.go:36-44 | a result exists exactly for an optional sign followed by one or more decimal digits; without '-' it is not negative |
| GoStrconv.AtoiItoa | pscan.go:36-44 | every integer printed in decimal reads back as itself |
| GoStrconv.AtoiPlus | pscan.go:36 | a leading '+' is accepted |
| GoStrconv.AtoiLeadingZero | pscan.go:36 | leading zeros are accepted |
| GoStrconv.Itoa | pscan.go:87-107 | the decimal text is never empty and holds '-' exactly for negative numbers |
| Banner.HeadRequestText | pscan.go:154 | the greeting bytes are "HEAD / HTTP/1.0\r\n\r\n" |
| Banner.GreetedPortsAreWebPorts | pscan.go:153 | the ports that get the HEAD request are exactly those the table calls HTTP, HTTPS or HTTP-Proxy |
| Banner.FirstLine | pscan.go:165-168 | the first line holds no newline |
| Banner.Truncate | pscan.go:170-174 | lines of at most 80 bytes are kept; longer ones become their first 80 bytes plus "..."; the result has at most 83 bytes, no newline, and no white space at either end |
| Banner.CleanBanner | pscan.go:162-176 | a cleaned banner is one line with no white space at either end and at most 83 bytes |
| Banner.CleanLine | pscan.go:162-176 | on a single line with no white space at either end, only the truncation acts |
| Banner.TruncateIdempotent | pscan.go:170-174 | cutting a cut banner changes nothing |
| Banner.CleanBannerIdempotent | pscan.go:162-176 | cleaning a cleaned banner changes nothing |
| Banner.CleanBannerFirstLine | pscan.go:162-176 | for a reply of leading white space, a first line of at most 80 bytes, trailing white space, a newline and anything else, the banner is exactly that first line |
| Banner.OpenSshBanner | pscan.go:162-176 | the reply "SSH-2.0-OpenSSH_8.9\r\nextra\r\n" gives the banner "SSH-2.0-OpenSSH_8.9": the CR LF and every later line are dropped |
| Banner.GetBanner | pscan.go:145-177 | the HEAD request is written exactly to ports 80, 443 and 8080; a failed read gives the empty banner; otherwise the banner is the cleaned reply, cut to its first 1024 bytes when longer |
| Probe.Classify | pscan.go:100-109 | a failed dial is filtered exactly when the error mentions "timeout", refused exactly when it mentions "refused" but not "timeout", and otherwise closed with the error text |
| Probe.ScanPort | pscan.go:64-110 | an open port prints its open line, with the table's service name, then a banner line exactly when verbose and the banner is not empty; a failed dial prints nothing unless verbose, and then one classified line; the HEAD request goes out only to an open web port in verbose mode |
| Probe.OpenProbe | pscan.go:79-99 | an open port prints one or two lines, the open line first, and the banner line exactly when verbose with a non-empty banner |
| Probe.TimeoutWins | pscan.go:102-103 | "timeout" anywhere in the error text means filtered, even when "refused" is there too |
| Probe.RefusedWithoutTimeout | pscan.go:104-105 | "refused" without "timeout" means closed by refusal |
| Probe.QuietFailure | pscan.go:100-109 | without -v a failed dial prints nothing and sends nothing |
| Probe.OpenSshPort | pscan.go:84-90 | an open port 22 gives the open line with the service "SSH", and nothing else without -v |
| Probe.Render | pscan.go:87-107 | every port line starts with "Port <n>/tcp "; an open line ends "open", or "open - <service>" when the service is not empty; the filtered, refused and closed lines end "filtered (timeout)", "closed (connection refused)" and "closed (<error>)"; a banner line is "  └─ Banner: " followed by the banner |
| Probe.OpenLineText | pscan.go:84-90 | an open line shows " - <service>" exactly for the ports the table lists, and then with the table's name |
| Probe.OpenSshText | pscan.go:84-90 | an open port 22 prints "Port 22/tcp open - SSH" |
| Probe.PortReadBack | pscan.go:87-107 | the text between "Port " and the first '/' of a port line parses back to the port |
| Dispatch.RunPortScan | pscan.go:193-204 | the loop's trace is the schedule; every port from start to end is dispatched exactly once, in ascending order; the number of probes dispatched since the last wait, and so the number running at once, never exceeds the absolute value of Threads |
| Dispatch.DispatchedSteps | pscan.go:193-201 | the loop so far has dispatched exactly the ports from start up to the current port, in order |
| Dispatch.ScheduleCoverage | pscan.go:193-204 | the scan dispatches the interval start..end, each port once, ascending |
| Dispatch.StepsWaitRule | pscan.go:193-201 | every wait directly follows the dispatch of a multiple of Threads, and a dispatched port is directly followed by a wait exactly when it is such a multiple |
| Dispatch.ScheduleWaitRule | pscan.go:193-204 | the scan ends with a wait, and a dispatched port is followed by a wait exactly when it is a multiple of Threads or the last port |
| Dispatch.StepsPortsBelow | pscan.go:193 | the loop only dispatches ports inside the interval |
| Dispatch.InFlightSteps | pscan.go:194-200 | the probes dispatched since the last wait, between iterations, are for consecutive ports with no multiple of Threads among them |
| Dispatch.InFlightBelow | pscan.go:194-200 | between iterations fewer than \|Threads\| probes have been dispatched since the last wait |
| Dispatch.PeakSteps | pscan.go:193-201 | the loop never has more than \|Threads\| probes dispatched since the last wait |
| Dispatch.SchedulePeak | pscan.go:193-204 | the whole scan never has more than \|Threads\| probes dispatched since the last wait |
| Dispatch.StepsBatch | pscan.go:193-201 | a run of ports with no multiple of Threads is dispatched without a wait |
| Dispatch.FullBatch | pscan.go:193-201 | a run that ends on a multiple of Threads is one batch followed by one wait |
| Dispatch.ThreeBatches | pscan.go:193-201 | two runs that each end on a multiple, then a run with none, make three batches separated by waits |
| Dispatch.TenThreadBatches | pscan.go:193-204 | with 10 threads, ports 1-25 go out as the batches 1-10, 11-20 and 21-25, each closed by a wait |
| Dispatch.TenThreadPeak | pscan.go:193-204 | with 10 threads the scan of ports 1-25 reaches 10 probes dispatched since the last wait, so the bound is reached in the worst case where none has finished |
| Dispatch.PeakGrows | pscan.go:194 | dispatching more never lowers the peak |
| Dispatch.InFlightBatch | pscan.go:194 | a batch with no wait before it has all its probes outstanding at its end |
| Dispatch.QuietOutput | pscan.go:79-109 | without -v the probes print exactly one open line per open port, in dispatch order, and nothing else |
| Dispatch.ScanOutputLength | pscan.go:79-109 | the probes of N ports print at most 2N lines, and with -v at least N |
| Dispatch.VerboseOutput | pscan.go:79-109 | with -v every probed port prints exactly one port line, in dispatch order; every other line is a banner line |
| Dispatch.ProbeLinePorts | pscan.go:79-109 | with -v one probe prints exactly one port line, for its own port |
| Dispatch.VerboseLast | pscan.go:79-109 | with -v the last probe adds exactly its own port's line to the port lines |
| Dispatch.VerboseNoListener | pscan.go:100-109 | with -v and every dial failing, the scan prints exactly one line per port, each reporting that port as filtered or closed |
| Dispatch.LinePortsConcat | pscan.go:79-109 | the port lines of two outputs run one after the other are those of the first, then those of the second |
| Dispatch.QuietScan | pscan.go:193-204 | without -v a scan reports exactly its open ports, in ascending port order |

## Left out

- The network is not modelled. That covers the TCP dial with its timeout, the
  write of the HEAD request, the one-second read deadline and the read itself.
  The dial outcome (`DialResult`) and the read outcome (`ReadResult`) are
  parameters. `Timeout` is carried in `ScanOptions` but never used.
- Goroutines and the WaitGroup are not modelled as concurrency. The loop
  records a trace of dispatches and waits. Probes in one batch may print in
  any interleaving in the source.
  `Dispatch.ScanOutput` puts each probe's lines in dispatch order, so it fixes
  one interleaving. Order across batches is what the source guarantees.
- Dispatch.InFlight: each probe's `wg.Done` (pscan.go:65-67) is not
  modelled. The count drops only at a wait, so it counts the probes
  dispatched since the last wait. That is the worst case: the real WaitGroup
  counter is at most this count, and equal to it only while no probe of the
  batch has finished. The bounds proved by `Dispatch.PeakSteps` and
  `Dispatch.SchedulePeak` therefore hold for the real counter too, and
  `Dispatch.TenThreadPeak` shows the worst case reaching the bound.
- Dispatch.RunPortScan: requires Threads != 0. With Threads == 0 the Go
  `port % options.Threads` panics with a division by zero, so that case has
  no scan to model.
- GoStrconv.Atoi: does not model the int64 range check. A token too large for
  64 bits parses here to its exact value, while Go reports a range error and
  the scanner then reports the token as invalid (pscan.go:36-45). Such a range
  is refused either way, but the model may give a different error. For
  "99999999999999999999-100" the model gives the end-not-above-start error,
  while Go reports an invalid start port. For "1-99999999999999999999" the
  model gives the end-above-65535 error, while Go reports an invalid end port.
- GoText.TrimSpace: removes ASCII white space only. Go also removes Unicode
  white space (U+0085, U+00A0 and others) from valid UTF-8 text.
- Banner bytes are printed with `%s`. `Probe.AsText` maps each byte to one
  character and does not decode UTF-8.
- `RangeError` carries the error's data, not its formatted message text. The
  messages appear as comments beside each constructor.
- `main` is left out apart from the range selection. That covers flag
  definitions and their short forms, the usage text when there are no
  arguments, the empty-target check, `net.LookupHost`, the printing of
  errors, and `os.Exit`.
- The "Starting port scan", "Using %d threads" and "Scan complete!" lines of
  `runPortScan` are left out. They print fixed text around the loop and
  decide nothing.
