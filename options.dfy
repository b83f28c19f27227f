/**
 * The scanner's configuration and the range-selection branch of `main`
 * (pscan.go:254-269): `-all` beats `-common`, which beats the `-ports` string.
 */
module Options {
  import opened Wrappers
  import opened PortRange

  /** `ScanOptions` (pscan.go:14-24); the timeout is in milliseconds. */
  datatype ScanOptions = ScanOptions(
    target: string,
    startPort: int,
    endPort: int,
    timeout: int,
    threads: int,
    allPorts: bool,
    commonOnly: bool,
    verbose: bool)

  /** The interval `-common` selects. */
  const CommonEnd: int := 1024

  /**
   * Sets the scan interval from the mode flags or, only when neither is set,
   * from the port string. A failure here makes `main` exit before scanning.
   */
  function SelectRange(options: ScanOptions, portRange: string): (r: Result<ScanOptions, RangeError>)
    ensures r.Success? ==> 1 <= r.value.startPort < r.value.endPort <= MaxPort
    ensures r.Success? ==> r.value == options.(startPort := r.value.startPort, endPort := r.value.endPort)
    ensures options.allPorts ==> r == Success(options.(startPort := 1, endPort := MaxPort))
    ensures !options.allPorts && options.commonOnly ==> r == Success(options.(startPort := 1, endPort := CommonEnd))
    ensures !options.allPorts && !options.commonOnly ==>
              var parsed := ParsePortRange(portRange);
              && (r.Failure? <==> parsed.err.Some?)
              && (r.Failure? ==> r.error == parsed.err.value)
              && (r.Success? ==> r.value.startPort == parsed.start && r.value.endPort == parsed.end)
  {
    if options.allPorts then
      Success(options.(startPort := 1, endPort := MaxPort))
    else if options.commonOnly then
      Success(options.(startPort := 1, endPort := CommonEnd))
    else
      var parsed := ParsePortRange(portRange);
      if parsed.err.Some? then Failure(parsed.err.value)
      else Success(options.(startPort := parsed.start, endPort := parsed.end))
  }

  /** Under `-all` or `-common` the port string is never read, so a bad one is ignored. */
  lemma {:induction false} ModeIgnoresPortString(options: ScanOptions, p: string, q: string)
    requires options.allPorts || options.commonOnly
    ensures SelectRange(options, p) == SelectRange(options, q)
    ensures SelectRange(options, p).Success?
  {
  }
}
