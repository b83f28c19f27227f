/** `getServiceName` (pscan.go:112-142): a fixed table of well-known TCP ports. */
module Services {

  /** The table, entry for entry. */
  const CommonPorts: map<int, string> := map[
    20 := "FTP-data",
    21 := "FTP",
    22 := "SSH",
    23 := "Telnet",
    25 := "SMTP",
    53 := "DNS",
    80 := "HTTP",
    110 := "POP3",
    111 := "RPC",
    135 := "RPC",
    139 := "NetBIOS",
    143 := "IMAP",
    443 := "HTTPS",
    445 := "SMB",
    993 := "IMAPS",
    995 := "POP3S",
    1723 := "PPTP",
    3306 := "MySQL",
    3389 := "RDP",
    5900 := "VNC",
    8080 := "HTTP-Proxy"
  ]

  /** The ports the table names, listed independently of it. */
  const KnownPorts: set<int> := {
    20, 21, 22, 23, 25, 53, 80, 110, 111, 135, 139, 143,
    443, 445, 993, 995, 1723, 3306, 3389, 5900, 8080
  }

  /**
   * The service name for `port`, or "" when the table has none: a port gets
   * a name exactly when it is one of the listed ports, and then the name is
   * the table's entry.
   */
  function ServiceName(port: int): (name: string)
    ensures name != "" <==> port in KnownPorts
    ensures name != "" ==> name == CommonPorts[port]
  {
    if port in CommonPorts then CommonPorts[port] else ""
  }

  /** A few entries, and two ports that share a name. */
  lemma ServiceNameExamples()
    ensures ServiceName(22) == "SSH"
    ensures ServiceName(111) == "RPC" && ServiceName(135) == "RPC"
    ensures ServiceName(8080) == "HTTP-Proxy"
    ensures ServiceName(0) == "" && ServiceName(8443) == "" && ServiceName(65535) == ""
  {
  }
}
