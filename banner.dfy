/**
 * `getBanner` (pscan.go:144-177) without the socket: which ports are greeted
 * first, and how the bytes one read returned are cleaned up.
 */
module Banner {
  import opened GoText
  import Services

  /** Banners longer than this are cut (pscan.go:171). */
  const MaxLen: nat := 80

  /** The read buffer size (pscan.go:150). */
  const BufferSize: nat := 1024

  const Newline: byte := 10

  /** "..." appended to a cut banner. */
  const Ellipsis: seq<byte> := [46, 46, 46]

  /** The greeting sent to the web ports before reading (pscan.go:154), as bytes. */
  const HeadRequest: seq<byte> := [72, 69, 65, 68, 32, 47, 32, 72, 84, 84, 80, 47, 49, 46, 48, 13, 10, 13, 10]

  /** Those bytes spell out the request line and the blank line that ends it. */
  lemma HeadRequestText()
    ensures HeadRequest == Bytes("HEAD / HTTP/1.0\r\n\r\n")
  {
  }

  /** Ports whose services do not speak first and get a HEAD request (pscan.go:153). */
  predicate SendsGreeting(port: int) {
    port == 80 || port == 443 || port == 8080
  }

  /** The greeted ports are exactly the ones the service table calls HTTP, HTTPS or HTTP-Proxy. */
  lemma {:induction false} GreetedPortsAreWebPorts(port: int)
    ensures SendsGreeting(port) <==> Services.ServiceName(port) in {"HTTP", "HTTPS", "HTTP-Proxy"}
  {
  }

  /** The text before the first newline (`strings.Split(banner, "\n")[0]`). */
  function FirstLine(s: seq<byte>): (line: seq<byte>)
    ensures Newline !in line
  {
    Split(s, Newline)[0]
  }

  /** Cuts a line longer than 80 bytes to its first 80 and marks the cut with "...". */
  function Truncate(line: seq<byte>): (banner: seq<byte>)
    requires Trimmed(line) && Newline !in line
    ensures Newline !in banner && Trimmed(banner)
    ensures |banner| <= MaxLen + |Ellipsis|
    ensures |line| <= MaxLen ==> banner == line
    ensures |line| > MaxLen ==> banner == line[..MaxLen] + Ellipsis
  {
    if |line| > MaxLen then line[..MaxLen] + Ellipsis else line
  }

  /**
   * The clean-up of pscan.go:163-174: trim, keep the first line, trim it
   * again and truncate. The result is one line, starts and ends with
   * something other than white space and holds at most 83 bytes.
   */
  function CleanBanner(raw: seq<byte>): (banner: seq<byte>)
    ensures Newline !in banner && Trimmed(banner)
    ensures |banner| <= MaxLen + |Ellipsis|
  {
    // Split always yields at least one piece, so the source's
    // `len(lines) > 0` test always holds and FirstLine is what it takes.
    var first := FirstLine(TrimSpace(raw));
    TrimSpaceAvoids(first, Newline);
    Truncate(TrimSpace(first))
  }

  /** On a single line with no white space at either end, only truncation acts. */
  lemma {:induction false} CleanLine(line: seq<byte>)
    requires Trimmed(line) && Newline !in line
    ensures CleanBanner(line) == Truncate(line)
  {
    assert TrimSpace(line) == line by { TrimSpaceFixed(line); }
    assert FirstLine(line) == line by { SplitNoSeparator(line, Newline); }
  }

  /** Truncating twice is truncating once: a cut banner is 83 bytes and cuts back to itself. */
  lemma {:induction false} TruncateIdempotent(line: seq<byte>)
    requires Trimmed(line) && Newline !in line
    ensures Truncate(Truncate(line)) == Truncate(line)
  {
    var banner := Truncate(line);
    if |line| > MaxLen {
      assert banner[..MaxLen] == line[..MaxLen];
    }
  }

  /** Cleaning a cleaned banner changes nothing. */
  lemma {:induction false} CleanBannerIdempotent(raw: seq<byte>)
    ensures CleanBanner(CleanBanner(raw)) == CleanBanner(raw)
  {
    var first := FirstLine(TrimSpace(raw));
    var line := TrimSpace(first);
    TrimSpaceAvoids(first, Newline);
    assert CleanBanner(raw) == Truncate(line);
    CleanLine(Truncate(line));
    TruncateIdempotent(line);
  }

  /** Leading white space in front of a non-blank start is all TrimLeft removes. */
  lemma {:induction false} TrimLeftPast(lead: seq<byte>, x: seq<byte>)
    requires AllSpace(lead) && x != [] && !IsSpace(x[0])
    ensures TrimLeft(lead + x) == x
  {
    var s := lead + x;
    assert forall k | 0 <= k < |lead| :: s[k] == lead[k];
    assert s[|lead|] == x[0];
    LeadingSpaceExact(s, |lead|);
    assert s[|lead|..] == x;
  }

  /** TrimRight stops at the latest at the non-blank end of `a`. */
  lemma {:induction false} TrimRightAfter(a: seq<byte>, after: seq<byte>) returns (k: nat)
    requires a != [] && !IsSpace(a[|a| - 1])
    ensures k <= |after| && AllSpace(after[k..])
    ensures TrimRight(a + after) == a + after[..k]
  {
    var s := a + after;
    k := ContentEnd(after);
    assert forall j | |a| + k <= j < |s| :: s[j] == after[j - |a|];
    assert s[|a| + k - 1] == if k == 0 then a[|a| - 1] else after[k - 1];
    ContentEndExact(s, |a| + k);
    assert s[..|a| + k] == a + after[..k];
  }

  /**
   * Trimming text that starts, after white space, with the non-blank `a`
   * keeps `a` and some prefix of what follows it; the rest is white space.
   */
  lemma {:induction false} TrimAroundCore(lead: seq<byte>, a: seq<byte>, after: seq<byte>) returns (k: nat)
    requires AllSpace(lead) && a != [] && Trimmed(a)
    ensures k <= |after| && AllSpace(after[k..])
    ensures TrimSpace(lead + a + after) == a + after[..k]
  {
    assert lead + a + after == lead + (a + after);
    TrimLeftPast(lead, a + after);
    k := TrimRightAfter(a, after);
  }

  /**
   * The first line of `a` followed by part of "gap, line break, rest" is `a`
   * followed by at most the white space `gap`.
   */
  lemma {:induction false} FirstLineOfPrefix(a: seq<byte>, gap: seq<byte>, rest: seq<byte>, k: nat) returns (g: seq<byte>)
    requires Newline !in a && AllSpace(gap) && Newline !in gap
    requires k <= |gap| + 1 + |rest|
    ensures AllSpace(g)
    ensures FirstLine(a + (gap + [Newline] + rest)[..k]) == a + g
  {
    var after := gap + [Newline] + rest;
    var t := a + after[..k];
    if k <= |gap| {
      g := gap[..k];
      assert after[..k] == g;
      SplitNoSeparator(t, Newline);
    } else {
      g := gap;
      var more := rest[..k - |gap| - 1];
      assert after[..k] == gap + [Newline] + more;
      assert t == (a + gap) + [Newline] + more;
      SplitAtFirst(a + gap, Newline, more);
    }
  }

  /** The first line of the trimmed reply is `a` followed by white space only. */
  lemma {:induction false} FirstLineOfReply(lead: seq<byte>, a: seq<byte>, gap: seq<byte>, rest: seq<byte>) returns (g: seq<byte>)
    requires AllSpace(lead) && AllSpace(gap) && Newline !in gap
    requires a != [] && Trimmed(a) && Newline !in a
    ensures AllSpace(g)
    ensures FirstLine(TrimSpace(lead + a + (gap + [Newline] + rest))) == a + g
  {
    var k := TrimAroundCore(lead, a, gap + [Newline] + rest);
    g := FirstLineOfPrefix(a, gap, rest, k);
  }

  /** Trailing white space after a non-blank line is trimmed away. */
  lemma {:induction false} TrimPadded(a: seq<byte>, g: seq<byte>)
    requires a != [] && Trimmed(a) && AllSpace(g)
    ensures TrimSpace(a + g) == a
  {
    TrimSpaceUnique([], a, g);
    assert [] + a + g == a + g;
  }

  /**
   * A reply whose first line, after any leading white space, is a line `a`
   * of at most 80 bytes gives `a`, whatever follows the line break; the white
   * space `gap` before the break (a carriage return, say) is dropped.
   */
  lemma {:induction false} CleanBannerFirstLine(lead: seq<byte>, a: seq<byte>, gap: seq<byte>, rest: seq<byte>)
    requires AllSpace(lead) && AllSpace(gap) && Newline !in gap
    requires a != [] && Trimmed(a) && Newline !in a && |a| <= MaxLen
    ensures CleanBanner(lead + a + gap + [Newline] + rest) == a
  {
    var s := lead + a + (gap + [Newline] + rest);
    assert lead + a + gap + [Newline] + rest == s;
    var g := FirstLineOfReply(lead, a, gap, rest);
    TrimPadded(a, g);
    assert TrimSpace(FirstLine(TrimSpace(s))) == a;
  }

  /** An SSH server's version line loses its CR LF and nothing else. */
  lemma OpenSshBanner()
    ensures CleanBanner(Bytes("SSH-2.0-OpenSSH_8.9\r\nextra\r\n")) == Bytes("SSH-2.0-OpenSSH_8.9")
  {
    SshVersionLine();
    SshReply();
    CleanBannerFirstLine([], Bytes("SSH-2.0-OpenSSH_8.9"), [13], Bytes("extra\r\n"));
  }

  lemma SshVersionLine()
    ensures var a := Bytes("SSH-2.0-OpenSSH_8.9"); Trimmed(a) && Newline !in a && |a| <= MaxLen
  {
    var a := Bytes("SSH-2.0-OpenSSH_8.9");
    assert a[0] == 83 && a[|a| - 1] == 57;
  }

  lemma SshReply()
    ensures Bytes("SSH-2.0-OpenSSH_8.9\r\nextra\r\n") == [] + Bytes("SSH-2.0-OpenSSH_8.9") + [13] + [Newline] + Bytes("extra\r\n")
  {
    BytesConcat("SSH-2.0-OpenSSH_8.9", "\r\n");
    BytesConcat("SSH-2.0-OpenSSH_8.9\r\n", "extra\r\n");
    assert Bytes("\r\n") == [13] + [Newline];
  }

  /** The outcome of the one read `getBanner` makes. */
  datatype ReadResult =
    | ReadFailed                 // an error, the one-second deadline included
    | Received(data: seq<byte>)  // the bytes the peer had sent when the read ran

  /** What `getBanner` writes to the connection and the banner it returns. */
  datatype Exchange = Exchange(sent: seq<byte>, banner: seq<byte>)

  /**
   * `getBanner(conn, port)` with the read's outcome as a parameter: the HEAD
   * request goes out exactly to the greeted ports, a failed read gives no
   * banner, and otherwise the banner is the cleaned first 1024 bytes.
   */
  function GetBanner(port: int, reply: ReadResult): (x: Exchange)
    ensures x.sent == (if SendsGreeting(port) then HeadRequest else [])
    ensures reply.ReadFailed? ==> x.banner == []
    ensures reply.Received? ==> x.banner == CleanBanner(reply.data[..if |reply.data| < BufferSize then |reply.data| else BufferSize])
    ensures reply.Received? && |reply.data| <= BufferSize ==> x.banner == CleanBanner(reply.data)
    ensures Newline !in x.banner && Trimmed(x.banner) && |x.banner| <= MaxLen + |Ellipsis|
  {
    var sent := if SendsGreeting(port) then HeadRequest else [];
    match reply
    case ReadFailed => Exchange(sent, [])
    case Received(data) =>
      var n := if |data| < BufferSize then |data| else BufferSize;
      assert n == |data| ==> data[..n] == data;
      Exchange(sent, CleanBanner(data[..n]))
  }
}
