/**
 * `parsePortRange` (pscan.go:27-61): reads a "start-end" string into two
 * port numbers, reporting the first problem it finds in a fixed order.
 */
module PortRange {
  import opened Wrappers
  import opened GoText
  import opened GoStrconv

  /** The highest TCP port number. */
  const MaxPort: int := 65535

  /** The errors `parsePortRange` returns, in the order it checks for them. */
  datatype RangeError =
    | BadFormat               // not exactly one '-'
    | BadStart(token: string) // "invalid start port: <token>"
    | BadEnd(token: string)   // "invalid end port: <token>"
    | StartBelowOne           // "start port must be 1 or greater"
    | EndNotAboveStart        // "end port must be greater than start port"
    | EndAboveMax             // "end port must be less than or equal to 65535"

  /** Go's `(int, int, error)` triple. */
  datatype ParsedRange = ParsedRange(start: int, end: int, err: Option<RangeError>)

  /** Every error path returns the zero ports alongside its error. */
  function Fail(e: RangeError): ParsedRange {
    ParsedRange(0, 0, Some(e))
  }

  /**
   * The range parser. On success the two ports form a valid scan interval;
   * on failure both ports are 0; the format error is reported exactly when
   * the string does not hold one hyphen.
   */
  function ParsePortRange(rangeStr: string): (r: ParsedRange)
    ensures r.err.Some? ==> r.start == 0 && r.end == 0
    ensures r.err.None? ==> 1 <= r.start < r.end <= MaxPort
    ensures r.err == Some(BadFormat) <==> multiset(rangeStr)['-'] != 1
  {
    SplitCount(rangeStr, '-');
    var ports := Split(rangeStr, '-');
    if |ports| != 2 then Fail(BadFormat)
    else
      match Atoi(ports[0])
      case None => Fail(BadStart(ports[0]))
      case Some(startPort) =>
        match Atoi(ports[1])
        case None => Fail(BadEnd(ports[1]))
        case Some(endPort) =>
          if startPort < 1 then Fail(StartBelowOne)
          else if endPort <= startPort then Fail(EndNotAboveStart)
          else if endPort > MaxPort then Fail(EndAboveMax)
          else ParsedRange(startPort, endPort, None)
  }

  lemma {:induction false} HyphenCount(x: string, y: string)
    ensures multiset(x + "-" + y)['-'] == multiset(x)['-'] + 1 + multiset(y)['-']
  {
    assert multiset(x + "-" + y) == multiset(x) + multiset("-") + multiset(y);
  }

  /**
   * The printed form of two integers joined by a hyphen parses back to
   * exactly those integers if and only if 1 <= a < b <= 65535.
   */
  lemma {:induction false} ParseFormatted(a: int, b: int)
    ensures var r := ParsePortRange(Itoa(a) + "-" + Itoa(b));
            && (r.err.None? <==> 1 <= a < b <= MaxPort)
            && (r.err.None? ==> r.start == a && r.end == b)
  {
    var x, y := Itoa(a), Itoa(b);
    HyphenCount(x, y);
    if a >= 0 && b >= 0 {
      SplitTwo(x, '-', y);
      AtoiItoa(a);
      AtoiItoa(b);
    } else {
      assert '-' in x || '-' in y;
    }
  }

  /**
   * The order in which the checks fire, for a string with exactly one hyphen
   * between tokens `x` and `y`. First: a start token that is not an integer
   * is reported, whatever the end token is.
   */
  lemma {:induction false} StartTokenFirst(x: string, y: string)
    requires '-' !in x && '-' !in y
    requires Atoi(x).None?
    ensures ParsePortRange(x + "-" + y) == Fail(BadStart(x))
  {
    SplitTwo(x, '-', y);
  }

  /** Second: an end token that is not an integer, once the start token is one. */
  lemma {:induction false} EndTokenSecond(x: string, y: string)
    requires '-' !in x && '-' !in y
    requires Atoi(x).Some? && Atoi(y).None?
    ensures ParsePortRange(x + "-" + y) == Fail(BadEnd(y))
  {
    SplitTwo(x, '-', y);
  }

  /**
   * Then, with both tokens integers a and b: the start bound, then
   * end <= start, then the end bound; a range passing all three is returned
   * as read.
   */
  lemma {:induction false} BoundsInOrder(x: string, y: string, a: int, b: int)
    requires '-' !in x && '-' !in y
    requires Atoi(x) == Some(a) && Atoi(y) == Some(b)
    ensures var r := ParsePortRange(x + "-" + y);
            && (a < 1 ==> r == Fail(StartBelowOne))
            && (1 <= a && b <= a ==> r == Fail(EndNotAboveStart))
            && (1 <= a < b && b > MaxPort ==> r == Fail(EndAboveMax))
            && (1 <= a < b <= MaxPort ==> r == ParsedRange(a, b, None))
  {
    SplitTwo(x, '-', y);
  }

  /** A lone port is not a range. */
  lemma LonePort()
    ensures ParsePortRange("80") == Fail(BadFormat)
  {
    assert multiset("80")['-'] == 0;
  }

  /** Two hyphens are a format error. */
  lemma TwoHyphens()
    ensures ParsePortRange("1-2-3") == Fail(BadFormat)
  {
    assert multiset("1-2-3")['-'] == 2;
  }

  /** A leading minus sign is one hyphen too many. */
  lemma NegativeStart()
    ensures ParsePortRange("-5-10") == Fail(BadFormat)
  {
    assert multiset("-5-10")['-'] == 2;
  }

  /** The empty string is a format error. */
  lemma EmptyRange()
    ensures ParsePortRange("") == Fail(BadFormat)
  {
  }

  /** A start token that is not a number is named in the error. */
  lemma StartTokenNamed()
    ensures ParsePortRange("abc-10") == Fail(BadStart("abc"))
  {
    assert "abc-10" == "abc" + "-" + "10";
    assert Atoi("abc") == None by {
      assert "abc"[0] == 'a' && !IsDigit('a');
    }
    StartTokenFirst("abc", "10");
  }

  /** An empty end token is an end error. */
  lemma EmptyEndToken()
    ensures ParsePortRange("10-") == Fail(BadEnd(""))
  {
    assert Itoa(10) == "10";
    AtoiItoa(10);
    EndTokenSecond("10", "");
    assert "10-" == "10" + "-" + "";
  }

  /** Port 0 fails the start check before end <= start is looked at. */
  lemma ZeroStart()
    ensures ParsePortRange("0-0") == Fail(StartBelowOne)
  {
    assert Itoa(0) == "0";
    AtoiItoa(0);
    assert "0-0" == "0" + "-" + "0";
    BoundsInOrder("0", "0", 0, 0);
  }

  /** A reversed range fails the end-above-start check. */
  lemma ReversedRange()
    ensures ParsePortRange("100-50") == Fail(EndNotAboveStart)
  {
    assert Itoa(100) == "100" && Itoa(50) == "50";
    AtoiItoa(100);
    AtoiItoa(50);
    assert "100-50" == "100" + "-" + "50";
    BoundsInOrder("100", "50", 100, 50);
  }

  /** A one-port range is refused: the end must exceed the start. */
  lemma SinglePortRange()
    ensures ParsePortRange("5-5") == Fail(EndNotAboveStart)
  {
    assert Itoa(5) == "5";
    AtoiItoa(5);
    assert "5-5" == "5" + "-" + "5";
    BoundsInOrder("5", "5", 5, 5);
  }

  /** An end beyond 65535 fails the last check. */
  lemma EndTooLarge()
    ensures ParsePortRange("1-99999") == Fail(EndAboveMax)
  {
    assert Itoa(1) == "1" && Itoa(99999) == "99999";
    AtoiItoa(1);
    AtoiItoa(99999);
    assert "1-99999" == "1" + "-" + "99999";
    BoundsInOrder("1", "99999", 1, 99999);
  }
}
