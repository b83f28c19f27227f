/**
 * The parts of Go's `strings` package that pscan.go relies on, restricted to
 * the way it calls them: `strings.Split` with a one-element separator,
 * `strings.Contains` and `strings.TrimSpace` over ASCII white space.
 */
module GoText {

  /** A Go byte. */
  newtype byte = b: int | 0 <= b < 256

  /** Reads an ASCII Dafny string literal as the bytes Go would hold, one byte per character. */
  function Bytes(s: string): (r: seq<byte>)
    requires forall i | 0 <= i < |s| :: s[i] as int < 128
    ensures |r| == |s|
    ensures forall i | 0 <= i < |s| :: r[i] as int == s[i] as int
  {
    seq(|s|, i requires 0 <= i < |s| => s[i] as int as byte)
  }

  /** Reading two literals as bytes and gluing them is reading their concatenation. */
  lemma {:induction false} BytesConcat(s: string, t: string)
    requires forall i | 0 <= i < |s| :: s[i] as int < 128
    requires forall i | 0 <= i < |t| :: t[i] as int < 128
    ensures forall i | 0 <= i < |s + t| :: (s + t)[i] as int < 128
    ensures Bytes(s + t) == Bytes(s) + Bytes(t)
  {
  }

  // ---------------------------------------------------------------------
  // strings.Split(s, sep) with |sep| == 1, and its inverse strings.Join
  // ---------------------------------------------------------------------

  /** The pieces between separators, glued back together with `sep`. */
  function Join<T>(pieces: seq<seq<T>>, sep: T): seq<T>
    requires |pieces| > 0
  {
    if |pieces| == 1 then pieces[0] else pieces[0] + [sep] + Join(pieces[1..], sep)
  }

  /**
   * `strings.Split(s, sep)`: the maximal separator-free runs of `s`, one more
   * than the number of separators (so the empty input gives one empty piece).
   */
  function Split<T(==)>(s: seq<T>, sep: T): (pieces: seq<seq<T>>)
    ensures |pieces| >= 1
    ensures forall k | 0 <= k < |pieces| :: sep !in pieces[k]
  {
    if s == [] then [[]]
    else
      var rest := Split(s[1..], sep);
      if s[0] == sep then [[]] + rest
      else [[s[0]] + rest[0]] + rest[1..]
  }

  /** Split gives one piece more than there are separators. */
  lemma {:induction false} SplitCount<T>(s: seq<T>, sep: T)
    ensures |Split(s, sep)| == multiset(s)[sep] + 1
  {
    if s != [] {
      SplitCount(s[1..], sep);
      assert s == [s[0]] + s[1..];
      assert multiset(s) == multiset([s[0]]) + multiset(s[1..]);
    }
  }

  /** Join undoes Split: gluing the pieces back with the separator gives the input. */
  lemma {:induction false} JoinSplit<T>(s: seq<T>, sep: T)
    ensures Join(Split(s, sep), sep) == s
  {
    if s != [] {
      var rest := Split(s[1..], sep);
      JoinSplit(s[1..], sep);
      if s[0] == sep {
        JoinConsEmpty(rest, sep);
      } else {
        JoinConsFirst(s[0], rest, sep);
      }
      assert [s[0]] + s[1..] == s;
    }
  }

  lemma {:induction false} JoinConsEmpty<T>(rest: seq<seq<T>>, sep: T)
    requires |rest| > 0
    ensures Join([[]] + rest, sep) == [sep] + Join(rest, sep)
  {
    assert ([[]] + rest)[1..] == rest;
  }

  lemma {:induction false} JoinConsFirst<T>(x: T, rest: seq<seq<T>>, sep: T)
    requires |rest| > 0
    ensures Join([[x] + rest[0]] + rest[1..], sep) == [x] + Join(rest, sep)
  {
    var pieces := [[x] + rest[0]] + rest[1..];
    assert pieces[0] == [x] + rest[0];
    if |rest| > 1 {
      assert pieces[1..] == rest[1..];
      assert Join(pieces, sep) == pieces[0] + [sep] + Join(rest[1..], sep);
      assert Join(rest, sep) == rest[0] + [sep] + Join(rest[1..], sep);
    } else {
      assert |pieces| == 1;
    }
  }

  /** Splitting a string that holds no separator gives the string back alone. */
  lemma {:induction false} SplitNoSeparator<T>(s: seq<T>, sep: T)
    requires sep !in s
    ensures Split(s, sep) == [s]
  {
    if s != [] {
      SplitNoSeparator(s[1..], sep);
      assert [s[0]] + s[1..] == s;
    }
  }

  /** Splitting at a first separator: the separator-free head, then the pieces of the tail. */
  lemma {:induction false} SplitAtFirst<T>(a: seq<T>, sep: T, b: seq<T>)
    requires sep !in a
    ensures Split(a + [sep] + b, sep) == [a] + Split(b, sep)
  {
    if a == [] {
      assert a + [sep] + b == [sep] + b;
      assert ([sep] + b)[1..] == b;
    } else {
      SplitAtFirst(a[1..], sep, b);
      assert (a + [sep] + b)[1..] == a[1..] + [sep] + b;
      assert [a[0]] + a[1..] == a;
    }
  }

  /** Split undoes Join: the round trip for separator-free pieces. */
  lemma {:induction false} SplitJoin<T>(pieces: seq<seq<T>>, sep: T)
    requires |pieces| > 0
    requires forall k | 0 <= k < |pieces| :: sep !in pieces[k]
    ensures Split(Join(pieces, sep), sep) == pieces
  {
    if |pieces| == 1 {
      SplitNoSeparator(pieces[0], sep);
    } else {
      SplitJoin(pieces[1..], sep);
      SplitAtFirst(pieces[0], sep, Join(pieces[1..], sep));
      assert [pieces[0]] + pieces[1..] == pieces;
    }
  }

  /** The two-piece case that `strings.Split(rangeStr, "-")` is after. */
  lemma {:induction false} SplitTwo<T>(a: seq<T>, sep: T, b: seq<T>)
    requires sep !in a && sep !in b
    ensures Split(a + [sep] + b, sep) == [a, b]
  {
    SplitJoin([a, b], sep);
    assert [a, b][1..] == [b];
  }

  // ---------------------------------------------------------------------
  // strings.Contains
  // ---------------------------------------------------------------------

  /** True when `sub` occurs at offset `i` of `s`. */
  predicate OccursAt<T(==)>(s: seq<T>, sub: seq<T>, i: nat) {
    i + |sub| <= |s| && s[i..i + |sub|] == sub
  }

  /** `strings.Contains(s, sub)`: `sub` occurs somewhere in `s`. */
  function Contains<T(==)>(s: seq<T>, sub: seq<T>): (r: bool)
    ensures r <==> exists i: nat :: OccursAt(s, sub, i)
  {
    if |s| < |sub| then
      assert forall i: nat :: !OccursAt(s, sub, i);
      false
    else if s[..|sub|] == sub then
      assert OccursAt(s, sub, 0);
      true
    else
      var r := Contains(s[1..], sub);
      if r then
        var i: nat :| OccursAt(s[1..], sub, i);
        assert s[1..][i..i + |sub|] == s[i + 1..i + 1 + |sub|];
        assert OccursAt(s, sub, i + 1);
        r
      else
        forall i: nat | OccursAt(s, sub, i) ensures false {
          assert i != 0;
          assert s[1..][i - 1..i - 1 + |sub|] == s[i..i + |sub|];
          assert OccursAt(s[1..], sub, i - 1);
        }
        r
  }

  /** Whatever surrounds it, a string that has `sub` inside contains it. */
  lemma {:induction false} ContainsInfix<T>(a: seq<T>, sub: seq<T>, b: seq<T>)
    ensures Contains(a + sub + b, sub)
  {
    assert (a + sub + b)[|a|..|a| + |sub|] == sub;
    assert OccursAt(a + sub + b, sub, |a|);
  }

  // ---------------------------------------------------------------------
  // strings.TrimSpace, ASCII white space only
  // ---------------------------------------------------------------------

  /** The ASCII white space `strings.TrimSpace` removes: \t \n \v \f \r and space. */
  predicate IsSpace(b: byte) {
    b == 9 || b == 10 || b == 11 || b == 12 || b == 13 || b == 32
  }

  predicate AllSpace(s: seq<byte>) {
    forall i | 0 <= i < |s| :: IsSpace(s[i])
  }

  /** Neither end of `s` is white space. */
  predicate Trimmed(s: seq<byte>) {
    s == [] || (!IsSpace(s[0]) && !IsSpace(s[|s| - 1]))
  }

  /** The number of white-space bytes `s` starts with. */
  function LeadingSpace(s: seq<byte>): (n: nat)
    ensures n <= |s|
    ensures forall k | 0 <= k < n :: IsSpace(s[k])
    ensures n < |s| ==> !IsSpace(s[n])
  {
    if s == [] || !IsSpace(s[0]) then 0
    else
      var n := LeadingSpace(s[1..]);
      assert forall k | 1 <= k < 1 + n :: s[k] == s[1..][k - 1];
      1 + n
  }

  /** Where the trailing white space of `s` starts. */
  function ContentEnd(s: seq<byte>): (n: nat)
    ensures n <= |s|
    ensures forall k | n <= k < |s| :: IsSpace(s[k])
    ensures n > 0 ==> !IsSpace(s[n - 1])
  {
    if s == [] || !IsSpace(s[|s| - 1]) then |s|
    else
      var init := s[..|s| - 1];
      var n := ContentEnd(init);
      assert forall k | n <= k < |init| :: s[k] == init[k];
      n
  }

  /** The leading white space is pinned down by where the first other byte sits. */
  lemma LeadingSpaceExact(s: seq<byte>, m: nat)
    requires m <= |s| && forall k | 0 <= k < m :: IsSpace(s[k])
    requires m < |s| ==> !IsSpace(s[m])
    ensures LeadingSpace(s) == m
  {
  }

  /** The trailing white space is pinned down by where the last other byte sits. */
  lemma ContentEndExact(s: seq<byte>, m: nat)
    requires m <= |s| && forall k | m <= k < |s| :: IsSpace(s[k])
    requires m > 0 ==> !IsSpace(s[m - 1])
    ensures ContentEnd(s) == m
  {
  }

  /** Drops leading white space: the longest suffix that does not start with it. */
  function TrimLeft(s: seq<byte>): (r: seq<byte>)
    ensures |r| <= |s| && r == s[|s| - |r|..]
    ensures AllSpace(s[..|s| - |r|])
    ensures r == [] || !IsSpace(r[0])
  {
    s[LeadingSpace(s)..]
  }

  /** Drops trailing white space: the longest prefix that does not end with it. */
  function TrimRight(s: seq<byte>): (r: seq<byte>)
    ensures |r| <= |s| && r == s[..|r|]
    ensures AllSpace(s[|r|..])
    ensures r == [] || !IsSpace(r[|r| - 1])
  {
    s[..ContentEnd(s)]
  }

  /**
   * `strings.TrimSpace(s)`: the slice of `s` left after removing white space
   * from both ends; what was removed is white space only.
   */
  function TrimSpace(s: seq<byte>): (r: seq<byte>)
    ensures Trimmed(r) && |r| <= |s|
  {
    TrimRight(TrimLeft(s))
  }

  /** Where TrimSpace's result sits in its input: everything around it is white space. */
  lemma {:induction false} TrimSpaceSlice(s: seq<byte>) returns (i: nat)
    ensures var r := TrimSpace(s);
            && i + |r| <= |s| && r == s[i..i + |r|]
            && AllSpace(s[..i]) && AllSpace(s[i + |r|..])
  {
    var l := TrimLeft(s);
    var r := TrimRight(l);
    i := |s| - |l|;
    assert r == s[i..i + |r|];
    assert s[i + |r|..] == l[|r|..];
  }

  /**
   * What TrimSpace keeps is determined: white space around a core that
   * starts and ends with something else is exactly what it removes.
   */
  lemma {:induction false} TrimSpaceUnique(l: seq<byte>, m: seq<byte>, r: seq<byte>)
    requires AllSpace(l) && AllSpace(r) && m != [] && Trimmed(m)
    ensures TrimSpace(l + m + r) == m
  {
    var s := l + m + r;
    assert forall k | 0 <= k < |l| :: s[k] == l[k];
    assert s[|l|] == m[0];
    LeadingSpaceExact(s, |l|);
    var left := s[|l|..];
    assert left == m + r;
    assert forall k | |m| <= k < |left| :: left[k] == r[k - |m|];
    ContentEndExact(left, |m|);
    assert left[..|m|] == m;
  }

  /** TrimSpace only removes: a byte absent from its input is absent from its result. */
  lemma {:induction false} TrimSpaceAvoids(s: seq<byte>, b: byte)
    requires b !in s
    ensures b !in TrimSpace(s)
  {
    var r := TrimSpace(s);
    var i := TrimSpaceSlice(s);
    forall k | 0 <= k < |r| ensures r[k] != b {
      assert r[k] == s[i + k];
    }
  }

  /** TrimSpace leaves a string alone exactly when neither end is white space. */
  lemma {:induction false} TrimSpaceFixed(s: seq<byte>)
    ensures TrimSpace(s) == s <==> Trimmed(s)
  {
    if s != [] && Trimmed(s) {
      TrimSpaceUnique([], s, []);
      assert [] + s + [] == s;
    }
  }
}
