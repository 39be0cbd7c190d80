// String helpers with the semantics of the two host languages: JavaScript's
// String.prototype.split with a one-character separator, Go's
// strings.SplitN(s, sep, 2), and Go's "%d" formatting of a non-negative int.

/** Go's nil-or-value and value-or-error returns. */
module Wrappers {
  datatype Option<T> = None | Some(value: T)
  datatype Result<T> = Success(value: T) | Failure(error: string)
}

module Strings {

  /** Number of occurrences of `c` in `s`. */
  function Count(s: string, c: char): (n: nat)
    ensures n <= |s|
    ensures n == 0 <==> c !in s
  {
    if s == [] then 0 else (if s[0] == c then 1 else 0) + Count(s[1..], c)
  }

  /** JavaScript `s.split(sep)` for a one-character separator: the pieces
      between consecutive separators, so one more piece than separators. */
  function Split(s: string, sep: char): (parts: seq<string>)
    ensures |parts| == Count(s, sep) + 1
    ensures forall k :: 0 <= k < |parts| ==> sep !in parts[k]
  {
    if s == [] then [""]
    else if s[0] == sep then [""] + Split(s[1..], sep)
    else
      var rest := Split(s[1..], sep);
      [[s[0]] + rest[0]] + rest[1..]
  }

  /** JavaScript `parts.join(sep)`. */
  function Join(parts: seq<string>, sep: char): string
    requires |parts| >= 1
  {
    if |parts| == 1 then parts[0] else parts[0] + [sep] + Join(parts[1..], sep)
  }

  /** Splitting and joining again gives back the original string. */
  lemma {:induction false} JoinSplit(s: string, sep: char)
    ensures Join(Split(s, sep), sep) == s
  {
    if s == [] {
    } else if s[0] == sep {
      JoinSplit(s[1..], sep);
      assert Split(s, sep)[1..] == Split(s[1..], sep);
    } else {
      var rest := Split(s[1..], sep);
      JoinSplit(s[1..], sep);
      var parts := Split(s, sep);
      assert parts[0] == [s[0]] + rest[0];
      if |rest| == 1 {
        assert s == [s[0]] + s[1..];
      } else {
        assert parts[1..] == rest[1..];
        assert Join(rest, sep) == rest[0] + [sep] + Join(rest[1..], sep);
        assert s == [s[0]] + s[1..];
      }
    }
  }

  /** Go `strings.Index(s, string(c))`: the first index of `c`, or -1. */
  function IndexOf(s: string, c: char): (i: int)
    ensures -1 <= i < |s|
    ensures i == -1 <==> c !in s
    ensures i >= 0 ==> s[i] == c && c !in s[..i]
  {
    if s == [] then -1
    else if s[0] == c then 0
    else
      var j := IndexOf(s[1..], c);
      assert s[1..][..if j < 0 then 0 else j] == s[1..if j < 0 then 1 else j + 1];
      if j == -1 then -1 else j + 1
  }

  /** Go `strings.SplitN(s, string(sep), 2)`: at most two pieces, cut at the
      first separator; the second piece keeps any further separators. */
  function SplitN2(s: string, sep: char): (parts: seq<string>)
    ensures |parts| == 1 || |parts| == 2
    ensures |parts| == 2 <==> sep in s
    ensures |parts| == 1 ==> parts[0] == s
    ensures |parts| == 2 ==> parts[0] + [sep] + parts[1] == s && sep !in parts[0]
  {
    var i := IndexOf(s, sep);
    if i < 0 then [s]
    else
      assert s == s[..i] + [sep] + s[i + 1..];
      [s[..i], s[i + 1..]]
  }

  /** Cutting a string at a separator-free prefix followed by the separator
      is what SplitN2 does. */
  lemma PrefixCut(s: string, sep: char, p: string, q: string)
    requires s == p + [sep] + q && sep !in p
    ensures SplitN2(s, sep) == [p, q]
  {
    var i := IndexOf(s, sep);
    assert s[|p|] == sep;
    assert i == |p| by {
      assert forall k :: 0 <= k < |p| ==> s[k] == p[k];
    }
    assert s[..i] == p;
    assert s[i + 1..] == q;
  }

  /** The text before the first `c` (all of `s` when there is none). */
  function PrefixBefore(s: string, c: char): string {
    if s == [] || s[0] == c then [] else [s[0]] + PrefixBefore(s[1..], c)
  }

  /** The text after the first `c` (empty when there is none). */
  function SuffixAfter(s: string, c: char): string {
    if s == [] then [] else if s[0] == c then s[1..] else SuffixAfter(s[1..], c)
  }

  /** Cutting at the first separator, SplitN2's second piece is the text
      after that separator. */
  lemma {:induction false} SuffixAfterSplitN2(s: string, sep: char)
    requires sep in s
    ensures SplitN2(s, sep)[1] == SuffixAfter(s, sep)
  {
    if s[0] != sep {
      SuffixAfterSplitN2(s[1..], sep);
    }
  }

  /** Cutting at the first separator, SplitN2's first piece is the text
      before that separator. */
  lemma {:induction false} PrefixBeforeSplitN2(s: string, sep: char)
    requires sep in s
    ensures SplitN2(s, sep)[0] == PrefixBefore(s, sep) == s[..IndexOf(s, sep)]
  {
    if s[0] != sep {
      PrefixBeforeSplitN2(s[1..], sep);
      var j := IndexOf(s[1..], sep);
      assert s[..j + 1] == [s[0]] + s[1..][..j];
    }
  }

  /** Whenever JavaScript's split yields exactly two pieces, Go's SplitN
      with limit 2 yields the same two pieces. */
  lemma {:induction false} SplitTwoAgrees(s: string, sep: char)
    requires |Split(s, sep)| == 2
    ensures SplitN2(s, sep) == Split(s, sep)
  {
    var parts := Split(s, sep);
    JoinSplit(s, sep);
    assert Join(parts, sep) == parts[0] + [sep] + Join(parts[1..], sep);
    assert s == parts[0] + [sep] + parts[1];
    PrefixCut(s, sep, parts[0], parts[1]);
  }

  /** The two splits differ on a string with two separators: "a.b.c" splits
      into three pieces in JavaScript and into "a" and "b.c" in Go. */
  lemma SplitsDisagreeOnTwoDots()
    ensures |Split("a.b.c", '.')| == 3
    ensures SplitN2("a.b.c", '.') == ["a", "b.c"]
  {
    PrefixCut("a.b.c", '.', "a", "b.c");
  }

  /** Go's "%d" formatting of a non-negative integer. */
  function NatToString(n: nat): (s: string)
    ensures |s| >= 1
    ensures forall k :: 0 <= k < |s| ==> '0' <= s[k] <= '9'
    decreases n
  {
    if n < 10 then [Digit(n)] else NatToString(n / 10) + [Digit(n % 10)]
  }

  function Digit(d: nat): (c: char)
    requires d < 10
    ensures '0' <= c <= '9'
  {
    ['0', '1', '2', '3', '4', '5', '6', '7', '8', '9'][d]
  }
}
