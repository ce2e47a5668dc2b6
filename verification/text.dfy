/**
 The string operations the application applies to form and record values:
 `String.prototype.trim`, the leading-whitespace skip of `parseFloat`, and
 `replace(/,/g, "")`.
 */
module Text {

  /** The characters ECMAScript's WhiteSpace and LineTerminator productions
      accept, which is what `trim` and `parseFloat` skip. */
  predicate IsWhitespace(c: char) {
    c in {'\t', '\n', '\U{000B}', '\U{000C}', '\r', ' ', '\U{00A0}', '\U{1680}',
          '\U{2000}', '\U{2001}', '\U{2002}', '\U{2003}', '\U{2004}', '\U{2005}',
          '\U{2006}', '\U{2007}', '\U{2008}', '\U{2009}', '\U{200A}', '\U{2028}',
          '\U{2029}', '\U{202F}', '\U{205F}', '\U{3000}', '\U{FEFF}'}
  }

  predicate AllWhitespace(s: string) {
    forall i :: 0 <= i < |s| ==> IsWhitespace(s[i])
  }

  predicate StartsWith(s: string, prefix: string) {
    |prefix| <= |s| && s[..|prefix|] == prefix
  }

  /** How many whitespace characters `s` starts with. */
  function LeadingWhitespace(s: string): (n: nat)
    ensures n <= |s|
    ensures forall k :: 0 <= k < n ==> IsWhitespace(s[k])
    ensures n < |s| ==> !IsWhitespace(s[n])
    decreases |s|
  {
    if |s| > 0 && IsWhitespace(s[0]) then
      var m := LeadingWhitespace(s[1..]);
      assert forall k :: 1 <= k <= m ==> s[k] == s[1..][k - 1];
      1 + m
    else 0
  }

  /** How many whitespace characters `s` ends with. */
  function TrailingWhitespace(s: string): (n: nat)
    ensures n <= |s|
    ensures forall k :: |s| - n <= k < |s| ==> IsWhitespace(s[k])
    ensures n < |s| ==> !IsWhitespace(s[|s| - n - 1])
    decreases |s|
  {
    if |s| > 0 && IsWhitespace(s[|s| - 1]) then
      var m := TrailingWhitespace(s[..|s| - 1]);
      assert forall k :: |s| - 1 - m <= k < |s| - 1 ==> s[k] == s[..|s| - 1][k];
      1 + m
    else 0
  }

  /** `s` without its leading whitespace. */
  function TrimStart(s: string): (r: string)
    ensures |r| <= |s|
    ensures |r| > 0 ==> !IsWhitespace(r[0])
  {
    s[LeadingWhitespace(s)..]
  }

  /** `s` without its trailing whitespace. */
  function TrimEnd(s: string): (r: string)
    ensures |r| <= |s|
    ensures |r| > 0 ==> !IsWhitespace(r[|r| - 1])
  {
    s[..|s| - TrailingWhitespace(s)]
  }

  /** `String.prototype.trim`: whitespace removed at both ends. */
  function Trim(s: string): (r: string)
    ensures |r| <= |s|
    ensures |r| > 0 ==> !IsWhitespace(r[0]) && !IsWhitespace(r[|r| - 1])
  {
    var t := TrimStart(s);
    var r := TrimEnd(t);
    assert |r| > 0 ==> r[0] == t[0];
    r
  }

  /** What `trim` keeps is an infix of `s`, and everything it removed, on
      either side, is whitespace. */
  lemma TrimFramed(s: string)
    ensures var r := Trim(s);
            exists i :: 0 <= i <= i + |r| <= |s| && r == s[i..i + |r|]
                        && AllWhitespace(s[..i]) && AllWhitespace(s[i + |r|..])
  {
    var i := LeadingWhitespace(s);
    var t := TrimStart(s);
    var n := TrailingWhitespace(t);
    LeadIsWhitespace(s, i);
    TailIsWhitespace(s, i, t, n);
    assert Trim(s) == s[i..i + (|t| - n)];
  }

  lemma LeadIsWhitespace(s: string, i: nat)
    requires i <= |s| && forall k :: 0 <= k < i ==> IsWhitespace(s[k])
    ensures AllWhitespace(s[..i])
  {
    forall k | 0 <= k < i ensures IsWhitespace(s[..i][k]) {
    }
  }

  lemma TailIsWhitespace(s: string, i: nat, t: string, n: nat)
    requires i <= |s| && t == s[i..] && n <= |t|
    requires forall k :: |t| - n <= k < |t| ==> IsWhitespace(t[k])
    ensures AllWhitespace(s[i + (|t| - n)..])
  {
    var rest := s[i + (|t| - n)..];
    forall k | 0 <= k < |rest| ensures IsWhitespace(rest[k]) {
      assert rest[k] == t[|t| - n + k];
    }
  }

  /** Leading whitespace before text that does not start with whitespace is
      exactly what `TrimStart` removes. */
  lemma TrimStartAfter(ws: string, x: string)
    requires AllWhitespace(ws)
    requires |x| > 0 ==> !IsWhitespace(x[0])
    ensures TrimStart(ws + x) == x
  {
    var s := ws + x;
    assert s[|ws|..] == x;
  }

  /** Trailing whitespace after text that does not end with whitespace is
      exactly what `TrimEnd` removes. */
  lemma TrimEndBefore(x: string, tail: string)
    requires |x| > 0 && !IsWhitespace(x[|x| - 1])
    ensures TrimEnd(x + tail) == x + TrimEnd(tail)
  {
    var s := x + tail;
    var m := TrailingWhitespace(tail);
    forall k | |s| - m <= k < |s| ensures IsWhitespace(s[k]) {
      assert s[k] == tail[k - |x|];
    }
    if m < |tail| {
      assert s[|s| - m - 1] == tail[|tail| - m - 1];
    } else {
      assert s[|s| - m - 1] == x[|x| - 1];
    }
    TrailingWhitespaceUnique(s, m);
    assert s[..|s| - m] == x + tail[..|tail| - m];
  }

  /** The trailing-whitespace count is the only count whose characters are
      all whitespace and that is not followed, leftwards, by more. */
  lemma TrailingWhitespaceUnique(s: string, n: nat)
    requires n <= |s|
    requires forall k :: |s| - n <= k < |s| ==> IsWhitespace(s[k])
    requires n < |s| ==> !IsWhitespace(s[|s| - n - 1])
    ensures TrailingWhitespace(s) == n
  {
  }

  /** Trimming text that is framed by leading whitespace and starts and ends
      with non-whitespace removes the leading whitespace and the trailing
      whitespace of what follows. */
  lemma TrimAround(ws: string, d: string, tail: string)
    requires AllWhitespace(ws)
    requires |d| > 0 && !IsWhitespace(d[0]) && !IsWhitespace(d[|d| - 1])
    ensures Trim(ws + d + tail) == d + TrimEnd(tail)
  {
    assert ws + d + tail == ws + (d + tail);
    assert (d + tail)[0] == d[0];
    TrimStartAfter(ws, d + tail);
    TrimEndBefore(d, tail);
  }

  /** `TrimEnd` keeps a prefix of its input. */
  lemma TrimEndIsPrefix(s: string)
    ensures |TrimEnd(s)| > 0 ==> TrimEnd(s)[0] == s[0]
  {
  }

  /** A string whose ends are not whitespace is its own trim. */
  lemma TrimOfTrimmed(s: string)
    requires |s| > 0 ==> !IsWhitespace(s[0]) && !IsWhitespace(s[|s| - 1])
    ensures Trim(s) == s
  {
  }

  /** Text that does not end in whitespace loses only its leading
      whitespace when trimmed. */
  lemma TrimOfEndTrimmed(s: string)
    requires |s| > 0 ==> !IsWhitespace(s[|s| - 1])
    ensures Trim(s) == TrimStart(s)
  {
  }

  /** Trimming twice is trimming once. */
  lemma TrimIdempotent(s: string)
    ensures Trim(Trim(s)) == Trim(s)
  {
    TrimOfTrimmed(Trim(s));
  }

  /** A string trims to "" exactly when it is all whitespace. */
  lemma TrimEmptyIff(s: string)
    ensures Trim(s) == "" <==> AllWhitespace(s)
  {
    var i := LeadingWhitespace(s);
    var t := TrimStart(s);
    var n := TrailingWhitespace(t);
    assert t == s[i..];
    if Trim(s) == "" {
      // a non-empty `t` would start with a character `trimEnd` keeps
      assert |t| - n == 0;
    }
    if AllWhitespace(s) {
      assert i == |s|;
    }
  }

  /** `s.replace(/,/g, "")`: every comma removed, everything else kept in order. */
  function RemoveCommas(s: string): (r: string)
    ensures |r| <= |s|
    ensures forall i :: 0 <= i < |r| ==> r[i] != ','
    decreases |s|
  {
    if |s| == 0 then ""
    else (if s[0] == ',' then "" else [s[0]]) + RemoveCommas(s[1..])
  }

  /** Removing commas keeps every other character, as often as it occurs. */
  lemma {:induction false} RemoveCommasKeepsOthers(s: string)
    ensures multiset(RemoveCommas(s)) == multiset(s)[',' := 0]
    decreases |s|
  {
    if |s| > 0 {
      assert s == [s[0]] + s[1..];
      RemoveCommasKeepsOthers(s[1..]);
    }
  }

  /** Removing commas works piecewise over a concatenation. */
  lemma {:induction false} RemoveCommasAppend(a: string, b: string)
    ensures RemoveCommas(a + b) == RemoveCommas(a) + RemoveCommas(b)
    decreases |a|
  {
    if |a| > 0 {
      assert (a + b)[1..] == a[1..] + b;
      RemoveCommasAppend(a[1..], b);
    } else {
      assert a + b == b;
    }
  }

  /** A string with no commas is left as it is. */
  lemma {:induction false} RemoveCommasNoop(s: string)
    requires forall i :: 0 <= i < |s| ==> s[i] != ','
    ensures RemoveCommas(s) == s
    decreases |s|
  {
    if |s| > 0 {
      RemoveCommasNoop(s[1..]);
      assert s == [s[0]] + s[1..];
    }
  }
}
