/**
 * The string operations the scraper relies on: whitespace trimming (JavaScript's
 * `trim`, Python's `strip`), prefix tests (`startsWith`), cutting a string at the
 * first occurrence of a separator (`split(sep)[0]`) and the code-point order that
 * Python's `<` uses on strings.
 */
module Text {

  /** The whitespace characters that `trim`/`strip` remove (ASCII subset). */
  predicate IsSpace(c: char) {
    c == ' ' || c == '\t' || c == '\n' || c == '\r' || c == '\U{000B}' || c == '\U{000C}'
  }

  predicate StartsWith(s: string, prefix: string) {
    |prefix| <= |s| && s[..|prefix|] == prefix
  }

  predicate EndsWith(s: string, suffix: string) {
    |suffix| <= |s| && s[|s| - |suffix|..] == suffix
  }

  /** Removes the leading whitespace, and only that. */
  function TrimStart(s: string): (r: string)
    ensures |r| <= |s| && r == s[|s| - |r|..]
    ensures r == [] || !IsSpace(r[0])
    ensures forall i :: 0 <= i < |s| - |r| ==> IsSpace(s[i])
  {
    if s != [] && IsSpace(s[0]) then
      var t := s[1..];
      var r := TrimStart(t);
      assert s[|s| - |r|..] == t[|t| - |r|..];
      assert forall i :: 0 < i < |s| - |r| ==> s[i] == t[i - 1];
      r
    else s
  }

  /** Removes the trailing whitespace, and only that. */
  function TrimEnd(s: string): (r: string)
    ensures |r| <= |s| && r == s[..|r|]
    ensures r == [] || !IsSpace(r[|r| - 1])
    ensures forall i :: |r| <= i < |s| ==> IsSpace(s[i])
  {
    if s != [] && IsSpace(s[|s| - 1]) then TrimEnd(s[..|s| - 1]) else s
  }

  /** `s.trim()` in JavaScript, `s.strip()` in Python. */
  function Trim(s: string): string {
    TrimEnd(TrimStart(s))
  }

  /** `s.split(sep)[0]`: the text before the first `sep`, or all of `s` when there is none. */
  function Before(s: string, sep: char): (r: string)
    ensures |r| <= |s| && r == s[..|r|]
    ensures sep !in r
    ensures |r| < |s| ==> s[|r|] == sep
  {
    if s == [] then []
    else if s[0] == sep then []
    else [s[0]] + Before(s[1..], sep)
  }

  /** Python's `a < b` on `str`: lexicographic order on code points, a proper prefix first. */
  predicate StrLess(a: string, b: string) {
    if a == [] then b != []
    else if b == [] then false
    else if a[0] != b[0] then a[0] < b[0]
    else StrLess(a[1..], b[1..])
  }

  /** Trimming twice is trimming once. */
  lemma TrimIdempotent(s: string)
    ensures Trim(Trim(s)) == Trim(s)
  {
    var t := Trim(s);
    assert TrimStart(t) == t;
    assert TrimEnd(t) == t;
  }

  /** Trimming leaves no whitespace at either end. */
  lemma TrimEnds(s: string)
    ensures var t := Trim(s); t == [] || (!IsSpace(t[0]) && !IsSpace(t[|t| - 1]))
  {
    var u := TrimStart(s);
    var t := TrimEnd(u);
    if t != [] {
      assert t[0] == u[0];
    }
  }

  /** Trimming cuts a contiguous piece out of `s`, starting after the leading whitespace. */
  lemma TrimSlice(s: string)
    ensures var t := Trim(s); var k := |s| - |TrimStart(s)|; k + |t| <= |s| && s[k..k + |t|] == t
  {
    var u := TrimStart(s);
    var t := TrimEnd(u);
    var k := |s| - |u|;
    assert u == s[k..] && t == u[..|t|];
    assert s[k..k + |t|] == s[k..][..|t|];
  }

  /** Trimming adds no character. */
  lemma TrimLacks(s: string, c: char)
    requires c !in s
    ensures c !in Trim(s)
  {
    TrimSlice(s);
  }

  /** Whitespace in front of a non-space start is all that TrimStart removes. */
  lemma {:induction false} TrimStartSkips(w: string, x: string)
    requires forall i :: 0 <= i < |w| ==> IsSpace(w[i])
    requires x != [] && !IsSpace(x[0])
    ensures TrimStart(w + x) == x
  {
    if w == [] {
      assert w + x == x;
    } else {
      assert (w + x)[1..] == w[1..] + x;
      TrimStartSkips(w[1..], x);
    }
  }

  /** A non-space last character of `u` shields `u` from TrimEnd. */
  lemma {:induction false} TrimEndAppend(u: string, y: string)
    requires u != [] && !IsSpace(u[|u| - 1])
    ensures TrimEnd(u + y) == u + TrimEnd(y)
    decreases |y|
  {
    if y == [] {
      assert u + y == u;
    } else if IsSpace(y[|y| - 1]) {
      assert (u + y)[..|u + y| - 1] == u + y[..|y| - 1];
      TrimEndAppend(u, y[..|y| - 1]);
    } else {
      assert (u + y)[|u + y| - 1] == y[|y| - 1];
    }
  }

  /** Cutting `u + rest` at `sep` gives `u` when `u` has no `sep` and `rest` starts with one (or is empty). */
  lemma {:induction false} BeforeAppend(u: string, rest: string, sep: char)
    requires sep !in u
    requires rest == [] || rest[0] == sep
    ensures Before(u + rest, sep) == u
  {
    if u == [] {
      assert u + rest == rest;
    } else {
      assert (u + rest)[0] == u[0];
      assert (u + rest)[1..] == u[1..] + rest;
      BeforeAppend(u[1..], rest, sep);
    }
  }

  /** Cutting at `sep` passes over a first part that has no `sep`. */
  lemma {:induction false} BeforeSkip(a: string, b: string, sep: char)
    requires sep !in a
    ensures Before(a + b, sep) == a + Before(b, sep)
  {
    if a == [] {
      assert a + b == b;
    } else {
      assert (a + b)[0] == a[0];
      assert (a + b)[1..] == a[1..] + b;
      BeforeSkip(a[1..], b, sep);
    }
  }

  /** StrLess is irreflexive. */
  lemma {:induction false} StrLessIrreflexive(a: string)
    ensures !StrLess(a, a)
  {
    if a != [] {
      StrLessIrreflexive(a[1..]);
    }
  }

  /**
   * Comparing two strings that share the length of their first parts decides on
   * those first parts, and on the rest only when the first parts are equal.
   */
  lemma {:induction false} StrLessConcat(a: string, b: string, x: string, y: string)
    requires |a| == |b|
    ensures StrLess(a + x, b + y) <==> StrLess(a, b) || (a == b && StrLess(x, y))
  {
    if a == [] {
      assert a + x == x && b + y == y;
    } else {
      assert (a + x)[0] == a[0] && (b + y)[0] == b[0];
      assert (a + x)[1..] == a[1..] + x && (b + y)[1..] == b[1..] + y;
      StrLessConcat(a[1..], b[1..], x, y);
      if a[0] == b[0] {
        assert a == b <==> a[1..] == b[1..] by {
          if a[1..] == b[1..] { assert a == [a[0]] + a[1..] && b == [b[0]] + b[1..]; }
        }
      }
    }
  }
}
