/** The Option wrapper used for JavaScript's nullable values (`null`/`undefined` vs a value). */
module Wrappers {

  datatype Option<+T> = None | Some(value: T) {

    /** The value, or `default` when there is none (JavaScript's `x ?? default`). */
    function GetOr(default: T): T {
      match this
      case Some(v) => v
      case None => default
    }
  }
}

/**
 * The few JavaScript string operations the core relies on, written over `seq<char>`:
 * `startsWith` is Dafny's prefix relation `p <= s`, and below are `endsWith`,
 * `includes`, `trim`, `split(c)` and its inverse `join(c)`.
 */
module Text {

  /** JavaScript's `s.endsWith(t)`. */
  predicate EndsWith(s: string, t: string) {
    |t| <= |s| && s[|s| - |t|..] == t
  }

  /** JavaScript's `s.includes(t)`: `t` occurs in `s` at some position. */
  predicate Contains(s: string, t: string)
    decreases |s|
  {
    t <= s || (s != [] && Contains(s[1..], t))
  }

  /**
   * The characters `String.prototype.trim` removes: the ECMAScript WhiteSpace
   * code points (tab, vertical tab, form feed, the Unicode space separators
   * and the byte-order mark) and the four LineTerminator code points.
   */
  predicate IsWhitespace(c: char) {
    || c == '\t' || c == '\U{000B}' || c == '\U{000C}' || c == ' ' || c == '\U{00A0}'
    || c == '\U{1680}' || ('\U{2000}' <= c <= '\U{200A}') || c == '\U{202F}'
    || c == '\U{205F}' || c == '\U{3000}' || c == '\U{FEFF}'
    || c == '\n' || c == '\r' || c == '\U{2028}' || c == '\U{2029}'
  }

  predicate AllWhitespace(s: string) {
    forall k :: 0 <= k < |s| ==> IsWhitespace(s[k])
  }

  /** Neither end of `s` is whitespace. */
  predicate IsTrimmed(s: string) {
    s == [] || (!IsWhitespace(s[0]) && !IsWhitespace(s[|s| - 1]))
  }

  /** `r` is `s` with a whitespace-only prefix and a whitespace-only suffix cut off. */
  ghost predicate Strips(s: string, r: string) {
    exists i :: StripsAt(s, r, i)
  }

  /** `r` starts at position `i` of `s`, and only whitespace surrounds it. */
  ghost predicate StripsAt(s: string, r: string, i: int) {
    0 <= i <= |s| - |r| && s[i..i + |r|] == r && AllWhitespace(s[..i]) && AllWhitespace(s[i + |r|..])
  }

  /** Leading whitespace removed. */
  function TrimStart(s: string): (r: string)
    ensures |r| <= |s| && r == s[|s| - |r|..]
    ensures AllWhitespace(s[..|s| - |r|])
    ensures r != [] ==> !IsWhitespace(r[0])
    decreases |s|
  {
    if s != [] && IsWhitespace(s[0]) then TrimStart(s[1..]) else s
  }

  /** Trailing whitespace removed. */
  function TrimEnd(s: string): (r: string)
    ensures r <= s
    ensures AllWhitespace(s[|r|..])
    ensures r != [] ==> !IsWhitespace(r[|r| - 1])
    decreases |s|
  {
    if s != [] && IsWhitespace(s[|s| - 1]) then TrimEnd(s[..|s| - 1]) else s
  }

  /** JavaScript's `s.trim()`. */
  function Trim(s: string): (r: string)
    ensures IsTrimmed(r)
    ensures |r| <= |s|
  {
    TrimEnd(TrimStart(s))
  }

  /** What `trim` removes is whitespace, and only from the two ends. */
  lemma TrimStrips(s: string)
    ensures Strips(s, Trim(s))
  {
    var t := TrimStart(s);
    var r := TrimEnd(t);
    var i := |s| - |t|;
    assert AllWhitespace(s[..i]);
    assert s[i..i + |r|] == r by {
      SliceOfSlice(s, i, |r|);
    }
    assert AllWhitespace(s[i + |r|..]) by {
      SliceOfSlice(s, i, |r|);
    }
    assert StripsAt(s, r, i);
  }

  lemma SliceOfSlice(s: string, i: nat, n: nat)
    requires i + n <= |s|
    ensures s[i..][..n] == s[i..i + n] && s[i..][n..] == s[i + n..]
  {
  }

  lemma {:induction false} TrimStartSkips(a: string, t: string)
    requires AllWhitespace(a)
    ensures TrimStart(a + t) == TrimStart(t)
    decreases |a|
  {
    if a != [] {
      assert (a + t)[0] == a[0] && IsWhitespace(a[0]);
      assert (a + t)[1..] == a[1..] + t;
      assert TrimStart(a + t) == TrimStart(a[1..] + t);
      TrimStartSkips(a[1..], t);
    } else {
      assert a + t == t;
    }
  }

  lemma {:induction false} TrimEndSkips(t: string, b: string)
    requires AllWhitespace(b)
    ensures TrimEnd(t + b) == TrimEnd(t)
    decreases |b|
  {
    if b != [] {
      var b' := b[..|b| - 1];
      assert (t + b)[|t + b| - 1] == b[|b| - 1] && IsWhitespace(b[|b| - 1]);
      assert (t + b)[..|t + b| - 1] == t + b';
      TrimEndSkips(t, b');
    } else {
      assert t + b == t;
    }
  }

  /**
   * The trimmed string is determined by its characterisation: whatever
   * whitespace surrounds a string with non-whitespace ends, `trim` returns
   * exactly that string.
   */
  lemma {:induction false} TrimExact(a: string, m: string, b: string)
    requires AllWhitespace(a) && AllWhitespace(b) && IsTrimmed(m)
    ensures Trim(a + m + b) == m
  {
    assert a + m + b == a + (m + b);
    TrimStartSkips(a, m + b);
    if m == [] {
      assert m + b == b + [];
      TrimStartSkips(b, []);
      assert TrimStart(a + m + b) == [];
    } else {
      assert (m + b)[0] == m[0];
      assert TrimStart(a + m + b) == m + b;
      TrimEndSkips(m, b);
      assert TrimEnd(m) == m;
    }
  }

  lemma TrimIdempotent(s: string)
    ensures Trim(Trim(s)) == Trim(s)
  {
    var r := Trim(s);
    assert [] + r + [] == r;
    TrimExact([], r, []);
  }

  /** Number of occurrences of `c` in `s`. */
  function Count(s: string, c: char): nat
    decreases |s|
  {
    if s == [] then 0 else (if s[0] == c then 1 else 0) + Count(s[1..], c)
  }

  /**
   * JavaScript's `s.split(sep)` for a one-character separator: the maximal
   * separator-free pieces between separators, empty pieces included, so
   * there is always one piece more than there are separators.
   */
  function Split(s: string, sep: char): (r: seq<string>)
    ensures |r| == Count(s, sep) + 1
    ensures forall k :: 0 <= k < |r| ==> sep !in r[k]
    decreases |s|
  {
    if s == [] then [[]]
    else
      var rest := Split(s[1..], sep);
      if s[0] == sep then [[]] + rest
      else [[s[0]] + rest[0]] + rest[1..]
  }

  /** JavaScript's `parts.join(sep)`. */
  function Join(parts: seq<string>, sep: char): string
    decreases |parts|
  {
    if parts == [] then []
    else if |parts| == 1 then parts[0]
    else parts[0] + [sep] + Join(parts[1..], sep)
  }

  /** Splitting loses nothing: joining the pieces back gives the original text. */
  lemma {:induction false} JoinSplit(s: string, sep: char)
    ensures Join(Split(s, sep), sep) == s
    decreases |s|
  {
    if s != [] {
      var rest := Split(s[1..], sep);
      JoinSplit(s[1..], sep);
      if s[0] == sep {
        assert ([[]] + rest)[1..] == rest;
      } else {
        var r := [[s[0]] + rest[0]] + rest[1..];
        if |rest| > 1 {
          assert r[1..] == rest[1..];
        }
      }
    }
  }

  /** A separator-free prefix ends up at the front of the first piece. */
  lemma {:induction false} SplitPrefix(x: string, t: string, sep: char)
    requires sep !in x
    ensures Split(x + t, sep) == [x + Split(t, sep)[0]] + Split(t, sep)[1..]
    decreases |x|
  {
    if x != [] {
      assert (x + t)[1..] == x[1..] + t;
      assert (x + t)[0] == x[0] && x[0] != sep;
      SplitPrefix(x[1..], t, sep);
      var rest := Split(x[1..] + t, sep);
      assert Split(x + t, sep) == [[x[0]] + rest[0]] + rest[1..];
      assert [x[0]] + (x[1..] + Split(t, sep)[0]) == x + Split(t, sep)[0];
    } else {
      assert x + t == t && x + Split(t, sep)[0] == Split(t, sep)[0];
      assert Split(t, sep) == [Split(t, sep)[0]] + Split(t, sep)[1..];
    }
  }

  /** Splitting a join of separator-free pieces gives the pieces back. */
  lemma {:induction false} SplitJoin(parts: seq<string>, sep: char)
    requires |parts| > 0
    requires forall k :: 0 <= k < |parts| ==> sep !in parts[k]
    ensures Split(Join(parts, sep), sep) == parts
    decreases |parts|
  {
    if |parts| == 1 {
      assert parts[0] + [] == parts[0];
      SplitPrefix(parts[0], [], sep);
    } else {
      var tail := Join(parts[1..], sep);
      SplitJoin(parts[1..], sep);
      assert parts[0] + [sep] + tail == parts[0] + ([sep] + tail);
      SplitPrefix(parts[0], [sep] + tail, sep);
      assert ([sep] + tail)[0] == sep && ([sep] + tail)[1..] == tail;
      var rest := Split([sep] + tail, sep);
      assert rest == [[]] + parts[1..];
      assert rest[0] == [] && rest[1..] == parts[1..];
      assert Join(parts, sep) == parts[0] + ([sep] + tail);
      assert parts[0] + rest[0] == parts[0];
      assert parts == [parts[0]] + parts[1..];
    }
  }
}
