/**
 * `String.prototype.trim` as the confirmation check uses it: strip white space
 * from both ends of the typed text.  White space is the fixed list of code
 * points ECMAScript counts as WhiteSpace or LineTerminator.
 */
module Text {

  /** ECMAScript WhiteSpace (TAB, VT, FF, ZWNBSP and the space separators) and
      LineTerminator (LF, CR, LS, PS). */
  predicate IsSpace(c: char)
  {
    || c == '\t' || c == '\n' || c == '\U{000B}' || c == '\U{000C}' || c == '\r'
    || c == ' ' || c == '\U{00A0}' || c == '\U{1680}'
    || ('\U{2000}' <= c <= '\U{200A}')
    || c == '\U{2028}' || c == '\U{2029}' || c == '\U{202F}' || c == '\U{205F}'
    || c == '\U{3000}' || c == '\U{FEFF}'
  }

  predicate AllSpace(s: string)
  {
    forall k :: 0 <= k < |s| ==> IsSpace(s[k])
  }

  /** Neither the first nor the last character is white space. */
  predicate NoEdgeSpace(s: string)
  {
    s == [] || (!IsSpace(s[0]) && !IsSpace(s[|s| - 1]))
  }

  /** Drops the leading white space. */
  function TrimStart(s: string): string
  {
    if |s| > 0 && IsSpace(s[0]) then TrimStart(s[1..]) else s
  }

  /** Drops the trailing white space. */
  function TrimEnd(s: string): string
  {
    if |s| > 0 && IsSpace(s[|s| - 1]) then TrimEnd(s[..|s| - 1]) else s
  }

  /** `text.trim()`. */
  function Trim(s: string): string
  {
    TrimEnd(TrimStart(s))
  }

  /** TrimStart returns a suffix of `s` whose removed prefix is all white
      space and which does not start with white space. */
  lemma {:induction false} TrimStartSpec(s: string)
    ensures |TrimStart(s)| <= |s| && TrimStart(s) == s[|s| - |TrimStart(s)|..]
    ensures AllSpace(s[..|s| - |TrimStart(s)|])
    ensures TrimStart(s) == [] || !IsSpace(TrimStart(s)[0])
    decreases |s|
  {
    if |s| > 0 && IsSpace(s[0]) {
      TrimStartSpec(s[1..]);
      var r := TrimStart(s[1..]);
      assert s[..|s| - |r|] == [s[0]] + s[1..][..|s| - 1 - |r|];
    }
  }

  /** TrimEnd returns a prefix of `s` whose removed suffix is all white
      space and which does not end with white space. */
  lemma {:induction false} TrimEndSpec(s: string)
    ensures |TrimEnd(s)| <= |s| && TrimEnd(s) == s[..|TrimEnd(s)|]
    ensures AllSpace(s[|TrimEnd(s)|..])
    ensures TrimEnd(s) == [] || !IsSpace(TrimEnd(s)[|TrimEnd(s)| - 1])
    decreases |s|
  {
    if |s| > 0 && IsSpace(s[|s| - 1]) {
      TrimEndSpec(s[..|s| - 1]);
      var r := TrimEnd(s[..|s| - 1]);
      assert s[|r|..] == s[..|s| - 1][|r|..] + [s[|s| - 1]];
    }
  }

  /** Trim leaves no white space at either end. */
  lemma TrimNoEdgeSpace(s: string)
    ensures NoEdgeSpace(Trim(s))
  {
    var t := TrimStart(s);
    var r := TrimEnd(t);
    TrimStartSpec(s);
    TrimEndSpec(t);
    if r != [] {
      assert r[0] == t[0];
    }
  }

  /** Trim removes only white space, and only from the two ends. */
  lemma TrimSplits(s: string)
    ensures exists p, q :: AllSpace(p) && AllSpace(q) && s == p + Trim(s) + q
  {
    var t := TrimStart(s);
    var r := TrimEnd(t);
    TrimStartSpec(s);
    TrimEndSpec(t);
    var p, q := s[..|s| - |t|], t[|r|..];
    assert AllSpace(p) && AllSpace(q);
    assert s == p + r + q;
  }

  lemma {:induction false} TrimStartSkips(p: string, s: string)
    requires AllSpace(p)
    requires s == [] || !IsSpace(s[0])
    ensures TrimStart(p + s) == s
    decreases |p|
  {
    if p == [] {
      assert p + s == s;
    } else {
      assert (p + s)[1..] == p[1..] + s;
      TrimStartSkips(p[1..], s);
    }
  }

  lemma {:induction false} TrimEndSkips(s: string, q: string)
    requires AllSpace(q)
    requires s == [] || !IsSpace(s[|s| - 1])
    ensures TrimEnd(s + q) == s
    decreases |q|
  {
    if q == [] {
      assert s + q == s;
    } else {
      var q' := q[..|q| - 1];
      assert (s + q)[..|s + q| - 1] == s + q';
      TrimEndSkips(s, q');
    }
  }

  /** The converse of TrimSplits: whatever stands between an all-white-space
      prefix and suffix, and has no white space at its own ends, is what
      Trim returns.  With TrimNoEdgeSpace and TrimSplits this pins Trim down
      independently of how it is computed. */
  lemma TrimOfPadded(p: string, m: string, q: string)
    requires AllSpace(p) && AllSpace(q) && NoEdgeSpace(m)
    ensures Trim(p + m + q) == m
  {
    if m == [] {
      assert p + m + q == (p + q) + m;
      TrimStartSkips(p + q, m);
    } else {
      assert p + m + q == p + (m + q);
      TrimStartSkips(p, m + q);
      TrimEndSkips(m, q);
    }
  }

  /** Text without white space at its ends is its own trim. */
  lemma TrimOfUnpadded(m: string)
    requires NoEdgeSpace(m)
    ensures Trim(m) == m
  {
    assert [] + m + [] == m;
    TrimOfPadded([], m, []);
  }

  lemma TrimIdempotent(s: string)
    ensures Trim(Trim(s)) == Trim(s)
  {
    TrimNoEdgeSpace(s);
    TrimOfUnpadded(Trim(s));
  }
}
