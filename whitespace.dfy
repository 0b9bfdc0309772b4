/** Go's `strings.TrimSpace`, which the line framer applies to every line.
    A string is a sequence of Unicode code points (Go's runes). */
module Whitespace {

  /** Go's `unicode.IsSpace`: the Latin-1 spaces '\t', '\n', '\v', '\f',
      '\r', ' ', U+0085 and U+00A0, and the other code points with the
      Unicode White_Space property. */
  predicate IsSpace(c: char) {
    || c == '\t' || c == '\n' || c == '\U{000B}' || c == '\U{000C}' || c == '\r' || c == ' '
    || c == '\U{0085}' || c == '\U{00A0}' || c == '\U{1680}'
    || ('\U{2000}' <= c <= '\U{200A}')
    || c == '\U{2028}' || c == '\U{2029}' || c == '\U{202F}' || c == '\U{205F}' || c == '\U{3000}'
  }

  predicate AllSpace(s: string) {
    forall i :: 0 <= i < |s| ==> IsSpace(s[i])
  }

  /** Neither starts nor ends with a space (the empty string is trimmed). */
  predicate IsTrimmed(s: string) {
    s == [] || (!IsSpace(s[0]) && !IsSpace(s[|s| - 1]))
  }

  /** `s` without its leading spaces. */
  function TrimLeft(s: string): string
  {
    if s != [] && IsSpace(s[0]) then TrimLeft(s[1..]) else s
  }

  /** `s` without its trailing spaces. */
  function TrimRight(s: string): string
  {
    if s != [] && IsSpace(s[|s| - 1]) then TrimRight(s[..|s| - 1]) else s
  }

  /** `strings.TrimSpace`: `s` without its leading and trailing spaces. The
      result neither starts nor ends with a space, and it is empty exactly
      when `s` is all space. */
  function TrimSpace(s: string): (r: string)
    ensures IsTrimmed(r)
    ensures r == [] <==> AllSpace(s)
  {
    var t := TrimLeft(s);
    TrimLeftEnds(s);
    TrimRightEnds(t);
    TrimRight(t)
  }

  /** TrimLeft stops at the first character that is not a space, and leaves
      nothing exactly when everything is space. */
  lemma {:induction false} TrimLeftEnds(s: string)
    ensures TrimLeft(s) == [] || !IsSpace(TrimLeft(s)[0])
    ensures TrimLeft(s) == [] <==> AllSpace(s)
  {
    if s != [] && IsSpace(s[0]) {
      TrimLeftEnds(s[1..]);
      assert AllSpace(s) <==> AllSpace(s[1..]) by {
        assert forall i :: 0 < i < |s| ==> s[i] == s[1..][i - 1];
      }
    }
  }

  /** TrimRight stops at the last character that is not a space and keeps
      the first character; it leaves nothing only when everything is space. */
  lemma {:induction false} TrimRightEnds(s: string)
    ensures TrimRight(s) == [] || (!IsSpace(TrimRight(s)[|TrimRight(s)| - 1]) && TrimRight(s)[0] == s[0])
    ensures TrimRight(s) == [] ==> AllSpace(s)
  {
    if s != [] && IsSpace(s[|s| - 1]) {
      var init := s[..|s| - 1];
      TrimRightEnds(init);
      assert AllSpace(init) ==> AllSpace(s) by {
        assert forall i :: 0 <= i < |init| ==> s[i] == init[i];
      }
    }
  }

  /** An all-space prefix in front of a string that does not start with a
      space is exactly what TrimLeft removes. */
  lemma {:induction false} TrimLeftPadded(p: string, m: string)
    requires AllSpace(p)
    requires m == [] || !IsSpace(m[0])
    ensures TrimLeft(p + m) == m
  {
    if p == [] {
      assert p + m == m;
    } else {
      assert (p + m)[0] == p[0];
      assert (p + m)[1..] == p[1..] + m;
      TrimLeftPadded(p[1..], m);
    }
  }

  /** Mirror image of TrimLeftPadded. */
  lemma {:induction false} TrimRightPadded(m: string, q: string)
    requires AllSpace(q)
    requires m == [] || !IsSpace(m[|m| - 1])
    ensures TrimRight(m + q) == m
  {
    if q == [] {
      assert m + q == m;
    } else {
      var s := m + q;
      var q' := q[..|q| - 1];
      assert s[|s| - 1] == q[|q| - 1];
      assert s[..|s| - 1] == m + q';
      TrimRightPadded(m, q');
    }
  }

  /** Reference characterisation of TrimSpace: whatever spaces surround a
      trimmed string, trimming gives back exactly that string. */
  lemma TrimSpaceOfPadded(p: string, m: string, q: string)
    requires AllSpace(p) && AllSpace(q) && IsTrimmed(m)
    ensures TrimSpace(p + m + q) == m
  {
    var s := p + m + q;
    if m == [] {
      assert AllSpace(s) by {
        forall i | 0 <= i < |s| ensures IsSpace(s[i]) {
          if i < |p| { assert s[i] == p[i]; } else { assert s[i] == q[i - |p|]; }
        }
      }
    } else {
      assert s == p + (m + q);
      TrimLeftPadded(p, m + q);
      TrimRightPadded(m, q);
    }
  }

  /** TrimLeft removes an all-space prefix. */
  lemma {:induction false} TrimLeftSplit(s: string) returns (p: string)
    ensures AllSpace(p) && s == p + TrimLeft(s)
  {
    if s != [] && IsSpace(s[0]) {
      var p' := TrimLeftSplit(s[1..]);
      p := [s[0]] + p';
      assert AllSpace(p) by {
        forall i | 0 <= i < |p| ensures IsSpace(p[i]) {
          if i > 0 { assert p[i] == p'[i - 1]; }
        }
      }
      calc {
        s;
        [s[0]] + s[1..];
        [s[0]] + (p' + TrimLeft(s[1..]));
        p + TrimLeft(s);
      }
    } else {
      p := [];
    }
  }

  /** TrimRight removes an all-space suffix. */
  lemma {:induction false} TrimRightSplit(s: string) returns (q: string)
    ensures AllSpace(q) && s == TrimRight(s) + q
  {
    if s != [] && IsSpace(s[|s| - 1]) {
      var init := s[..|s| - 1];
      var q' := TrimRightSplit(init);
      q := q' + [s[|s| - 1]];
      assert s == init + [s[|s| - 1]];
      assert AllSpace(q) by {
        forall i | 0 <= i < |q| ensures IsSpace(q[i]) {
          if i < |q'| { assert q[i] == q'[i]; }
        }
      }
    } else {
      q := [];
    }
  }

  /** Every string is its trimmed form with spaces put back around it. */
  lemma TrimSpacePadding(s: string) returns (p: string, q: string)
    ensures AllSpace(p) && AllSpace(q)
    ensures s == p + TrimSpace(s) + q
  {
    p := TrimLeftSplit(s);
    q := TrimRightSplit(TrimLeft(s));
  }

  /** TrimSpace is idempotent. */
  lemma TrimSpaceIdempotent(s: string)
    ensures TrimSpace(TrimSpace(s)) == TrimSpace(s)
  {
    var r := TrimSpace(s);
    TrimSpaceOfPadded([], r, []);
    assert [] + r + [] == r;
  }

  /** A string is its own trimmed form exactly when it is trimmed. */
  lemma TrimSpaceFixedPoints(s: string)
    ensures TrimSpace(s) == s <==> IsTrimmed(s)
  {
    if IsTrimmed(s) {
      TrimSpaceOfPadded([], s, []);
      assert [] + s + [] == s;
    }
  }

  /** Trimming ignores a trailing space such as the line terminator. */
  lemma TrimSpaceDropsTrailingSpace(s: string, c: char)
    requires IsSpace(c)
    ensures TrimSpace(s + [c]) == TrimSpace(s)
  {
    var r := TrimSpace(s);
    var p, q := TrimSpacePadding(s);
    var q' := q + [c];
    assert s + [c] == p + r + q';
    assert AllSpace(q') by {
      forall i | 0 <= i < |q'| ensures IsSpace(q'[i]) {
        if i < |q| { assert q'[i] == q[i]; }
      }
    }
    TrimSpaceOfPadded(p, r, q');
  }
}
