/**
 * The few JavaScript string operations the component relies on:
 * `String.prototype.trim`, `toLowerCase`, `includes` and `startsWith`.
 * Strings are sequences of Unicode scalar values; since UTF-16 is
 * self-synchronising, substring containment and prefix tests give the same
 * answers on scalar values as on UTF-16 code units.
 */
module JsString {

  /** The characters `trim` strips: ECMAScript's WhiteSpace and LineTerminator. */
  predicate IsWhitespace(c: char) {
    c == '\t' || c == '\n' || c == '\U{B}' || c == '\U{C}' || c == '\r' || c == ' '
    || c == '\U{A0}' || c == '\U{1680}' || ('\U{2000}' <= c <= '\U{200A}')
    || c == '\U{2028}' || c == '\U{2029}' || c == '\U{202F}' || c == '\U{205F}'
    || c == '\U{3000}' || c == '\U{FEFF}'
  }

  /** Drops leading whitespace: the result is the suffix of `s` after its whitespace run. */
  function TrimStart(s: string): (r: string)
    ensures |r| <= |s| && r == s[|s| - |r|..]
    ensures forall i :: 0 <= i < |s| - |r| ==> IsWhitespace(s[i])
    ensures r == [] || !IsWhitespace(r[0])
  {
    if s != [] && IsWhitespace(s[0]) then TrimStart(s[1..]) else s
  }

  /** Drops trailing whitespace: the result is the prefix of `s` before its whitespace run. */
  function TrimEnd(s: string): (r: string)
    ensures |r| <= |s| && r == s[..|r|]
    ensures forall i :: |r| <= i < |s| ==> IsWhitespace(s[i])
    ensures r == [] || !IsWhitespace(r[|r| - 1])
  {
    if s != [] && IsWhitespace(s[|s| - 1]) then TrimEnd(s[..|s| - 1]) else s
  }

  /** `r` is `s` from position `a` on, with whitespace only before `a` and after `a + |r|`. */
  ghost predicate StrippedAt(s: string, r: string, a: int) {
    0 <= a <= |s| - |r| && r == s[a..a + |r|] &&
    (forall i :: 0 <= i < a ==> IsWhitespace(s[i])) &&
    (forall i :: a + |r| <= i < |s| ==> IsWhitespace(s[i]))
  }

  /**
   * `s.trim()`: `s` with a leading and a trailing run of whitespace removed,
   * and those runs are maximal: the result is empty exactly when `s` is all
   * whitespace, and otherwise starts and ends with non-whitespace.
   */
  function Trim(s: string): (r: string)
    ensures exists a :: StrippedAt(s, r, a)
    ensures r == [] <==> forall i :: 0 <= i < |s| ==> IsWhitespace(s[i])
    ensures r != [] ==> !IsWhitespace(r[0]) && !IsWhitespace(r[|r| - 1])
  {
    TrimBothEnds(s);
    TrimEmptyIff(s);
    TrimEnd(TrimStart(s))
  }

  /** Removing the leading run and then the trailing run leaves a slice of `s` between two whitespace runs. */
  lemma {:induction false} TrimBothEnds(s: string)
    ensures StrippedAt(s, TrimEnd(TrimStart(s)), |s| - |TrimStart(s)|)
  {
    var front := TrimStart(s);
    StripCompose(s, front, TrimEnd(front), |s| - |front|);
  }

  /** A whitespace-bounded prefix of a whitespace-bounded suffix of `s` is stripped from `s`. */
  lemma {:induction false} StripCompose(s: string, front: string, r: string, a: int)
    requires 0 <= a <= |s| && front == s[a..] && |r| <= |front| && r == front[..|r|]
    requires forall i :: 0 <= i < a ==> IsWhitespace(s[i])
    requires forall i :: |r| <= i < |front| ==> IsWhitespace(front[i])
    ensures StrippedAt(s, r, a)
  {
    assert r == s[a..a + |r|];
    forall i | a + |r| <= i < |s|
      ensures IsWhitespace(s[i])
    {
      assert s[i] == front[i - a];
    }
  }

  /** Removing both runs leaves nothing exactly when `s` is all whitespace. */
  lemma {:induction false} TrimEmptyIff(s: string)
    ensures TrimEnd(TrimStart(s)) == [] <==> forall i :: 0 <= i < |s| ==> IsWhitespace(s[i])
  {
    var front := TrimStart(s);
    var a := |s| - |front|;
    if TrimEnd(front) != [] {
      assert s[a] == front[0] && !IsWhitespace(front[0]);
    }
  }

  /** `!s || !s.trim()`: the string is empty or whitespace only. */
  predicate IsBlank(s: string)
    ensures IsBlank(s) <==> forall i :: 0 <= i < |s| ==> IsWhitespace(s[i])
  {
    Trim(s) == []
  }

  /** `toLowerCase` on one character; only the ASCII capitals are mapped. */
  function LowerChar(c: char): char {
    if 'A' <= c <= 'Z' then (c as int + 32) as char else c
  }

  /** `s.toLowerCase()`: the same length, each character lower-cased in place. */
  function Lower(s: string): (r: string)
    ensures |r| == |s|
    ensures forall i :: 0 <= i < |s| ==> r[i] == LowerChar(s[i])
  {
    if s == [] then [] else [LowerChar(s[0])] + Lower(s[1..])
  }

  /** A word with no ASCII letter: lower-casing cannot produce or alter any of its characters. */
  predicate Caseless(w: string) {
    forall i :: 0 <= i < |w| ==> !('A' <= w[i] <= 'Z') && !('a' <= w[i] <= 'z')
  }

  /** `s.startsWith(p)`: `s` is `p` followed by some rest. */
  predicate StartsWith(s: string, p: string)
    ensures StartsWith(s, p) <==> exists t :: s == p + t
  {
    if |p| <= |s| && s[..|p|] == p then
      assert s == p + s[|p|..];
      true
    else
      false
  }

  /** `w` occurs in `s` starting at position `i`. */
  predicate OccursAt(s: string, w: string, i: int) {
    0 <= i <= |s| - |w| && s[i..i + |w|] == w
  }

  /**
   * `s.includes(w)`: `w` starts at the front of `s` or somewhere further on,
   * that is, `w` occurs at some position of `s`.
   */
  predicate Contains(s: string, w: string)
    ensures Contains(s, w) <==> exists i :: OccursAt(s, w, i)
  {
    if StartsWith(s, w) then
      assert OccursAt(s, w, 0);
      true
    else if s == [] then
      false
    else
      var rest := Contains(s[1..], w);
      assert forall i :: OccursAt(s[1..], w, i) <==> OccursAt(s, w, i + 1) by {
        forall i ensures OccursAt(s[1..], w, i) <==> OccursAt(s, w, i + 1) {
          if 0 <= i <= |s| - 1 - |w| {
            assert s[1..][i..i + |w|] == s[i + 1..i + 1 + |w|];
          }
        }
      }
      assert (exists i :: OccursAt(s, w, i)) ==> exists i :: OccursAt(s[1..], w, i) by {
        if exists i :: OccursAt(s, w, i) {
          var i :| OccursAt(s, w, i);
          assert i != 0;
          assert OccursAt(s[1..], w, i - 1);
        }
      }
      rest
  }

  /** Lower-casing the text does not change whether it contains a caseless word. */
  lemma {:induction false} LowerKeepsCaseless(s: string, w: string)
    requires Caseless(w)
    ensures Contains(Lower(s), w) <==> Contains(s, w)
  {
    var low := Lower(s);
    if |w| <= |s| {
      forall i | 0 <= i < |w|
        ensures low[i] == w[i] <==> s[i] == w[i]
      {
      }
      assert low[..|w|] == w <==> s[..|w|] == w;
    }
    if s != [] {
      assert low[1..] == Lower(s[1..]);
      LowerKeepsCaseless(s[1..], w);
    }
  }

  /** `w` occurs in `s` at position `i` once that stretch of `s` is lower-cased. */
  predicate OccursLoweredAt(s: string, w: string, i: int) {
    0 <= i <= |s| - |w| && Lower(s[i..i + |w|]) == w
  }

  /** Searching the lower-cased text is searching the text stretch by stretch, each lower-cased. */
  lemma {:induction false} ContainsLowered(s: string, w: string)
    ensures Contains(Lower(s), w) <==> exists i :: OccursLoweredAt(s, w, i)
  {
    var low := Lower(s);
    forall i ensures OccursAt(low, w, i) <==> OccursLoweredAt(s, w, i) {
      if 0 <= i <= |s| - |w| {
        var a := low[i..i + |w|];
        var b := Lower(s[i..i + |w|]);
        assert forall k :: 0 <= k < |w| ==> a[k] == b[k];
        assert a == b;
      }
    }
  }

  /** A word longer than the text does not occur in it. */
  lemma {:induction false} NotContainedLonger(s: string, w: string)
    requires |s| < |w|
    ensures !Contains(s, w)
  {
    if s != [] {
      NotContainedLonger(s[1..], w);
    }
  }

  /** A non-empty word whose first character never appears in the text does not occur in it. */
  lemma {:induction false} NotContainedFirst(s: string, w: string)
    requires w != [] && w[0] !in s
    ensures !Contains(s, w)
  {
    if s != [] {
      assert s[0] in s;
      NotContainedFirst(s[1..], w);
    }
  }

  /**
   * A word that is not a prefix of the text, and whose first character
   * appears nowhere after the text's first character, does not occur in it.
   */
  lemma {:induction false} NotContainedPastPrefix(s: string, w: string)
    requires w != [] && !StartsWith(s, w)
    requires s != [] ==> w[0] !in s[1..]
    ensures !Contains(s, w)
  {
    if s != [] {
      NotContainedFirst(s[1..], w);
    }
  }
}
