/** Finding a pattern in bytes, and why a concatenation does not contain one. */
module Searches {

  predicate At(s: string, pattern: string, i: int) {
    0 <= i && i + |pattern| <= |s| && s[i..i + |pattern|] == pattern
  }

  /** `s.find(pattern, from)`. */
  function Find(s: string, pattern: string, from: nat): int
    decreases |s| - from
  {
    if from + |pattern| > |s| then -1
    else if At(s, pattern, from) then from
    else if from == |s| then -1
    else Find(s, pattern, from + 1)
  }

  lemma {:induction false} FindIs(s: string, pattern: string, from: nat, i: nat)
    requires from <= i && At(s, pattern, i)
    requires forall j :: from <= j < i ==> !At(s, pattern, j)
    ensures Find(s, pattern, from) == i
    decreases i - from
  {
    if from < i {
      FindIs(s, pattern, from + 1, i);
    }
  }

  /** What is found is the first occurrence, and nothing is found only where there is none. */
  lemma {:induction false} FindFinds(s: string, pattern: string, from: nat)
    requires from <= |s|
    ensures var i := Find(s, pattern, from);
            if i == -1 then forall j :: from <= j ==> !At(s, pattern, j)
            else from <= i && At(s, pattern, i) && forall j :: from <= j < i ==> !At(s, pattern, j)
    decreases |s| - from
  {
    if from + |pattern| <= |s| && !At(s, pattern, from) && from < |s| {
      FindFinds(s, pattern, from + 1);
    }
  }

  ghost predicate Occurs(s: string, pattern: string) {
    exists i :: At(s, pattern, i)
  }

  lemma AtChar(s: string, pattern: string, i: int, k: nat)
    requires At(s, pattern, i) && k < |pattern|
    ensures s[i + k] == pattern[k]
  {
    assert s[i..i + |pattern|][k] == s[i + k];
  }

  lemma HasChar(s: string, pattern: string, c: char)
    requires c in pattern && Occurs(s, pattern)
    ensures c in s
  {
    var i :| At(s, pattern, i);
    var k :| 0 <= k < |pattern| && pattern[k] == c;
    AtChar(s, pattern, i, k);
  }

  lemma NeedsChar(s: string, pattern: string, c: char)
    requires c in pattern && c !in s
    ensures !Occurs(s, pattern)
  {
    if Occurs(s, pattern) {
      HasChar(s, pattern, c);
    }
  }

  lemma TooShort(s: string, pattern: string)
    requires |s| < |pattern|
    ensures !Occurs(s, pattern)
  {
  }

  /** An occurrence in a + b lies in a, or in b, or across. */
  lemma AtInside(a: string, b: string, pattern: string, i: int)
    requires At(a + b, pattern, i)
    ensures i + |pattern| <= |a| ==> At(a, pattern, i)
    ensures |a| <= i ==> At(b, pattern, i - |a|)
  {
    if i + |pattern| <= |a| {
      assert (a + b)[i..i + |pattern|] == a[i..i + |pattern|];
    }
    if |a| <= i {
      assert (a + b)[i..i + |pattern|] == b[i - |a|..i - |a| + |pattern|];
    }
  }

  /** A character that is not in the pattern keeps the two sides apart: at the end of the left. */
  lemma JoinAfter(a: string, b: string, pattern: string)
    requires !Occurs(a, pattern) && !Occurs(b, pattern)
    requires a != "" && a[|a| - 1] !in pattern
    ensures !Occurs(a + b, pattern)
  {
    if i :| At(a + b, pattern, i) {
      AtInside(a, b, pattern, i);
      if i < |a| < i + |pattern| {
        AtChar(a + b, pattern, i, |a| - 1 - i);
      }
    }
  }

  /** ... or at the beginning of the right. */
  lemma JoinBefore(a: string, b: string, pattern: string)
    requires !Occurs(a, pattern) && !Occurs(b, pattern)
    requires b != "" && b[0] !in pattern
    ensures !Occurs(a + b, pattern)
  {
    if i :| At(a + b, pattern, i) {
      AtInside(a, b, pattern, i);
      assert (a + b)[|a|] == b[0];
      if i < |a| < i + |pattern| {
        AtChar(a + b, pattern, i, |a| - i);
      }
    }
  }

  /** Text without the pattern's first character cannot begin an occurrence. */
  lemma NotBegun(a: string, b: string, pattern: string)
    requires pattern != "" && pattern[0] !in a && !Occurs(b, pattern)
    ensures !Occurs(a + b, pattern)
  {
    if i :| At(a + b, pattern, i) {
      AtInside(a, b, pattern, i);
      if i < |a| {
        assert (a + b)[i] in a;
        AtChar(a + b, pattern, i, 0);
      }
    }
  }

  lemma AtLeft(a: string, b: string, pattern: string, i: nat)
    requires At(a, pattern, i)
    ensures At(a + b, pattern, i)
  {
    assert (a + b)[i..i + |pattern|] == a[i..i + |pattern|];
  }

  lemma AtRight(a: string, b: string, pattern: string, i: nat)
    requires At(b, pattern, i)
    ensures At(a + b, pattern, |a| + i)
  {
    assert (a + b)[|a| + i..|a| + i + |pattern|] == b[i..i + |pattern|];
  }

  lemma OccursWithin(a: string, s: string, b: string, pattern: string)
    requires Occurs(s, pattern)
    ensures Occurs(a + (s + b), pattern)
  {
    var i :| At(s, pattern, i);
    assert (a + (s + b))[|a| + i..|a| + i + |pattern|] == s[i..i + |pattern|];
    assert At(a + (s + b), pattern, |a| + i);
  }

  lemma OccursRight(a: string, s: string, pattern: string)
    requires Occurs(s, pattern)
    ensures Occurs(a + s, pattern)
  {
    OccursWithin(a, s, "", pattern);
    assert s + "" == s;
  }

  lemma OccursLeft(s: string, b: string, pattern: string)
    requires Occurs(s, pattern)
    ensures Occurs(s + b, pattern)
  {
    OccursWithin("", s, b, pattern);
    assert "" + (s + b) == s + b;
  }

  // ---- rewriting character by character ------------------------------------------------

  /** Every character rewritten by f, in order. */
  function Rewrite(f: char -> string, s: string): string {
    if s == "" then "" else f(s[0]) + Rewrite(f, s[1..])
  }

  lemma {:induction false} RewriteJoin(f: char -> string, s: string, t: string)
    ensures Rewrite(f, s + t) == Rewrite(f, s) + Rewrite(f, t)
  {
    if s == "" {
      assert s + t == t;
    } else {
      assert (s + t)[1..] == s[1..] + t;
      RewriteJoin(f, s[1..], t);
    }
  }

  /** f leaves these characters alone. */
  predicate Plain(f: char -> string, pattern: string) {
    forall i :: 0 <= i < |pattern| ==> f(pattern[i]) == [pattern[i]]
  }

  lemma {:induction false} PlainStays(f: char -> string, s: string)
    requires Plain(f, s)
    ensures Rewrite(f, s) == s
  {
    if s != "" {
      assert Plain(f, s[1..]) by {
        forall i | 0 <= i < |s[1..]| ensures f(s[1..][i]) == [s[1..][i]] {
          assert s[1..][i] == s[i + 1];
        }
      }
      PlainStays(f, s[1..]);
      assert s == [s[0]] + s[1..];
    }
  }

  /** An occurrence of plain characters survives rewriting. */
  lemma RewriteKeepsOccurrence(f: char -> string, s: string, pattern: string)
    requires Plain(f, pattern) && Occurs(s, pattern)
    ensures Occurs(Rewrite(f, s), pattern)
  {
    var i :| At(s, pattern, i);
    var a, b := s[..i], s[i + |pattern|..];
    assert s == a + (pattern + b);
    RewriteJoin(f, a, pattern + b);
    RewriteJoin(f, pattern, b);
    PlainStays(f, pattern);
    assert At(pattern, pattern, 0);
    OccursWithin(Rewrite(f, a), pattern, Rewrite(f, b), pattern);
  }

  /** f rewrites a character to itself, or to something that shares no character with the pattern. */
  ghost predicate Foreign(f: char -> string, pattern: string) {
    forall c: char {:trigger f(c)} :: f(c) == [c] || (f(c) != "" && forall k :: 0 <= k < |f(c)| ==> f(c)[k] !in pattern)
  }

  lemma {:induction false} PrefixBefore(f: char -> string, s: string, pattern: string, whole: string)
    requires Foreign(f, whole) && forall k :: 0 <= k < |pattern| ==> pattern[k] in whole
    requires At(Rewrite(f, s), pattern, 0)
    ensures At(s, pattern, 0)
  {
    if pattern != "" {
      var r := Rewrite(f, s);
      assert s != "";
      assert r == f(s[0]) + Rewrite(f, s[1..]);
      AtChar(r, pattern, 0, 0);
      assert r[0] == f(s[0])[0];
      assert f(s[0]) == [s[0]];
      assert r[1..] == Rewrite(f, s[1..]);
      assert r[1..][..|pattern| - 1] == pattern[1..] by {
        assert r[0..|pattern|][1..] == pattern[1..];
      }
      PrefixBefore(f, s[1..], pattern[1..], whole);
      assert s[..|pattern|] == [s[0]] + s[1..][..|pattern| - 1];
    }
  }

  lemma OccursInTail(s: string, pattern: string)
    requires s != "" && Occurs(s[1..], pattern)
    ensures Occurs(s, pattern)
  {
    OccursWithin([s[0]], s[1..], "", pattern);
    assert [s[0]] + (s[1..] + "") == s;
  }

  /** Rewriting creates no occurrence that was not there. */
  lemma {:induction false} OccursBefore(f: char -> string, s: string, pattern: string)
    requires pattern != "" && Foreign(f, pattern) && Occurs(Rewrite(f, s), pattern)
    ensures Occurs(s, pattern)
  {
    var i :| At(Rewrite(f, s), pattern, i);
    var head, rest := f(s[0]), Rewrite(f, s[1..]);
    AtInside(head, rest, pattern, i);
    if |head| <= i {
      OccursBefore(f, s[1..], pattern);
      OccursInTail(s, pattern);
    } else {
      AtChar(head + rest, pattern, i, 0);
      PrefixBefore(f, s, pattern, pattern);
    }
  }
}
