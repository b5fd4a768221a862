/** Option, as the model uses it for Python's None. */
module Wrappers {
  datatype Option<T> = None | Some(value: T)
}

/** The few Python string operations the application relies on. */
module PyStrings {

  /** True when `p` is a prefix of `s`. */
  predicate IsPrefix(p: string, s: string) {
    |p| <= |s| && s[..|p|] == p
  }

  /** Python's `s.replace(pat, rep)`: every occurrence of `pat`, found scanning from
      the left and never overlapping an occurrence already replaced, becomes `rep`. */
  function Replace(s: string, pat: string, rep: string): string
    requires |pat| > 0
    decreases |s|
  {
    if |s| < |pat| then s
    else if s[..|pat|] == pat then rep + Replace(s[|pat|..], pat, rep)
    else [s[0]] + Replace(s[1..], pat, rep)
  }

  /** `str.upper` restricted to ASCII: 'a'..'z' become 'A'..'Z', every other character is kept. */
  function UpperChar(c: char): (u: char)
    ensures u == ' ' <==> c == ' '
    ensures 'A' <= u <= 'Z' <==> ('a' <= c <= 'z' || 'A' <= c <= 'Z')
  {
    if 'a' <= c <= 'z' then (c as int - 32) as char else c
  }

  function Upper(s: string): (u: string)
    ensures |u| == |s|
  {
    seq(|s|, i requires 0 <= i < |s| => UpperChar(s[i]))
  }

  /** A string that does not contain the first character of `pat` is left alone. */
  lemma {:induction false} ReplaceAbsent(s: string, pat: string, rep: string)
    requires |pat| > 0 && pat[0] !in s
    ensures Replace(s, pat, rep) == s
  {
    if |s| >= |pat| {
      assert s[..|pat|][0] == s[0];
      ReplaceAbsent(s[1..], pat, rep);
      assert [s[0]] + s[1..] == s;
    }
  }

  /** A prefix that cannot start an occurrence is copied through unchanged. */
  lemma {:induction false} ReplaceSkipsPrefix(a: string, y: string, pat: string, rep: string)
    requires |pat| > 0 && pat[0] !in a
    ensures Replace(a + y, pat, rep) == a + Replace(y, pat, rep)
  {
    if a != [] {
      var s := a + y;
      assert s[0] == a[0] && a[0] != pat[0];
      assert s[1..] == a[1..] + y;
      assert pat[0] !in a[1..];
      if |s| >= |pat| {
        assert s[..|pat|] != pat by { assert s[..|pat|][0] == s[0]; }
        calc {
          Replace(s, pat, rep);
          [s[0]] + Replace(s[1..], pat, rep);
          { ReplaceSkipsPrefix(a[1..], y, pat, rep); }
          [a[0]] + (a[1..] + Replace(y, pat, rep));
          { assert [a[0]] + a[1..] == a; }
          a + Replace(y, pat, rep);
        }
      } else {
        assert Replace(y, pat, rep) == y;
        assert Replace(s, pat, rep) == s;
      }
    } else {
      assert a + y == y;
    }
  }

  /** An occurrence at the very start is replaced. */
  lemma {:induction false} ReplaceAtHead(y: string, pat: string, rep: string)
    requires |pat| > 0
    ensures Replace(pat + y, pat, rep) == rep + Replace(y, pat, rep)
  {
    var s := pat + y;
    assert s[..|pat|] == pat;
    assert s[|pat|..] == y;
  }

  /** Neither string is a prefix of the other. */
  predicate Incomparable(a: string, b: string) {
    !IsPrefix(a, b) && !IsPrefix(b, a)
  }

  /** Two strings that differ at a position both have are incomparable. */
  lemma {:induction false} DifferAt(a: string, b: string, t: nat)
    requires t < |a| && t < |b| && a[t] != b[t]
    ensures Incomparable(a, b)
  {
    if |a| <= |b| { assert b[..|a|][t] == b[t]; }
    if |b| <= |a| { assert a[..|b|][t] == a[t]; }
  }

  /** No occurrence of `pat` starts at the head of `a + y` when `a` and `pat` are incomparable. */
  lemma {:induction false} HeadMismatch(a: string, y: string, pat: string)
    requires Incomparable(a, pat) && |pat| <= |a + y|
    ensures (a + y)[..|pat|] != pat
  {
    var s := a + y;
    if |pat| <= |a| {
      assert s[..|pat|] == a[..|pat|];
    } else {
      assert s[..|pat|][..|a|] == a;
    }
  }

  /** A head `a` that no occurrence of `pat` can overlap is copied through unchanged. */
  lemma {:induction false} ReplaceKeepsHead(a: string, y: string, pat: string, rep: string)
    requires |pat| > 0 && |a| > 0
    requires Incomparable(a, pat)
    requires pat[0] !in a[1..]
    ensures Replace(a + y, pat, rep) == a + Replace(y, pat, rep)
  {
    var s := a + y;
    if |s| >= |pat| {
      HeadMismatch(a, y, pat);
      assert Replace(s, pat, rep) == [s[0]] + Replace(s[1..], pat, rep);
      assert s[1..] == a[1..] + y;
      ReplaceSkipsPrefix(a[1..], y, pat, rep);
      assert [a[0]] + a[1..] == a;
    } else {
      assert !IsPrefix(pat, a);
      assert |y| < |pat|;
      assert Replace(y, pat, rep) == y;
    }
  }

  /** Replacing with a non-empty string never empties a string, and never fills an empty one. */
  lemma {:induction false} ReplaceNonEmpty(s: string, pat: string, rep: string)
    requires |pat| > 0 && |rep| > 0
    ensures |Replace(s, pat, rep)| > 0 <==> |s| > 0
  {
    if |s| >= |pat| && s[..|pat|] != pat {
      ReplaceNonEmpty(s[1..], pat, rep);
    }
  }

  /** Replacing one character by one character keeps the length and changes exactly the
      positions that held the old character. */
  lemma {:induction false} ReplaceChar(s: string, c: char, d: char)
    ensures |Replace(s, [c], [d])| == |s|
    ensures forall i :: 0 <= i < |s| ==>
      Replace(s, [c], [d])[i] == (if s[i] == c then d else s[i])
  {
    if s != [] {
      ReplaceChar(s[1..], c, d);
      if s[0] == c {
        assert s[..1] == [c];
      } else {
        assert s[..1][0] == s[0];
      }
    }
  }
}
