/** The text clean-up the deck loader applies to note fields: the fixed table of HTML
    entity and line-break substitutions (`_clearString`), the letters-to-indices decoding
    of the correct-answer field (`_correctToIndex`) and the `<img src="...">` extraction
    used by `findImages`. */
module Markup {
  import opened PyStrings

  /** Number of substitutions `_clearString` applies. */
  const SubstitutionCount: nat := 29

  /** The k-th substitution of `_clearString` as (pattern, replacement), in the order
      the source applies them. The four line-break forms come first, then the entities. */
  function Substitution(k: nat): (pair: (string, string))
    requires k < SubstitutionCount
    ensures |pair.0| > 0 && |pair.1| > 0
    ensures pair.0[0] == (if k < 4 then '<' else '&')
    ensures k < 4 ==> pair.1 == "\n"
  {
    if k == 0 then ("<br>", "\n")
    else if k == 1 then ("<br/>", "\n")
    else if k == 2 then ("<br />", "\n")
    else if k == 3 then ("<br >", "\n")
    else if k == 4 then ("&nbsp;", " ")
    else if k == 5 then ("&lt;", "<")
    else if k == 6 then ("&gt;", ">")
    else if k == 7 then ("&amp;", "&")
    else if k == 8 then ("&quot;", "\"")
    else if k == 9 then ("&apos;", "'")
    else if k == 10 then ("&cent;", "\U{00A2}")
    else if k == 11 then ("&pound;", "\U{00A3}")
    else if k == 12 then ("&yen;", "\U{00A5}")
    else if k == 13 then ("&euro;", "\U{20AC}")
    else if k == 14 then ("&copy;", "\U{00A9}")
    else if k == 15 then ("&reg;", "\U{00AE}")
    else if k == 16 then ("&trade;", "\U{2122}")
    else if k == 17 then ("&times;", "\U{00D7}")
    else if k == 18 then ("&divide;", "\U{00F7}")
    else if k == 19 then ("&ndash;", "\U{2013}")
    else if k == 20 then ("&mdash;", "\U{2014}")
    else if k == 21 then ("&lsquo;", "\U{2018}")
    else if k == 22 then ("&rsquo;", "\U{2019}")
    else if k == 23 then ("&sbquo;", "\U{201A}")
    else if k == 24 then ("&ldquo;", "\U{201C}")
    else if k == 25 then ("&rdquo;", "\U{201D}")
    else if k == 26 then ("&bdquo;", "\U{201E}")
    else if k == 27 then ("&laquo;", "\U{00AB}")
    else ("&raquo;", "\U{00BB}")
  }

  /** Substitutions i, i+1, ..., j-1 applied to `s` one after the other, each one to the
      whole result of the previous one. */
  function Steps(s: string, i: nat, j: nat): string
    requires i <= j <= SubstitutionCount
    decreases j - i
  {
    if i == j then s
    else Steps(Replace(s, Substitution(i).0, Substitution(i).1), i + 1, j)
  }

  /** `_clearString` on a string. */
  function ClearString(s: string): string {
    Steps(s, 0, SubstitutionCount)
  }

  /** No pattern of the table can start inside a string without '<' and '&'. */
  predicate Plain(s: string) {
    '<' !in s && '&' !in s
  }

  lemma {:induction false} StepsSplit(s: string, i: nat, k: nat, j: nat)
    requires i <= k <= j <= SubstitutionCount
    ensures Steps(s, i, j) == Steps(Steps(s, i, k), k, j)
    decreases k - i
  {
    if i < k {
      StepsSplit(Replace(s, Substitution(i).0, Substitution(i).1), i + 1, k, j);
    }
  }

  /** A plain head passes through every remaining substitution untouched. */
  lemma {:induction false} StepsPlainHead(a: string, x: string, i: nat, j: nat)
    requires i <= j <= SubstitutionCount
    requires Plain(a)
    ensures Steps(a + x, i, j) == a + Steps(x, i, j)
    decreases j - i
  {
    if i < j {
      var (pat, rep) := Substitution(i);
      ReplaceSkipsPrefix(a, x, pat, rep);
      StepsPlainHead(a, Replace(x, pat, rep), i + 1, j);
    }
  }

  /** A string that every one of substitutions i..j-1 leaves alone is left alone by all of them. */
  lemma {:induction false} StepsFixed(s: string, i: nat, j: nat)
    requires i <= j <= SubstitutionCount
    requires forall m :: i <= m < j ==> Replace(s, Substitution(m).0, Substitution(m).1) == s
    ensures Steps(s, i, j) == s
    decreases j - i
  {
    if i < j {
      StepsFixed(s, i + 1, j);
    }
  }

  lemma {:induction false} StepsPlain(s: string, i: nat, j: nat)
    requires i <= j <= SubstitutionCount
    requires forall m :: i <= m < j ==> Substitution(m).0[0] !in s
    ensures Steps(s, i, j) == s
  {
    forall m | i <= m < j
      ensures Replace(s, Substitution(m).0, Substitution(m).1) == s
    {
      ReplaceAbsent(s, Substitution(m).0, Substitution(m).1);
    }
    StepsFixed(s, i, j);
  }

  /** A string with no '<' and no '&' comes back from `_clearString` unchanged. */
  lemma {:induction false} ClearStringPlain(s: string)
    requires Plain(s)
    ensures ClearString(s) == s
  {
    StepsPlain(s, 0, SubstitutionCount);
  }

  lemma {:induction false} StepsNonEmpty(s: string, i: nat, j: nat)
    requires i <= j <= SubstitutionCount
    ensures |Steps(s, i, j)| > 0 <==> |s| > 0
    decreases j - i
  {
    if i < j {
      var (pat, rep) := Substitution(i);
      ReplaceNonEmpty(s, pat, rep);
      StepsNonEmpty(Replace(s, pat, rep), i + 1, j);
    }
  }

  /** Every replacement is non-empty, so cleaning empties no string and fills no empty one. */
  lemma {:induction false} ClearStringNonEmpty(s: string)
    ensures |ClearString(s)| > 0 <==> |s| > 0
  {
    StepsNonEmpty(s, 0, SubstitutionCount);
  }

  /** The line-break substitutions before the k-th leave the k-th line-break form intact. */
  lemma {:induction false} LineBreakSurvives(k: nat, y: string, i: nat)
    requires i <= k < 4
    ensures Steps(Substitution(k).0 + y, i, k) == Substitution(k).0 + Steps(y, i, k)
    decreases k - i
  {
    if i < k {
      var (pat, rep) := Substitution(i);
      var form := Substitution(k).0;
      DifferAt(form, pat, if i == 2 && k == 3 then 4 else 3);
      assert '<' !in form[1..];
      ReplaceKeepsHead(form, y, pat, rep);
      LineBreakSurvives(k, Replace(y, pat, rep), i + 1);
    }
  }

  /** Each of the four line-break forms, after a plain head, becomes one newline and the
      rest of the string is cleaned on its own. */
  lemma {:induction false} ClearStringLineBreak(a: string, k: nat, b: string)
    requires Plain(a) && k < 4
    ensures ClearString(a + Substitution(k).0 + b) == a + "\n" + ClearString(b)
  {
    var form := Substitution(k).0;
    var n := SubstitutionCount;
    var before := Steps(b, 0, k);
    var after := Replace(before, form, "\n");
    assert a + form + b == a + (form + b);
    StepsPlainHead(a, form + b, 0, n);
    StepsSplit(form + b, 0, k, n);
    LineBreakSurvives(k, b, 0);
    ReplaceAtHead(before, form, "\n");
    assert Steps(form + before, k, n) == Steps("\n" + after, k + 1, n);
    StepsPlainHead("\n", after, k + 1, n);
    StepsSplit(b, 0, k, n);
    assert Steps(before, k, n) == Steps(after, k + 1, n);
  }

  /** Every entity name has a lower-case letter right after its '&'. */
  lemma EntityNameStartsWithLetter(m: nat)
    requires 4 <= m < SubstitutionCount
    ensures |Substitution(m).0| > 1 && 'a' <= Substitution(m).0[1] <= 'z'
  {
  }

  /** An entity other than `&amp;` finds no occurrence in "&amp;" followed by plain text. */
  lemma {:induction false} AmpSurvivesEarlierEntity(m: nat, t: string)
    requires 4 <= m < 7 && Plain(t)
    ensures Replace("&amp;" + t, Substitution(m).0, Substitution(m).1) == "&amp;" + t
  {
    var (pat, rep) := Substitution(m);
    DifferAt("&amp;", pat, 1);
    ReplaceKeepsHead("&amp;", t, pat, rep);
    ReplaceAbsent(t, pat, rep);
  }

  /** A lone '&' that no letter follows starts no entity. */
  lemma {:induction false} LoneAmpersandSurvives(m: nat, t: string)
    requires 4 <= m < SubstitutionCount && Plain(t)
    requires t == [] || !('a' <= t[0] <= 'z')
    ensures Replace("&" + t, Substitution(m).0, Substitution(m).1) == "&" + t
  {
    var (pat, rep) := Substitution(m);
    var d := "&" + t;
    EntityNameStartsWithLetter(m);
    if |t| == 0 {
      assert |d| < |pat|;
    } else {
      assert d[1] == t[0];
      DifferAt(d, pat, 1);
      assert d == d + [];
      ReplaceKeepsHead(d, [], pat, rep);
    }
  }

  /** The substitutions before `&amp;` leave "&amp;" followed by plain text alone. */
  lemma {:induction false} AmpersandSurvivesUntilDecoded(t: string, br: nat, amp: nat)
    requires br == 4 && amp == 7
    requires Plain(t)
    ensures Steps("&amp;" + t, 0, amp) == "&amp;" + t
  {
    var s := "&amp;" + t;
    StepsPlain(s, 0, br);
    forall m | br <= m < amp
      ensures Replace(s, Substitution(m).0, Substitution(m).1) == s
    {
      AmpSurvivesEarlierEntity(m, t);
    }
    StepsFixed(s, br, amp);
    StepsSplit(s, 0, br, amp);
  }

  /** `&amp;` is decoded, and the lone '&' left behind starts no later entity. */
  lemma {:induction false} AmpersandDecodedOnce(t: string, amp: nat, n: nat)
    requires amp == 7 && n == SubstitutionCount
    requires Plain(t)
    requires t == [] || !('a' <= t[0] <= 'z')
    ensures Steps("&amp;" + t, amp, n) == "&" + t
  {
    ReplaceAtHead(t, "&amp;", "&");
    ReplaceAbsent(t, "&amp;", "&");
    var d := "&" + t;
    assert Steps("&amp;" + t, amp, n) == Steps(d, amp + 1, n);
    forall m | amp + 1 <= m < n
      ensures Replace(d, Substitution(m).0, Substitution(m).1) == d
    {
      LoneAmpersandSurvives(m, t);
    }
    StepsFixed(d, amp + 1, n);
  }

  /** The proof of `ClearStringAmpersand`, with the table positions passed as variables so
      that the verifier does not unfold the table eagerly. */
  lemma {:induction false} AmpersandSteps(h: string, t: string, br: nat, amp: nat, n: nat)
    requires br == 4 && amp == 7 && n == SubstitutionCount
    requires Plain(h) && Plain(t)
    requires t == [] || !('a' <= t[0] <= 'z')
    ensures Steps(h + "&amp;" + t, 0, n) == h + "&" + t
  {
    var s := "&amp;" + t;
    assert h + "&amp;" + t == h + s;
    StepsPlainHead(h, s, 0, n);
    AmpersandSurvivesUntilDecoded(t, br, amp);
    StepsSplit(s, 0, amp, n);
    AmpersandDecodedOnce(t, amp, n);
    assert h + ("&" + t) == h + "&" + t;
  }

  /** An escaped ampersand between plain text is decoded once, provided no entity name
      follows it. */
  lemma {:induction false} ClearStringAmpersand(h: string, t: string)
    requires Plain(h) && Plain(t)
    requires t == [] || !('a' <= t[0] <= 'z')
    ensures ClearString(h + "&amp;" + t) == h + "&" + t
  {
    AmpersandSteps(h, t, 4, 7, SubstitutionCount);
  }

  /** One "<br>" between texts without '<' becomes a newline under the first substitution. */
  lemma {:induction false} FirstBreakStep(head: string, t: string, z: nat)
    requires z == 0 && '<' !in head && '<' !in t
    ensures Replace(head + Substitution(z).0 + t, Substitution(z).0, "\n") == head + "\n" + t
  {
    var br := Substitution(z).0;
    assert head + br + t == head + (br + t);
    ReplaceSkipsPrefix(head, br + t, br, "\n");
    ReplaceAtHead(t, br, "\n");
    ReplaceAbsent(t, br, "\n");
  }

  /** An escaped ampersand and a line break between plain pieces: both are decoded. */
  lemma {:induction false} BreakAndAmpersandSteps(h: string, u: string, t: string, n: nat)
    requires n == SubstitutionCount
    requires Plain(h) && Plain(u) && Plain(t)
    requires u == [] || !('a' <= u[0] <= 'z')
    ensures Steps(h + "&amp;" + u + "<br>" + t, 0, n) == h + "&" + u + "\n" + t
  {
    var head := h + "&amp;" + u;
    assert '<' !in head;
    BreakDecodedFirst(head, t, n);
    assert head + "\n" + t == h + "&amp;" + (u + "\n" + t);
    AmpersandSteps(h, u + "\n" + t, 4, 7, n);
    assert h + "&" + (u + "\n" + t) == h + "&" + u + "\n" + t;
  }

  /** The first substitution turns the one "<br>" into a newline; nothing else changes. */
  lemma {:induction false} BreakDecodedFirst(head: string, t: string, n: nat)
    requires n == SubstitutionCount && '<' !in head && '<' !in t
    ensures Steps(head + "<br>" + t, 0, n) == Steps(head + "\n" + t, 0, n)
  {
    var s1 := head + "\n" + t;
    FirstBreakStep(head, t, 0);
    ReplaceAbsent(s1, "<br>", "\n");
  }

  /** A clean-up example: "A &amp; B<br>C" becomes "A & B", a newline, "C". */
  lemma {:induction false} ClearStringExample(s: string)
    requires s == "A &amp; B<br>C"
    ensures ClearString(s) == "A & B\nC"
  {
    assert s == "A " + "&amp;" + " B" + "<br>" + "C";
    BreakAndAmpersandSteps("A ", " B", "C", SubstitutionCount);
  }

  lemma {:induction false} DecodesTwiceSteps(t: string, amp: nat, n: nat)
    requires amp == 7 && n == SubstitutionCount && t == "quot;"
    ensures Steps("&amp;" + t, 0, n) == "\""
  {
    var s0 := "&amp;" + t;
    AmpersandSurvivesUntilDecoded(t, 4, amp);
    StepsSplit(s0, 0, amp, n);
    AmpersandThenQuote(t, amp, n);
  }

  /** From `&amp;` on, "&amp;quot;" loses its escaped ampersand and then its `&quot;`. */
  lemma {:induction false} AmpersandThenQuote(t: string, amp: nat, n: nat)
    requires amp == 7 && n == SubstitutionCount && t == "quot;"
    ensures Steps("&amp;" + t, amp, n) == "\""
  {
    ReplaceAtHead(t, "&amp;", "&");
    ReplaceAbsent(t, "&amp;", "&");
    var q := "&" + t;
    assert Steps("&amp;" + t, amp, n) == Steps(q, amp + 1, n);
    QuoteDecoded(q, amp + 1, n);
  }

  lemma {:induction false} QuoteDecoded(q: string, k: nat, n: nat)
    requires k == 8 && n == SubstitutionCount && q == "&quot;"
    ensures Steps(q, k, n) == "\""
  {
    assert q == Substitution(k).0 + "";
    ReplaceAtHead("", Substitution(k).0, Substitution(k).1);
    assert Replace(q, Substitution(k).0, Substitution(k).1) == "\"";
    assert Steps(q, k, n) == Steps("\"", k + 1, n);
    StepsPlain("\"", k + 1, n);
  }

  /** The substitutions run in table order over the whole string, so an escaped ampersand
      in front of an entity name is decoded twice: "&amp;quot;" becomes a double quote
      rather than the text "&quot;". */
  lemma {:induction false} ClearStringDecodesTwice(s: string)
    requires s == "&amp;quot;"
    ensures ClearString(s) == "\""
  {
    assert s == "&amp;" + "quot;";
    DecodesTwiceSteps("quot;", 7, SubstitutionCount);
  }

  /** `_clearString` on a list: each element is cleaned where it stands, the length stays. */
  method ClearStrings(a: array<string>)
    modifies a
    ensures forall i :: 0 <= i < a.Length ==> a[i] == ClearString(old(a[i]))
  {
    for i := 0 to a.Length
      invariant forall k :: 0 <= k < i ==> a[k] == ClearString(old(a[k]))
      invariant forall k :: i <= k < a.Length ==> a[k] == old(a[k])
    {
      a[i] := ClearString(a[i]);
    }
  }

  // ---------------------------------------------------------------------------------
  // The correct-answer field: letters A, B, C, ... name options 0, 1, 2, ...

  /** The option indices a correct-answer field names: each character other than a space,
      upper-cased, counted from 'A'. */
  function LetterIndices(s: string): seq<int> {
    if s == [] then []
    else (if s[0] == ' ' then [] else [UpperChar(s[0]) as int - 65]) + LetterIndices(s[1..])
  }

  /** Decoding a concatenation decodes the pieces in order. */
  lemma {:induction false} LetterIndicesAppend(a: string, b: string)
    ensures LetterIndices(a + b) == LetterIndices(a) + LetterIndices(b)
  {
    if a == [] {
      assert a + b == b;
    } else {
      assert (a + b)[0] == a[0] && (a + b)[1..] == a[1..] + b;
      LetterIndicesAppend(a[1..], b);
    }
  }

  /** One index per character that is not a space. */
  lemma {:induction false} LetterIndicesLength(s: string)
    ensures |LetterIndices(s)| == |s| - multiset(s)[' ']
  {
    if s != [] {
      assert s == [s[0]] + s[1..];
      assert multiset(s) == multiset([s[0]]) + multiset(s[1..]);
      LetterIndicesLength(s[1..]);
    }
  }

  /** A field made of ASCII letters and spaces names indices 0 to 25 only. */
  lemma {:induction false} LetterIndicesRange(s: string)
    requires forall i :: 0 <= i < |s| ==> s[i] == ' ' || 'a' <= s[i] <= 'z' || 'A' <= s[i] <= 'Z'
    ensures forall k :: 0 <= k < |LetterIndices(s)| ==> 0 <= LetterIndices(s)[k] < 26
  {
    if s != [] {
      LetterIndicesRange(s[1..]);
    }
  }

  /** Upper-casing and then deleting every space leaves exactly the characters `LetterIndices`
      decodes, in the same order. */
  lemma {:induction false} StrippedLetters(s: string)
    ensures |Replace(Upper(s), " ", "")| == |LetterIndices(s)|
    ensures forall k :: 0 <= k < |LetterIndices(s)| ==>
      LetterIndices(s)[k] == Replace(Upper(s), " ", "")[k] as int - 65
  {
    if s != [] {
      var u := Upper(s);
      assert u[1..] == Upper(s[1..]);
      assert u[..1] == " " <==> s[0] == ' ' by { assert u[..1] == [u[0]]; }
      StrippedLetters(s[1..]);
    }
  }

  /** `_correctToIndex`: upper-case the field, delete its spaces, and turn each remaining
      character c into ord(c) - 65. */
  method CorrectToIndex(correct: string) returns (index: seq<int>)
    ensures index == LetterIndices(correct)
  {
    var letters := Replace(Upper(correct), " ", "");
    index := [];
    for i := 0 to |letters|
      invariant |index| == i
      invariant forall k :: 0 <= k < i ==> index[k] == letters[k] as int - 65
    {
      index := index + [letters[i] as int - 65];
    }
    StrippedLetters(correct);
  }

  /** "A c" names options 0 and 2; "b" names option 1. */
  lemma {:induction false} LetterIndicesExample(s: string, t: string)
    requires s == "A c" && t == "b"
    ensures LetterIndices(s) == [0, 2] && LetterIndices(t) == [1]
  {
    assert s == "A" + " " + "c";
    LetterIndicesAppend("A" + " ", "c");
    LetterIndicesAppend("A", " ");
  }

  // ---------------------------------------------------------------------------------
  // Image references: the matches of the pattern <img src="([^"]+)" that re.finditer
  // reports, scanning from the left with no overlap.

  const ImgOpen: string := "<img src=\""

  /** Length of the longest prefix of `s` without a double quote. */
  function UnquotedRun(s: string): (k: nat)
    ensures k <= |s|
    ensures forall i :: 0 <= i < k ==> s[i] != '"'
    ensures k < |s| ==> s[k] == '"'
  {
    if s == [] || s[0] == '"' then 0 else 1 + UnquotedRun(s[1..])
  }

  /** The captured `src` values of every match, in order. */
  function ImgSources(s: string): (srcs: seq<string>)
    ensures forall i :: 0 <= i < |srcs| ==> |srcs[i]| > 0 && '"' !in srcs[i]
    decreases |s|
  {
    if |s| < |ImgOpen| then []
    else
      var rest := s[|ImgOpen|..];
      var k := UnquotedRun(rest);
      if s[..|ImgOpen|] == ImgOpen && 0 < k < |rest| then
        assert forall c :: c in rest[..k] ==> c != '"';
        [rest[..k]] + ImgSources(rest[k + 1..])
      else ImgSources(s[1..])
  }

  /** Text without '<' holds no image reference. */
  lemma {:induction false} ImgSourcesNone(s: string)
    requires '<' !in s
    ensures ImgSources(s) == []
    decreases |s|
  {
    if |s| >= |ImgOpen| {
      assert s[..|ImgOpen|][0] == s[0];
      ImgSourcesNone(s[1..]);
    }
  }

  /** A complete tag at the start is reported, and the scan resumes after its closing quote. */
  lemma {:induction false} ImgSourcesTag(src: string, t: string)
    requires |src| > 0 && '"' !in src
    ensures ImgSources(ImgOpen + src + "\"" + t) == [src] + ImgSources(t)
  {
    var s := ImgOpen + src + "\"" + t;
    var rest := s[|ImgOpen|..];
    assert s[..|ImgOpen|] == ImgOpen;
    assert rest == src + ("\"" + t);
    UnquotedPrefix(src, "\"" + t);
    assert rest[..|src|] == src;
    assert rest[|src| + 1..] == t;
  }

  lemma {:induction false} UnquotedPrefix(a: string, b: string)
    requires '"' !in a && b != [] && b[0] == '"'
    ensures UnquotedRun(a + b) == |a|
  {
    if a == [] {
      assert a + b == b;
    } else {
      assert (a + b)[1..] == a[1..] + b;
      UnquotedPrefix(a[1..], b);
    }
  }
}
