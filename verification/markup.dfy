/**
  The string-level pathways of the strategy service: removing every match of
  the regular expression `/<[^>]*>/g` (html to txt, html to docx), and
  wrapping text in `<html><body><pre>…</pre></body></html>` without escaping
  (txt to html, pdf to html).
 */
module Markup {
  import opened Text

  /**
    `text.replace(/<[^>]*>/g, '')`. A match starts at a '<' and, because `[^>]*`
    cannot cross a '>', ends at the first '>' after it; the scan resumes after
    the match, or one character later where no match starts.
   */
  function StripTags(s: string): (r: string)
    ensures |r| <= |s|
    decreases |s|
  {
    if |s| == 0 then ""
    else if s[0] == '<' && '>' in s[1..] then StripTags(s[IndexOf(s[1..], '>') + 2..])
    else [s[0]] + StripTags(s[1..])
  }

  /** No '<' is followed, anywhere later, by a '>': nothing the pattern could match. */
  ghost predicate TagFree(s: string) {
    forall i, j :: 0 <= i < j < |s| && s[i] == '<' ==> s[j] != '>'
  }

  /** `a` is `b` with some characters deleted, the rest kept in order. */
  ghost predicate IsSubsequence(a: string, b: string)
    decreases |b|
  {
    if |a| == 0 then true
    else if |b| == 0 then false
    else (a[0] == b[0] && IsSubsequence(a[1..], b[1..])) || IsSubsequence(a, b[1..])
  }

  /** Deleting a prefix of `b` as well still leaves a subsequence of `b`. */
  lemma {:induction false} SubsequenceOfSuffix(a: string, b: string, k: nat)
    requires k <= |b| && IsSubsequence(a, b[k..])
    ensures IsSubsequence(a, b)
    decreases k
  {
    if k > 0 {
      assert b[1..][k - 1..] == b[k..];
      SubsequenceOfSuffix(a, b[1..], k - 1);
      if |a| > 0 {
        assert IsSubsequence(a, b[1..]);
      }
    }
  }

  /** Stripping only removes characters: the result is a subsequence of the input, so every
      character it holds comes from the input. */
  lemma {:induction false} StripTagsKeepsOnlyInputChars(s: string)
    ensures IsSubsequence(StripTags(s), s)
    ensures forall c :: c in StripTags(s) ==> c in s
    decreases |s|
  {
    if |s| > 0 {
      if s[0] == '<' && '>' in s[1..] {
        var k := IndexOf(s[1..], '>') + 2;
        var rest := s[k..];
        StripTagsKeepsOnlyInputChars(rest);
        SubsequenceOfSuffix(StripTags(s), s, k);
        assert forall c :: c in rest ==> c in s;
      } else {
        StripTagsKeepsOnlyInputChars(s[1..]);
        var r := StripTags(s);
        assert r[0] == s[0] && r[1..] == StripTags(s[1..]);
      }
    }
  }

  /** After stripping, no '<' has a later '>'. */
  lemma {:induction false} StripTagsIsTagFree(s: string)
    ensures TagFree(StripTags(s))
    decreases |s|
  {
    if |s| > 0 {
      if s[0] == '<' && '>' in s[1..] {
        StripTagsIsTagFree(s[IndexOf(s[1..], '>') + 2..]);
      } else {
        var rest := StripTags(s[1..]);
        StripTagsIsTagFree(s[1..]);
        StripTagsKeepsOnlyInputChars(s[1..]);
        var r := [s[0]] + rest;
        forall i, j | 0 <= i < j < |r| && r[i] == '<'
          ensures r[j] != '>'
        {
          if i == 0 {
            assert r[j] == rest[j - 1];
          } else {
            assert r[i] == rest[i - 1] && r[j] == rest[j - 1];
          }
        }
      }
    }
  }

  /** Text the pattern cannot match is left as it is. */
  lemma {:induction false} StripTagsOfTagFree(s: string)
    requires TagFree(s)
    ensures StripTags(s) == s
    decreases |s|
  {
    if |s| > 0 {
      if !(s[0] == '<' && '>' in s[1..]) {
        assert TagFree(s[1..]) by {
          forall i, j | 0 <= i < j < |s[1..]| && s[1..][i] == '<'
            ensures s[1..][j] != '>'
          {
            assert s[i + 1] == '<';
          }
        }
        StripTagsOfTagFree(s[1..]);
        assert s == [s[0]] + s[1..];
      }
    }
  }

  /** Text without '<' passes through unchanged. */
  lemma StripTagsWithoutOpenBracket(s: string)
    requires '<' !in s
    ensures StripTags(s) == s
  {
    StripTagsOfTagFree(s);
  }

  /** Stripping twice is stripping once. */
  lemma StripTagsIdempotent(s: string)
    ensures StripTags(StripTags(s)) == StripTags(s)
  {
    StripTagsIsTagFree(s);
    StripTagsOfTagFree(StripTags(s));
  }

  const PreOpen: string := "<html><body><pre>"
  const PreClose: string := "</pre></body></html>"

  /** The `<pre>` page of txt to html and pdf to html; the text is inserted verbatim. */
  function WrapInPre(text: string): (r: string)
    ensures |r| == |PreOpen| + |text| + |PreClose|
    ensures r[..|PreOpen|] == PreOpen && r[|r| - |PreClose|..] == PreClose
  {
    PreOpen + text + PreClose
  }

  /** The text comes back out of the page unchanged: no character is escaped. */
  lemma WrapInPreRecoversText(text: string)
    ensures WrapInPre(text)[|PreOpen|..|PreOpen| + |text|] == text
  {
  }

  /** Distinct texts give distinct pages. */
  lemma WrapInPreInjective(a: string, b: string)
    requires WrapInPre(a) == WrapInPre(b)
    ensures a == b
  {
    WrapInPreRecoversText(a);
    WrapInPreRecoversText(b);
  }
}
