/**
  The handful of JavaScript string operations the application relies on,
  stated over `seq<char>`: `toLowerCase` (ASCII letters only), `indexOf`,
  `lastIndexOf`, `split(sep).pop()`, `substring(0, lastIndexOf(sep))`,
  `split(sep)`, `includes`, `startsWith` and `endsWith`.
 */
module Text {

  predicate IsUpperAscii(c: char) {
    'A' <= c <= 'Z'
  }

  predicate IsLowerAscii(c: char) {
    'a' <= c <= 'z'
  }

  predicate IsDigit(c: char) {
    '0' <= c <= '9'
  }

  function LowerChar(c: char): (r: char)
    ensures IsUpperAscii(c) ==> IsLowerAscii(r) && r as int == c as int + 32
    ensures !IsUpperAscii(c) ==> r == c
  {
    if IsUpperAscii(c) then (c as int + 32) as char else c
  }

  /** `s.toLowerCase()` restricted to ASCII letters. */
  function Lower(s: string): (r: string)
    ensures |r| == |s|
    ensures forall i :: 0 <= i < |s| ==> r[i] == LowerChar(s[i])
    ensures forall i :: 0 <= i < |r| ==> !IsUpperAscii(r[i])
  {
    seq(|s|, i requires 0 <= i < |s| => LowerChar(s[i]))
  }

  /** Lower-casing twice is lower-casing once. */
  lemma LowerIdempotent(s: string)
    ensures Lower(Lower(s)) == Lower(s)
  {
  }

  /** `s.indexOf(c)`: the first position of `c`, or -1. */
  function IndexOf(s: string, c: char): (r: int)
    ensures -1 <= r < |s|
    ensures r == -1 <==> c !in s
    ensures 0 <= r ==> s[r] == c && c !in s[..r]
  {
    if |s| == 0 then -1
    else if s[0] == c then 0
    else
      var k := IndexOf(s[1..], c);
      if k < 0 then -1
      else assert s[..k + 1] == [s[0]] + s[1..][..k]; k + 1
  }

  /** `s.lastIndexOf(c)`: the last position of `c`, or -1. */
  function LastIndexOf(s: string, c: char): (r: int)
    ensures -1 <= r < |s|
    ensures r == -1 <==> c !in s
    ensures 0 <= r ==> s[r] == c && c !in s[r + 1..]
  {
    if |s| == 0 then -1
    else if s[|s| - 1] == c then |s| - 1
    else
      var k := LastIndexOf(s[..|s| - 1], c);
      if k >= 0 then assert s[k + 1..] == s[..|s| - 1][k + 1..] + [s[|s| - 1]]; k
      else k
  }

  /** `s.split(sep).pop()`: the text after the last `sep`, or all of `s` when there is none. */
  function LastSegment(s: string, sep: char): (r: string)
    ensures sep !in r
    ensures |r| <= |s| && r == s[|s| - |r|..]
    ensures sep !in s ==> r == s
    ensures sep in s ==> |r| < |s| && s[|s| - |r| - 1] == sep
  {
    s[LastIndexOf(s, sep) + 1..]
  }

  /**
    `s.substring(0, s.lastIndexOf(sep))`: the text before the last `sep`;
    JavaScript clamps the end index -1 to 0, so it is empty when there is no `sep`.
   */
  function BeforeLast(s: string, sep: char): (r: string)
    ensures sep !in s ==> r == ""
    ensures sep in s ==> s == r + [sep] + LastSegment(s, sep)
  {
    var k := LastIndexOf(s, sep);
    if k < 0 then "" else s[..k]
  }

  /** `s.split(sep)` for a one-character separator: never empty, `""` splits into `[""]`. */
  function Split(s: string, sep: char): (r: seq<string>)
    ensures |r| >= 1
    ensures forall i :: 0 <= i < |r| ==> sep !in r[i]
    decreases |s|
  {
    var k := LastIndexOf(s, sep);
    if k < 0 then [s] else Split(s[..k], sep) + [s[k + 1..]]
  }

  /** `parts.join(sep)`. */
  function Join(parts: seq<string>, sep: char): string
    requires |parts| >= 1
  {
    if |parts| == 1 then parts[0] else Join(parts[..|parts| - 1], sep) + [sep] + parts[|parts| - 1]
  }

  /** Joining the pieces of a split gives back the original text. */
  lemma {:induction false} JoinSplit(s: string, sep: char)
    ensures Join(Split(s, sep), sep) == s
    decreases |s|
  {
    var k := LastIndexOf(s, sep);
    if k >= 0 {
      var parts := Split(s[..k], sep) + [s[k + 1..]];
      assert parts[..|parts| - 1] == Split(s[..k], sep);
      JoinSplit(s[..k], sep);
      assert s == s[..k] + [sep] + s[k + 1..];
    }
  }

  /** The last separator of `pre + [sep] + last` is the one just after `pre`. */
  lemma LastIndexOfSeparator(pre: string, last: string, sep: char)
    requires sep !in last
    ensures LastIndexOf(pre + [sep] + last, sep) == |pre|
  {
    assert (pre + [sep] + last)[|pre|] == sep;
  }

  /** The segment after the last separator of `pre + [sep] + last` is `last`. */
  lemma LastSegmentAfter(pre: string, last: string, sep: char)
    requires sep !in last
    ensures LastSegment(pre + [sep] + last, sep) == last
  {
    LastIndexOfSeparator(pre, last, sep);
    assert (pre + [sep] + last)[|pre| + 1..] == last;
  }

  /** Text without upper-case ASCII letters is unchanged by lower-casing. */
  lemma LowerOfLowerCase(s: string)
    requires forall i :: 0 <= i < |s| ==> !IsUpperAscii(s[i])
    ensures Lower(s) == s
  {
  }

  /** Splitting a join of separator-free pieces gives back the pieces. */
  lemma {:induction false} SplitJoin(parts: seq<string>, sep: char)
    requires |parts| >= 1
    requires forall i :: 0 <= i < |parts| ==> sep !in parts[i]
    ensures Split(Join(parts, sep), sep) == parts
    decreases |parts|
  {
    if |parts| > 1 {
      var init := parts[..|parts| - 1];
      var last := parts[|parts| - 1];
      SplitAfterSeparator(Join(init, sep), last, sep);
      forall i | 0 <= i < |init|
        ensures sep !in init[i]
      {
        assert init[i] == parts[i];
      }
      SplitJoin(init, sep);
      assert parts == init + [last];
    }
  }

  /** Splitting `pre + [sep] + last` with `last` free of separators splits `pre` and adds `last`. */
  lemma SplitAfterSeparator(pre: string, last: string, sep: char)
    requires sep !in last
    ensures Split(pre + [sep] + last, sep) == Split(pre, sep) + [last]
  {
    var s := pre + [sep] + last;
    LastIndexOfSeparator(pre, last, sep);
    assert s[..|pre|] == pre && s[|pre| + 1..] == last;
  }

  /** `s.startsWith(p)`. */
  predicate StartsWith(s: string, p: string)
    ensures StartsWith(s, p) <==> p <= s
  {
    |p| <= |s| && s[..|p|] == p
  }

  /** `s.endsWith(p)`. */
  predicate EndsWith(s: string, p: string)
    ensures EndsWith(s, p) <==> exists t :: s == t + p
  {
    assert |p| <= |s| ==> s == s[..|s| - |p|] + s[|s| - |p|..];
    |p| <= |s| && s[|s| - |p|..] == p
  }

  /** `sub` occurs in `s` starting at position `i`. */
  predicate OccursAt(s: string, sub: string, i: int) {
    0 <= i <= |s| - |sub| && s[i..i + |sub|] == sub
  }

  /** `s.includes(sub)`: `sub` occurs at some position of `s`. */
  ghost predicate Contains(s: string, sub: string) {
    exists i :: OccursAt(s, sub, i)
  }

  /** An executable form of `Contains`, scanning start positions left to right. */
  function ContainsFrom(s: string, sub: string, i: nat): (r: bool)
    requires i <= |s|
    ensures r <==> exists j :: i <= j && OccursAt(s, sub, j)
    decreases |s| - i
  {
    if i + |sub| > |s| then false
    else if s[i..i + |sub|] == sub then assert OccursAt(s, sub, i); true
    else ContainsFrom(s, sub, i + 1)
  }

  function Includes(s: string, sub: string): (r: bool)
    ensures r <==> Contains(s, sub)
  {
    ContainsFrom(s, sub, 0)
  }
}
