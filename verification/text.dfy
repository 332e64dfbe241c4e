/**
 Character-string helpers with the semantics of the Python `str` methods the
 playlist rules rely on: `startswith`, `endswith`, `replace(pat, '')` and
 `lower` (restricted to ASCII letters).
 */
module Text {

  predicate StartsWith(s: string, prefix: string) {
    |prefix| <= |s| && s[..|prefix|] == prefix
  }

  predicate EndsWith(s: string, suffix: string) {
    |suffix| <= |s| && s[|s| - |suffix|..] == suffix
  }

  /** True iff `pat` occurs somewhere in `s`. */
  predicate Occurs(s: string, pat: string) {
    exists i :: 0 <= i <= |s| && StartsWith(s[i..], pat)
  }

  /** The first character of `pat` appears nowhere else in it, so two
      occurrences of `pat` can never overlap. */
  predicate HeadIsUnique(pat: string) {
    |pat| > 0 && forall j :: 1 <= j < |pat| ==> pat[j] != pat[0]
  }

  /** `s.replace(pat, '')`: scans left to right and deletes every
      non-overlapping occurrence of `pat`, not only a trailing one. */
  function RemoveAll(s: string, pat: string): (r: string)
    requires |pat| > 0
    ensures |r| <= |s|
    ensures !Occurs(s, pat) ==> r == s
    decreases |s|
  {
    if |s| == 0 then []
    else if StartsWith(s, pat) then
      var rest := RemoveAll(s[|pat|..], pat);
      assert Occurs(s, pat) by { assert StartsWith(s[0..], pat); }
      rest
    else
      var rest := RemoveAll(s[1..], pat);
      assert !Occurs(s, pat) ==> !Occurs(s[1..], pat) by {
        if Occurs(s[1..], pat) {
          var i :| 0 <= i <= |s[1..]| && StartsWith(s[1..][i..], pat);
          assert s[1..][i..] == s[i + 1..];
        }
      }
      assert !Occurs(s, pat) ==> [s[0]] + rest == s by {
        if !Occurs(s, pat) { assert s == [s[0]] + s[1..]; }
      }
      [s[0]] + rest
  }

  /** Appending `pat` to `b` adds exactly one deletion: when the first
      character of `pat` occurs nowhere else in it, no occurrence straddles
      the seam. */
  lemma {:induction false} RemoveAllAppendPattern(b: string, pat: string)
    requires HeadIsUnique(pat)
    ensures RemoveAll(b + pat, pat) == RemoveAll(b, pat)
    decreases |b|
  {
    var s := b + pat;
    if |b| == 0 {
      assert s == pat;
      assert StartsWith(s, pat);
      assert s[|pat|..] == [];
    } else if StartsWith(s, pat) {
      if |b| < |pat| {
        NoOccurrenceAcrossSeam(b, pat);
      }
      assert b[..|pat|] == s[..|pat|];
      assert StartsWith(b, pat);
      assert s[|pat|..] == b[|pat|..] + pat;
      RemoveAllAppendPattern(b[|pat|..], pat);
    } else {
      assert !StartsWith(b, pat);
      assert s[1..] == b[1..] + pat;
      assert s[0] == b[0];
      RemoveAllAppendPattern(b[1..], pat);
    }
  }

  /** An occurrence of `pat` anywhere in a name is deleted, not only one at
      its end: the parts on either side of it are then treated on their own. */
  lemma {:induction false} RemoveAllSplit(a: string, b: string, pat: string)
    requires HeadIsUnique(pat)
    ensures RemoveAll(a + pat + b, pat) == RemoveAll(a, pat) + RemoveAll(b, pat)
    decreases |a|
  {
    if |a| == 0 {
      assert a + pat + b == pat + b;
      RemoveAllPrefix(b, pat);
    } else if StartsWith(a, pat) {
      var rest := a[|pat|..];
      assert a == pat + rest;
      assert a + pat + b == pat + (rest + pat + b);
      RemoveAllSplit(rest, b, pat);
      SplitAfterLeadingMatch(a + pat + b, rest + pat + b, a, rest, b, pat);
    } else {
      var tail := a[1..];
      assert a == [a[0]] + tail;
      assert a + pat + b == [a[0]] + (tail + pat + b);
      NoLeadingMatchAcrossSeam(a, b, pat);
      RemoveAllSplit(tail, b, pat);
      SplitAfterLeadingChar(a + pat + b, tail + pat + b, a, tail, b, pat, a[0]);
    }
  }

  /** The step of `RemoveAllSplit` when `a` opens with an occurrence. */
  lemma SplitAfterLeadingMatch(s: string, t: string, a: string, rest: string, b: string, pat: string)
    requires |pat| > 0 && s == pat + t && a == pat + rest
    requires RemoveAll(t, pat) == RemoveAll(rest, pat) + RemoveAll(b, pat)
    ensures RemoveAll(s, pat) == RemoveAll(a, pat) + RemoveAll(b, pat)
  {
  }

  /** The step of `RemoveAllSplit` when `a` opens with a kept character. */
  lemma SplitAfterLeadingChar(s: string, x: string, a: string, tail: string, b: string, pat: string, c: char)
    requires |pat| > 0 && s == [c] + x && a == [c] + tail
    requires !StartsWith(s, pat) && !StartsWith(a, pat)
    requires RemoveAll(x, pat) == RemoveAll(tail, pat) + RemoveAll(b, pat)
    ensures RemoveAll(s, pat) == RemoveAll(a, pat) + RemoveAll(b, pat)
  {
  }

  /** When `a` does not open with `pat`, neither does `a + pat + b`. */
  lemma NoLeadingMatchAcrossSeam(a: string, b: string, pat: string)
    requires HeadIsUnique(pat) && |a| > 0 && !StartsWith(a, pat)
    ensures !StartsWith(a + pat + b, pat)
  {
    var s := a + pat + b;
    if |a| < |pat| {
      NoOccurrenceAcrossSeam(a, pat);
      assert (a + pat)[..|pat|] == s[..|pat|];
    } else {
      assert s[..|pat|] == a[..|pat|];
    }
  }

  /** A leading occurrence is skipped whole. */
  lemma RemoveAllPrefix(x: string, pat: string)
    requires |pat| > 0
    ensures RemoveAll(pat + x, pat) == RemoveAll(x, pat)
  {
    var s := pat + x;
    assert s[..|pat|] == pat;
    assert s[|pat|..] == x;
  }

  /** An occurrence of `pat` that starts inside a short `b` and ends inside
      the appended `pat` would put `pat[0]` at a later position of `pat`. */
  lemma NoOccurrenceAcrossSeam(b: string, pat: string)
    requires HeadIsUnique(pat)
    requires 0 < |b| < |pat|
    ensures !StartsWith(b + pat, pat)
  {
    var s := b + pat;
    assert s[|b|] == pat[0];
    if StartsWith(s, pat) {
      assert s[..|pat|][|b|] == s[|b|];
    }
  }

  function LowerChar(c: char): char {
    if 'A' <= c <= 'Z' then (c as int + 32) as char else c
  }

  /** `x` and `y` are one character up to ASCII letter case: equal, or a
      capital and its own small letter in either order. */
  predicate SameUpToCase(x: char, y: char) {
    || x == y
    || ('A' <= x <= 'Z' && y as int == x as int + 32)
    || ('A' <= y <= 'Z' && x as int == y as int + 32)
  }

  /** `a` and `b` spell the same text up to ASCII letter case. */
  predicate EqualUpToCase(a: string, b: string) {
    |a| == |b| && forall i :: 0 <= i < |a| ==> SameUpToCase(a[i], b[i])
  }

  predicate NoCapital(s: string) {
    forall i :: 0 <= i < |s| ==> !('A' <= s[i] <= 'Z')
  }

  /** `str.lower()` on ASCII letters: the same text up to letter case, with
      no capital letter left. */
  function Lower(s: string): (r: string)
    ensures EqualUpToCase(r, s)
    ensures NoCapital(r)
  {
    seq(|s|, i requires 0 <= i < |s| => LowerChar(s[i]))
  }

  /** The two ensures of `Lower` determine it: no other string is the same
      text up to case without capitals. */
  lemma LowerUnique(s: string, r: string)
    requires EqualUpToCase(r, s) && NoCapital(r)
    ensures r == Lower(s)
  {
  }

  /** Two strings lower-case alike iff they agree up to letter case. */
  lemma LowerEqualIff(a: string, b: string)
    ensures Lower(a) == Lower(b) <==> EqualUpToCase(a, b)
  {
  }

}
