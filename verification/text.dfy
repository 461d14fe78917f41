/** String helpers the handlers and queries rely on: Python's `str.strip()`,
    the lower-casing that SQL `LOWER` applies on both sides of an `ilike`,
    and literal substring containment. */
module Text {

  /** The code points Python's `str.isspace()` accepts, which are exactly
      the ones `str.strip()` removes. */
  predicate IsSpace(c: char) {
    ('\t' <= c <= '\r')
    || ('\U{1C}' <= c <= ' ')
    || c == '\U{85}' || c == '\U{A0}' || c == '\U{1680}'
    || ('\U{2000}' <= c <= '\U{200A}')
    || c == '\U{2028}' || c == '\U{2029}' || c == '\U{202F}'
    || c == '\U{205F}' || c == '\U{3000}'
  }

  predicate AllSpace(s: string) {
    forall k :: 0 <= k < |s| ==> IsSpace(s[k])
  }

  /** Neither end of `s` is whitespace. */
  predicate Stripped(s: string) {
    s == [] || (!IsSpace(s[0]) && !IsSpace(s[|s| - 1]))
  }

  /** Scanning forward from `i` past whitespace: the first position at or
      after `i` that is not whitespace, or the end. */
  function SkipSpaceForward(s: string, i: nat): (n: nat)
    requires i <= |s|
    ensures i <= n <= |s|
    ensures forall k :: i <= k < n ==> IsSpace(s[k])
    ensures n == |s| || !IsSpace(s[n])
    decreases |s| - i
  {
    if i == |s| || !IsSpace(s[i]) then i else SkipSpaceForward(s, i + 1)
  }

  /** Scanning backward from `j` past whitespace, but not below `lo`. */
  function SkipSpaceBackward(s: string, lo: nat, j: nat): (n: nat)
    requires lo <= j <= |s|
    ensures lo <= n <= j
    ensures forall k :: n <= k < j ==> IsSpace(s[k])
    ensures n == lo || !IsSpace(s[n - 1])
    decreases j
  {
    if j == lo || !IsSpace(s[j - 1]) then j else SkipSpaceBackward(s, lo, j - 1)
  }

  /** `s[i..j]` is `s` with whitespace cut from both ends. */
  predicate StripBounds(s: string, i: int, j: int) {
    && 0 <= i <= j <= |s|
    && (forall k :: 0 <= k < i ==> IsSpace(s[k]))
    && (forall k :: j <= k < |s| ==> IsSpace(s[k]))
  }

  /** Python's `s.strip()`: the middle slice of `s` left after removing
      whitespace from both ends. */
  function Strip(s: string): (r: string)
    ensures Stripped(r)
    ensures exists i, j :: StripBounds(s, i, j) && r == s[i..j]
    ensures r == [] <==> AllSpace(s)
  {
    var i := SkipSpaceForward(s, 0);
    var j := SkipSpaceBackward(s, i, |s|);
    assert StripBounds(s, i, j);
    s[i..j]
  }

  /** Stripping text that has no whitespace at either end changes nothing. */
  lemma StripKeepsStripped(s: string)
    requires Stripped(s)
    ensures Strip(s) == s
  {
    if s != [] {
      assert SkipSpaceForward(s, 0) == 0;
      assert SkipSpaceBackward(s, 0, |s|) == |s|;
    }
    assert s[0..|s|] == s;
  }

  lemma StripIdempotent(s: string)
    ensures Strip(Strip(s)) == Strip(s)
  {
    StripKeepsStripped(Strip(s));
  }

  /** ASCII lower-casing, the folding the model assumes for SQL `LOWER`. */
  function LowerChar(c: char): char {
    if 'A' <= c <= 'Z' then (c as int + 32) as char else c
  }

  function Lower(s: string): (r: string)
    ensures |r| == |s|
  {
    seq(|s|, k requires 0 <= k < |s| => LowerChar(s[k]))
  }

  /** `needle` sits in `haystack` starting at position `i`. */
  predicate OccursAt(haystack: string, needle: string, i: int) {
    0 <= i && i + |needle| <= |haystack| && haystack[i..i + |needle|] == needle
  }

  /** Literal substring test, scanning the start positions left to right. */
  function Contains(haystack: string, needle: string): bool
    decreases |haystack|
  {
    needle <= haystack || (|haystack| > 0 && Contains(haystack[1..], needle))
  }

  /** An occurrence in the tail is an occurrence one place further on. */
  lemma OccursInTail(haystack: string, needle: string, i: int)
    requires |haystack| > 0 && 0 <= i
    ensures OccursAt(haystack[1..], needle, i) <==> OccursAt(haystack, needle, i + 1)
  {
    if 0 <= i && i + |needle| <= |haystack| - 1 {
      assert haystack[1..][i..i + |needle|] == haystack[i + 1..i + 1 + |needle|];
    }
  }

  lemma {:induction false} ContainsMeansOccurs(haystack: string, needle: string)
    ensures Contains(haystack, needle) <==> exists i :: OccursAt(haystack, needle, i)
    decreases |haystack|
  {
    if needle <= haystack {
      assert OccursAt(haystack, needle, 0);
    } else if |haystack| == 0 {
      assert forall i :: !OccursAt(haystack, needle, i);
    } else {
      var tail := haystack[1..];
      ContainsMeansOccurs(tail, needle);
      assert !OccursAt(haystack, needle, 0);
      if Contains(tail, needle) {
        var i :| OccursAt(tail, needle, i);
        OccursInTail(haystack, needle, i);
      } else {
        forall i | OccursAt(haystack, needle, i) ensures false {
          assert i != 0;
          OccursInTail(haystack, needle, i - 1);
        }
      }
    }
  }

  /** SQL `haystack ILIKE '%pattern%'` as SQLAlchemy renders it,
      `LOWER(haystack) LIKE LOWER('%pattern%')`, with the pattern read
      literally. */
  predicate ILikeContains(haystack: string, pattern: string) {
    Contains(Lower(haystack), Lower(pattern))
  }

  /** An empty search text matches every value. */
  lemma EmptyPatternMatchesAll(haystack: string)
    ensures ILikeContains(haystack, "")
  {
    assert Lower("") == [];
  }

  /** The match ignores letter case on either side. */
  lemma {:induction false} ILikeIgnoresCase(haystack: string, pattern: string)
    ensures ILikeContains(haystack, pattern) <==> ILikeContains(Lower(haystack), Lower(pattern))
  {
    LowerIdempotent(haystack);
    LowerIdempotent(pattern);
  }

  lemma LowerIdempotent(s: string)
    ensures Lower(Lower(s)) == Lower(s)
  {
  }

  /** The `ilike` match in terms of positions: some window of the folded
      value equals the folded pattern. */
  lemma ILikeMeansOccurs(haystack: string, pattern: string)
    ensures ILikeContains(haystack, pattern) <==> exists i :: OccursAt(Lower(haystack), Lower(pattern), i)
  {
    ContainsMeansOccurs(Lower(haystack), Lower(pattern));
  }

  /** A run of the haystack that equals the pattern up to letter case
      makes `ilike` match. */
  lemma ILikeAt(haystack: string, pattern: string, i: int)
    requires 0 <= i && i + |pattern| <= |haystack|
    requires forall k :: 0 <= k < |pattern| ==> LowerChar(haystack[i + k]) == LowerChar(pattern[k])
    ensures ILikeContains(haystack, pattern)
  {
    var h := Lower(haystack);
    var n := Lower(pattern);
    assert h[i..i + |n|] == n by {
      forall k | 0 <= k < |n| ensures h[i..i + |n|][k] == n[k] {
        assert h[i + k] == LowerChar(haystack[i + k]);
      }
    }
    assert OccursAt(h, n, i);
    ContainsMeansOccurs(h, n);
  }

  /** A word that equals the pattern up to letter case makes `ilike`
      match any text around it. */
  lemma ILikeInside(before: string, word: string, after: string, pattern: string)
    requires |word| == |pattern|
    requires forall k :: 0 <= k < |word| ==> LowerChar(word[k]) == LowerChar(pattern[k])
    ensures ILikeContains(before + word + after, pattern)
  {
    var h := before + word + after;
    forall k | 0 <= k < |pattern| ensures LowerChar(h[|before| + k]) == LowerChar(pattern[k]) {
      assert h[|before| + k] == word[k];
    }
    ILikeAt(h, pattern, |before|);
  }
}
