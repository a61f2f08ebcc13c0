/** Substring search, as the scanners use it. */
module Text {

  predicate At(s: string, pattern: string, i: nat) {
    i + |pattern| <= |s| && s[i..i + |pattern|] == pattern
  }

  /** No occurrence starts in [i, j). */
  ghost predicate NoneIn(s: string, pattern: string, i: nat, j: nat) {
    forall k :: i <= k < j ==> !At(s, pattern, k)
  }

  ghost predicate Free(s: string, pattern: string) {
    NoneIn(s, pattern, 0, |s|)
  }

  /** The first occurrence at or after a position; -1 when there is none. */
  method IndexOf(s: string, pattern: string, from: nat) returns (index: int)
    requires pattern != ""
    ensures index == -1 || (from <= index < |s| && At(s, pattern, index) && NoneIn(s, pattern, from, index))
    ensures index == -1 ==> NoneIn(s, pattern, from, |s|)
  {
    var i := from;
    while i + |pattern| <= |s|
      invariant from <= i && NoneIn(s, pattern, from, i)
      decreases |s| - i
    {
      if At(s, pattern, i) { return i; }
      i := i + 1;
    }
    index := -1;
  }

  lemma AtShift(prefix: string, s: string, pattern: string, i: nat)
    ensures At(prefix + s, pattern, |prefix| + i) <==> At(s, pattern, i)
  {
    if i + |pattern| <= |s| {
      assert (prefix + s)[|prefix| + i..|prefix| + i + |pattern|] == s[i..i + |pattern|];
    }
  }

  lemma AtPrefix(s: string, suffix: string, pattern: string, i: nat)
    requires i + |pattern| <= |s|
    ensures At(s + suffix, pattern, i) <==> At(s, pattern, i)
  {
    assert (s + suffix)[i..i + |pattern|] == s[i..i + |pattern|];
  }

  lemma AtChar(s: string, pattern: string, i: nat, k: nat)
    requires At(s, pattern, i) && k < |pattern|
    ensures s[i + k] == pattern[k]
  {
    assert s[i..i + |pattern|][k] == s[i + k];
  }

  lemma NotAt(s: string, pattern: string, i: nat, k: nat)
    requires k < |pattern| && i + k < |s| && s[i + k] != pattern[k]
    ensures !At(s, pattern, i)
  {
    if At(s, pattern, i) { AtChar(s, pattern, i, k); }
  }

  lemma Grouped(a: string, b: string, c: string)
    ensures a + (b + c) == a + b + c
  {
  }

  /** From position n on, text reads s. */
  ghost predicate Ends(text: string, n: nat, s: string) {
    n <= |text| && text[n..] == s
  }

  lemma EndsSlice(text: string, n: nat, s: string, i: nat, j: nat)
    requires Ends(text, n, s) && i <= j <= |s|
    ensures n + j <= |text| && text[n + i..n + j] == s[i..j]
  {
    forall k | 0 <= k < j - i ensures text[n + i..n + j][k] == s[i..j][k] {
      assert text[n..][i + k] == text[n + i + k];
    }
  }

  lemma SameAt(text: string, n: nat, s: string, pattern: string, i: nat)
    requires Ends(text, n, s)
    ensures At(text, pattern, n + i) <==> At(s, pattern, i)
    ensures |text| == n + |s|
  {
    if i + |pattern| <= |s| { EndsSlice(text, n, s, i, i + |pattern|); }
  }
}
