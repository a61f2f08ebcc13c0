/** Redaction of <private> spans in text and in JSON trees. */
module PrivacyScrub {
  import opened MemoryTypes
  import opened Text

  const OPEN_TAG := "<private>"
  const CLOSE_TAG := "</private>"
  const REPLACEMENT := "[REDACTED]"

  // ---- The specification: one left-to-right scan with a nesting depth ----

  /** Where a span of the given depth ends when scanned from i; an unclosed one runs to the end. */
  function SpanEnd(s: string, i: nat, depth: nat): (end: nat)
    requires i <= |s|
    ensures i <= end <= |s|
    decreases |s| - i
  {
    if depth == 0 || i == |s| then i
    else if At(s, OPEN_TAG, i) then SpanEnd(s, i + |OPEN_TAG|, depth + 1)
    else if At(s, CLOSE_TAG, i) then SpanEnd(s, i + |CLOSE_TAG|, depth - 1)
    else SpanEnd(s, i + 1, depth)
  }

  /** Text outside spans as it is, every outermost span replaced. */
  function ScrubFrom(s: string, i: nat): string
    requires i <= |s|
    decreases |s| - i
  {
    if i == |s| then ""
    else if At(s, OPEN_TAG, i) then REPLACEMENT + ScrubFrom(s, SpanEnd(s, i + |OPEN_TAG|, 1))
    else [s[i]] + ScrubFrom(s, i + 1)
  }

  function Scrub(s: string): string { ScrubFrom(s, 0) }

  // ---- scrubPrivateSpans ----

  lemma {:induction false} SkipPlain(s: string, i: nat, j: nat, depth: nat)
    requires i <= j <= |s| && depth > 0
    requires NoneIn(s, OPEN_TAG, i, j) && NoneIn(s, CLOSE_TAG, i, j)
    ensures SpanEnd(s, i, depth) == SpanEnd(s, j, depth)
    decreases j - i
  {
    if i < j { SkipPlain(s, i + 1, j, depth); }
  }

  lemma {:induction false} NeverCloses(s: string, i: nat, depth: nat)
    requires i <= |s| && depth > 0 && NoneIn(s, CLOSE_TAG, i, |s|)
    ensures SpanEnd(s, i, depth) == |s|
    decreases |s| - i
  {
    if i < |s| {
      if At(s, OPEN_TAG, i) {
        NeverCloses(s, i + |OPEN_TAG|, depth + 1);
      } else {
        NeverCloses(s, i + 1, depth);
      }
    }
  }

  lemma {:induction false} CopyPlain(s: string, i: nat, j: nat)
    requires i <= j <= |s| && NoneIn(s, OPEN_TAG, i, j)
    ensures ScrubFrom(s, i) == s[i..j] + ScrubFrom(s, j)
    decreases j - i
  {
    hide At;
    if i < j {
      CopyPlain(s, i + 1, j);
      assert s[i..j] == [s[i]] + s[i + 1..j];
      Grouped([s[i]], s[i + 1..j], ScrubFrom(s, j));
    }
  }

  /** The inner loop: from just inside an opening tag to behind its matching close. */
  method MatchingClose(input: string, start: nat) returns (searchPos: nat)
    requires start <= |input|
    ensures searchPos == SpanEnd(input, start, 1)
  {
    var depth := 1;
    searchPos := start;
    while depth > 0 && searchPos < |input|
      invariant start <= searchPos <= |input|
      invariant SpanEnd(input, searchPos, depth) == SpanEnd(input, start, 1)
      decreases |input| - searchPos, depth
    {
      searchPos, depth := NextTag(input, searchPos, depth);
    }
  }

  /** One round of the inner loop: past the next tag, or to the end when no closing tag is left. */
  method NextTag(input: string, searchPos: nat, depth: nat) returns (next: nat, depth': nat)
    requires searchPos < |input| && depth > 0
    ensures searchPos < next <= |input|
    ensures SpanEnd(input, next, depth') == SpanEnd(input, searchPos, depth)
  {
    hide At;
    var nextOpen := IndexOf(input, OPEN_TAG, searchPos);
    var nextClose := IndexOf(input, CLOSE_TAG, searchPos);
    if nextClose == -1 {
      NeverCloses(input, searchPos, depth);
      return |input|, 0;
    } else if nextOpen != -1 && nextOpen < nextClose {
      SkipPlain(input, searchPos, nextOpen, depth);
      return nextOpen + |OPEN_TAG|, depth + 1;
    } else {
      NotBoth(input, nextClose);
      SkipPlain(input, searchPos, nextClose, depth);
      return nextClose + |CLOSE_TAG|, depth - 1;
    }
  }

  lemma NotBoth(s: string, i: nat)
    requires At(s, CLOSE_TAG, i)
    ensures !At(s, OPEN_TAG, i)
  {
    AtChar(s, CLOSE_TAG, i, 1);
    if At(s, OPEN_TAG, i) { AtChar(s, OPEN_TAG, i, 1); }
  }

  lemma ScrubIsFrom(s: string)
    ensures Scrub(s) == ScrubFrom(s, 0)
  {
  }

  lemma OpenSpan(s: string, i: nat)
    requires At(s, OPEN_TAG, i)
    ensures i + |OPEN_TAG| <= |s|
    ensures ScrubFrom(s, i) == REPLACEMENT + ScrubFrom(s, SpanEnd(s, i + |OPEN_TAG|, 1))
  {
  }

  lemma NothingLeft(s: string)
    ensures ScrubFrom(s, |s|) == ""
  {
  }

  method ScrubPrivateSpans(input: string) returns (result: string)
    ensures result == Scrub(input)
  {
    hide ScrubFrom, SpanEnd, At, NoneIn;
    result := "";
    var pos := 0;
    ScrubIsFrom(input);
    NothingLeft(input);
    while pos < |input|
      invariant 0 <= pos <= |input|
      invariant result + ScrubFrom(input, pos) == Scrub(input)
    {
      var openIdx := IndexOf(input, OPEN_TAG, pos);
      if openIdx == -1 {
        CopyPlain(input, pos, |input|);
        result := result + input[pos..];
        return;
      }
      OpenSpan(input, openIdx);
      ghost var rest := ScrubFrom(input, SpanEnd(input, openIdx + |OPEN_TAG|, 1));
      CopyPlain(input, pos, openIdx);
      Regroup(result, input[pos..openIdx], REPLACEMENT, rest);
      result := result + input[pos..openIdx];
      result := result + REPLACEMENT;
      pos := MatchingClose(input, openIdx + |OPEN_TAG|);
    }
  }

  lemma Regroup(a: string, b: string, c: string, d: string)
    ensures a + (b + (c + d)) == a + b + c + d
  {
  }

  // ---- What scrubbing promises ----

  /** Plain characters at the head of the output are the characters of the input. */
  lemma {:induction false} HeadIsCopied(s: string, i: nat, w: string)
    requires i <= |s| && '[' !in w && w <= ScrubFrom(s, i)
    ensures i + |w| <= |s| && s[i..i + |w|] == w
    decreases |w|
  {
    if w == "" {
    } else {
      var out := ScrubFrom(s, i);
      assert w[0] == out[0];
      assert out[0] != '[';
      assert i < |s| && !At(s, OPEN_TAG, i) && out == [s[i]] + ScrubFrom(s, i + 1);
      assert out[1..] == ScrubFrom(s, i + 1);
      HeadIsCopied(s, i + 1, w[1..]);
      assert s[i..i + |w|] == [s[i]] + s[i + 1..i + |w|];
    }
  }

  lemma TagHead(out: string, k: nat)
    requires At(out, OPEN_TAG, k)
    ensures OPEN_TAG <= out[k..]
  {
    assert out[k..][..|OPEN_TAG|] == out[k..k + |OPEN_TAG|];
  }

  /** The output never contains an opening tag, not even across a seam with the replacement. */
  lemma {:induction false} NoTagLeft(s: string, i: nat, k: nat)
    requires i <= |s|
    ensures !At(ScrubFrom(s, i), OPEN_TAG, k)
    decreases |s| - i, k
  {
    var out := ScrubFrom(s, i);
    if i == |s| {
      assert out == "";
    } else if At(s, OPEN_TAG, i) {
      var end := SpanEnd(s, i + |OPEN_TAG|, 1);
      if k < |REPLACEMENT| {
        NoTagInReplacement(ScrubFrom(s, end), k);
      } else {
        NoTagLeft(s, end, k - |REPLACEMENT|);
        AtShift(REPLACEMENT, ScrubFrom(s, end), OPEN_TAG, k - |REPLACEMENT|);
      }
    } else if k > 0 {
      NoTagLeft(s, i + 1, k - 1);
      AtShift([s[i]], ScrubFrom(s, i + 1), OPEN_TAG, k - 1);
    } else {
      assert out[0..] == out;
      if At(out, OPEN_TAG, 0) {
        TagHead(out, 0);
        HeadIsCopied(s, i, OPEN_TAG);
      }
    }
  }

  lemma NoTagInReplacement(rest: string, k: nat)
    requires k < |REPLACEMENT|
    ensures !At(REPLACEMENT + rest, OPEN_TAG, k)
  {
    assert (REPLACEMENT + rest)[k] == REPLACEMENT[k] && REPLACEMENT[k] != '<';
    NotAt(REPLACEMENT + rest, OPEN_TAG, k, 0);
  }

  lemma ScrubbedIsFree(s: string)
    ensures Free(Scrub(s), OPEN_TAG)
  {
    forall k | 0 <= k < |Scrub(s)| ensures !At(Scrub(s), OPEN_TAG, k) {
      NoTagLeft(s, 0, k);
    }
  }

  /** Text without an opening tag is untouched, so scrubbing twice is scrubbing once. */
  lemma FreeIsKept(s: string)
    requires Free(s, OPEN_TAG)
    ensures Scrub(s) == s
  {
    CopyPlain(s, 0, |s|);
    assert s[0..|s|] == s;
    assert ScrubFrom(s, |s|) == "";
  }

  lemma Idempotent(s: string)
    ensures Scrub(Scrub(s)) == Scrub(s)
  {
    ScrubbedIsFree(s);
    FreeIsKept(Scrub(s));
  }

  // ---- Nothing inside a span shows ----

  /** The depth after x when entered at the given depth; 0 as soon as the span closes. */
  function EndDepth(x: string, i: nat, depth: nat): nat
    requires i <= |x|
    decreases |x| - i
  {
    if depth == 0 || i == |x| then depth
    else if At(x, OPEN_TAG, i) then EndDepth(x, i + |OPEN_TAG|, depth + 1)
    else if At(x, CLOSE_TAG, i) then EndDepth(x, i + |CLOSE_TAG|, depth - 1)
    else EndDepth(x, i + 1, depth)
  }

  /** The inside of a span: every tag opened in it is closed in it, and it does not close its own. */
  predicate Balanced(x: string) { EndDepth(x, 0, 1) == 1 }

  lemma {:induction false} Deeper(x: string, i: nat, depth: nat)
    requires i <= |x| && EndDepth(x, i, depth) > 0
    ensures EndDepth(x, i, depth + 1) == EndDepth(x, i, depth) + 1
    decreases |x| - i
  {
    if i < |x| {
      if At(x, OPEN_TAG, i) {
        Deeper(x, i + |OPEN_TAG|, depth + 1);
      } else if At(x, CLOSE_TAG, i) {
        Deeper(x, i + |CLOSE_TAG|, depth - 1);
      } else {
        Deeper(x, i + 1, depth);
      }
    }
  }

  lemma {:induction false} DepthPasses(x: string, t: string, i: nat, depth: nat)
    requires i <= |x| && depth > 0 && EndDepth(x, i, depth) > 0 && (t == "" || t[0] == '<')
    ensures EndDepth(x + t, i, depth) == EndDepth(x + t, |x|, EndDepth(x, i, depth))
    decreases |x| - i
  {
    if i < |x| {
      NoStraddle(x, t, OPEN_TAG, i);
      NoStraddle(x, t, CLOSE_TAG, i);
      if At(x, OPEN_TAG, i) {
        DepthPasses(x, t, i + |OPEN_TAG|, depth + 1);
      } else if At(x, CLOSE_TAG, i) {
        DepthPasses(x, t, i + |CLOSE_TAG|, depth - 1);
      } else {
        DepthPasses(x, t, i + 1, depth);
      }
    }
  }

  lemma DepthStep(s: string, i: nat, depth: nat)
    requires i < |s| && depth > 0
    ensures At(s, OPEN_TAG, i) ==> i + |OPEN_TAG| <= |s|
    ensures At(s, CLOSE_TAG, i) ==> i + |CLOSE_TAG| <= |s|
    ensures EndDepth(s, i, depth) ==
            if At(s, OPEN_TAG, i) then EndDepth(s, i + |OPEN_TAG|, depth + 1)
            else if At(s, CLOSE_TAG, i) then EndDepth(s, i + |CLOSE_TAG|, depth - 1)
            else EndDepth(s, i + 1, depth)
  {
  }

  lemma {:induction false} DepthShift(text: string, n: nat, y: string, i: nat, depth: nat)
    requires Ends(text, n, y) && i <= |y| && |text| == n + |y|
    ensures EndDepth(text, n + i, depth) == EndDepth(y, i, depth)
    decreases |y| - i
  {
    hide At, Ends;
    if depth > 0 && i < |y| {
      SameAt(text, n, y, OPEN_TAG, i);
      SameAt(text, n, y, CLOSE_TAG, i);
      DepthStep(y, i, depth);
      DepthStep(text, n + i, depth);
      if At(y, OPEN_TAG, i) {
        DepthShift(text, n, y, i + |OPEN_TAG|, depth + 1);
      } else if At(y, CLOSE_TAG, i) {
        DepthShift(text, n, y, i + |CLOSE_TAG|, depth - 1);
      } else {
        DepthShift(text, n, y, i + 1, depth);
      }
    }
  }

  /** A tag between two texts changes the depth by one. */
  lemma DepthOver(x: string, tag: string, y: string, depth: nat)
    requires Tag(tag) && depth > 0 && EndDepth(x, 0, depth) > 0
    ensures var d := EndDepth(x, 0, depth);
            EndDepth(x + (tag + y), 0, depth) == EndDepth(y, 0, if tag == OPEN_TAG then d + 1 else d - 1)
  {
    var t, d := tag + y, EndDepth(x, 0, depth);
    var s := x + t;
    DepthPasses(x, t, 0, depth);
    assert s[|x|..|x| + |tag|] == tag;
    if tag == CLOSE_TAG { NotBoth(s, |x|); }
    DepthStep(s, |x|, d);
    assert s[|x| + |tag|..] == y;
    DepthShift(s, |x| + |tag|, y, 0, if tag == OPEN_TAG then d + 1 else d - 1);
  }

  /** Spans nest: a closed span inside a balanced text leaves it balanced. */
  lemma BalancedNests(before: string, inner: string, after: string)
    requires Balanced(before) && Balanced(inner) && Balanced(after)
    ensures Balanced(before + ("<private>" + (inner + ("</private>" + after))))
  {
    hide At;
    DepthOver(before, OPEN_TAG, inner + (CLOSE_TAG + after), 1);
    Deeper(inner, 0, 1);
    DepthOver(inner, CLOSE_TAG, after, 2);
  }

  lemma {:induction false} PlainIsBalanced(x: string, i: nat)
    requires i <= |x| && NoneIn(x, OPEN_TAG, i, |x|) && NoneIn(x, CLOSE_TAG, i, |x|)
    ensures EndDepth(x, i, 1) == 1
    decreases |x| - i
  {
    if i < |x| { PlainIsBalanced(x, i + 1); }
  }

  predicate Tag(t: string) { t == OPEN_TAG || t == CLOSE_TAG }

  /** No tag straddles a position where a tag starts. */
  lemma NoStraddle(x: string, t: string, tag: string, i: nat)
    requires Tag(tag) && i < |x| && (t == "" || t[0] == '<')
    ensures At(x + t, tag, i) <==> At(x, tag, i)
  {
    if i + |tag| <= |x| {
      AtPrefix(x, t, tag, i);
    } else if At(x + t, tag, i) {
      AtChar(x + t, tag, i, |x| - i);
    }
  }

  lemma {:induction false} SpanPasses(x: string, t: string, i: nat, depth: nat)
    requires i <= |x| && depth > 0 && EndDepth(x, i, depth) > 0 && (t == "" || t[0] == '<')
    ensures SpanEnd(x + t, i, depth) == SpanEnd(x + t, |x|, EndDepth(x, i, depth))
    decreases |x| - i
  {
    if i < |x| {
      NoStraddle(x, t, OPEN_TAG, i);
      NoStraddle(x, t, CLOSE_TAG, i);
      if At(x, OPEN_TAG, i) {
        SpanPasses(x, t, i + |OPEN_TAG|, depth + 1);
      } else if At(x, CLOSE_TAG, i) {
        SpanPasses(x, t, i + |CLOSE_TAG|, depth - 1);
      } else {
        SpanPasses(x, t, i + 1, depth);
      }
    }
  }

  lemma SpanStep(s: string, i: nat, depth: nat)
    requires i < |s| && depth > 0
    ensures At(s, OPEN_TAG, i) ==> i + |OPEN_TAG| <= |s|
    ensures At(s, CLOSE_TAG, i) ==> i + |CLOSE_TAG| <= |s|
    ensures SpanEnd(s, i, depth) ==
            if At(s, OPEN_TAG, i) then SpanEnd(s, i + |OPEN_TAG|, depth + 1)
            else if At(s, CLOSE_TAG, i) then SpanEnd(s, i + |CLOSE_TAG|, depth - 1)
            else SpanEnd(s, i + 1, depth)
  {
  }

  lemma SpanStops(s: string, i: nat, depth: nat)
    requires i <= |s| && (depth == 0 || i == |s|)
    ensures SpanEnd(s, i, depth) == i
  {
  }

  lemma {:induction false} SpanShift(text: string, n: nat, y: string, i: nat, depth: nat)
    requires Ends(text, n, y) && i <= |y| && |text| == n + |y|
    ensures SpanEnd(text, n + i, depth) == n + SpanEnd(y, i, depth)
    decreases |y| - i
  {
    hide At, SpanEnd, Ends;
    if depth > 0 && i < |y| {
      SameAt(text, n, y, OPEN_TAG, i);
      SameAt(text, n, y, CLOSE_TAG, i);
      SpanStep(y, i, depth);
      SpanStep(text, n + i, depth);
      if At(y, OPEN_TAG, i) {
        SpanShift(text, n, y, i + |OPEN_TAG|, depth + 1);
      } else if At(y, CLOSE_TAG, i) {
        SpanShift(text, n, y, i + |CLOSE_TAG|, depth - 1);
      } else {
        SpanShift(text, n, y, i + 1, depth);
      }
    } else {
      SpanStops(y, i, depth);
      SpanStops(text, n + i, depth);
    }
  }

  lemma ScrubStep(s: string, i: nat)
    requires i < |s|
    ensures At(s, OPEN_TAG, i) ==> i + |OPEN_TAG| <= |s|
    ensures ScrubFrom(s, i) ==
            if At(s, OPEN_TAG, i) then REPLACEMENT + ScrubFrom(s, SpanEnd(s, i + |OPEN_TAG|, 1))
            else [s[i]] + ScrubFrom(s, i + 1)
  {
  }

  lemma ScrubStops(s: string)
    ensures ScrubFrom(s, |s|) == ""
  {
  }

  lemma {:induction false} ScrubShift(text: string, n: nat, y: string, i: nat)
    requires Ends(text, n, y) && i <= |y| && |text| == n + |y|
    ensures ScrubFrom(text, n + i) == ScrubFrom(y, i)
    decreases |y| - i
  {
    hide At, SpanEnd, ScrubFrom, Ends;
    if i < |y| {
      SameAt(text, n, y, OPEN_TAG, i);
      ScrubStep(y, i);
      ScrubStep(text, n + i);
      if At(y, OPEN_TAG, i) {
        SpanShift(text, n, y, i + |OPEN_TAG|, 1);
        ScrubShift(text, n, y, SpanEnd(y, i + |OPEN_TAG|, 1));
      } else {
        ScrubShift(text, n, y, i + 1);
        SameChar(text, n, y, i);
      }
    } else {
      ScrubStops(y);
      ScrubStops(text);
    }
  }

  lemma SameChar(text: string, n: nat, y: string, i: nat)
    requires Ends(text, n, y) && i < |y|
    ensures n + i < |text| && text[n + i] == y[i]
  {
  }

  lemma TailEnds(p: string, y: string)
    ensures Ends(p + y, |p|, y) && |p + y| == |p| + |y|
  {
  }

  lemma OpensAfter(pre: string, rest: string)
    requires Free(pre, OPEN_TAG)
    ensures var s := pre + OPEN_TAG + rest;
            NoneIn(s, OPEN_TAG, 0, |pre|) && At(s, OPEN_TAG, |pre|) && s[0..|pre|] == pre
  {
    var s := pre + OPEN_TAG + rest;
    assert s == pre + (OPEN_TAG + rest);
    forall i | 0 <= i < |pre| ensures !At(s, OPEN_TAG, i) { NoStraddle(pre, OPEN_TAG + rest, OPEN_TAG, i); }
    assert s[|pre|..|pre| + |OPEN_TAG|] == OPEN_TAG;
  }

  /** Public text up to a span is copied and the span becomes the replacement. */
  lemma SpanReplaced(pre: string, rest: string)
    requires Free(pre, OPEN_TAG)
    ensures Scrub(pre + OPEN_TAG + rest) == pre + REPLACEMENT + ScrubFrom(rest, SpanEnd(rest, 0, 1))
  {
    var head := pre + OPEN_TAG;
    var end := SpanEnd(rest, 0, 1);
    OpensAfter(pre, rest);
    CopyPlain(head + rest, 0, |pre|);
    InsideSpan(head, rest);
    assert ScrubFrom(head + rest, |pre|) == REPLACEMENT + ScrubFrom(rest, end);
    Regroup("", pre, REPLACEMENT, ScrubFrom(rest, end));
  }

  lemma InsideSpan(head: string, rest: string)
    ensures ScrubFrom(head + rest, SpanEnd(head + rest, |head|, 1)) == ScrubFrom(rest, SpanEnd(rest, 0, 1))
  {
    hide ScrubFrom, SpanEnd;
    TailEnds(head, rest);
    SpanShift(head + rest, |head|, rest, 0, 1);
    ScrubShift(head + rest, |head|, rest, SpanEnd(rest, 0, 1));
  }

  lemma ClosedSpan(x: string, post: string)
    requires Balanced(x)
    ensures SpanEnd(x + (CLOSE_TAG + post), 0, 1) == |x| + |CLOSE_TAG|
    ensures ScrubFrom(x + (CLOSE_TAG + post), |x| + |CLOSE_TAG|) == Scrub(post)
  {
    SpanPasses(x, CLOSE_TAG + post, 0, 1);
    StartsWith(x, CLOSE_TAG, post);
    ClosesAt(x + (CLOSE_TAG + post), |x|);
    BehindClose(x, post);
  }

  lemma BehindClose(x: string, post: string)
    ensures ScrubFrom(x + (CLOSE_TAG + post), |x| + |CLOSE_TAG|) == Scrub(post)
  {
    Grouped(x, CLOSE_TAG, post);
    TailEnds(x + CLOSE_TAG, post);
    ScrubShift(x + CLOSE_TAG + post, |x + CLOSE_TAG|, post, 0);
  }

  lemma StartsWith(x: string, t: string, post: string)
    ensures At(x + (t + post), t, |x|)
  {
  }

  lemma ClosesAt(s: string, i: nat)
    requires At(s, CLOSE_TAG, i)
    ensures SpanEnd(s, i, 1) == i + |CLOSE_TAG|
  {
    NotBoth(s, i);
  }

  /** Public text, then the inside of the span that follows it. */
  datatype Piece = Piece(text: string, inner: string)

  /** How a text ends: in public text, or in a span that never closes. */
  datatype Tail = Plain(text: string) | Unclosed(text: string, inner: string)

  function Build(pieces: seq<Piece>, tail: Tail): string {
    if pieces == [] then
      match tail
      case Plain(text) => text
      case Unclosed(text, inner) => text + OPEN_TAG + inner
    else
      pieces[0].text + OPEN_TAG + (pieces[0].inner + (CLOSE_TAG + Build(pieces[1..], tail)))
  }

  ghost predicate Proper(pieces: seq<Piece>, tail: Tail) {
    && (forall p :: p in pieces ==> Free(p.text, OPEN_TAG) && Balanced(p.inner))
    && Free(tail.text, OPEN_TAG)
    && (tail.Unclosed? ==> EndDepth(tail.inner, 0, 1) > 0)
  }

  /** The public texts with a replacement for each span. */
  function Redacted(pieces: seq<Piece>, tail: Tail): string {
    if pieces == [] then
      match tail
      case Plain(text) => text
      case Unclosed(text, _) => text + REPLACEMENT
    else
      pieces[0].text + REPLACEMENT + Redacted(pieces[1..], tail)
  }

  lemma {:induction false} ScrubPieces(pieces: seq<Piece>, tail: Tail)
    requires Proper(pieces, tail)
    ensures Scrub(Build(pieces, tail)) == Redacted(pieces, tail)
  {
    if pieces == [] {
      match tail {
        case Plain(text) => FreeIsKept(text);
        case Unclosed(text, inner) =>
          SpanReplaced(text, inner);
          assert inner + "" == inner;
          SpanPasses(inner, "", 0, 1);
          assert ScrubFrom(inner, |inner|) == "";
          assert text + REPLACEMENT + "" == text + REPLACEMENT;
      }
    } else {
      var post := Build(pieces[1..], tail);
      ScrubPieces(pieces[1..], tail);
      SpanReplaced(pieces[0].text, pieces[0].inner + (CLOSE_TAG + post));
      ClosedSpan(pieces[0].inner, post);
    }
  }

  /** Where a scan that closes does so: right behind a closing tag whose span is balanced. */
  lemma {:induction false} WhereItCloses(s: string, i: nat, depth: nat) returns (m: nat)
    requires i <= |s| && depth > 0 && EndDepth(s, i, depth) == 0
    ensures i <= m <= |s| - |CLOSE_TAG| && At(s, CLOSE_TAG, m)
    ensures SpanEnd(s, i, depth) == m + |CLOSE_TAG| && EndDepth(s[..m], i, depth) == 1
    decreases |s| - i
  {
    if At(s, OPEN_TAG, i) {
      m := WhereItCloses(s, i + |OPEN_TAG|, depth + 1);
      NotBoth1(s, i);
      SameTags(s, m, i);
    } else if At(s, CLOSE_TAG, i) {
      if depth == 1 {
        m := i;
      } else {
        m := WhereItCloses(s, i + |CLOSE_TAG|, depth - 1);
        SameTags(s, m, i);
      }
    } else {
      m := WhereItCloses(s, i + 1, depth);
      SameTags(s, m, i);
    }
  }

  lemma NotBoth1(s: string, i: nat)
    requires At(s, OPEN_TAG, i)
    ensures !At(s, CLOSE_TAG, i)
  {
    if At(s, CLOSE_TAG, i) { NotBoth(s, i); }
  }

  lemma SameTags(s: string, m: nat, i: nat)
    requires i < m <= |s| && At(s, CLOSE_TAG, m)
    ensures At(s[..m], OPEN_TAG, i) <==> At(s, OPEN_TAG, i)
    ensures At(s[..m], CLOSE_TAG, i) <==> At(s, CLOSE_TAG, i)
  {
    AtChar(s, CLOSE_TAG, m, 0);
    assert s == s[..m] + s[m..];
    NoStraddle(s[..m], s[m..], OPEN_TAG, i);
    NoStraddle(s[..m], s[m..], CLOSE_TAG, i);
  }

  lemma FirstOpen(s: string) returns (k: nat)
    requires !Free(s, OPEN_TAG)
    ensures At(s, OPEN_TAG, k) && Free(s[..k], OPEN_TAG)
    ensures s == s[..k] + OPEN_TAG + s[k + |OPEN_TAG|..]
  {
    k := 0;
    while !At(s, OPEN_TAG, k)
      invariant k <= |s| && NoneIn(s, OPEN_TAG, 0, k)
      decreases |s| - k
    {
      assert k == |s| ==> Free(s, OPEN_TAG);
      k := k + 1;
    }
    forall i | 0 <= i < k ensures !At(s[..k], OPEN_TAG, i) {
      assert s[..k] + s[k..] == s;
      if i + |OPEN_TAG| <= k { AtPrefix(s[..k], s[k..], OPEN_TAG, i); }
    }
  }

  /** Every text is built from public texts and spans in this way. */
  lemma {:induction false} Decomposes(s: string) returns (pieces: seq<Piece>, tail: Tail)
    ensures Proper(pieces, tail) && Build(pieces, tail) == s
    decreases |s|
  {
    if Free(s, OPEN_TAG) { return [], Plain(s); }
    var k := FirstOpen(s);
    var rest := s[k + |OPEN_TAG|..];
    if EndDepth(rest, 0, 1) > 0 { return [], Unclosed(s[..k], rest); }
    var m := WhereItCloses(rest, 0, 1);
    var post := rest[m + |CLOSE_TAG|..];
    assert rest == rest[..m] + (CLOSE_TAG + post);
    var more;
    more, tail := Decomposes(post);
    pieces := [Piece(s[..k], rest[..m])] + more;
    assert pieces[1..] == more;
  }

  ghost predicate SamePublic(a: seq<Piece>, b: seq<Piece>, t: Tail, u: Tail) {
    && |a| == |b| && (forall i :: 0 <= i < |a| ==> a[i].text == b[i].text)
    && t.text == u.text && (t.Plain? <==> u.Plain?)
  }

  /** Two texts that differ only inside outermost spans come out the same. */
  lemma {:induction false} Noninterference(a: seq<Piece>, b: seq<Piece>, t: Tail, u: Tail)
    requires Proper(a, t) && Proper(b, u) && SamePublic(a, b, t, u)
    ensures Scrub(Build(a, t)) == Scrub(Build(b, u))
  {
    ScrubPieces(a, t);
    ScrubPieces(b, u);
    SameRedacted(a, b, t, u);
  }

  lemma {:induction false} SameRedacted(a: seq<Piece>, b: seq<Piece>, t: Tail, u: Tail)
    requires SamePublic(a, b, t, u)
    ensures Redacted(a, t) == Redacted(b, u)
  {
    if a == [] {
    } else {
      SameRedacted(a[1..], b[1..], t, u);
    }
  }

  // ---- scrubJsonValue ----

  datatype Json = Text(value: string) | List(items: seq<Json>) | Object(fields: seq<Field>) | Other

  datatype Field = Field(key: string, value: Json)

  /** Setting a property keeps the position of a key that is already there. */
  function SetField(fields: seq<Field>, key: string, value: Json): (r: seq<Field>)
    ensures |fields| <= |r| <= |fields| + 1
  {
    if fields == [] then [Field(key, value)]
    else if fields[0].key == key then [Field(key, value)] + fields[1..]
    else [fields[0]] + SetField(fields[1..], key, value)
  }

  function FieldOf(fields: seq<Field>, key: string): Option<Json> {
    if fields == [] then None
    else if fields[0].key == key then Some(fields[0].value)
    else FieldOf(fields[1..], key)
  }

  lemma {:induction false} SetThenGet(fields: seq<Field>, key: string, other: string, value: Json)
    ensures FieldOf(SetField(fields, key, value), other) == if other == key then Some(value) else FieldOf(fields, other)
  {
    if fields != [] && fields[0].key != key { SetThenGet(fields[1..], key, other, value); }
  }

  function ScrubJson(j: Json): Json
    decreases j, 0
  {
    match j
    case Text(value) => Text(Scrub(value))
    case List(items) => List(ScrubItems(items))
    case Object(fields) => Object(ScrubFields(fields))
    case Other => Other
  }

  function ScrubItems(items: seq<Json>): (r: seq<Json>)
    ensures |r| == |items|
    decreases items, 0
  {
    seq(|items|, k requires 0 <= k < |items| => ScrubJson(items[k]))
  }

  /** Fields are set one after the other on a fresh object, under their scrubbed keys. */
  function ScrubFields(fields: seq<Field>): seq<Field>
    decreases fields, |fields|
  {
    if fields == [] then []
    else
      var last := fields[|fields| - 1];
      SetField(ScrubFields(fields[..|fields| - 1]), Scrub(last.key), ScrubJson(last.value))
  }

  /** No string anywhere in the tree, key or leaf, contains an opening tag; an object has each key once. */
  ghost predicate Clean(j: Json)
    decreases j
  {
    match j
    case Text(value) => Free(value, OPEN_TAG)
    case List(items) => forall k :: 0 <= k < |items| ==> Clean(items[k])
    case Object(fields) =>
      && (forall k :: 0 <= k < |fields| ==> Free(fields[k].key, OPEN_TAG) && Clean(fields[k].value))
      && DistinctKeys(fields)
    case Other => true
  }

  ghost predicate DistinctKeys(fields: seq<Field>) {
    forall a, b :: 0 <= a < b < |fields| ==> fields[a].key != fields[b].key
  }

  lemma {:induction false} SetFieldKeys(fields: seq<Field>, key: string, value: Json)
    requires DistinctKeys(fields)
    ensures DistinctKeys(SetField(fields, key, value))
    ensures forall f :: f in SetField(fields, key, value) ==> f in fields || f == Field(key, value)
  {
    if fields == [] {
    } else {
      var rest, r := fields[1..], SetField(fields, key, value);
      if fields[0].key == key {
        assert forall k :: 1 <= k < |r| ==> r[k] == fields[k];
      } else {
        SetFieldKeys(rest, key, value);
        var t := SetField(rest, key, value);
        assert r == [fields[0]] + t;
        forall k | 0 <= k < |t| ensures t[k].key != fields[0].key {
          assert t[k] in t;
          if t[k] in rest { OtherKey(fields, t[k]); }
        }
      }
    }
  }

  lemma OtherKey(fields: seq<Field>, f: Field)
    requires fields != [] && DistinctKeys(fields) && f in fields[1..]
    ensures f.key != fields[0].key
  {
    var m :| 0 <= m < |fields[1..]| && fields[1..][m] == f;
    assert fields[m + 1] == f;
  }

  /** The whole tree comes out clean, however keys collide after scrubbing. */
  lemma {:induction false} ScrubbedTreeIsClean(j: Json)
    ensures Clean(ScrubJson(j))
    decreases j, 0
  {
    match j
    case Text(value) => ScrubbedIsFree(value);
    case List(items) =>
      forall k | 0 <= k < |items| ensures Clean(ScrubItems(items)[k]) { ScrubbedTreeIsClean(items[k]); }
    case Object(fields) => ScrubbedFieldsAreClean(fields);
    case Other =>
  }

  lemma {:induction false} ScrubbedFieldsAreClean(fields: seq<Field>)
    ensures Clean(Object(ScrubFields(fields)))
    decreases fields, |fields|
  {
    if fields == [] {
    } else {
      var n := |fields| - 1;
      var before := ScrubFields(fields[..n]);
      var key, value := Scrub(fields[n].key), ScrubJson(fields[n].value);
      ScrubbedFieldsAreClean(fields[..n]);
      ScrubbedIsFree(fields[n].key);
      ScrubbedTreeIsClean(fields[n].value);
      SetFieldKeys(before, key, value);
      var after := SetField(before, key, value);
      forall k | 0 <= k < |after| ensures Free(after[k].key, OPEN_TAG) && Clean(after[k].value) {
        assert after[k] in after;
        if after[k] in before { CleanField(before, after[k]); }
      }
    }
  }

  lemma CleanField(fields: seq<Field>, f: Field)
    requires Clean(Object(fields)) && f in fields
    ensures Free(f.key, OPEN_TAG) && Clean(f.value)
  {
    var k :| 0 <= k < |fields| && fields[k] == f;
  }

  lemma {:induction false} NewKeyLast(fields: seq<Field>, key: string, value: Json)
    requires forall k :: 0 <= k < |fields| ==> fields[k].key != key
    ensures SetField(fields, key, value) == fields + [Field(key, value)]
  {
    if fields == [] {
    } else {
      NewKeyLast(fields[1..], key, value);
    }
  }

  /** A clean tree is untouched: public data keeps its keys, its values and their order. */
  lemma {:induction false} CleanTreeIsKept(j: Json)
    requires Clean(j)
    ensures ScrubJson(j) == j
    decreases j, 0
  {
    match j
    case Text(value) => FreeIsKept(value);
    case List(items) =>
      forall k | 0 <= k < |items| ensures ScrubItems(items)[k] == items[k] { CleanTreeIsKept(items[k]); }
    case Object(fields) => CleanFieldsAreKept(fields);
    case Other =>
  }

  lemma {:induction false} CleanFieldsAreKept(fields: seq<Field>)
    requires Clean(Object(fields))
    ensures ScrubFields(fields) == fields
    decreases fields, |fields|
  {
    if fields == [] {
    } else {
      var n := |fields| - 1;
      CleanFieldsAreKept(fields[..n]);
      FreeIsKept(fields[n].key);
      CleanTreeIsKept(fields[n].value);
      NewKeyLast(fields[..n], fields[n].key, fields[n].value);
      assert fields == fields[..n] + [fields[n]];
    }
  }

  /** So a stored event is scrubbed once and for all. */
  lemma TreeIdempotent(j: Json)
    ensures ScrubJson(ScrubJson(j)) == ScrubJson(j)
  {
    ScrubbedTreeIsClean(j);
    CleanTreeIsKept(ScrubJson(j));
  }

  /** Where a value sits: places in lists and among the fields of objects, from the root down. */
  type Path = seq<nat>

  /** Field k is the last one with this scrubbed key. */
  ghost predicate Wins(fields: seq<Field>, key: string, k: int) {
    0 <= k < |fields| && Scrub(fields[k].key) == key && forall m :: k < m < |fields| ==> Scrub(fields[m].key) != key
  }

  /** One step into a tree; a field that a later one replaces after scrubbing is not reached. */
  ghost predicate Child(j: Json, k: nat, child: Json) {
    match j
    case List(items) => k < |items| && items[k] == child
    case Object(fields) =>
      k < |fields| && fields[k].value == child && Wins(fields, Scrub(fields[k].key), k)
    case _ => false
  }

  /** The string leaf at the end of a path. */
  ghost predicate Leaf(j: Json, path: Path, text: string)
    decreases |path|
  {
    if path == [] then j == Text(text)
    else exists child :: Child(j, path[0], child) && Leaf(child, path[1..], text)
  }

  /** The value a scrubbed tree has where the path led: the same place of a list, the scrubbed key of an object. */
  ghost function Scrubbed(before: Json, after: Json, path: Path): Option<Json>
    decreases |path|
  {
    if path == [] then Some(after)
    else
      var k := path[0];
      match (before, after)
      case (List(items), List(outs)) =>
        if k < |items| && k < |outs| then Scrubbed(items[k], outs[k], path[1..]) else None
      case (Object(fields), Object(outs)) =>
        if k >= |fields| then None
        else
          (match FieldOf(outs, Scrub(fields[k].key))
           case Some(out) => Scrubbed(fields[k].value, out, path[1..])
           case None => None)
      case _ => None
  }

  /** Fields keep their values under their scrubbed keys, the last of equal ones winning, and none is invented. */
  lemma {:induction false} FieldsAreScrubbed(fields: seq<Field>, key: string)
    ensures forall k :: Wins(fields, key, k) ==> FieldOf(ScrubFields(fields), key) == Some(ScrubJson(fields[k].value))
    ensures FieldOf(ScrubFields(fields), key).Some? ==> exists k :: Wins(fields, key, k)
  {
    hide Scrub, ScrubJson;
    if fields == [] {
    } else {
      var n := |fields| - 1;
      var rest := fields[..n];
      FieldsAreScrubbed(rest, key);
      SetThenGet(ScrubFields(rest), Scrub(fields[n].key), key, ScrubJson(fields[n].value));
      StillWins(fields, key);
      if FieldOf(ScrubFields(fields), key).Some? {
        if Scrub(fields[n].key) == key {
          assert Wins(fields, key, n);
        } else {
          var k :| Wins(rest, key, k);
          assert Wins(fields, key, k);
        }
      }
    }
  }

  lemma StillWins(fields: seq<Field>, key: string)
    requires fields != []
    ensures var n := |fields| - 1;
            forall k :: Wins(fields, key, k) <==>
              if Scrub(fields[n].key) == key then k == n else Wins(fields[..n], key, k)
  {
    hide Scrub;
    var n := |fields| - 1;
    assert forall m :: 0 <= m < n ==> fields[..n][m] == fields[m];
    forall k ensures Wins(fields, key, k) <==>
        if Scrub(fields[n].key) == key then k == n else Wins(fields[..n], key, k)
    {
    }
  }

  /** A string leaf, dirty or not, comes out as its public text with one replacement per outermost span. */
  lemma {:induction false} LeafIsRedacted(j: Json, path: Path, pieces: seq<Piece>, tail: Tail)
    requires Proper(pieces, tail) && Leaf(j, path, Build(pieces, tail))
    ensures Scrubbed(j, ScrubJson(j), path) == Some(Text(Redacted(pieces, tail)))
    decreases |path|
  {
    hide Scrub, Build, Redacted, Proper, Wins;
    if path == [] {
      ScrubPieces(pieces, tail);
    } else {
      var child :| Child(j, path[0], child) && Leaf(child, path[1..], Build(pieces, tail));
      LeafIsRedacted(child, path[1..], pieces, tail);
      if j.Object? { FieldsAreScrubbed(j.fields, Scrub(j.fields[path[0]].key)); }
    }
  }

  /** What a reader sees of one span, closed or not. */
  lemma OneSpan(before: string, inner: string, after: string)
    requires Free(before, OPEN_TAG) && Free(after, OPEN_TAG)
    ensures Balanced(inner) ==>
              Scrub(before + ("<private>" + (inner + ("</private>" + after)))) == before + ("[REDACTED]" + after)
    ensures EndDepth(inner, 0, 1) > 0 ==> Scrub(before + ("<private>" + inner)) == before + "[REDACTED]"
  {
    hide Scrub, Free, Balanced, EndDepth;
    if Balanced(inner) {
      var pieces, tail := [Piece(before, inner)], Plain(after);
      assert Build(pieces[1..], tail) == after && Redacted(pieces[1..], tail) == after;
      Grouped(before, OPEN_TAG, inner + (CLOSE_TAG + after));
      Grouped(before, REPLACEMENT, after);
      ScrubPieces(pieces, tail);
    }
    if EndDepth(inner, 0, 1) > 0 {
      Grouped(before, OPEN_TAG, inner);
      ScrubPieces([], Unclosed(before, inner));
    }
  }

  // ---- The privacy stage ----

  datatype Turn = Turn(role: string, content: string)

  datatype Body = TextBody(content: string) | MessageBody(turns: seq<Turn>) | JsonBody(data: Json)

  function ScrubBody(body: Body): Body {
    match body
    case TextBody(content) => TextBody(Scrub(content))
    case MessageBody(turns) =>
      MessageBody(seq(|turns|, k requires 0 <= k < |turns| => turns[k].(content := Scrub(turns[k].content))))
    case JsonBody(data) => JsonBody(ScrubJson(data))
  }

  ghost predicate CleanBody(body: Body) {
    match body
    case TextBody(content) => Free(content, OPEN_TAG)
    case MessageBody(turns) => forall k :: 0 <= k < |turns| ==> Free(turns[k].content, OPEN_TAG)
    case JsonBody(data) => Clean(data)
  }

  /** The texts of a body, each where it stands. */
  ghost predicate BodyText(body: Body, path: Path, text: string) {
    match body
    case TextBody(content) => path == [] && content == text
    case MessageBody(turns) => |path| == 1 && path[0] < |turns| && turns[path[0]].content == text
    case JsonBody(data) => Leaf(data, path, text)
  }

  /** Whatever the body's type, each of its texts comes out with one replacement per outermost span, in its place. */
  lemma BodyIsRedacted(body: Body, path: Path, pieces: seq<Piece>, tail: Tail)
    requires Proper(pieces, tail) && BodyText(body, path, Build(pieces, tail))
    ensures body.TextBody? ==> ScrubBody(body) == TextBody(Redacted(pieces, tail))
    ensures body.MessageBody? ==>
              && ScrubBody(body).MessageBody? && |ScrubBody(body).turns| == |body.turns|
              && ScrubBody(body).turns[path[0]] == Turn(body.turns[path[0]].role, Redacted(pieces, tail))
    ensures body.JsonBody? ==>
              && ScrubBody(body).JsonBody?
              && Scrubbed(body.data, ScrubBody(body).data, path) == Some(Text(Redacted(pieces, tail)))
  {
    hide Scrub, Build, Redacted, Proper;
    ScrubPieces(pieces, tail);
    if body.JsonBody? { LeafIsRedacted(body.data, path, pieces, tail); }
  }

  /** Whatever the body's type, what reaches storage is clean, and a clean body passes unchanged. */
  lemma StageScrubs(body: Body)
    ensures CleanBody(ScrubBody(body))
    ensures CleanBody(body) ==> ScrubBody(body) == body
    ensures body.MessageBody? ==>
              && ScrubBody(body).MessageBody? && |ScrubBody(body).turns| == |body.turns|
              && forall k :: 0 <= k < |body.turns| ==> ScrubBody(body).turns[k].role == body.turns[k].role
  {
    match body
    case TextBody(content) =>
      ScrubbedIsFree(content);
      if CleanBody(body) { FreeIsKept(content); }
    case MessageBody(turns) =>
      forall k | 0 <= k < |turns| ensures Free(Scrub(turns[k].content), OPEN_TAG) { ScrubbedIsFree(turns[k].content); }
      if CleanBody(body) {
        forall k | 0 <= k < |turns| ensures ScrubBody(body).turns[k] == turns[k] { FreeIsKept(turns[k].content); }
      }
    case JsonBody(data) =>
      ScrubbedTreeIsClean(data);
      if CleanBody(body) { CleanTreeIsKept(data); }
  }
}
