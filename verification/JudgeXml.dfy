/** Child lists of the judge's XML: printed with escaped text, read back by lazy tag matching and trimming. */
module JudgeXml {
  import opened Text
  import opened XmlText

  // ---- trim ----

  /** The characters String.prototype.trim removes. */
  predicate White(c: char) {
    var n := c as int;
    || 9 <= n <= 13 || n == 0x20 || n == 0xA0 || n == 0x1680 || 0x2000 <= n <= 0x200A
    || n == 0x2028 || n == 0x2029 || n == 0x202F || n == 0x205F || n == 0x3000 || n == 0xFEFF
  }

  function TrimStart(s: string): string {
    if s != "" && White(s[0]) then TrimStart(s[1..]) else s
  }

  function TrimEnd(s: string): string {
    if s != "" && White(s[|s| - 1]) then TrimEnd(s[..|s| - 1]) else s
  }

  function Trim(s: string): string { TrimEnd(TrimStart(s)) }

  /** Blanks, tabs, line breaks and the byte-order mark are trimmed; letters, digits and markup are not. */
  lemma WhiteCharacters(c: char)
    ensures c in " \t\n\r" || c as int in {0x0B, 0x0C, 0xA0, 0xFEFF} ==> White(c)
    ensures 0x21 <= c as int <= 0x9F ==> !White(c)
  {
  }

  lemma {:induction false} EscapeAppend(a: string, b: string)
    ensures EscapeChars(a + b) == EscapeChars(a) + EscapeChars(b)
  {
    if a == "" {
      assert a + b == b;
    } else {
      assert (a + b)[1..] == a[1..] + b;
      EscapeAppend(a[1..], b);
      Grouped(EscapeChar(a[0]), EscapeChars(a[1..]), EscapeChars(b));
    }
  }

  /** Escaping neither makes nor hides white space at the ends of a character's text. */
  lemma EscapedEnds(c: char)
    ensures EscapeChar(c) != ""
    ensures White(EscapeChar(c)[0]) <==> White(c)
    ensures White(EscapeChar(c)[|EscapeChar(c)| - 1]) <==> White(c)
    ensures White(c) ==> EscapeChar(c) == [c]
  {
  }

  lemma {:induction false} EscapeTrimStart(s: string)
    ensures TrimStart(EscapeChars(s)) == EscapeChars(TrimStart(s))
  {
    if s == "" {
    } else {
      EscapedEnds(s[0]);
      var out := EscapeChars(s);
      assert out[0] == EscapeChar(s[0])[0];
      if White(s[0]) {
        assert out[1..] == EscapeChars(s[1..]);
        EscapeTrimStart(s[1..]);
      }
    }
  }

  lemma {:induction false} EscapeTrimEnd(s: string)
    ensures TrimEnd(EscapeChars(s)) == EscapeChars(TrimEnd(s))
  {
    if s == "" {
    } else {
      var n := |s| - 1;
      assert s == s[..n] + [s[n]];
      EscapeAppend(s[..n], [s[n]]);
      assert EscapeChars([s[n]]) == EscapeChar(s[n]) + EscapeChars([s[n]][1..]);
      EscapedEnds(s[n]);
      var out := EscapeChars(s);
      assert out == EscapeChars(s[..n]) + EscapeChar(s[n]);
      assert out[|out| - 1] == EscapeChar(s[n])[|EscapeChar(s[n])| - 1];
      if White(s[n]) {
        assert out[..|out| - 1] == EscapeChars(s[..n]);
        EscapeTrimEnd(s[..n]);
      }
    }
  }

  lemma EscapeTrim(s: string)
    ensures Trim(EscapeXml(s)) == EscapeXml(Trim(s))
  {
    OnePass(s);
    EscapeTrimStart(s);
    EscapeTrimEnd(TrimStart(s));
    OnePass(Trim(s));
  }

  // ---- renderStringList and extractAll ----

  function OpenTag(tag: string): string { "<" + tag + ">" }

  function CloseTag(tag: string): string { "</" + tag + ">" }

  function Children(childTag: string, items: seq<string>): string {
    if items == [] then ""
    else OpenTag(childTag) + (EscapeXml(items[0]) + (CloseTag(childTag) + Children(childTag, items[1..])))
  }

  function RenderStringList(wrapper: string, childTag: string, items: seq<string>, indent: string): string {
    indent + (OpenTag(wrapper) + (Children(childTag, items) + CloseTag(wrapper)))
  }

  /** The first occurrence at or after a position, or -1. */
  function Find(s: string, pattern: string, from: nat): (i: int)
    ensures i == -1 || (from <= i && i + |pattern| <= |s| && At(s, pattern, i))
    decreases |s| - from
  {
    if from + |pattern| > |s| then -1
    else if At(s, pattern, from) then from
    else Find(s, pattern, from + 1)
  }

  datatype Match = NoMatch | Match(inner: string, next: nat)

  /** The next lazy match of open, anything, close: the nearest opening tag and the nearest closing tag behind it. */
  function NextMatch(text: string, open: string, close: string, pos: nat): (m: Match)
    requires open != "" && close != ""
    ensures m.Match? ==> pos < m.next <= |text|
  {
    var i := Find(text, open, pos);
    if i == -1 then NoMatch
    else
      var j := Find(text, close, i + |open|);
      if j == -1 then NoMatch else Match(text[i + |open|..j], j + |close|)
  }

  /** All captures from a position on. */
  function Captures(text: string, open: string, close: string, pos: nat): seq<string>
    requires open != "" && close != ""
    decreases |text| - pos
  {
    match NextMatch(text, open, close, pos)
    case NoMatch => []
    case Match(inner, next) => [inner] + Captures(text, open, close, next)
  }

  /** Trimmed and unescaped, blank ones dropped. */
  function Cleaned(captures: seq<string>): seq<string> {
    if captures == [] then []
    else
      var raw := Trim(captures[0]);
      (if raw == "" then [] else [UnescapeXml(raw)]) + Cleaned(captures[1..])
  }

  method ExtractAll(text: string, tag: string) returns (out: seq<string>)
    ensures out == Cleaned(Captures(text, OpenTag(tag), CloseTag(tag), 0))
  {
    var open, close := OpenTag(tag), CloseTag(tag);
    out := [];
    var pos := 0;
    while true
      invariant 0 <= pos
      invariant out + Cleaned(Captures(text, open, close, pos)) == Cleaned(Captures(text, open, close, 0))
      decreases |text| - pos
    {
      match NextMatch(text, open, close, pos) {
        case NoMatch => return;
        case Match(inner, next) =>
          out := AppendCapture(out, inner, Captures(text, open, close, next));
          pos := next;
      }
    }
  }

  method AppendCapture(out: seq<string>, capture: string, ghost rest: seq<string>) returns (more: seq<string>)
    ensures more + Cleaned(rest) == out + Cleaned([capture] + rest)
  {
    var raw := Trim(capture);
    CleanedStep(capture, rest);
    more := if |raw| > 0 then out + [UnescapeXml(raw)] else out;
  }

  lemma CleanedStep(capture: string, rest: seq<string>)
    ensures Cleaned([capture] + rest) == (if Trim(capture) == "" then [] else [UnescapeXml(Trim(capture))]) +
              Cleaned(rest)
  {
    assert ([capture] + rest)[1..] == rest;
  }

  // ---- Reading back what was printed ----

  lemma {:induction false} FindShift(text: string, n: nat, s: string, pattern: string, from: nat)
    requires Ends(text, n, s)
    ensures Find(text, pattern, n + from) == if Find(s, pattern, from) == -1 then -1 else n + Find(s, pattern, from)
    decreases |s| - from
  {
    hide At, Ends;
    SameAt(text, n, s, pattern, from);
    if from + |pattern| <= |s| {
      if !At(s, pattern, from) { FindShift(text, n, s, pattern, from + 1); }
    }
  }

  lemma {:induction false} FindSkips(s: string, pattern: string, from: nat, until: nat)
    requires from <= until && NoneIn(s, pattern, from, until)
    ensures Find(s, pattern, from) == Find(s, pattern, until)
    decreases until - from
  {
    if from < until && from + |pattern| <= |s| {
      FindSkips(s, pattern, from + 1, until);
    }
  }

  lemma MatchShift(text: string, n: nat, s: string, open: string, close: string, pos: nat)
    requires open != "" && close != "" && Ends(text, n, s)
    ensures NextMatch(text, open, close, n + pos) ==
            match NextMatch(s, open, close, pos)
            case NoMatch => NoMatch
            case Match(inner, next) => Match(inner, n + next)
  {
    hide Find, At;
    FindShift(text, n, s, open, pos);
    var i := Find(s, open, pos);
    if i != -1 {
      FindShift(text, n, s, close, i + |open|);
      var j := Find(s, close, i + |open|);
      if j != -1 { EndsSlice(text, n, s, i + |open|, j); }
    }
  }

  lemma CapturesStep(text: string, open: string, close: string, pos: nat, inner: string, next: nat)
    requires open != "" && close != "" && NextMatch(text, open, close, pos) == Match(inner, next)
    ensures Captures(text, open, close, pos) == [inner] + Captures(text, open, close, next)
  {
  }

  lemma CapturesEnd(text: string, open: string, close: string, pos: nat)
    requires open != "" && close != "" && NextMatch(text, open, close, pos) == NoMatch
    ensures Captures(text, open, close, pos) == []
  {
  }

  lemma {:induction false} CapturesShift(text: string, n: nat, s: string, open: string, close: string, pos: nat)
    requires open != "" && close != "" && Ends(text, n, s)
    ensures Captures(text, open, close, n + pos) == Captures(s, open, close, pos)
    decreases |s| - pos
  {
    hide Captures, Find, At, Ends;
    MatchShift(text, n, s, open, close, pos);
    match NextMatch(s, open, close, pos)
    case NoMatch =>
      CapturesEnd(s, open, close, pos);
      CapturesEnd(text, open, close, n + pos);
    case Match(inner, next) =>
      CapturesShift(text, n, s, open, close, next);
      CapturesStep(s, open, close, pos, inner, next);
      CapturesStep(text, open, close, n + pos, inner, n + next);
  }

  /** Text in which no opening tag starts contributes nothing. */
  lemma CapturesSkip(p: string, s: string, open: string, close: string)
    requires open != "" && close != "" && NoneIn(p + s, open, 0, |p|)
    ensures Captures(p + s, open, close, 0) == Captures(s, open, close, 0)
  {
    var text := p + s;
    FindSkips(text, open, 0, |p|);
    assert Ends(text, |p|, s);
    CapturesShift(text, |p|, s, open, close, 0);
    SameMatchSame(text, open, close, 0, |p|);
  }

  lemma SameMatchSame(text: string, open: string, close: string, a: nat, b: nat)
    requires open != "" && close != "" && Find(text, open, a) == Find(text, open, b)
    ensures Captures(text, open, close, a) == Captures(text, open, close, b)
  {
    hide Captures, Find, At;
    match NextMatch(text, open, close, a)
    case NoMatch =>
      CapturesEnd(text, open, close, a);
      CapturesEnd(text, open, close, b);
    case Match(inner, next) =>
      CapturesStep(text, open, close, a, inner, next);
      CapturesStep(text, open, close, b, inner, next);
  }

  ghost predicate TagName(tag: string) {
    tag != "" && '<' !in tag && '>' !in tag && '/' !in tag
  }

  lemma NoTagIn(p: string, s: string, tag: string)
    requires '<' !in p && tag != "" && tag[0] == '<'
    ensures NoneIn(p + s, tag, 0, |p|)
  {
    forall k | 0 <= k < |p| ensures !At(p + s, tag, k) {
      assert p[k] in p && (p + s)[k] == p[k];
      NotAt(p + s, tag, k, 0);
    }
  }

  lemma TagsDiffer(a: string, b: string) returns (m: nat)
    requires TagName(a) && TagName(b) && a != b
    ensures m < |OpenTag(a)| && m < |OpenTag(b)| && OpenTag(a)[m] != OpenTag(b)[m]
  {
    var n := if |a| <= |b| then |a| else |b|;
    if exists k :: 0 <= k < n && a[k] != b[k] {
      m :| 0 <= m < n && a[m] != b[m];
    } else {
      m := n;
      if |a| < |b| { assert b[n] in b; } else { assert a[n] in a; }
    }
    m := m + 1;
  }

  /** Different names have opening tags that do not start alike. */
  lemma OtherOpens(a: string, b: string, s: string)
    requires TagName(a) && TagName(b) && a != b
    ensures NoneIn(OpenTag(a) + s, OpenTag(b), 0, |OpenTag(a)|)
  {
    var t := OpenTag(a) + s;
    forall k | 0 <= k < |OpenTag(a)| ensures !At(t, OpenTag(b), k) {
      assert t[k] == OpenTag(a)[k];
      if k == 0 {
        var m := TagsDiffer(a, b);
        assert t[m] == OpenTag(a)[m];
        NotAt(t, OpenTag(b), 0, m);
      } else {
        assert k <= |a| ==> a[k - 1] in a;
        NotAt(t, OpenTag(b), k, 0);
      }
    }
  }

  lemma NoOpenInClose(w: string, t: string)
    requires TagName(w) && TagName(t)
    ensures Captures(CloseTag(w), OpenTag(t), CloseTag(t), 0) == []
  {
    var s := CloseTag(w);
    forall k | 0 <= k < |s| ensures !At(s, OpenTag(t), k) {
      assert t[0] in t && OpenTag(t)[1] == t[0];
      assert 2 <= k < |w| + 2 ==> w[k - 2] in w;
      NotAt(s, OpenTag(t), k, if k == 0 then 1 else 0);
    }
    FindSkips(s, OpenTag(t), 0, |s|);
  }

  /** The parts of text that starts with one printed child. */
  lemma ChildParts(t: string, esc: string, rest: string)
    ensures var text := OpenTag(t) + (esc + (CloseTag(t) + rest));
            && At(text, OpenTag(t), 0)
            && Ends(text, |OpenTag(t)|, esc + (CloseTag(t) + rest))
            && Ends(text, |OpenTag(t)| + |esc| + |CloseTag(t)|, rest)
            && text[|OpenTag(t)|..|OpenTag(t)| + |esc|] == esc
            && At(esc + (CloseTag(t) + rest), CloseTag(t), |esc|)
  {
  }

  lemma FirstChild(t: string, esc: string, rest: string)
    requires TagName(t) && '<' !in esc
    ensures NextMatch(OpenTag(t) + (esc + (CloseTag(t) + rest)), OpenTag(t), CloseTag(t), 0)
            == Match(esc, |OpenTag(t)| + |esc| + |CloseTag(t)|)
  {
    var open, close := OpenTag(t), CloseTag(t);
    var tail := esc + (close + rest);
    ChildParts(t, esc, rest);
    NoTagIn(esc, close + rest, close);
    FindSkips(tail, close, 0, |esc|);
    FindShift(open + tail, |open|, tail, close, 0);
  }

  /** One printed child is captured whole. */
  lemma OneChild(t: string, esc: string, rest: string)
    requires TagName(t) && '<' !in esc
    ensures Captures(OpenTag(t) + (esc + (CloseTag(t) + rest)), OpenTag(t), CloseTag(t), 0)
            == [esc] + Captures(rest, OpenTag(t), CloseTag(t), 0)
  {
    var open, close := OpenTag(t), CloseTag(t);
    var text, n := open + (esc + (close + rest)), |open| + |esc| + |close|;
    hide Captures, Find, At, Ends, NextMatch;
    FirstChild(t, esc, rest);
    ChildParts(t, esc, rest);
    CapturesStep(text, open, close, 0, esc, n);
    CapturesShift(text, n, rest, open, close, 0);
  }

  /** The texts themselves, trimmed, blank ones dropped. */
  function NonBlank(items: seq<string>): seq<string> {
    if items == [] then []
    else (if Trim(items[0]) == "" then [] else [Trim(items[0])]) + NonBlank(items[1..])
  }

  lemma EscapeKeepsBlank(s: string)
    ensures EscapeXml(s) == "" <==> s == ""
  {
    OnePass(s);
    if s != "" { EscapedEnds(s[0]); }
  }

  lemma {:induction false} ChildrenReadBack(w: string, t: string, items: seq<string>)
    requires TagName(w) && TagName(t)
    ensures Cleaned(Captures(Children(t, items) + CloseTag(w), OpenTag(t), CloseTag(t), 0)) == NonBlank(items)
  {
    if items == [] {
      assert Children(t, items) + CloseTag(w) == CloseTag(w);
      NoOpenInClose(w, t);
    } else {
      var esc := EscapeXml(items[0]);
      var rest := Children(t, items[1..]) + CloseTag(w);
      ChildAppend(t, esc, Children(t, items[1..]), CloseTag(w));
      OnePass(items[0]);
      EscapedIsInert(items[0]);
      OneChild(t, esc, rest);
      CleanedStep(esc, Captures(rest, OpenTag(t), CloseTag(t), 0));
      EscapeTrim(items[0]);
      EscapeKeepsBlank(Trim(items[0]));
      RoundTrip(Trim(items[0]));
      ChildrenReadBack(w, t, items[1..]);
    }
  }

  lemma ChildAppend(t: string, esc: string, more: string, end: string)
    ensures OpenTag(t) + (esc + (CloseTag(t) + more)) + end == OpenTag(t) + (esc + (CloseTag(t) + (more + end)))
  {
  }

  /** Reading a printed list gives exactly its items, trimmed and without the blank ones, in order. */
  lemma ListRoundTrip(wrapper: string, childTag: string, items: seq<string>, indent: string)
    requires TagName(wrapper) && TagName(childTag) && wrapper != childTag && '<' !in indent
    ensures Cleaned(Captures(RenderStringList(wrapper, childTag, items, indent), OpenTag(childTag), CloseTag(childTag),
                             0))
            == NonBlank(items)
  {
    var body := Children(childTag, items) + CloseTag(wrapper);
    NoTagIn(indent, OpenTag(wrapper) + body, OpenTag(childTag));
    CapturesSkip(indent, OpenTag(wrapper) + body, OpenTag(childTag), CloseTag(childTag));
    OtherOpens(wrapper, childTag, body);
    CapturesSkip(OpenTag(wrapper), body, OpenTag(childTag), CloseTag(childTag));
    ChildrenReadBack(wrapper, childTag, items);
  }
}
