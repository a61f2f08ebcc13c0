/** Escaping and unescaping of the five predefined XML entities, each as five sequential replace passes. */
module XmlText {

  /** A global literal replace: leftmost matches, left to right, never overlapping. */
  function ReplaceAll(s: string, pattern: string, replacement: string): string
    requires pattern != ""
  {
    if s == "" then ""
    else if pattern <= s then replacement + ReplaceAll(s[|pattern|..], pattern, replacement)
    else [s[0]] + ReplaceAll(s[1..], pattern, replacement)
  }

  const AMP := "&amp;"
  const LT := "&lt;"
  const GT := "&gt;"
  const QUOT := "&quot;"
  const APOS := "&apos;"

  function EscapeXml(text: string): string {
    var t1 := ReplaceAll(text, "&", AMP);
    var t2 := ReplaceAll(t1, "<", LT);
    var t3 := ReplaceAll(t2, ">", GT);
    var t4 := ReplaceAll(t3, "\"", QUOT);
    ReplaceAll(t4, "'", APOS)
  }

  function UnescapeXml(text: string): string {
    var t1 := ReplaceAll(text, APOS, "'");
    var t2 := ReplaceAll(t1, QUOT, "\"");
    var t3 := ReplaceAll(t2, GT, ">");
    var t4 := ReplaceAll(t3, LT, "<");
    ReplaceAll(t4, AMP, "&")
  }

  // ---- One character at a time ----

  function Map(s: string, c: char, e: string): string {
    if s == "" then "" else (if s[0] == c then e else [s[0]]) + Map(s[1..], c, e)
  }

  lemma {:induction false} SingleIsMap(s: string, c: char, e: string)
    ensures ReplaceAll(s, [c], e) == Map(s, c, e)
  {
    if s == "" {
    } else {
      SingleIsMap(s[1..], c, e);
      assert [c] <= s <==> s[0] == c;
    }
  }

  lemma {:induction false} MapAppend(a: string, b: string, c: char, e: string)
    ensures Map(a + b, c, e) == Map(a, c, e) + Map(b, c, e)
  {
    if a == "" {
      assert a + b == b;
    } else {
      assert (a + b)[1..] == a[1..] + b;
      MapAppend(a[1..], b, c, e);
    }
  }

  /** A plain head of mapped text was there before. */
  lemma {:induction false} HeadWasThere(s: string, c: char, e: string, w: string)
    requires e != "" && e[0] == '&' && '&' !in w && w <= Map(s, c, e)
    ensures w <= s
    decreases |w|
  {
    if w == "" {
    } else {
      var out := Map(s, c, e);
      assert w[0] == out[0] && w[0] in w;
      assert s != "" && s[0] != c;
      assert out == [s[0]] + Map(s[1..], c, e);
      assert out[1..] == Map(s[1..], c, e);
      HeadWasThere(s[1..], c, e, w[1..]);
      assert w == [w[0]] + w[1..] && s == [s[0]] + s[1..];
    }
  }

  /** An entity: an ampersand and then none. */
  ghost predicate Entity(e: string) {
    |e| >= 2 && e[0] == '&' && '&' !in e[1..]
  }

  /** e occurs nowhere in s. */
  ghost predicate Absent(s: string, e: string) {
    forall k :: 0 <= k <= |s| ==> !(e <= s[k..])
  }

  lemma AbsentTail(s: string, e: string)
    requires s != "" && Absent(s, e)
    ensures Absent(s[1..], e) && !(e <= s)
  {
    forall k | 0 <= k <= |s[1..]| ensures !(e <= s[1..][k..]) {
      assert s[1..][k..] == s[k + 1..];
    }
    assert s[0..] == s;
  }

  ghost predicate Differ(e: string, f: string) {
    exists k :: 0 <= k < |e| && k < |f| && e[k] != f[k]
  }

  lemma StartsFresh(s: string, c: char, f: string, e: string)
    requires Entity(e) && Entity(f) && s != "" && s[0] != c && (c == '&' || Absent(s, e))
    ensures !(e <= [s[0]] + Map(s[1..], c, f))
  {
    var out := [s[0]] + Map(s[1..], c, f);
    assert out[1..] == Map(s[1..], c, f);
    if e <= out && c != '&' {
      assert e == [s[0]] + e[1..] && e[1..] <= out[1..];
      HeadWasThere(s[1..], c, f, e[1..]);
      assert s == [s[0]] + s[1..];
      AbsentTail(s, e);
    }
  }

  /** Undoing one pass: every e in the output was put there for a c. */
  lemma {:induction false} Undo(s: string, c: char, e: string)
    requires Entity(e) && (c == '&' || Absent(s, e))
    ensures ReplaceAll(Map(s, c, e), e, [c]) == s
  {
    if s == "" {
    } else {
      var rest := Map(s[1..], c, e);
      if c != '&' { AbsentTail(s, e); }
      Undo(s[1..], c, e);
      if s[0] == c {
        assert (e + rest)[|e|..] == rest;
        assert e <= e + rest;
      } else {
        StartsFresh(s, c, e, e);
        assert ([s[0]] + rest)[1..] == rest;
      }
    }
  }

  lemma NotAtEntity(f: string, rest: string, e: string, k: nat)
    requires Entity(e) && Entity(f) && Differ(e, f) && k < |f|
    ensures !(e <= (f + rest)[k..])
  {
    var out := f + rest;
    if k > 0 {
      assert f[k] == f[1..][k - 1] && out[k..][0] == f[k];
      NotPrefix(e, out[k..], 0);
    } else {
      var m :| 0 <= m < |e| && m < |f| && e[m] != f[m];
      assert out[0..] == out && out[m] == f[m];
      NotPrefix(e, out, m);
    }
  }

  lemma NotPrefix(e: string, s: string, m: nat)
    requires m < |e| && m < |s| && e[m] != s[m]
    ensures !(e <= s)
  {
  }

  /** A pass for one character brings in no other entity. */
  lemma {:induction false} StaysAbsent(s: string, c: char, f: string, e: string)
    requires Entity(e) && Entity(f) && Differ(e, f) && (c == '&' || Absent(s, e))
    ensures Absent(Map(s, c, f), e)
  {
    if s == "" {
    } else {
      var rest := Map(s[1..], c, f);
      var head := if s[0] == c then f else [s[0]];
      if c != '&' { AbsentTail(s, e); }
      StaysAbsent(s[1..], c, f, e);
      forall k | 0 <= k <= |head + rest| ensures !(e <= (head + rest)[k..]) {
        if k >= |head| {
          assert (head + rest)[k..] == rest[k - |head|..];
        } else if s[0] == c {
          NotAtEntity(f, rest, e, k);
        } else {
          StartsFresh(s, c, f, e);
          assert (head + rest)[0..] == head + rest;
        }
      }
    }
  }

  lemma Entities()
    ensures Entity(AMP) && Entity(LT) && Entity(GT) && Entity(QUOT) && Entity(APOS)
    ensures Differ(LT, AMP) && Differ(GT, AMP) && Differ(GT, LT)
    ensures Differ(QUOT, AMP) && Differ(QUOT, LT) && Differ(QUOT, GT)
    ensures Differ(APOS, AMP) && Differ(APOS, LT) && Differ(APOS, GT) && Differ(APOS, QUOT)
  {
    assert LT[1] != AMP[1] && GT[1] != AMP[1] && GT[1] != LT[1];
    assert QUOT[1] != AMP[1] && QUOT[1] != LT[1] && QUOT[1] != GT[1];
    assert APOS[2] != AMP[2] && APOS[1] != LT[1] && APOS[1] != GT[1] && APOS[1] != QUOT[1];
  }

  /** Parsing undoes printing for every string, although both work in five passes over the whole text. */
  lemma RoundTrip(text: string)
    ensures UnescapeXml(EscapeXml(text)) == text
  {
    var t1, t2 := Map(text, '&', AMP), Map(Map(text, '&', AMP), '<', LT);
    var t3 := Map(t2, '>', GT);
    var t4 := Map(t3, '"', QUOT);
    Passes(text);
    Entities();
    StaysAbsent(text, '&', AMP, LT);
    StaysAbsent(text, '&', AMP, GT);
    StaysAbsent(t1, '<', LT, GT);
    StaysAbsent(text, '&', AMP, QUOT);
    StaysAbsent(t1, '<', LT, QUOT);
    StaysAbsent(t2, '>', GT, QUOT);
    StaysAbsent(text, '&', AMP, APOS);
    StaysAbsent(t1, '<', LT, APOS);
    StaysAbsent(t2, '>', GT, APOS);
    StaysAbsent(t3, '"', QUOT, APOS);
    Undo(t4, '\'', APOS);
    Undo(t3, '"', QUOT);
    Undo(t2, '>', GT);
    Undo(t1, '<', LT);
    Undo(text, '&', AMP);
  }

  lemma Passes(text: string)
    ensures EscapeXml(text) == Map(Map(Map(Map(Map(text, '&', AMP), '<', LT), '>', GT), '"', QUOT), '\'', APOS)
  {
    var t1 := Map(text, '&', AMP);
    var t2 := Map(t1, '<', LT);
    var t3 := Map(t2, '>', GT);
    SingleIsMap(text, '&', AMP);
    SingleIsMap(t1, '<', LT);
    SingleIsMap(t2, '>', GT);
    SingleIsMap(t3, '"', QUOT);
    SingleIsMap(Map(t3, '"', QUOT), '\'', APOS);
  }

  // ---- What one pass over the characters would do ----

  /** The text of one character. */
  function EscapeChar(c: char): string {
    match c
    case '&' => AMP
    case '<' => LT
    case '>' => GT
    case '"' => QUOT
    case '\'' => APOS
    case _ => [c]
  }

  /** The five entities by name, both ways; every other character stands for itself. */
  lemma NamedEntities(c: char)
    ensures EscapeXml("&") == "&amp;" && UnescapeXml("&amp;") == "&"
    ensures EscapeXml("<") == "&lt;" && UnescapeXml("&lt;") == "<"
    ensures EscapeXml(">") == "&gt;" && UnescapeXml("&gt;") == ">"
    ensures EscapeXml("\"") == "&quot;" && UnescapeXml("&quot;") == "\""
    ensures EscapeXml("'") == "&apos;" && UnescapeXml("&apos;") == "'"
    ensures c !in "&<>\"'" ==> EscapeXml([c]) == [c]
  {
    hide EscapeXml, UnescapeXml, ReplaceAll;
    CharIsEscaped('&');
    CharIsEscaped('<');
    CharIsEscaped('>');
    CharIsEscaped('"');
    CharIsEscaped('\'');
    CharIsEscaped(c);
  }

  lemma CharIsEscaped(c: char)
    ensures EscapeXml([c]) == EscapeChar(c) && UnescapeXml(EscapeChar(c)) == [c]
  {
    hide EscapeXml, UnescapeXml, EscapeChar;
    OnePass([c]);
    RoundTrip([c]);
    assert [c][1..] == "";
    assert EscapeChars([c]) == EscapeChar(c) + EscapeChars("");
  }

  function EscapeChars(s: string): string {
    if s == "" then "" else EscapeChar(s[0]) + EscapeChars(s[1..])
  }

  ghost function FivePasses(s: string): string {
    Map(Map(Map(Map(Map(s, '&', AMP), '<', LT), '>', GT), '"', QUOT), '\'', APOS)
  }

  lemma PassesAppend(a: string, b: string)
    ensures FivePasses(a + b) == FivePasses(a) + FivePasses(b)
  {
    MapAppend(a, b, '&', AMP);
    var a1, b1 := Map(a, '&', AMP), Map(b, '&', AMP);
    MapAppend(a1, b1, '<', LT);
    var a2, b2 := Map(a1, '<', LT), Map(b1, '<', LT);
    MapAppend(a2, b2, '>', GT);
    var a3, b3 := Map(a2, '>', GT), Map(b2, '>', GT);
    MapAppend(a3, b3, '"', QUOT);
    MapAppend(Map(a3, '"', QUOT), Map(b3, '"', QUOT), '\'', APOS);
  }

  lemma {:induction false} MapWithout(s: string, c: char, e: string)
    requires c !in s
    ensures Map(s, c, e) == s
  {
    if s == "" {
    } else {
      MapWithout(s[1..], c, e);
    }
  }

  lemma MapOne(x: char, c: char, e: string)
    ensures Map([x], c, e) == if x == c then e else [x]
  {
    assert [x][1..] == "";
  }

  /** Once a pass has produced text free of the later passes' characters, the rest leave it alone. */
  lemma SettlesAt(s: string, t: string, n: nat)
    requires 1 <= n <= 3
    requires '<' !in s || n >= 2
    requires n == 1 ==> Map(s, '&', AMP) == t && '<' !in t && '>' !in t
    requires n == 2 ==> '&' !in s && Map(s, '<', LT) == t && '>' !in t
    requires n == 3 ==> '&' !in s && '<' !in s && Map(s, '>', GT) == t
    requires '"' !in t && '\'' !in t
    ensures FivePasses(s) == t
  {
    if n >= 2 { MapWithout(s, '&', AMP); }
    if n == 1 { MapWithout(t, '<', LT); }
    if n == 3 { MapWithout(s, '<', LT); }
    if n <= 2 { MapWithout(t, '>', GT); }
    MapWithout(t, '"', QUOT);
    MapWithout(t, '\'', APOS);
  }

  lemma AmpOne()
    ensures FivePasses(['&']) == AMP
  {
    MapOne('&', '&', AMP);
    SettlesAt(['&'], AMP, 1);
  }

  lemma LtOne()
    ensures FivePasses(['<']) == LT
  {
    MapOne('<', '<', LT);
    SettlesAt(['<'], LT, 2);
  }

  lemma GtOne()
    ensures FivePasses(['>']) == GT
  {
    MapOne('>', '>', GT);
    SettlesAt(['>'], GT, 3);
  }

  lemma OtherOne(c: char)
    requires c != '&' && c != '<' && c != '>'
    ensures FivePasses([c]) == if c == '"' then QUOT else if c == '\'' then APOS else [c]
  {
    MapOne(c, '&', AMP);
    MapOne(c, '<', LT);
    MapOne(c, '>', GT);
    MapOne(c, '"', QUOT);
    if c == '"' { MapWithout(QUOT, '\'', APOS); } else { MapOne(c, '\'', APOS); }
  }

  lemma PassesOne(c: char)
    ensures FivePasses([c]) == EscapeChar(c)
  {
    if c == '&' {
      AmpOne();
    } else if c == '<' {
      LtOne();
    } else if c == '>' {
      GtOne();
    } else {
      OtherOne(c);
    }
  }

  /** The five passes are one pass over the characters, so escaping a concatenation concatenates. */
  lemma {:induction false} OnePass(s: string)
    ensures EscapeXml(s) == EscapeChars(s)
  {
    Passes(s);
    PassesAreChars(s);
  }

  lemma {:induction false} PassesAreChars(s: string)
    ensures FivePasses(s) == EscapeChars(s)
  {
    if s == "" {
    } else {
      assert s == [s[0]] + s[1..];
      PassesAppend([s[0]], s[1..]);
      PassesOne(s[0]);
      PassesAreChars(s[1..]);
    }
  }

  /** Escaped text can stand between tags and inside quotes. */
  lemma {:induction false} EscapedIsInert(s: string)
    ensures forall c :: c in EscapeChars(s) ==> c !in "<>\"'"
  {
    if s == "" {
    } else {
      EscapedIsInert(s[1..]);
      forall c | c in EscapeChar(s[0]) ensures c !in "<>\"'" {
      }
    }
  }
}
