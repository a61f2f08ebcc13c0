/** Cutting an event body down to a byte budget. */
module TruncateBody {
  import opened MemoryTypes
  import opened PrivacyScrub

  const MARKER := " [truncated by kiro-learn]"
  const TRUNCATED_KEY := "_truncated"

  /** Byte length of a body's JSON text, and the JSON text of a tree. */
  datatype Serializer = Serializer(size: Body -> nat, stringify: Json -> string)

  /** Nine tenths, rounded down. */
  function Cut(s: string): (r: string)
    ensures |r| <= |s| && (s != "" ==> |r| < |s|) && r <= s
    ensures 10 * |r| <= 9 * |s| < 10 * |r| + 10
  {
    s[..9 * |s| / 10]
  }

  /** Cut until it fits or nothing is left. */
  function Shrink(s: string, fits: string -> bool): string {
    if fits(s) || s == "" then s else Shrink(Cut(s), fits)
  }

  /** The first text on the way down that fits; only the empty text may fail to. */
  lemma {:induction false} ShrinkMeaning(s: string, fits: string -> bool)
    ensures Shrink(s, fits) <= s
    ensures fits(Shrink(s, fits)) || Shrink(s, fits) == ""
    ensures fits(s) ==> Shrink(s, fits) == s
    ensures !fits(s) && s != "" ==> |Shrink(s, fits)| < |s|
    decreases |s|
  {
    if !fits(s) && s != "" { ShrinkMeaning(Cut(s), fits); }
  }

  /** No more is cut than needed: the text one cut earlier, of which nine tenths are left, did not fit. */
  lemma {:induction false} ShrinkIsLeast(s: string, fits: string -> bool) returns (previous: string)
    requires Shrink(s, fits) != s
    ensures !fits(previous) && previous <= s && Cut(previous) == Shrink(s, fits)
    ensures 10 * |Shrink(s, fits)| <= 9 * |previous| < 10 * |Shrink(s, fits)| + 10
    decreases |s|
  {
    if Shrink(Cut(s), fits) == Cut(s) {
      previous := s;
    } else {
      previous := ShrinkIsLeast(Cut(s), fits);
    }
  }

  method TrimLoop(s: string, fits: string -> bool) returns (trimmed: string)
    ensures trimmed == Shrink(s, fits)
  {
    var content := s;
    while !fits(content)
      invariant Shrink(content, fits) == Shrink(s, fits)
      decreases |content|
    {
      var next := Cut(content);
      if |next| == |content| { break; }
      content := next;
    }
    trimmed := content;
  }

  // ---- message bodies ----

  function FitsWith(j: Serializer, turns: seq<Turn>, t: nat, maxBytes: int): string -> bool
    requires t < |turns|
  {
    content => j.size(MessageBody(turns[t := turns[t].(content := content)])) <= maxBytes
  }

  /** Turns are shrunk from turn t down to the first, until the whole body fits. */
  function ShrinkTurns(j: Serializer, turns: seq<Turn>, t: nat, maxBytes: int): (r: seq<Turn>)
    requires t < |turns|
    ensures |r| == |turns|
    decreases t
  {
    var cut := turns[t := turns[t].(content := Shrink(turns[t].content, FitsWith(j, turns, t, maxBytes)))];
    if j.size(MessageBody(cut)) <= maxBytes || t == 0 then cut else ShrinkTurns(j, cut, t - 1, maxBytes)
  }

  /** One turn is cut to a prefix; the turns before it are as they were, those after it are empty. */
  ghost predicate CutAt(before: seq<Turn>, after: seq<Turn>, cut: nat, last: nat) {
    && |after| == |before| && cut <= last < |before|
    && (forall k :: 0 <= k < |before| ==> after[k].role == before[k].role)
    && (forall k :: 0 <= k < |before| && (k < cut || k > last) ==> after[k] == before[k])
    && after[cut].content <= before[cut].content
    && (forall k :: cut < k <= last ==> after[k].content == "")
  }

  lemma {:induction false} ShrinkTurnsMeaning(j: Serializer, turns: seq<Turn>, t: nat, maxBytes: int) returns (cut: nat)
    requires t < |turns|
    ensures CutAt(turns, ShrinkTurns(j, turns, t, maxBytes), cut, t)
    ensures j.size(MessageBody(ShrinkTurns(j, turns, t, maxBytes))) <= maxBytes
            || (cut == 0 && ShrinkTurns(j, turns, t, maxBytes)[0].content == "")
    decreases t
  {
    var fits := FitsWith(j, turns, t, maxBytes);
    ShrinkMeaning(turns[t].content, fits);
    var shrunk := Shrink(turns[t].content, fits);
    var next := turns[t := turns[t].(content := shrunk)];
    if j.size(MessageBody(next)) <= maxBytes || t == 0 {
      cut := t;
    } else {
      assert shrunk == "" by { assert fits(shrunk) == (j.size(MessageBody(next)) <= maxBytes); }
      cut := ShrinkTurnsMeaning(j, next, t - 1, maxBytes);
    }
  }

  method TrimTurns(j: Serializer, turns: seq<Turn>, maxBytes: int) returns (trimmed: seq<Turn>)
    requires turns != []
    ensures trimmed == ShrinkTurns(j, turns, |turns| - 1, maxBytes)
  {
    trimmed := turns;
    var t := |turns| - 1;
    while true
      invariant 0 <= t < |turns| && |trimmed| == |turns|
      invariant ShrinkTurns(j, trimmed, t, maxBytes) == ShrinkTurns(j, turns, |turns| - 1, maxBytes)
      decreases t
    {
      var content := TrimLoop(trimmed[t].content, FitsWith(j, trimmed, t, maxBytes));
      trimmed := trimmed[t := trimmed[t].(content := content)];
      if j.size(MessageBody(trimmed)) <= maxBytes || t == 0 { return; }
      t := t - 1;
    }
  }

  // ---- json bodies ----

  /** data.tool_response.result, when it is a string. */
  function ResultOf(data: Json): Option<string> {
    if !data.Object? then None
    else match FieldOf(data.fields, "tool_response")
      case Some(Object(fields)) =>
        (match FieldOf(fields, "result")
         case Some(Text(value)) => Some(value)
         case _ => None)
      case _ => None
  }

  function WithResult(data: Json, result: string): Json
    requires ResultOf(data).Some?
  {
    var response := FieldOf(data.fields, "tool_response").value;
    Object(SetField(data.fields, "tool_response", Object(SetField(response.fields, "result", Text(result)))))
  }

  /** Trimming the tool result touches nothing else in the tree. */
  lemma ResultReplaced(data: Json, result: string, key: string)
    requires ResultOf(data).Some?
    ensures ResultOf(WithResult(data, result)) == Some(result)
    ensures key != "tool_response" ==> FieldOf(WithResult(data, result).fields, key) == FieldOf(data.fields, key)
    ensures var before, after := FieldOf(data.fields, "tool_response"),
                                 FieldOf(WithResult(data, result).fields, "tool_response");
            && before.Some? && before.value.Object? && after.Some? && after.value.Object?
            && FieldOf(after.value.fields, "result") == Some(Text(result))
            && (key != "result" ==> FieldOf(after.value.fields, key) == FieldOf(before.value.fields, key))
  {
    var response := FieldOf(data.fields, "tool_response").value;
    var inner := Object(SetField(response.fields, "result", Text(result)));
    SetThenGet(response.fields, "result", "result", Text(result));
    SetThenGet(response.fields, "result", key, Text(result));
    SetThenGet(data.fields, "tool_response", "tool_response", inner);
    SetThenGet(data.fields, "tool_response", key, inner);
  }

  function FitsResult(j: Serializer, data: Json, maxBytes: int): string -> bool
    requires ResultOf(data).Some?
  {
    result => j.size(JsonBody(WithResult(data, result))) <= maxBytes
  }

  function Envelope(text: string): Body {
    JsonBody(Object([Field(TRUNCATED_KEY, Text(text + MARKER))]))
  }

  function FitsEnvelope(j: Serializer, maxBytes: int): string -> bool {
    text => j.size(Envelope(text)) <= maxBytes
  }

  function FitsText(j: Serializer, maxBytes: int): string -> bool {
    content => j.size(TextBody(content)) <= maxBytes
  }

  // ---- truncateBody ----

  /** What a body too large for the budget becomes; a message without turns makes the original throw. */
  ghost predicate Truncates(j: Serializer, body: Body, maxBytes: int, result: Option<Body>) {
    match body
    case TextBody(content) =>
      result == Some(TextBody(Shrink(content, FitsText(j, maxBytes)) + MARKER))
    case MessageBody(turns) =>
      if turns == [] then result.None?
      else
        var shrunk := ShrinkTurns(j, turns, |turns| - 1, maxBytes);
        var last := |turns| - 1;
        result == Some(MessageBody(shrunk[last := shrunk[last].(content := shrunk[last].content + MARKER)]))
    case JsonBody(data) =>
      match ResultOf(data)
      case Some(text) =>
          result == Some(JsonBody(WithResult(data, Shrink(text, FitsResult(j, data, maxBytes)) + MARKER)))
      case None => result == Some(Envelope(Shrink(j.stringify(data), FitsEnvelope(j, maxBytes))))
  }

  method TruncateBody(j: Serializer, body: Body, maxBytes: int) returns (result: Option<Body>)
    ensures j.size(body) <= maxBytes ==> result == Some(body)
    ensures j.size(body) > maxBytes ==> Truncates(j, body, maxBytes, result)
  {
    if j.size(body) <= maxBytes { return Some(body); }
    match body {
      case TextBody(original) =>
        var content := TrimLoop(original, FitsText(j, maxBytes));
        return Some(TextBody(content + MARKER));
      case MessageBody(original) =>
        if original == [] { return None; }
        var turns := TrimTurns(j, original, maxBytes);
        var last := |turns| - 1;
        return Some(MessageBody(turns[last := turns[last].(content := turns[last].content + MARKER)]));
      case JsonBody(data) =>
        match ResultOf(data) {
          case Some(text) =>
            var shrunk := TrimLoop(text, FitsResult(j, data, maxBytes));
            return Some(JsonBody(WithResult(data, shrunk + MARKER)));
          case None =>
            var str := TrimLoop(j.stringify(data), FitsEnvelope(j, maxBytes));
            return Some(Envelope(str));
        }
    }
  }

  /** What is too large says so in plain words, after a prefix of the text it had. */
  lemma SaysTruncated(j: Serializer, body: Body, maxBytes: int, result: Body)
    requires Truncates(j, body, maxBytes, Some(result))
    ensures body.TextBody? ==>
              result.TextBody? && EndsTruncated(result.content, body.content)
    ensures body.JsonBody? && ResultOf(body.data).Some? ==>
              && result.JsonBody? && ResultOf(result.data).Some?
              && EndsTruncated(ResultOf(result.data).value, ResultOf(body.data).value)
    ensures body.JsonBody? && ResultOf(body.data).None? ==>
              exists text :: result == JsonBody(Object([Field("_truncated", Text(text))]))
                             && EndsTruncated(text, j.stringify(body.data))
    ensures body.MessageBody? ==>
              && result.MessageBody? && result.turns != [] && |result.turns| == |body.turns|
              && exists kept :: result.turns[|result.turns| - 1].content == kept + " [truncated by kiro-learn]"
  {
    match body
    case TextBody(content) => ShrinkMeaning(content, FitsText(j, maxBytes));
    case MessageBody(turns) =>
    case JsonBody(data) =>
      match ResultOf(data)
      case Some(text) =>
        ShrinkMeaning(text, FitsResult(j, data, maxBytes));
        ResultReplaced(data, Shrink(text, FitsResult(j, data, maxBytes)) + MARKER, "");
      case None => ShrinkMeaning(j.stringify(data), FitsEnvelope(j, maxBytes));
  }

  ghost predicate EndsTruncated(text: string, whole: string) {
    exists kept: string :: kept <= whole && text == kept + " [truncated by kiro-learn]"
  }

  /** The marker is plain ASCII: it costs its own length, wherever text is extended by it. */
  ghost predicate MarkerCosts(j: Serializer) {
    && (forall content :: j.size(TextBody(content + MARKER)) <= j.size(TextBody(content)) + |MARKER|)
    && (forall turns: seq<Turn> :: turns != [] ==>
        j.size(MessageBody(Marked(turns))) <= j.size(MessageBody(turns)) + |MARKER|)
    && (forall data: Json, text :: ResultOf(data).Some? ==>
          j.size(JsonBody(WithResult(data, text + MARKER))) <= j.size(JsonBody(WithResult(data, text))) + |MARKER|)
  }

  ghost function Marked(turns: seq<Turn>): seq<Turn>
    requires turns != []
  {
    turns[|turns| - 1 := turns[|turns| - 1].(content := turns[|turns| - 1].content + MARKER)]
  }

  /** Nothing is left to trim in what the marker was put on. */
  ghost predicate Exhausted(j: Serializer, body: Body, result: Body) {
    match body
    case TextBody(_) => result == TextBody(MARKER)
    case MessageBody(turns) =>
      result.MessageBody? && turns != [] && |result.turns| == |turns|
      && forall k :: 0 <= k < |turns| ==> result.turns[k].content == if k == |turns| - 1 then MARKER else ""
    case JsonBody(data) =>
      if ResultOf(data).Some? then result == JsonBody(WithResult(data, MARKER)) else result == Envelope("")
  }

  /** Every body ends within the budget plus the marker, or with no text left to cut. */
  lemma WithinBudget(j: Serializer, body: Body, maxBytes: int, result: Body)
    requires j.size(body) > maxBytes && Truncates(j, body, maxBytes, Some(result)) && MarkerCosts(j)
    ensures j.size(result) <= maxBytes + |MARKER| || Exhausted(j, body, result)
  {
    match body
    case TextBody(content) => TextWithinBudget(j, content, maxBytes, result);
    case MessageBody(turns) => MessageWithinBudget(j, turns, maxBytes, result);
    case JsonBody(data) => JsonWithinBudget(j, data, maxBytes, result);
  }

  lemma TextWithinBudget(j: Serializer, content: string, maxBytes: int, result: Body)
    requires j.size(TextBody(content)) > maxBytes && Truncates(j, TextBody(content), maxBytes, Some(result))
    requires MarkerCosts(j)
    ensures j.size(result) <= maxBytes + |MARKER| || Exhausted(j, TextBody(content), result)
  {
    ShrinkMeaning(content, FitsText(j, maxBytes));
    if result != TextBody(MARKER) {
      var shrunk := Shrink(content, FitsText(j, maxBytes));
      assert shrunk != "" by { assert "" + MARKER == MARKER; }
      assert FitsText(j, maxBytes)(shrunk);
    }
  }

  lemma MessageWithinBudget(j: Serializer, turns: seq<Turn>, maxBytes: int, result: Body)
    requires j.size(MessageBody(turns)) > maxBytes && Truncates(j, MessageBody(turns), maxBytes, Some(result))
    requires MarkerCosts(j)
    ensures j.size(result) <= maxBytes + |MARKER| || Exhausted(j, MessageBody(turns), result)
  {
    var last := |turns| - 1;
    var cut := ShrinkTurnsMeaning(j, turns, last, maxBytes);
    var shrunk := ShrinkTurns(j, turns, last, maxBytes);
    assert result == MessageBody(Marked(shrunk));
    if j.size(MessageBody(shrunk)) > maxBytes { assert "" + MARKER == MARKER; }
  }

  lemma JsonWithinBudget(j: Serializer, data: Json, maxBytes: int, result: Body)
    requires j.size(JsonBody(data)) > maxBytes && Truncates(j, JsonBody(data), maxBytes, Some(result)) && MarkerCosts(j)
    ensures j.size(result) <= maxBytes + |MARKER| || Exhausted(j, JsonBody(data), result)
  {
    match ResultOf(data)
    case Some(text) =>
      var fits := FitsResult(j, data, maxBytes);
      ShrinkMeaning(text, fits);
      var shrunk := Shrink(text, fits);
      if shrunk == "" { assert "" + MARKER == MARKER; } else { assert fits(shrunk); }
    case None =>
      var fits := FitsEnvelope(j, maxBytes);
      ShrinkMeaning(j.stringify(data), fits);
      var shrunk := Shrink(j.stringify(data), fits);
      if shrunk != "" { assert fits(shrunk); }
  }

  /** In a message one turn is cut: earlier turns are unchanged, later ones empty but for the marker, roles all kept. */
  lemma OneCutTurn(j: Serializer, turns: seq<Turn>, maxBytes: int, result: Body) returns (cut: nat)
    requires turns != [] && Truncates(j, MessageBody(turns), maxBytes, Some(result))
    ensures result.MessageBody? && cut < |turns|
    ensures exists shrunk :: CutAt(turns, shrunk, cut, |turns| - 1) && result.turns == Marked(shrunk)
  {
    cut := ShrinkTurnsMeaning(j, turns, |turns| - 1, maxBytes);
    var shrunk := ShrinkTurns(j, turns, |turns| - 1, maxBytes);
    assert CutAt(turns, shrunk, cut, |turns| - 1) && result.turns == Marked(shrunk);
  }
}
