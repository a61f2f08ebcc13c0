/** Per-project append-only buffer files, seen as bytes and lines, with atomic replace and catch-up. */
module BufferStore {
  import opened MemoryTypes

  newtype byte = x: int | 0 <= x < 256

  type Bytes = seq<byte>

  const NEWLINE: byte := 10

  datatype BufferEntry = BufferEntry(
    eventId: string,
    namespace: string,
    kind: string,
    body: string,
    timestamp: string,
    surface: string)

  /** The JSON text of one entry, as bytes, and what a trimmed line parses to. */
  datatype Codec = Codec(render: BufferEntry -> Bytes, parse: Bytes -> Option<BufferEntry>)

  predicate Blank(b: byte) { b == 32 || 9 <= b <= 13 }

  function TrimStart(line: Bytes): (r: Bytes)
    ensures |r| <= |line|
  {
    if line != [] && Blank(line[0]) then TrimStart(line[1..]) else line
  }

  function TrimEnd(line: Bytes): (r: Bytes)
    ensures |r| <= |line|
  {
    if line != [] && Blank(line[|line| - 1]) then TrimEnd(line[..|line| - 1]) else line
  }

  function Trim(line: Bytes): Bytes {
    TrimEnd(TrimStart(line))
  }

  /** Printed entries are single, untrimmed-safe lines that parse back. */
  ghost predicate Prints(codec: Codec, entry: BufferEntry) {
    var text := codec.render(entry);
    && text != [] && NEWLINE !in text && !Blank(text[0]) && !Blank(text[|text| - 1])
    && codec.parse(text) == Some(entry)
  }

  ghost predicate LineCodec(codec: Codec) {
    forall entry :: Prints(codec, entry)
  }

  // ---- Lines of a file ----

  function FirstBreak(b: Bytes): (k: nat)
    ensures k <= |b| && NEWLINE !in b[..k]
    ensures k < |b| ==> b[k] == NEWLINE
  {
    if b == [] || b[0] == NEWLINE then 0
    else
      assert forall n :: 0 <= n <= |b| - 1 ==> b[..n + 1] == [b[0]] + b[1..][..n];
      1 + FirstBreak(b[1..])
  }

  function Lines(b: Bytes): (lines: seq<Bytes>)
    ensures |lines| >= 1
  {
    var k := FirstBreak(b);
    if k == |b| then [b] else [b[..k]] + Lines(b[k + 1..])
  }

  lemma {:induction false} BreakUnique(b: Bytes, k: nat)
    requires k <= |b| && NEWLINE !in b[..k] && (k < |b| ==> b[k] == NEWLINE)
    ensures FirstBreak(b) == k
    decreases k
  {
    if k == 0 {
    } else {
      assert b[..k] == [b[0]] + b[1..][..k - 1];
      BreakUnique(b[1..], k - 1);
    }
  }

  lemma LinesNone(head: Bytes)
    requires NEWLINE !in head
    ensures Lines(head) == [head]
  {
    assert head[..|head|] == head;
    BreakUnique(head, |head|);
  }

  /** Two stretches of bytes with a newline between them. */
  ghost function Broken(head: Bytes, rest: Bytes): Bytes {
    head + [NEWLINE] + rest
  }

  lemma BrokenTwice(a: Bytes, b: Bytes, c: Bytes)
    ensures Broken(Broken(a, b), c) == Broken(a, Broken(b, c))
  {
  }

  lemma LinesCut(head: Bytes, rest: Bytes)
    requires NEWLINE !in head
    ensures Lines(Broken(head, rest)) == [head] + Lines(rest)
  {
    var all, k := Broken(head, rest), |head|;
    assert all[..k] == head && all[k] == NEWLINE && all[k + 1..] == rest;
    BreakUnique(all, k);
  }

  lemma FindBreak(b: Bytes) returns (head: Bytes, rest: Bytes)
    requires NEWLINE in b
    ensures b == Broken(head, rest) && NEWLINE !in head && |rest| < |b|
  {
    var k := FirstBreak(b);
    assert b[..|b|] == b;
    head, rest := b[..k], b[k + 1..];
  }

  lemma Associates<T>(a: seq<T>, b: seq<T>, c: seq<T>)
    ensures a + b + c == a + (b + c)
  {
  }

  /** A newline byte always separates. */
  lemma {:induction false} LinesAppend(a: Bytes, b: Bytes)
    ensures Lines(Broken(a, b)) == Lines(a) + Lines(b)
    decreases |a|
  {
    if NEWLINE in a {
      var head, rest := FindBreak(a);
      BrokenTwice(head, rest, b);
      LinesCut(head, rest);
      LinesCut(head, Broken(rest, b));
      LinesAppend(rest, b);
      Associates([head], Lines(rest), Lines(b));
    } else {
      LinesNone(a);
      LinesCut(a, b);
    }
  }

  /** What one line contributes: nothing when blank or corrupt. */
  function ParseLine(codec: Codec, line: Bytes): (r: seq<BufferEntry>)
    ensures |r| <= 1
  {
    var trimmed := Trim(line);
    if trimmed == [] then []
    else match codec.parse(trimmed)
      case None => []
      case Some(entry) => [entry]
  }

  function ParseLines(codec: Codec, lines: seq<Bytes>): seq<BufferEntry> {
    if lines == [] then []
    else ParseLines(codec, lines[..|lines| - 1]) + ParseLine(codec, lines[|lines| - 1])
  }

  lemma {:induction false} ParseConcat(codec: Codec, a: seq<Bytes>, b: seq<Bytes>)
    ensures ParseLines(codec, a + b) == ParseLines(codec, a) + ParseLines(codec, b)
    decreases |b|
  {
    if b == [] {
      assert a + b == a;
    } else {
      var n := |b| - 1;
      assert (a + b)[..|a + b| - 1] == a + b[..n];
      ParseConcat(codec, a, b[..n]);
    }
  }

  /** The entries a file holds. */
  function Entries(codec: Codec, b: Bytes): seq<BufferEntry> {
    ParseLines(codec, Lines(b))
  }

  ghost predicate WholeLines(b: Bytes) {
    b == [] || b[|b| - 1] == NEWLINE
  }

  lemma NoEntries(codec: Codec)
    ensures Entries(codec, []) == []
  {
    LinesNone([]);
    OneLine(codec, []);
  }

  lemma OneLine(codec: Codec, line: Bytes)
    ensures ParseLines(codec, [line]) == ParseLine(codec, line)
  {
    assert [line][..0] == [];
    assert ParseLines(codec, []) == [];
  }

  lemma EntriesCut(codec: Codec, a: Bytes, b: Bytes)
    ensures Entries(codec, Broken(a, b)) == Entries(codec, a) + Entries(codec, b)
  {
    LinesAppend(a, b);
    ParseConcat(codec, Lines(a), Lines(b));
  }

  lemma EntriesEnd(codec: Codec, a: Bytes)
    ensures Entries(codec, a + [NEWLINE]) == Entries(codec, a)
  {
    assert a + [NEWLINE] == Broken(a, []);
    EntriesCut(codec, a, []);
    NoEntries(codec);
  }

  /** After whole lines, more bytes only add entries. */
  lemma EntriesAppend(codec: Codec, a: Bytes, b: Bytes)
    requires WholeLines(a)
    ensures Entries(codec, a + b) == Entries(codec, a) + Entries(codec, b)
  {
    if a == [] {
      NoEntries(codec);
      assert a + b == b;
    } else {
      var body := a[..|a| - 1];
      assert a == body + [NEWLINE] && a + b == Broken(body, b);
      EntriesCut(codec, body, b);
      EntriesEnd(codec, body);
    }
  }

  /** A corrupt or blank line costs itself only. */
  lemma CorruptLineCosts(codec: Codec, a: Bytes, line: Bytes, b: Bytes)
    requires WholeLines(a) && NEWLINE !in line && (Trim(line) == [] || codec.parse(Trim(line)).None?)
    ensures Entries(codec, a + (line + [NEWLINE] + b)) == Entries(codec, a) + Entries(codec, b)
  {
    hide Entries, Trim;
    EntriesAppend(codec, a, line + [NEWLINE] + b);
    EntriesAppend(codec, line + [NEWLINE], b);
    EntriesEnd(codec, line);
    CorruptLine(codec, line);
  }

  lemma CorruptLine(codec: Codec, line: Bytes)
    requires NEWLINE !in line && (Trim(line) == [] || codec.parse(Trim(line)).None?)
    ensures Entries(codec, line) == []
  {
    hide Trim;
    LinesNone(line);
    OneLine(codec, line);
  }

  function Line(codec: Codec, entry: BufferEntry): Bytes {
    codec.render(entry) + [NEWLINE]
  }

  function Printed(codec: Codec, entries: seq<BufferEntry>): Bytes {
    if entries == [] then [] else Printed(codec, entries[..|entries| - 1]) + Line(codec, entries[|entries| - 1])
  }

  lemma LineParses(codec: Codec, entry: BufferEntry)
    requires LineCodec(codec)
    ensures Entries(codec, Line(codec, entry)) == [entry]
  {
    var text := codec.render(entry);
    assert Prints(codec, entry);
    EntriesEnd(codec, text);
    LinesNone(text);
    OneLine(codec, text);
    assert Trim(text) == text;
  }

  lemma {:induction false} PrintedWhole(codec: Codec, entries: seq<BufferEntry>)
    ensures WholeLines(Printed(codec, entries))
  {
  }

  lemma {:induction false} PrintedConcat(codec: Codec, a: seq<BufferEntry>, b: seq<BufferEntry>)
    ensures Printed(codec, a + b) == Printed(codec, a) + Printed(codec, b)
    decreases |b|
  {
    if b == [] {
      assert a + b == a;
    } else {
      var n := |b| - 1;
      assert (a + b)[..|a + b| - 1] == a + b[..n];
      PrintedConcat(codec, a, b[..n]);
    }
  }

  lemma EntriesSnoc(codec: Codec, a: Bytes, entry: BufferEntry)
    requires LineCodec(codec) && WholeLines(a)
    ensures Entries(codec, a + Line(codec, entry)) == Entries(codec, a) + [entry]
  {
    EntriesAppend(codec, a, Line(codec, entry));
    LineParses(codec, entry);
  }

  /** Writing entries and reading them back is the identity, order included. */
  lemma {:induction false} PrintedParses(codec: Codec, entries: seq<BufferEntry>)
    requires LineCodec(codec)
    ensures Entries(codec, Printed(codec, entries)) == entries
  {
    if entries == [] {
      NoEntries(codec);
    } else {
      var n := |entries| - 1;
      PrintedParses(codec, entries[..n]);
      PrintedWhole(codec, entries[..n]);
      EntriesSnoc(codec, Printed(codec, entries[..n]), entries[n]);
      assert entries == entries[..n] + [entries[n]];
    }
  }

  // ---- The store ----

  datatype Result<T> = Returned(value: T) | Threw

  datatype Snapshot = Snapshot(entries: seq<BufferEntry>, sizeBytes: nat)

  datatype ReplaceResult = ReplaceResult(catchUpEntries: seq<BufferEntry>, newSizeBytes: nat)

  /** Project ids that are a single safe path segment. */
  predicate Safe(projectId: string) {
    projectId != "" && '/' !in projectId && projectId != "." && projectId != ".."
  }

  method ParseText(codec: Codec, content: Bytes) returns (entries: seq<BufferEntry>)
    ensures entries == Entries(codec, content)
  {
    var lines := Lines(content);
    entries := [];
    var i := 0;
    while i < |lines|
      invariant 0 <= i <= |lines|
      invariant entries == ParseLines(codec, lines[..i])
    {
      assert lines[..i + 1][..i] == lines[..i];
      var trimmed := Trim(lines[i]);
      if |trimmed| > 0 {
        var parsed := codec.parse(trimmed);
        if parsed.Some? { entries := entries + [parsed.value]; }
      }
      i := i + 1;
    }
    assert lines[..i] == lines;
  }

  method PrintText(codec: Codec, entries: seq<BufferEntry>) returns (text: Bytes, totalBytes: nat)
    ensures text == Printed(codec, entries) && totalBytes == |text|
  {
    text, totalBytes := [], 0;
    var i := 0;
    while i < |entries|
      invariant 0 <= i <= |entries|
      invariant text == Printed(codec, entries[..i]) && totalBytes == |text|
    {
      assert entries[..i + 1][..i] == entries[..i];
      var line := Line(codec, entries[i]);
      text := text + line;
      totalBytes := totalBytes + |line|;
      i := i + 1;
    }
    assert entries[..i] == entries;
  }

  function FileOf(files: map<string, Bytes>, projectId: string): Bytes {
    if projectId in files then files[projectId] else []
  }

  class Store {
    const codec: Codec
    var files: map<string, Bytes>

    ghost predicate Valid()
      reads this
    {
      LineCodec(codec) && forall p :: p in files ==> WholeLines(files[p])
    }

    constructor (codec: Codec)
      requires LineCodec(codec)
      ensures Valid() && files == map[] && this.codec == codec
    {
      this.codec := codec;
      files := map[];
    }

    /** A missing file reads as no bytes. */
    function Content(projectId: string): Bytes
      reads this`files
    {
      FileOf(files, projectId)
    }

    ghost function Buffered(projectId: string): seq<BufferEntry>
      reads this
    {
      Entries(codec, Content(projectId))
    }

    /** The entries found past an offset. */
    ghost function Tail(files: map<string, Bytes>, projectId: string, offset: nat): seq<BufferEntry> {
      Entries(codec, TailFrom(FileOf(files, projectId), offset))
    }

    method Append(projectId: string, entry: BufferEntry) returns (result: Result<nat>)
      requires Valid()
      modifies this`files
      ensures Valid()
      ensures result.Threw? <==> !Safe(projectId)
      ensures result.Threw? <==> projectId == "" || projectId == "." || projectId == ".." || '/' in projectId
      ensures result.Threw? ==> files == old(files)
      ensures result.Returned? ==> files == old(files)[projectId := old(Content(projectId)) + Line(codec, entry)]
      ensures result.Returned? ==> result.value == |files[projectId]| - |old(Content(projectId))|
      ensures result.Returned? ==> Buffered(projectId) == old(Buffered(projectId)) + [entry]
    {
      if !Safe(projectId) { return Threw; }
      var line := Line(codec, entry);
      EntriesSnoc(codec, Content(projectId), entry);
      files := files[projectId := Content(projectId) + line];
      result := Returned(|line|);
    }

    /** Entries and byte size of one and the same read. */
    method SnapshotWithSize(projectId: string) returns (result: Result<Snapshot>)
      requires Valid()
      ensures result.Threw? <==> !Safe(projectId)
      ensures result.Returned? ==> result.value == Snapshot(Buffered(projectId), |Content(projectId)|)
    {
      if !Safe(projectId) { return Threw; }
      NoEntries(codec);
      if projectId !in files { return Returned(Snapshot([], 0)); }
      var entries := ParseText(codec, files[projectId]);
      result := Returned(Snapshot(entries, |files[projectId]|));
    }

    method Clear(projectId: string) returns (result: Result<bool>)
      requires Valid()
      modifies this`files
      ensures Valid()
      ensures result.Threw? <==> !Safe(projectId)
      ensures files == if Safe(projectId) then old(files) - {projectId} else old(files)
      ensures Safe(projectId) ==> Buffered(projectId) == []
    {
      if !Safe(projectId) { return Threw; }
      files := files - {projectId};
      NoEntries(codec);
      result := Returned(true);
    }

    /**
     * Everything appended past the offset survives the swap, behind the new entries; a missing file cannot be opened.
     */
    method Replace(projectId: string, newEntries: seq<BufferEntry>, sinceOffset: nat, ioFault: bool)
      returns (result: Result<ReplaceResult>)
      requires Valid()
      modifies this`files
      ensures Valid()
      ensures result.Threw? <==> !Safe(projectId) || projectId !in old(files) || ioFault
      ensures result.Threw? ==> files == old(files)
      ensures result.Returned? ==>
                files == old(files)[projectId := Printed(codec, newEntries + result.value.catchUpEntries)]
      ensures result.Returned? ==> result.value.newSizeBytes == |files[projectId]|
      ensures result.Returned? ==> Buffered(projectId) == newEntries + result.value.catchUpEntries
      ensures result.Returned? ==>
                result.value.catchUpEntries == Entries(codec, TailFrom(old(Content(projectId)), sinceOffset))
    {
      if !Safe(projectId) || projectId !in files || ioFault { return Threw; }
      var catchUpEntries := CatchUpEntries(files[projectId], sinceOffset);
      var text, totalBytes := PrintText(codec, newEntries + catchUpEntries);
      PrintedWhole(codec, newEntries + catchUpEntries);
      PrintedParses(codec, newEntries + catchUpEntries);
      files := files[projectId := text];
      result := Returned(ReplaceResult(catchUpEntries, totalBytes));
    }

    /** The bytes past the offset, if any, line by line. */
    method CatchUpEntries(content: Bytes, sinceOffset: nat) returns (entries: seq<BufferEntry>)
      ensures entries == Entries(codec, TailFrom(content, sinceOffset))
    {
      NoEntries(codec);
      var catchUpSize := |content| - sinceOffset;
      entries := [];
      if catchUpSize > 0 {
        entries := ParseText(codec, content[sinceOffset..]);
      }
    }
  }

  function TailFrom(content: Bytes, offset: nat): Bytes {
    if offset < |content| then content[offset..] else []
  }

  /**
   * Catch-up: a snapshot's bytes, then whole appends, then the swap gives the compacted entries and exactly the
   * appends.
   */
  lemma CatchUp(codec: Codec, base: Bytes, since: seq<BufferEntry>)
    requires LineCodec(codec)
    ensures Entries(codec, TailFrom(base + Printed(codec, since), |base|)) == since
  {
    var content := base + Printed(codec, since);
    PrintedParses(codec, since);
    assert content[|base|..] == Printed(codec, since);
  }

  // ---- A buffer cleared and refilled behind a pending swap ----

  /** The number of leading entries whose line starts before the offset. */
  ghost function StartedBefore(codec: Codec, entries: seq<BufferEntry>, offset: nat): (n: nat)
    ensures n <= |entries|
  {
    if entries == [] then 0
    else
      var n := |entries| - 1;
      StartedBefore(codec, entries[..n], offset) + if |Printed(codec, entries[..n])| < offset then 1 else 0
  }

  /** No proper suffix of a printed entry parses, as for the text of a JSON object. */
  ghost predicate SuffixFree(codec: Codec) {
    forall entry: BufferEntry, k: nat :: 0 < k <= |codec.render(entry)| ==>
        ParseLine(codec, codec.render(entry)[k..]) == []
  }

  lemma SuffixLost(codec: Codec, entry: BufferEntry, k: nat)
    requires LineCodec(codec) && SuffixFree(codec) && 0 < k <= |Line(codec, entry)|
    ensures Entries(codec, Line(codec, entry)[k..]) == []
  {
    var text := codec.render(entry);
    assert Prints(codec, entry);
    if k <= |text| {
      var rest := text[k..];
      assert Line(codec, entry)[k..] == rest + [NEWLINE];
      EntriesEnd(codec, rest);
      LinesNone(rest);
      OneLine(codec, rest);
    } else {
      NoEntries(codec);
      assert Line(codec, entry)[k..] == [];
    }
  }

  lemma TailOfPrefix(before: Bytes, line: Bytes, offset: nat)
    requires offset <= |before|
    ensures TailFrom(before + line, offset) == TailFrom(before, offset) + line
    ensures WholeLines(before) ==> WholeLines(TailFrom(before, offset))
  {
    if offset < |before| {
      assert (before + line)[offset..] == before[offset..] + line;
    } else if line != [] {
      assert (before + line)[offset..] == line;
    }
  }

  lemma TailOfLast(before: Bytes, line: Bytes, offset: nat)
    requires |before| < offset
    ensures TailFrom(before + line, offset) == TailFrom(line, offset - |before|)
  {
    if offset < |before + line| {
      assert (before + line)[offset..] == line[offset - |before|..];
    }
  }

  lemma TailKeeps(codec: Codec, before: Bytes, entry: BufferEntry, offset: nat)
    requires LineCodec(codec) && WholeLines(before) && offset <= |before|
    ensures Entries(codec, TailFrom(before + Line(codec, entry), offset)) == Entries(codec, TailFrom(before, offset)) +
              [entry]
  {
    TailOfPrefix(before, Line(codec, entry), offset);
    EntriesSnoc(codec, TailFrom(before, offset), entry);
  }

  lemma TailLoses(codec: Codec, before: Bytes, entry: BufferEntry, offset: nat)
    requires LineCodec(codec) && SuffixFree(codec) && |before| < offset
    ensures Entries(codec, TailFrom(before + Line(codec, entry), offset)) == []
  {
    TailOfLast(before, Line(codec, entry), offset);
    if offset - |before| < |Line(codec, entry)| {
      SuffixLost(codec, entry, offset - |before|);
    } else {
      NoEntries(codec);
    }
  }

  /** Read from a stale offset, a refilled buffer keeps exactly the entries whose line starts at or after it. */
  lemma {:induction false} StaleOffset(codec: Codec, entries: seq<BufferEntry>, offset: nat)
    requires LineCodec(codec) && SuffixFree(codec)
    ensures Entries(codec, TailFrom(Printed(codec, entries), offset)) ==
              entries[StartedBefore(codec, entries, offset)..]
  {
    hide Entries, TailFrom, LineCodec, SuffixFree;
    if entries == [] {
      NothingStale(codec, offset);
    } else {
      var rest := entries[..|entries| - 1];
      if offset <= |Printed(codec, rest)| {
        StaleOffset(codec, rest, offset);
        LastKept(codec, entries, offset);
      } else {
        LastLost(codec, entries, offset);
      }
    }
  }

  lemma NothingStale(codec: Codec, offset: nat)
    ensures Entries(codec, TailFrom(Printed(codec, []), offset)) == []
  {
    NoEntries(codec);
  }

  /** The last line starts at or after the offset: it is kept behind what is kept of the others. */
  lemma LastKept(codec: Codec, entries: seq<BufferEntry>, offset: nat)
    requires LineCodec(codec) && entries != [] && offset <= |Printed(codec, entries[..|entries| - 1])|
    requires var rest := entries[..|entries| - 1];
             Entries(codec, TailFrom(Printed(codec, rest), offset)) == rest[StartedBefore(codec, rest, offset)..]
    ensures Entries(codec, TailFrom(Printed(codec, entries), offset)) ==
              entries[StartedBefore(codec, entries, offset)..]
  {
    hide Entries, TailFrom, LineCodec;
    var rest, last := entries[..|entries| - 1], entries[|entries| - 1];
    PrintedWhole(codec, rest);
    TailKeeps(codec, Printed(codec, rest), last, offset);
    DropThenSnoc(entries, StartedBefore(codec, rest, offset));
  }

  /** The last line starts before the offset, and with it every other. */
  lemma LastLost(codec: Codec, entries: seq<BufferEntry>, offset: nat)
    requires LineCodec(codec) && SuffixFree(codec)
    requires entries != [] && |Printed(codec, entries[..|entries| - 1])| < offset
    ensures Entries(codec, TailFrom(Printed(codec, entries), offset)) ==
              entries[StartedBefore(codec, entries, offset)..]
  {
    hide Entries, TailFrom, LineCodec, SuffixFree;
    var rest, last := entries[..|entries| - 1], entries[|entries| - 1];
    AllStart(codec, rest, offset);
    TailLoses(codec, Printed(codec, rest), last, offset);
  }

  lemma DropThenSnoc(entries: seq<BufferEntry>, k: nat)
    requires k < |entries|
    ensures entries[k..] == entries[..|entries| - 1][k..] + [entries[|entries| - 1]]
  {
  }

  lemma {:induction false} AllStart(codec: Codec, entries: seq<BufferEntry>, offset: nat)
    requires |Printed(codec, entries)| < offset
    ensures StartedBefore(codec, entries, offset) == |entries|
  {
    if entries == [] {
    } else {
      AllStart(codec, entries[..|entries| - 1], offset);
    }
  }

  /**
   * So a pending swap keeps a refilled buffer whole exactly when it was taken at offset zero or nothing was refilled.
   */
  lemma RefillSurvives(codec: Codec, entries: seq<BufferEntry>, offset: nat)
    requires LineCodec(codec) && SuffixFree(codec)
    ensures Entries(codec, TailFrom(Printed(codec, entries), offset)) == entries <==> offset == 0 || entries == []
  {
    StaleOffset(codec, entries, offset);
    if entries != [] { FirstStarts(codec, entries, offset); }
  }

  lemma {:induction false} FirstStarts(codec: Codec, entries: seq<BufferEntry>, offset: nat)
    requires entries != []
    ensures StartedBefore(codec, entries, offset) == 0 <==> offset == 0
  {
    var n := |entries| - 1;
    if n > 0 { FirstStarts(codec, entries[..n], offset); }
    else { assert Printed(codec, entries[..0]) == []; }
    if offset == 0 { assert StartedBefore(codec, entries[..n], 0) == 0 by { NoneStart(codec, entries[..n]); } }
  }

  lemma {:induction false} NoneStart(codec: Codec, entries: seq<BufferEntry>)
    ensures StartedBefore(codec, entries, 0) == 0
  {
    if entries == [] {
    } else {
      NoneStart(codec, entries[..|entries| - 1]);
    }
  }
}
