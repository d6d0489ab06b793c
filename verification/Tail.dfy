/**
 The resumable tailer: complete lines are cut from a growing file at the saved byte offset, handed
 to ingest as one buffer, and only then is the offset saved.
 */
module Tail {
  import opened Prelude
  import opened Keys
  import opened Grammar
  import opened Bursts
  import opened EventTable
  import opened Ingest
  import opened IngestLaws
  import PB = ProcessBuffer
  import S = Storage

  // ----- cutting text into lines -----

  /** Index of the first newline at or after `from`, or the length of the text. */
  function NewlineFrom(c: string, from: nat): (i: nat)
    requires from <= |c|
    ensures from <= i <= |c| && (forall k :: from <= k < i ==> c[k] != '\n') && (i < |c| ==> c[i] == '\n')
    decreases |c| - from
  {
    if from == |c| || c[from] == '\n' then from else NewlineFrom(c, from + 1)
  }

  /** Drop every trailing carriage return and newline. */
  function TrimEnd(s: string): string {
    if s != "" && (s[|s| - 1] == '\r' || s[|s| - 1] == '\n') then TrimEnd(s[..|s| - 1]) else s
  }

  /** The complete lines from byte `from` on, as pairs of start and end (just past the newline). */
  function Spans(c: string, from: nat): (spans: seq<(nat, nat)>)
    requires from <= |c|
    ensures forall i :: 0 <= i < |spans| ==> from <= spans[i].0 < spans[i].1 <= |c|
    decreases |c| - from
  {
    var nl := NewlineFrom(c, from);
    if nl == |c| then [] else [(from, nl + 1)] + Spans(c, nl + 1)
  }

  function Entry(source: string, c: string, span: (nat, nat)): LogEntry
    requires span.0 <= span.1 <= |c|
  {
    LogEntry(source, span.0, TrimEnd(c[span.0..span.1]))
  }

  function Entries(source: string, c: string, spans: seq<(nat, nat)>): (entries: seq<LogEntry>)
    requires forall i :: 0 <= i < |spans| ==> spans[i].0 <= spans[i].1 <= |c|
    ensures |entries| == |spans|
  {
    seq(|spans|, i requires 0 <= i < |spans| => Entry(source, c, spans[i]))
  }

  /** The complete lines of the text from byte `from` on, with their offsets. */
  function Lines(source: string, c: string, from: nat): (lines: seq<LogEntry>)
    requires from <= |c|
    ensures |lines| == |Spans(c, from)|
  {
    Entries(source, c, Spans(c, from))
  }

  /** Where the last complete line ends (`from` when there is none). */
  function End(c: string, from: nat): (end: nat)
    requires from <= |c|
    ensures from <= end <= |c|
    decreases |c| - from
  {
    var nl := NewlineFrom(c, from);
    if nl == |c| then from else End(c, nl + 1)
  }

  /** The start of the file or a position just past a newline. */
  predicate AtBoundary(c: string, offset: nat) {
    offset <= |c| && (offset == 0 || c[offset - 1] == '\n')
  }

  lemma {:induction false} EndIsLastBoundary(c: string, from: nat)
    requires AtBoundary(c, from)
    ensures AtBoundary(c, End(c, from)) && forall k :: End(c, from) <= k < |c| ==> c[k] != '\n'
    decreases |c| - from
  {
    var nl := NewlineFrom(c, from);
    if nl < |c| {
      EndIsLastBoundary(c, nl + 1);
    }
  }

  lemma NewlineInPrefix(c1: string, c2: string, from: nat)
    requires c1 <= c2 && from <= |c1| && NewlineFrom(c1, from) < |c1|
    ensures NewlineFrom(c2, from) == NewlineFrom(c1, from)
  {
    var nl := NewlineFrom(c1, from);
    assert forall k :: 0 <= k < |c1| ==> c2[k] == c1[k];
  }

  lemma {:induction false} EndResume(c1: string, c2: string, from: nat)
    requires c1 <= c2 && from <= |c1|
    ensures End(c2, from) == End(c2, End(c1, from))
    decreases |c1| - from
  {
    var nl := NewlineFrom(c1, from);
    if nl < |c1| {
      NewlineInPrefix(c1, c2, from);
      EndResume(c1, c2, nl + 1);
    }
  }

  lemma FirstSpan(c: string, from: nat)
    requires from <= |c|
    ensures var nl := NewlineFrom(c, from);
            if nl == |c| then Spans(c, from) == [] && End(c, from) == from
            else Spans(c, from) == [(from, nl + 1)] + Spans(c, nl + 1) && End(c, from) == End(c, nl + 1)
  {
  }

  lemma {:induction false} SpansResume(c1: string, c2: string, from: nat)
    requires c1 <= c2 && from <= |c1|
    ensures Spans(c2, from) == Spans(c1, from) + Spans(c2, End(c1, from))
    decreases |c1| - from
  {
    var nl := NewlineFrom(c1, from);
    FirstSpan(c1, from);
    if nl == |c1| {
      assert [] + Spans(c2, from) == Spans(c2, from);
    } else {
      NewlineInPrefix(c1, c2, from);
      FirstSpan(c2, from);
      SpansResume(c1, c2, nl + 1);
      Prepend((from, nl + 1), Spans(c1, from), Spans(c1, nl + 1), Spans(c2, from), Spans(c2, nl + 1), Spans(c2, End(c1, from)));
    }
  }

  lemma Prepend<T>(x: T, s1: seq<T>, t1: seq<T>, s2: seq<T>, t2: seq<T>, rest: seq<T>)
    requires s1 == [x] + t1 && s2 == [x] + t2 && t2 == t1 + rest
    ensures s2 == s1 + rest
  {
  }

  /** Reading an older version of the file to its end and the newer one from there misses nothing. */
  lemma LinesResume(source: string, c1: string, c2: string, from: nat)
    requires c1 <= c2 && from <= |c1|
    ensures Lines(source, c2, from) == Lines(source, c1, from) + Lines(source, c2, End(c1, from))
    ensures End(c2, from) == End(c2, End(c1, from))
  {
    SpansResume(c1, c2, from);
    EndResume(c1, c2, from);
    var front, rest := Spans(c1, from), Spans(c2, End(c1, from));
    EntriesInPrefix(source, c1, c2, front);
    EntriesConcat(source, c2, front, rest);
  }

  ghost predicate SpansFit(c: string, spans: seq<(nat, nat)>) {
    forall i :: 0 <= i < |spans| ==> spans[i].0 <= spans[i].1 <= |c|
  }

  lemma EntriesInPrefix(source: string, c1: string, c2: string, spans: seq<(nat, nat)>)
    requires c1 <= c2 && SpansFit(c1, spans)
    ensures SpansFit(c2, spans) && Entries(source, c2, spans) == Entries(source, c1, spans)
  {
    forall i | 0 <= i < |spans|
      ensures Entry(source, c2, spans[i]) == Entry(source, c1, spans[i])
    {
      assert c2[spans[i].0..spans[i].1] == c1[spans[i].0..spans[i].1];
    }
  }

  lemma EntriesConcat(source: string, c: string, a: seq<(nat, nat)>, b: seq<(nat, nat)>)
    requires SpansFit(c, a) && SpansFit(c, b)
    ensures SpansFit(c, a + b) && Entries(source, c, a + b) == Entries(source, c, a) + Entries(source, c, b)
  {
  }

  lemma {:induction false} SpansIncrease(c: string, from: nat)
    requires from <= |c|
    ensures forall i, j :: 0 <= i < j < |Spans(c, from)| ==> Spans(c, from)[i].0 < Spans(c, from)[j].0
    decreases |c| - from
  {
    var nl := NewlineFrom(c, from);
    if nl < |c| {
      SpansIncrease(c, nl + 1);
    }
  }

  lemma LinesWellFormed(source: string, c: string, from: nat)
    requires from <= |c|
    ensures OffsetsIncrease(Lines(source, c, from))
    ensures forall e :: e in Lines(source, c, from) ==> e.source == source && from <= e.offset < |c|
  {
    SpansIncrease(c, from);
  }

  // ----- what a line is -----

  predicate IsLineEnd(c: char) {
    c == '\r' || c == '\n'
  }

  lemma {:induction false} TrimmedHasNoLineEnds(bytes: string)
    ensures Trimmed(bytes, TrimEnd(bytes), IsLineEnd)
  {
    if bytes != "" && IsLineEnd(bytes[|bytes| - 1]) {
      var init, last := bytes[..|bytes| - 1], bytes[|bytes| - 1];
      TrimmedHasNoLineEnds(init);
      TrimmedMore(init, TrimEnd(init), last, IsLineEnd);
      assert bytes == init + [last];
    } else {
      TrimmedNothing(bytes, IsLineEnd);
    }
  }

  /** The stretch from `start` to `end` is one line: it ends with its only newline. */
  ghost predicate IsOneLine(content: string, start: nat, end: nat) {
    && start < end <= |content| && content[end - 1] == '\n'
    && forall k :: start <= k < end - 1 ==> content[k] != '\n'
  }

  /** The entry is the line from `start` to `end`. */
  ghost predicate EntryOf(source: string, content: string, start: nat, end: nat, e: LogEntry) {
    && IsOneLine(content, start, end)
    && e.source == source && e.offset == start && Trimmed(content[start..end], e.text, IsLineEnd)
  }

  /** Where each line ends: where the next one starts, and for the last at the end of what was read. */
  function EndOfLine(lines: seq<LogEntry>, end: nat, i: nat): nat
    requires i < |lines|
  {
    if i + 1 < |lines| then lines[i + 1].offset else end
  }

  /** Lines one after the other without a gap. */
  ghost predicate Tiled(c: string, spans: seq<(nat, nat)>, from: nat, end: nat) {
    && (if spans == [] then end == from else spans[0].0 == from)
    && forall i :: 0 <= i < |spans| ==> LineInPlace(c, spans, end, i)
  }

  ghost predicate LineInPlace(c: string, spans: seq<(nat, nat)>, end: nat, i: nat)
    requires i < |spans|
  {
    && IsOneLine(c, spans[i].0, spans[i].1)
    && spans[i].1 == if i + 1 < |spans| then spans[i + 1].0 else end
  }

  lemma TiledPrepend(c: string, first: (nat, nat), rest: seq<(nat, nat)>, end: nat)
    requires IsOneLine(c, first.0, first.1) && Tiled(c, rest, first.1, end)
    ensures Tiled(c, [first] + rest, first.0, end)
  {
    var spans := [first] + rest;
    assert LineInPlace(c, spans, end, 0);
    forall i | 1 <= i < |spans|
      ensures LineInPlace(c, spans, end, i)
    {
      assert LineInPlace(c, rest, end, i - 1);
    }
  }

  lemma {:induction false} SpansTile(c: string, from: nat)
    requires from <= |c|
    ensures Tiled(c, Spans(c, from), from, End(c, from))
    decreases |c| - from
  {
    var nl := NewlineFrom(c, from);
    FirstSpan(c, from);
    if nl < |c| {
      SpansTile(c, nl + 1);
      TiledPrepend(c, (from, nl + 1), Spans(c, nl + 1), End(c, from));
    }
  }

  /**
   What is read, in terms of the bytes: the lines are the stretches between newlines from `from`
   on, one after the other without a gap, each entry at the byte it starts at and with its text
   less the carriage returns and newlines at its end; what follows the last has no newline.
   */
  lemma LinesAreTheFile(source: string, content: string, from: nat)
    requires from <= |content|
    ensures var lines, end := Lines(source, content, from), End(content, from);
            && from <= end <= |content| && (forall k :: end <= k < |content| ==> content[k] != '\n')
            && (if lines == [] then end == from else lines[0].offset == from)
            && forall i :: 0 <= i < |lines| ==> EntryOf(source, content, lines[i].offset, EndOfLine(lines, end, i), lines[i])
  {
    var spans, lines := Spans(content, from), Lines(source, content, from);
    SpansTile(content, from);
    NothingBehindEnd(content, from);
    forall i | 0 <= i < |lines|
      ensures EntryOf(source, content, lines[i].offset, EndOfLine(lines, End(content, from), i), lines[i])
    {
      assert LineInPlace(content, spans, End(content, from), i);
      EntryOfSpan(source, content, spans[i]);
      assert lines[i] == Entry(source, content, spans[i]);
      assert i + 1 < |lines| ==> lines[i + 1] == Entry(source, content, spans[i + 1]);
    }
  }

  lemma EntryOfSpan(source: string, content: string, span: (nat, nat))
    requires IsOneLine(content, span.0, span.1)
    ensures EntryOf(source, content, span.0, span.1, Entry(source, content, span))
  {
    TrimmedHasNoLineEnds(content[span.0..span.1]);
  }

  lemma {:induction false} NothingBehindEnd(content: string, from: nat)
    requires from <= |content|
    ensures forall k :: End(content, from) <= k < |content| ==> content[k] != '\n'
    decreases |content| - from
  {
    var nl := NewlineFrom(content, from);
    if nl < |content| {
      NothingBehindEnd(content, nl + 1);
    }
  }

  /** A line that ends as Windows ends its lines loses both bytes of the end, and nothing else. */
  lemma CarriageReturnGoes(source: string, text: string)
    requires '\n' !in text && (text != "" ==> !IsLineEnd(text[|text| - 1]))
    ensures Lines(source, text + "\r\n", 0) == [LogEntry(source, 0, text)]
  {
    var c := text + "\r\n";
    WindowsSpan(text);
    TrimmedHasNoLineEnds(c);
    assert Trimmed(c, text, IsLineEnd);
    TrimmedUnique(c, text, TrimEnd(c), IsLineEnd);
    assert c[0..|c|] == c;
  }

  lemma WindowsSpan(text: string)
    requires '\n' !in text
    ensures var c := text + "\r\n"; Spans(c, 0) == [(0, |c|)]
  {
    var c := text + "\r\n";
    assert c[|text|] == '\r' && c[|text| + 1] == '\n' && forall k :: 0 <= k < |text| ==> c[k] == text[k];
    assert NewlineFrom(c, 0) == |text| + 1;
    FirstSpan(c, 0);
    FirstSpan(c, |c|);
  }

  // ----- one drain -----

  /** What a drain reads: where it ends, the lines it buffers, and whether it gets to save the cursor. */
  datatype Plan = Plan(offset: nat, buffer: seq<LogEntry>, saves: bool)

  /**
   `atOpen` is the file as it was when the drain looked at its length (`None` when it is missing),
   `content` as it is when the drain has read to the end.
   */
  function DrainPlan(source: string, atOpen: Option<string>, content: string, offset: nat): Plan
    requires atOpen.Some? ==> atOpen.value <= content
  {
    if atOpen.None? then Plan(offset, [], false)
    else
      var start := if |atOpen.value| < offset then 0 else offset;
      if |atOpen.value| == start then Plan(start, [], false)
      else Plan(End(content, start), Lines(source, content, start), true)
  }

  /**
   The cases of a drain: a missing file or nothing new leaves everything; a file shorter than the
   offset is a new log, read from its first byte; otherwise reading goes on at the offset.
   */
  lemma DrainCases(source: string, atOpen: Option<string>, content: string, offset: nat)
    requires atOpen.Some? ==> atOpen.value <= content
    ensures var plan := DrainPlan(source, atOpen, content, offset);
            && (atOpen.None? || |atOpen.value| == offset ==> plan == Plan(offset, [], false))
            && (atOpen.Some? && 0 < |atOpen.value| < offset ==>
                  plan == Plan(End(content, 0), Lines(source, content, 0), true))
            && (atOpen == Some("") ==> plan == Plan(0, [], false))
            && (atOpen.Some? && |atOpen.value| > offset ==>
                  plan == Plan(End(content, offset), Lines(source, content, offset), true))
  {
  }

  function DrainedDb(g: Grammar, remote: seq<RemoteRule>, rules: seq<BurstRule>, db: S.Db, path: string, plan: Plan): S.Db {
    if !plan.saves then db
    else
      var processed := if plan.buffer == [] then db else ProcessedDb(g, remote, rules, db, plan.buffer);
      processed.(tailCursor := db.tailCursor[path := plan.offset])
  }

  /** One `read_line`: up to and including the next newline, or whatever is left. */
  function ReadLine(content: string, offset: nat): string
    requires offset <= |content|
  {
    var nl := NewlineFrom(content, offset);
    if nl == |content| then content[offset..] else content[offset..nl + 1]
  }

  /** A read ends with a newline exactly when there is one left. */
  lemma ReadLineEnds(content: string, offset: nat)
    requires offset <= |content|
    ensures var buf, nl := ReadLine(content, offset), NewlineFrom(content, offset);
            if nl < |content| then buf == content[offset..nl + 1] && |buf| == nl + 1 - offset && buf[|buf| - 1] == '\n'
            else buf == "" || buf[|buf| - 1] != '\n'
  {
    var buf, nl := ReadLine(content, offset), NewlineFrom(content, offset);
    assert buf != "" ==> buf[|buf| - 1] == content[offset + |buf| - 1];
  }

  lemma FirstLine(source: string, content: string, offset: nat)
    requires offset <= |content| && NewlineFrom(content, offset) < |content|
    ensures var next := NewlineFrom(content, offset) + 1;
            Lines(source, content, offset) == [Entry(source, content, (offset, next))] + Lines(source, content, next)
            && End(content, offset) == End(content, next)
  {
    var next := NewlineFrom(content, offset) + 1;
    FirstSpan(content, offset);
    EntriesConcat(source, content, [(offset, next)], Spans(content, next));
  }

  lemma ReadStep(source: string, content: string, offset: nat)
    requires offset <= |content|
    requires var buf := ReadLine(content, offset); buf != "" && buf[|buf| - 1] == '\n'
    ensures var buf := ReadLine(content, offset);
            && Lines(source, content, offset) == [LogEntry(source, offset, TrimEnd(buf))] + Lines(source, content, offset + |buf|)
            && End(content, offset) == End(content, offset + |buf|)
  {
    ReadLineEnds(content, offset);
    FirstLine(source, content, offset);
  }

  lemma Shift(a: seq<LogEntry>, x: LogEntry, b: seq<LogEntry>)
    ensures (a + [x]) + b == a + ([x] + b)
  {
  }

  /** Between two reads: what is buffered and what is left make up what there was. */
  ghost predicate ReadSoFar(source: string, content: string, start: nat, buffered: seq<LogEntry>, offset: nat) {
    && start <= offset <= |content|
    && buffered + Lines(source, content, offset) == Lines(source, content, start)
    && End(content, offset) == End(content, start)
  }

  lemma ReadOne(source: string, content: string, start: nat, buffered: seq<LogEntry>, offset: nat)
    requires ReadSoFar(source, content, start, buffered, offset)
    requires var buf := ReadLine(content, offset); buf != "" && buf[|buf| - 1] == '\n'
    ensures var buf := ReadLine(content, offset);
            ReadSoFar(source, content, start, buffered + [LogEntry(source, offset, TrimEnd(buf))], offset + |buf|)
  {
    var buf := ReadLine(content, offset);
    ReadStep(source, content, offset);
    Shift(buffered, LogEntry(source, offset, TrimEnd(buf)), Lines(source, content, offset + |buf|));
  }

  lemma ReadAll(source: string, content: string, start: nat, buffered: seq<LogEntry>, offset: nat)
    requires ReadSoFar(source, content, start, buffered, offset)
    requires var buf := ReadLine(content, offset); buf == "" || buf[|buf| - 1] != '\n'
    ensures start <= |content| && buffered == Lines(source, content, start) && offset == End(content, start)
  {
    ReadLineEnds(content, offset);
    assert Lines(source, content, offset) == [] && buffered + [] == buffered;
  }

  /** The read loop: buffer complete lines, leave a partial one for the next drain. */
  method ReadCompleteLines(source: string, content: string, start: nat) returns (buffered: seq<LogEntry>, offset: nat)
    requires start <= |content|
    ensures buffered == Lines(source, content, start)
    ensures offset == End(content, start)
  {
    offset, buffered := start, [];
    while true
      invariant offset <= |content| && ReadSoFar(source, content, start, buffered, offset)
      decreases |content| - offset
    {
      var lineStart := offset;
      var buf := ReadLine(content, offset);
      if buf == "" {
        break;
      }
      if buf[|buf| - 1] != '\n' {
        break;
      }
      ReadOne(source, content, start, buffered, offset);
      offset := offset + |buf|;
      buffered := buffered + [LogEntry(source, lineStart, TrimEnd(buf))];
    }
    ReadAll(source, content, start, buffered, offset);
  }

  method Drain(g: Grammar, remote: seq<RemoteRule>, rules: seq<BurstRule>, source: string, path: string,
               atOpen: Option<string>, content: string, offset: nat, storage: S.Storage, stats: PB.TailStats)
    returns (newOffset: nat)
    requires storage.Valid() && (atOpen.Some? ==> atOpen.value <= content)
    modifies storage, stats
    ensures storage.Valid()
    ensures var plan := DrainPlan(source, atOpen, content, offset);
            && newOffset == plan.offset
            && storage.State() == DrainedDb(g, remote, rules, old(storage.State()), path, plan)
            && stats.linesProcessed == old(stats.linesProcessed) + |plan.buffer|
            && stats.bytesRead == (if plan.buffer == [] then old(stats.bytesRead) else plan.offset)
            && stats.counts == (if plan.buffer == [] then old(stats.counts)
                                else PB.CountAll(old(stats.counts), PB.BufferOutcomes(g, remote, rules, old(storage.noise), plan.buffer)))
  {
    newOffset := offset;
    if atOpen.None? {
      return;
    }
    var length := |atOpen.value|;
    if length < newOffset {
      newOffset := 0;
    }
    if length == newOffset {
      return;
    }
    var buffered;
    buffered, newOffset := ReadCompleteLines(source, content, newOffset);
    if buffered != [] {
      PB.Process(g, remote, rules, buffered, storage, stats);
      ProcessedEvents(g, remote, rules, old(storage.State()), buffered);
      stats.bytesRead := newOffset;
      stats.linesProcessed := stats.linesProcessed + |buffered|;
    }
    storage.WriteCursor(path, newOffset);
  }
}
