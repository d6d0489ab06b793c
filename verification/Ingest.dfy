/**
 Ingest of buffered lines: bursts are collapsed to one summary each, every other line is
 classified and inserted on its own.
 */
module Ingest {
  import opened Prelude
  import opened Keys
  import opened Grammar
  import opened Bursts
  import opened EventTable
  import S = Storage

  /** A complete line with its channel and the byte offset it starts at. */
  datatype LogEntry = LogEntry(source: string, offset: nat, text: string)

  // ----- one line -----

  function LineOp(e: LogEntry, event: GameEvent): Op {
    Op(LineKey(e.source, e.offset, e.text), Serialised(event, e.text, e.source, e.offset))
  }

  /** The insertions made by lines that classify, in order. */
  function LineOps(g: Grammar, remote: seq<RemoteRule>, entries: seq<LogEntry>): seq<Op> {
    if entries == [] then []
    else
      var init, last := entries[..|entries| - 1], entries[|entries| - 1];
      var event := RecogniseText(g, remote, last.text);
      LineOps(g, remote, init) + if event.Some? then [LineOp(last, event.value)] else []
  }

  datatype Outcome = Skipped | Noise | StructuralOnly | Recognised(etype: EventType, timestamp: string)

  function OutcomeOf(g: Grammar, remote: seq<RemoteRule>, noise: map<string, string>, text: string): Outcome {
    match g.parse(text)
    case None => Skipped
    case Some(line) =>
      match Recognise(g, remote, line)
      case Some(event) => Recognised(TypeOf(event), TimestampOf(event))
      case None => if line.eventName.Some? && line.eventName.value in noise then Noise else StructuralOnly
  }

  /** Specification of ingesting one line. */
  function IngestLine(g: Grammar, remote: seq<RemoteRule>, db: S.Db, e: LogEntry): S.Db {
    match g.parse(e.text)
    case None => db
    case Some(line) =>
      match Recognise(g, remote, line)
      case Some(event) => db.(events := Insert(db.events, LineOp(e, event)))
      case None =>
        if line.eventName.None? || line.eventName.value in db.noise then db
        else db.(unknowns := S.RecordUnknown(db.unknowns, e.source, line.eventName.value, e.text, line.body))
  }

  function IngestAll(g: Grammar, remote: seq<RemoteRule>, db: S.Db, entries: seq<LogEntry>): S.Db {
    if entries == [] then db
    else IngestLine(g, remote, IngestAll(g, remote, db, entries[..|entries| - 1]), entries[|entries| - 1])
  }

  method IngestOneLine(g: Grammar, remote: seq<RemoteRule>, storage: S.Storage, e: LogEntry)
    returns (outcome: Outcome)
    requires storage.Valid()
    modifies storage
    ensures storage.Valid()
    ensures storage.State() == IngestLine(g, remote, old(storage.State()), e)
    ensures outcome == OutcomeOf(g, remote, old(storage.noise), e.text)
  {
    var parsed := g.parse(e.text);
    if parsed.None? {
      return Skipped;
    }
    var line := parsed.value;
    var event := RecogniseLine(g, remote, line);
    if event.None? {
      if line.eventName.Some? {
        var noisy := storage.IsNoise(line.eventName.value);
        if noisy {
          return Noise;
        }
        storage.RecordUnknownSample(e.source, line.eventName.value, e.text, line.body);
      }
      return StructuralOnly;
    }
    storage.InsertEvent(LineOp(e, event.value));
    return Recognised(TypeOf(event.value), TimestampOf(event.value));
  }

  // ----- the parseable view of a batch -----

  /** Parsed lines with their positions in the batch; what the burst matcher sees. */
  function Project(parsed: seq<Option<LogLine>>): (view: seq<(nat, LogLine)>)
    ensures forall v :: v in view ==> v.0 < |parsed| && parsed[v.0] == Some(v.1)
  {
    if parsed == [] then []
    else
      var init, last := parsed[..|parsed| - 1], parsed[|parsed| - 1];
      Project(init) + if last.Some? then [(|parsed| - 1, last.value)] else []
  }

  function LinesOf(view: seq<(nat, LogLine)>): (window: Window)
    ensures |window| == |view|
  {
    seq(|view|, i requires 0 <= i < |view| => view[i].1)
  }

  ghost predicate PositionsIncrease(view: seq<(nat, LogLine)>) {
    forall i, j :: 0 <= i < j < |view| ==> view[i].0 < view[j].0
  }

  lemma {:induction false} ProjectIncreases(parsed: seq<Option<LogLine>>)
    ensures PositionsIncrease(Project(parsed))
    ensures forall k :: 0 <= k < |parsed| && parsed[k].Some? ==> exists i :: 0 <= i < |Project(parsed)| && Project(parsed)[i].0 == k
  {
    if parsed != [] {
      var init := parsed[..|parsed| - 1];
      ProjectIncreases(init);
      var before, view := Project(init), Project(parsed);
      forall i, j | 0 <= i < j < |view|
        ensures view[i].0 < view[j].0
      {
        assert before[i] in before && view[i] == before[i];
        if j < |before| {
          assert view[j] == before[j];
        } else {
          assert before[i].0 < |init| == view[j].0;
        }
      }
      forall k | 0 <= k < |parsed| && parsed[k].Some?
        ensures exists i :: 0 <= i < |view| && view[i].0 == k
      {
        if k < |init| {
          assert init[k].Some?;
          var i :| 0 <= i < |before| && before[i].0 == k;
          assert view[i].0 == k;
        } else {
          assert view[|view| - 1].0 == k;
        }
      }
    }
  }

  /** Positions in the batch of the members of one burst. */
  function Positions(view: seq<(nat, LogLine)>, hit: BurstHit): (positions: set<nat>)
    requires HitFits(|view|, hit)
  {
    set m | m in hit.memberIndices :: view[m].0
  }

  /** Positions in the batch claimed by some burst. */
  function Suppressed(view: seq<(nat, LogLine)>, hits: seq<BurstHit>): (positions: set<nat>)
    requires forall h :: h in hits ==> HitFits(|view|, h)
  {
    if hits == [] then {}
    else
      var init, last := hits[..|hits| - 1], hits[|hits| - 1];
      assert hits == init + [last];
      Suppressed(view, init) + Positions(view, last)
  }

  lemma {:induction false} SuppressedMembers(view: seq<(nat, LogLine)>, hits: seq<BurstHit>, p: nat)
    requires forall h :: h in hits ==> HitFits(|view|, h)
    ensures p in Suppressed(view, hits) <==> exists h :: h in hits && p in Positions(view, h)
  {
    if hits != [] {
      var init, last := hits[..|hits| - 1], hits[|hits| - 1];
      assert hits == init + [last];
      SuppressedMembers(view, init, p);
    }
  }

  function SummaryEvent(g: Grammar, view: seq<(nat, LogLine)>, hit: BurstHit): GameEvent
    requires HitFits(|view|, hit)
  {
    var anchor, end := view[hit.startIndex].1, view[hit.endIndex].1;
    var sample := g.clip(anchor.body);
    BurstSummary(anchor.timestamp, hit.ruleId, hit.size, end.timestamp, if sample == "" then None else Some(sample))
  }

  /** The insertion that stands for a burst, keyed on its anchor, its rule and its size. */
  function SummaryOp(g: Grammar, entries: seq<LogEntry>, view: seq<(nat, LogLine)>, hit: BurstHit): (op: Op)
    requires HitFits(|view|, hit) && view[hit.startIndex].0 < |entries|
    ensures op.content.etype == TBurstSummary && Consistent(op.content)
  {
    var anchor := entries[view[hit.startIndex].0];
    Op(BurstKey(anchor.source, anchor.offset, anchor.text, hit.ruleId, hit.size),
       Serialised(SummaryEvent(g, view, hit), anchor.text, anchor.source, anchor.offset))
  }

  function SummaryOps(g: Grammar, entries: seq<LogEntry>, view: seq<(nat, LogLine)>, hits: seq<BurstHit>): (ops: seq<Op>)
    requires GoodHits(|view|, hits) && forall v :: v in view ==> v.0 < |entries|
    ensures |ops| == |hits|
  {
    seq(|hits|, i requires 0 <= i < |hits| => 
      assert hits[i] in hits && view[hits[i].startIndex] in view; SummaryOp(g, entries, view, hits[i]))
  }

  /** The entries at positions that no burst claimed, in order. */
  function Kept(entries: seq<LogEntry>, suppressed: set<nat>): seq<LogEntry> {
    if entries == [] then []
    else
      var n := |entries| - 1;
      Kept(entries[..n], suppressed) + if n in suppressed then [] else [entries[n]]
  }

  // ----- a whole buffer -----

  function ParsedLines(g: Grammar, buffer: seq<LogEntry>): (parsed: seq<Option<LogLine>>)
    ensures |parsed| == |buffer|
  {
    seq(|buffer|, i requires 0 <= i < |buffer| => g.parse(buffer[i].text))
  }

  function BufferView(g: Grammar, buffer: seq<LogEntry>): (view: seq<(nat, LogLine)>)
    ensures forall v :: v in view ==> v.0 < |buffer| && g.parse(buffer[v.0].text) == Some(v.1)
  {
    Project(ParsedLines(g, buffer))
  }

  function BufferHits(g: Grammar, rules: seq<BurstRule>, buffer: seq<LogEntry>): (hits: seq<BurstHit>)
    ensures GoodHits(|BufferView(g, buffer)|, hits)
  {
    var window := LinesOf(BufferView(g, buffer));
    BurstsAreGood(window, rules);
    BurstsOf(window, rules)
  }

  function BufferSuppressed(g: Grammar, rules: seq<BurstRule>, buffer: seq<LogEntry>): set<nat> {
    Suppressed(BufferView(g, buffer), BufferHits(g, rules, buffer))
  }

  function BufferSummaries(g: Grammar, rules: seq<BurstRule>, buffer: seq<LogEntry>): seq<Op> {
    SummaryOps(g, buffer, BufferView(g, buffer), BufferHits(g, rules, buffer))
  }

  function BufferLines(g: Grammar, rules: seq<BurstRule>, buffer: seq<LogEntry>): seq<LogEntry> {
    Kept(buffer, BufferSuppressed(g, rules, buffer))
  }

  /** Every insertion one buffer makes, in order: the summaries, then the lines left over. */
  function BufferOps(g: Grammar, remote: seq<RemoteRule>, rules: seq<BurstRule>, buffer: seq<LogEntry>): seq<Op> {
    BufferSummaries(g, rules, buffer) + LineOps(g, remote, BufferLines(g, rules, buffer))
  }

  /** Specification of processing a buffer. */
  function ProcessedDb(g: Grammar, remote: seq<RemoteRule>, rules: seq<BurstRule>, db: S.Db, buffer: seq<LogEntry>): S.Db {
    IngestAll(g, remote, db.(events := InsertAll(db.events, BufferSummaries(g, rules, buffer))),
              BufferLines(g, rules, buffer))
  }

  lemma {:induction false} IngestAllEvents(g: Grammar, remote: seq<RemoteRule>, db: S.Db, entries: seq<LogEntry>)
    ensures IngestAll(g, remote, db, entries).events == InsertAll(db.events, LineOps(g, remote, entries))
    ensures IngestAll(g, remote, db, entries).noise == db.noise
    ensures IngestAll(g, remote, db, entries).tailCursor == db.tailCursor
    ensures IngestAll(g, remote, db, entries).syncCursor == db.syncCursor
  {
    if entries != [] {
      var init, last := entries[..|entries| - 1], entries[|entries| - 1];
      IngestAllEvents(g, remote, db, init);
      var event := RecogniseText(g, remote, last.text);
      var before := LineOps(g, remote, init);
      if event.Some? {
        assert (before + [LineOp(last, event.value)])[..|before|] == before;
      } else {
        assert before + [] == before;
      }
    }
  }

  /** On the events table a buffer is exactly its list of insertions. */
  lemma ProcessedEvents(g: Grammar, remote: seq<RemoteRule>, rules: seq<BurstRule>, db: S.Db, buffer: seq<LogEntry>)
    ensures ProcessedDb(g, remote, rules, db, buffer).events == InsertAll(db.events, BufferOps(g, remote, rules, buffer))
    ensures ProcessedDb(g, remote, rules, db, buffer).noise == db.noise
    ensures ProcessedDb(g, remote, rules, db, buffer).tailCursor == db.tailCursor
    ensures ProcessedDb(g, remote, rules, db, buffer).syncCursor == db.syncCursor
  {
    var summaries := BufferSummaries(g, rules, buffer);
    var lines := BufferLines(g, rules, buffer);
    IngestAllEvents(g, remote, db.(events := InsertAll(db.events, summaries)), lines);
    InsertAllConcat(db.events, summaries, LineOps(g, remote, lines));
  }

  // ----- membership facts about the insertions -----

  lemma {:induction false} LineOpsMembers(g: Grammar, remote: seq<RemoteRule>, entries: seq<LogEntry>)
    ensures forall op :: op in LineOps(g, remote, entries) <==>
              exists e :: e in entries && RecogniseText(g, remote, e.text).Some?
                          && op == LineOp(e, RecogniseText(g, remote, e.text).value)
  {
    if entries != [] {
      var init, last := entries[..|entries| - 1], entries[|entries| - 1];
      assert entries == init + [last];
      LineOpsMembers(g, remote, init);
    }
  }

  lemma {:induction false} KeptMembers(entries: seq<LogEntry>, suppressed: set<nat>)
    ensures forall e :: e in Kept(entries, suppressed) <==>
              exists i :: 0 <= i < |entries| && i !in suppressed && entries[i] == e
  {
    if entries != [] {
      var n := |entries| - 1;
      var init := entries[..n];
      KeptMembers(init, suppressed);
      forall e | e in Kept(entries, suppressed)
        ensures exists i :: 0 <= i < |entries| && i !in suppressed && entries[i] == e
      {
        if e in Kept(init, suppressed) {
          var i :| 0 <= i < |init| && i !in suppressed && init[i] == e;
          assert entries[i] == e;
        }
      }
      forall i | 0 <= i < |entries| && i !in suppressed
        ensures entries[i] in Kept(entries, suppressed)
      {
        if i < n {
          assert init[i] == entries[i];
        }
      }
    }
  }

  /** The insertions of one buffer line. */
  lemma KeptLineOp(g: Grammar, remote: seq<RemoteRule>, rules: seq<BurstRule>, buffer: seq<LogEntry>, i: nat)
    requires i < |buffer| && i !in BufferSuppressed(g, rules, buffer)
    requires RecogniseText(g, remote, buffer[i].text).Some?
    ensures LineOp(buffer[i], RecogniseText(g, remote, buffer[i].text).value) in BufferOps(g, remote, rules, buffer)
  {
    KeptMembers(buffer, BufferSuppressed(g, rules, buffer));
    LineOpsMembers(g, remote, BufferLines(g, rules, buffer));
    assert buffer[i] in BufferLines(g, rules, buffer);
  }
}
