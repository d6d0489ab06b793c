/**
 One-shot ingest of archived logs: resumable from a saved cursor (`backfill_file`) or forced from
 the first byte (`run_reingest`). Lines are ingested one by one, without burst collapsing.
 */
module Backfill {
  import opened Prelude
  import opened Keys
  import opened Grammar
  import opened EventTable
  import opened Ingest
  import opened IngestLaws
  import opened Tail
  import S = Storage

  class BackfillStats {
    var filesProcessed: nat
    var filesAlreadyDone: nat
    var linesProcessed: nat
    var eventsRecognised: nat

    constructor ()
      ensures filesProcessed == 0 && filesAlreadyDone == 0 && linesProcessed == 0 && eventsRecognised == 0
    {
      filesProcessed, filesAlreadyDone, linesProcessed, eventsRecognised := 0, 0, 0, 0;
    }
  }

  /** The store after every complete line from `start` on was ingested and the cursor parked. */
  function IngestedFile(g: Grammar, remote: seq<RemoteRule>, db: S.Db, source: string, path: string, content: string, start: nat): S.Db
    requires start <= |content|
  {
    var ingested := IngestAll(g, remote, db, Lines(source, content, start));
    ingested.(tailCursor := ingested.tailCursor[path := End(content, start)])
  }

  function Recognised(g: Grammar, remote: seq<RemoteRule>, entries: seq<LogEntry>): nat {
    |LineOps(g, remote, entries)|
  }

  /** The events counter is the number of lines that read as an event, stored before or not. */
  lemma {:induction false} RecognisedIsCount(g: Grammar, remote: seq<RemoteRule>, entries: seq<LogEntry>)
    ensures Recognised(g, remote, entries) == |RecognisedAt(g, remote, entries)|
  {
    if entries != [] {
      var n := |entries| - 1;
      RecognisedIsCount(g, remote, entries[..n]);
      OneMore(RecognisedAt(g, remote, entries[..n]), RecognisedAt(g, remote, entries), n,
              RecogniseText(g, remote, entries[n].text).Some?);
    }
  }

  ghost function RecognisedAt(g: Grammar, remote: seq<RemoteRule>, entries: seq<LogEntry>): set<nat> {
    set i | 0 <= i < |entries| && RecogniseText(g, remote, entries[i].text).Some?
  }

  lemma {:induction false} LineOpsConcat(g: Grammar, remote: seq<RemoteRule>, a: seq<LogEntry>, b: seq<LogEntry>)
    ensures LineOps(g, remote, a + b) == LineOps(g, remote, a) + LineOps(g, remote, b)
  {
    if b == [] {
      assert a + b == a;
    } else {
      assert (a + b)[..|a + b| - 1] == a + b[..|b| - 1];
      LineOpsConcat(g, remote, a, b[..|b| - 1]);
    }
  }

  lemma IngestStep(g: Grammar, remote: seq<RemoteRule>, db: S.Db, done: seq<LogEntry>, e: LogEntry)
    ensures IngestAll(g, remote, db, done + [e]) == IngestLine(g, remote, IngestAll(g, remote, db, done), e)
    ensures Recognised(g, remote, done + [e]) == Recognised(g, remote, done) + if RecogniseText(g, remote, e.text).Some? then 1 else 0
  {
    assert (done + [e])[..|done|] == done;
  }

  /** Between two reads: what was ingested so far and what was counted. */
  ghost predicate IngestedSoFar(g: Grammar, remote: seq<RemoteRule>, db: S.Db, done: seq<LogEntry>, now: S.Db, lines: nat, events: nat) {
    now == IngestAll(g, remote, db, done) && lines == |done| && events == Recognised(g, remote, done)
  }

  lemma IngestNext(g: Grammar, remote: seq<RemoteRule>, db: S.Db, done: seq<LogEntry>, now: S.Db, lines: nat, events: nat, e: LogEntry)
    requires IngestedSoFar(g, remote, db, done, now, lines, events)
    ensures IngestedSoFar(g, remote, db, done + [e], IngestLine(g, remote, now, e), lines + 1,
                          events + if OutcomeOf(g, remote, now.noise, e.text).Recognised? then 1 else 0)
  {
    IngestStep(g, remote, db, done, e);
  }

  /** The read loop shared by both commands. */
  method IngestFrom(g: Grammar, remote: seq<RemoteRule>, storage: S.Storage, source: string, content: string, start: nat)
    returns (offset: nat, lines: nat, events: nat)
    requires storage.Valid() && start <= |content|
    modifies storage
    ensures storage.Valid()
    ensures storage.State() == IngestAll(g, remote, old(storage.State()), Lines(source, content, start))
    ensures offset == End(content, start)
    ensures lines == |Lines(source, content, start)|
    ensures events == Recognised(g, remote, Lines(source, content, start))
  {
    ghost var done: seq<LogEntry> := [];
    offset, lines, events := start, 0, 0;
    while true
      invariant storage.Valid()
      invariant offset <= |content| && ReadSoFar(source, content, start, done, offset)
      invariant IngestedSoFar(g, remote, old(storage.State()), done, storage.State(), lines, events)
      decreases |content| - offset
    {
      var lineStart := offset;
      var buf := ReadLine(content, offset);
      if buf == "" {
        break;
      }
      if buf[|buf| - 1] != '\n' {
        break;
      }
      ReadOne(source, content, start, done, offset);
      var entry := LogEntry(source, lineStart, TrimEnd(buf));
      IngestNext(g, remote, old(storage.State()), done, storage.State(), lines, events, entry);
      offset, lines := offset + |buf|, lines + 1;
      var outcome := IngestOneLine(g, remote, storage, entry);
      if outcome.Recognised? {
        events := events + 1;
      }
      done := done + [entry];
    }
    ReadAll(source, content, start, done, offset);
  }

  method BackfillFile(g: Grammar, remote: seq<RemoteRule>, source: string, path: string, file: Option<string>,
                      storage: S.Storage, stats: BackfillStats)
    requires storage.Valid()
    modifies storage, stats
    ensures storage.Valid()
    ensures var start := S.TailCursor(old(storage.State()), path);
            if file.None? || start >= |file.value| then
              && storage.State() == old(storage.State())
              && stats.filesAlreadyDone == old(stats.filesAlreadyDone) + 1
              && stats.filesProcessed == old(stats.filesProcessed)
              && stats.linesProcessed == old(stats.linesProcessed)
              && stats.eventsRecognised == old(stats.eventsRecognised)
            else
              && storage.State() == IngestedFile(g, remote, old(storage.State()), source, path, file.value, start)
              && stats.filesAlreadyDone == old(stats.filesAlreadyDone)
              && stats.filesProcessed == old(stats.filesProcessed) + 1
              && stats.linesProcessed == old(stats.linesProcessed) + |Lines(source, file.value, start)|
              && stats.eventsRecognised == old(stats.eventsRecognised) + Recognised(g, remote, Lines(source, file.value, start))
  {
    if file.None? {
      stats.filesAlreadyDone := stats.filesAlreadyDone + 1;
      return;
    }
    var start := storage.ReadCursor(path);
    if start >= |file.value| {
      stats.filesAlreadyDone := stats.filesAlreadyDone + 1;
      return;
    }
    var offset, lines, events := IngestFrom(g, remote, storage, source, file.value, start);
    storage.WriteCursor(path, offset);
    stats.filesProcessed := stats.filesProcessed + 1;
    stats.linesProcessed := stats.linesProcessed + lines;
    stats.eventsRecognised := stats.eventsRecognised + events;
  }

  method ReingestFile(g: Grammar, remote: seq<RemoteRule>, source: string, path: string, content: string, storage: S.Storage)
    returns (lines: nat, events: nat)
    requires storage.Valid()
    modifies storage
    ensures storage.Valid()
    ensures storage.State() == IngestedFile(g, remote, old(storage.State()), source, path, content, 0)
    ensures lines == |Lines(source, content, 0)| && events == Recognised(g, remote, Lines(source, content, 0))
  {
    var offset;
    offset, lines, events := IngestFrom(g, remote, storage, source, content, 0);
    storage.WriteCursor(path, offset);
  }

  // ----- resuming equals starting over -----

  /** Every recognised line before `cursor` already has its row. */
  ghost predicate EarlierLinesStored(g: Grammar, remote: seq<RemoteRule>, db: S.Db, source: string, content: string, cursor: nat)
    requires cursor <= |content|
  {
    forall e :: e in Lines(source, content[..cursor], 0) && RecogniseText(g, remote, e.text).Some?
                ==> LineKey(e.source, e.offset, e.text) in Rows(db)
  }

  lemma LinesAtCursor(source: string, content: string, cursor: nat)
    requires AtBoundary(content, cursor)
    ensures Lines(source, content, 0) == Lines(source, content[..cursor], 0) + Lines(source, content, cursor)
    ensures End(content, 0) == End(content, cursor)
  {
    var before := content[..cursor];
    EndIsLastBoundary(before, 0);
    assert cursor > 0 ==> before[cursor - 1] == '\n';
    LinesResume(source, before, content, 0);
  }

  /**
   A backfill resumed at a line boundary, with the earlier lines in the store, leaves the same
   events table and the same cursor as a reingest of the whole file.
   */
  lemma ResumeEqualsReingest(g: Grammar, remote: seq<RemoteRule>, db: S.Db, source: string, path: string, content: string, cursor: nat)
    requires AtBoundary(content, cursor) && EarlierLinesStored(g, remote, db, source, content, cursor)
    ensures IngestedFile(g, remote, db, source, path, content, cursor).events
            == IngestedFile(g, remote, db, source, path, content, 0).events
    ensures IngestedFile(g, remote, db, source, path, content, cursor).tailCursor
            == IngestedFile(g, remote, db, source, path, content, 0).tailCursor
  {
    var early, late := Lines(source, content[..cursor], 0), Lines(source, content, cursor);
    LinesAtCursor(source, content, cursor);
    LineOpsConcat(g, remote, early, late);
    IngestAllEvents(g, remote, db, late);
    IngestAllEvents(g, remote, db, early + late);
    InsertAllConcat(db.events, LineOps(g, remote, early), LineOps(g, remote, late));
    LineOpsMembers(g, remote, early);
    InsertAllAbsorbed(db.events, LineOps(g, remote, early));
  }

  /**
   A backfill resumed under the right conditions leaves the right conditions for the next, also
   when the file has grown in the meantime; so the claim above holds along any chain of them.
   */
  lemma BackfillCanBeResumed(g: Grammar, remote: seq<RemoteRule>, db: S.Db, source: string, path: string,
                             content: string, cursor: nat, grown: string)
    requires AtBoundary(content, cursor) && EarlierLinesStored(g, remote, db, source, content, cursor)
    requires content <= grown
    ensures var after, end := IngestedFile(g, remote, db, source, path, content, cursor), End(content, cursor);
            && AtBoundary(grown, end) && S.TailCursor(after, path) == end
            && EarlierLinesStored(g, remote, after, source, grown, end)
  {
    var end, early, late := End(content, cursor), Lines(source, content[..cursor], 0), Lines(source, content, cursor);
    EndIsLastBoundary(content, cursor);
    assert end > 0 ==> grown[end - 1] == content[end - 1];
    LinesAtCursor(source, content, cursor);
    LinesAtCursor(source, content, end);
    assert grown[..end] == content[..end];
    EndIsLastBoundary(content, 0);
    assert Lines(source, content, end) == [] && Lines(source, content[..end], 0) == early + late;
    IngestAllEvents(g, remote, db, late);
    InsertAllGrows(db.events, LineOps(g, remote, late));
    forall e: LogEntry | e in early + late && RecogniseText(g, remote, e.text).Some?
      ensures LineKey(e.source, e.offset, e.text) in Rows(IngestAll(g, remote, db, late))
    {
      if e in late {
        IngestedLineHasRow(g, remote, db, late, e);
      }
    }
  }

  lemma IngestedLineHasRow(g: Grammar, remote: seq<RemoteRule>, db: S.Db, entries: seq<LogEntry>, e: LogEntry)
    requires e in entries && RecogniseText(g, remote, e.text).Some?
    ensures LineKey(e.source, e.offset, e.text) in Rows(IngestAll(g, remote, db, entries))
  {
    IngestAllEvents(g, remote, db, entries);
    LineOpsMembers(g, remote, entries);
    InsertAllGrows(db.events, LineOps(g, remote, entries));
    assert LineOp(e, RecogniseText(g, remote, e.text).value) in LineOps(g, remote, entries);
  }

  /** One backfill of a file from its saved cursor. */
  function Backfilled(g: Grammar, remote: seq<RemoteRule>, db: S.Db, source: string, path: string, content: string): S.Db {
    var start := S.TailCursor(db, path);
    if start >= |content| then db else IngestedFile(g, remote, db, source, path, content, start)
  }

  function BackfilledAll(g: Grammar, remote: seq<RemoteRule>, db: S.Db, source: string, path: string, versions: seq<string>): S.Db {
    if versions == [] then db
    else Backfilled(g, remote, BackfilledAll(g, remote, db, source, path, versions[..|versions| - 1]), source, path, versions[|versions| - 1])
  }

  ghost predicate Growing(versions: seq<string>) {
    forall i :: 0 <= i < |versions| - 1 ==> versions[i] <= versions[i + 1]
  }

  /**
   Backfilling a file again and again while it grows, each time from the saved cursor, leaves the
   very events, ids included, of ingesting its final contents once; the cursor is at its last line.
   */
  lemma {:induction false} BackfillsEqualOneIngest(g: Grammar, remote: seq<RemoteRule>, db: S.Db, source: string, path: string,
                                                   versions: seq<string>)
    requires versions != [] && Growing(versions) && S.TailCursor(db, path) == 0
    ensures var after, content := BackfilledAll(g, remote, db, source, path, versions), versions[|versions| - 1];
            && after.events == IngestAll(g, remote, db, Lines(source, content, 0)).events
            && S.TailCursor(after, path) == End(content, 0)
  {
    var init, content := versions[..|versions| - 1], versions[|versions| - 1];
    var before, earlier := BackfilledAll(g, remote, db, source, path, init), if init == [] then "" else init[|init| - 1];
    if init != [] {
      BackfillsEqualOneIngest(g, remote, db, source, path, init);
    }
    assert Lines(source, "", 0) == [];
    BackfillsOnce(g, remote, db, before, source, path, earlier, content);
  }

  lemma BackfillsOnce(g: Grammar, remote: seq<RemoteRule>, db: S.Db, before: S.Db, source: string, path: string,
                      earlier: string, content: string)
    requires earlier <= content && S.TailCursor(before, path) == End(earlier, 0)
    requires before.events == IngestAll(g, remote, db, Lines(source, earlier, 0)).events
    ensures var after := Backfilled(g, remote, before, source, path, content);
            && after.events == IngestAll(g, remote, db, Lines(source, content, 0)).events
            && S.TailCursor(after, path) == End(content, 0)
  {
    var start := End(earlier, 0);
    var early, late := Lines(source, earlier, 0), Lines(source, content, start);
    LinesResume(source, earlier, content, 0);
    LineOpsConcat(g, remote, early, late);
    IngestAllEvents(g, remote, before, late);
    IngestAllEvents(g, remote, db, early);
    IngestAllEvents(g, remote, db, early + late);
    InsertAllConcat(db.events, LineOps(g, remote, early), LineOps(g, remote, late));
    if start >= |content| {
      assert late == [] && early + late == early;
    }
  }
}
