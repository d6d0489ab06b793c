/**
 Which recognised lines the store still stands for, over runs of drains, crashes, backfills and
 re-parses: a line stands while its own row is stored or a stored burst summary covers it.
 */
module Representation {
  import opened Prelude
  import opened Keys
  import opened Grammar
  import opened Bursts
  import opened EventTable
  import opened Ingest
  import opened IngestLaws
  import opened Collapse
  import opened CollapseLaws
  import opened CrashReplays
  import opened PassEvents
  import opened Reparse
  import R = Reclassify
  import U = Unknowns
  import S = Storage

  // ----- a whole re-parse -----

  /** The table phase 3 starts from. */
  function BeforePass(g: Grammar, remote: seq<RemoteRule>, db: S.Db, order: seq<U.SampleId>): Table {
    WalkedAndPromoted(g, remote, db, order).events
  }

  lemma BeforePassValid(g: Grammar, remote: seq<RemoteRule>, db: S.Db, order: seq<U.SampleId>)
    requires ValidTable(db.events)
    ensures ValidTable(BeforePass(g, remote, db, order))
  {
    R.RowsAfterValid(g, remote, db.events);
    PromotionsAreOrdinary(g, remote, db.unknowns, order);
    InsertAllValid(Walked(g, remote, db).events, U.PromotionOps(g, remote, db.unknowns, order));
  }

  lemma {:induction false} WalkKeepsKeys(g: Grammar, remote: seq<RemoteRule>, rows: seq<Row>, key: Key)
    ensures key in Contents(R.RowsAfter(g, remote, rows)) <==> key in Contents(rows)
  {
    var after := R.RowsAfter(g, remote, rows);
    KeyHasRow(rows, key);
    KeyHasRow(after, key);
    if key in Contents(rows) {
      var r :| r in rows && r.key == key;
      var i :| 0 <= i < |rows| && rows[i] == r;
      assert after[i].key == key && after[i] in after;
    }
    if key in Contents(after) {
      var r :| r in after && r.key == key;
      var i :| 0 <= i < |after| && after[i] == r;
      assert rows[i].key == key && rows[i] in rows;
    }
  }

  /** Phase 1 keeps the summaries whose anchor line does not classify, and makes none. */
  lemma WalkSummaries(g: Grammar, remote: seq<RemoteRule>, rows: seq<Row>, r: Row)
    requires r.content.etype == TBurstSummary
    ensures r in R.RowsAfter(g, remote, rows) <==> r in rows && !Overwritten(g, remote, r)
  {
    var after := R.RowsAfter(g, remote, rows);
    if r in after {
      var i :| 0 <= i < |after| && after[i] == r;
      NoNewSummary(g, remote, rows, i);
      assert rows[i] in rows;
    }
    if r in rows && !Overwritten(g, remote, r) {
      var i :| 0 <= i < |rows| && rows[i] == r;
      NoNewSummary(g, remote, rows, i);
      assert after[i] in after;
    }
  }

  lemma NoNewSummary(g: Grammar, remote: seq<RemoteRule>, rows: seq<Row>, i: nat)
    requires i < |rows|
    ensures R.RowAfter(g, remote, rows, i).content.etype == TBurstSummary
            <==> rows[i].content.etype == TBurstSummary && !Overwritten(g, remote, rows[i])
    ensures rows[i].content.etype == TBurstSummary && !Overwritten(g, remote, rows[i]) ==> R.RowAfter(g, remote, rows, i) == rows[i]
  {
  }

  lemma {:induction false} InsertedRows(t: Table, ops: seq<Op>, r: Row)
    ensures r in t.rows ==> r in InsertAll(t, ops).rows
    ensures r in InsertAll(t, ops).rows ==> r in t.rows || Op(r.key, r.content) in ops
  {
    if ops != [] {
      var init, last := ops[..|ops| - 1], ops[|ops| - 1];
      assert ops == init + [last];
      InsertedRows(t, init, r);
    }
  }

  /** Before phase 3 a key holds a summary iff the store had one there that phase 1 left alone. */
  lemma SummaryBeforePass(g: Grammar, remote: seq<RemoteRule>, db: S.Db, order: seq<U.SampleId>, key: Key)
    ensures HasSummary(BeforePass(g, remote, db, order).rows, key)
            <==> exists r :: r in db.events.rows && r.key == key && r.content.etype == TBurstSummary && !Overwritten(g, remote, r)
  {
    var before := BeforePass(g, remote, db, order).rows;
    forall r: Row | r.content.etype == TBurstSummary
      ensures r in before <==> r in db.events.rows && !Overwritten(g, remote, r)
    {
      SummaryRowBeforePass(g, remote, db, order, r);
    }
  }

  lemma SummaryRowBeforePass(g: Grammar, remote: seq<RemoteRule>, db: S.Db, order: seq<U.SampleId>, r: Row)
    requires r.content.etype == TBurstSummary
    ensures r in BeforePass(g, remote, db, order).rows <==> r in db.events.rows && !Overwritten(g, remote, r)
  {
    var ops := U.PromotionOps(g, remote, db.unknowns, order);
    WalkSummaries(g, remote, db.events.rows, r);
    PromotionsAreOrdinary(g, remote, db.unknowns, order);
    InsertedRows(Walked(g, remote, db).events, ops, r);
    assert Op(r.key, r.content) in ops ==> TypeOf(r.content.payload) == TBurstSummary;
  }

  /** Before phase 3 a key is stored iff the store had it or a sample is promoted under it. */
  lemma KeyBeforePass(g: Grammar, remote: seq<RemoteRule>, db: S.Db, order: seq<U.SampleId>, key: Key)
    ensures key in Contents(BeforePass(g, remote, db, order).rows)
            <==> key in Contents(db.events.rows) || Inserts(U.PromotionOps(g, remote, db.unknowns, order), key)
  {
    var walked, ops := Walked(g, remote, db).events, U.PromotionOps(g, remote, db.unknowns, order);
    WalkKeepsKeys(g, remote, db.events.rows, key);
    InsertAllIsPutAll(walked, ops);
    KeysPut(Contents(walked.rows), ops, key);
  }

  /**
   When a re-parse keeps what the store stands for. A stored summary stays iff its anchor line
   does not classify. Every row there is before phase 3 is kept, itself or behind a stored summary
   of its burst, iff no burst found then has its summary key held by an ordinary row that no
   earlier burst removes in time. That key may well be held by a summary phase 1 has just
   overwritten, which is then a member of the very burst.
   */
  lemma ReparseKeepsRowsIff(g: Grammar, remote: seq<RemoteRule>, rules: seq<BurstRule>, db: S.Db, order: seq<U.SampleId>)
    requires ValidTable(db.events)
    ensures var before, after := BeforePass(g, remote, db, order), Reparsed(g, remote, rules, db, order).events;
            var events := EventsOf(g, rules, before);
            && (forall r :: r in db.events.rows && r.content.etype == TBurstSummary ==>
                  (r in after.rows <==> !Overwritten(g, remote, r)))
            && ((forall r :: r in before.rows ==> RowKept(after, events, r))
                <==> forall j :: 0 <= j < |events| ==> Unblocked(before, events, j))
  {
    var before, after := BeforePass(g, remote, db, order), Reparsed(g, remote, rules, db, order).events;
    BeforePassValid(g, remote, db, order);
    PassKeepsRowsIff(g, rules, before);
    PassAccounts(g, rules, before);
    forall r | r in db.events.rows && r.content.etype == TBurstSummary
      ensures r in after.rows <==> !Overwritten(g, remote, r)
    {
      SummaryRowBeforePass(g, remote, db, order, r);
      OldIds(g, remote, db, order, r);
    }
  }

  /**
   The condition read off the store before the re-parse: the key of the burst's summary is used by
   no row and no promoted sample, or by a summary phase 1 leaves alone, or is freed in time.
   */
  lemma UnblockedIff(g: Grammar, remote: seq<RemoteRule>, rules: seq<BurstRule>, db: S.Db, order: seq<U.SampleId>, j: nat)
    requires j < |EventsOf(g, rules, BeforePass(g, remote, db, order))|
    ensures var events := EventsOf(g, rules, BeforePass(g, remote, db, order));
            var key := events[j].adds;
            Unblocked(BeforePass(g, remote, db, order), events, j)
            <==> (key !in Contents(db.events.rows) && !Inserts(U.PromotionOps(g, remote, db.unknowns, order), key))
                 || (exists r :: r in db.events.rows && r.key == key && r.content.etype == TBurstSummary && !Overwritten(g, remote, r))
                 || exists k: nat :: Readded(events, key, k)
  {
    var key := EventsOf(g, rules, BeforePass(g, remote, db, order))[j].adds;
    SummaryBeforePass(g, remote, db, order, key);
    KeyBeforePass(g, remote, db, order, key);
  }

  lemma OldIds(g: Grammar, remote: seq<RemoteRule>, db: S.Db, order: seq<U.SampleId>, r: Row)
    requires ValidTable(db.events) && r in db.events.rows
    ensures r.id < BeforePass(g, remote, db, order).nextId
  {
    NextIdGrows(Walked(g, remote, db).events, U.PromotionOps(g, remote, db.unknowns, order));
  }

  lemma {:induction false} NextIdGrows(t: Table, ops: seq<Op>)
    ensures t.nextId <= InsertAll(t, ops).nextId
  {
    if ops != [] {
      NextIdGrows(t, ops[..|ops| - 1]);
    }
  }

  // ----- lines and what covers them -----

  /** The recognised lines read so far, by key, and which summary key covers which line. */
  datatype Ledger = Ledger(db: S.Db, covers: set<(Key, Key)>, lines: set<Key>)

  ghost predicate Covered(rows: seq<Row>, covers: set<(Key, Key)>, line: Key) {
    exists k :: (k, line) in covers && HasSummary(rows, k)
  }

  /** The line has its own row or lies in a burst whose summary is stored. */
  ghost predicate Stands(rows: seq<Row>, covers: set<(Key, Key)>, line: Key) {
    line in Contents(rows) || Covered(rows, covers, line)
  }

  ghost predicate AllStand(l: Ledger) {
    forall line :: line in l.lines ==> Stands(l.db.events.rows, l.covers, line)
  }

  datatype Step =
    | DrainBuffer(buffer: seq<LogEntry>)
    | CrashedDrain(buffer: seq<LogEntry>, done: nat)
    | IngestSingly(entries: seq<LogEntry>)
    | RunReparse(order: seq<U.SampleId>)

  function KeyOf(e: LogEntry): Key {
    LineKey(e.source, e.offset, e.text)
  }

  function RecognisedKeys(g: Grammar, remote: seq<RemoteRule>, entries: seq<LogEntry>): set<Key> {
    set e | e in entries && RecogniseText(g, remote, e.text).Some? :: KeyOf(e)
  }

  /** Position `i` of the buffer lies in its burst number `h`. */
  ghost predicate LiesIn(g: Grammar, rules: seq<BurstRule>, buffer: seq<LogEntry>, i: nat, h: nat) {
    && i < |buffer| && h < |BufferHits(g, rules, buffer)|
    && HitFits(|BufferView(g, buffer)|, BufferHits(g, rules, buffer)[h])
    && i in Positions(BufferView(g, buffer), BufferHits(g, rules, buffer)[h])
  }

  ghost function BufferCovers(g: Grammar, rules: seq<BurstRule>, buffer: seq<LogEntry>): set<(Key, Key)> {
    set h, i | 0 <= h < |BufferHits(g, rules, buffer)| && 0 <= i < |buffer| && LiesIn(g, rules, buffer, i, h)
      :: (BufferSummaries(g, rules, buffer)[h].key, KeyOf(buffer[i]))
  }

  ghost function PassCovers(events: seq<Event>): set<(Key, Key)> {
    set j, m | 0 <= j < |events| && m in events[j].removes :: (events[j].adds, m)
  }

  ghost function Next(g: Grammar, remote: seq<RemoteRule>, rules: seq<BurstRule>, l: Ledger, step: Step): Ledger {
    match step
    case DrainBuffer(buffer) =>
      Ledger(ProcessedDb(g, remote, rules, l.db, buffer), l.covers + BufferCovers(g, rules, buffer),
             l.lines + RecognisedKeys(g, remote, buffer))
    case CrashedDrain(buffer, done) => l.(db := Crashed(g, remote, rules, l.db, buffer, done))
    case IngestSingly(entries) =>
      l.(db := IngestAll(g, remote, l.db, entries), lines := l.lines + RecognisedKeys(g, remote, entries))
    case RunReparse(order) =>
      l.(db := Reparsed(g, remote, rules, l.db, order),
         covers := l.covers + PassCovers(EventsOf(g, rules, BeforePass(g, remote, l.db, order))))
  }

  /**
   A drained line is safe when no burst claims it, or its own row is there already, or some burst
   it lies in, now or before, has its summary stored or free to be stored.
   */
  ghost predicate DrainedLineSafe(g: Grammar, rules: seq<BurstRule>, l: Ledger, buffer: seq<LogEntry>, i: nat)
    requires i < |buffer|
  {
    || i !in BufferSuppressed(g, rules, buffer) || KeyOf(buffer[i]) in Contents(l.db.events.rows)
    || Covered(l.db.events.rows, l.covers + BufferCovers(g, rules, buffer), KeyOf(buffer[i]))
    || (exists h: nat :: LiesIn(g, rules, buffer, i, h)
                         && BufferSummaries(g, rules, buffer)[h].key !in Contents(l.db.events.rows))
    || (exists k :: (k, KeyOf(buffer[i])) in l.covers
                    && Inserts(BufferSummaries(g, rules, buffer), k) && k !in Contents(l.db.events.rows))
  }

  /** A line is safe in a pass when its own row stays or comes back, or a summary covering it is there afterwards. */
  ghost predicate PassedLineSafe(t: Table, events: seq<Event>, covers: set<(Key, Key)>, line: Key) {
    || (line in Contents(t.rows) && NeverRemovedFrom(events, line, 0))
    || (exists j: nat :: AddedForGood(events, line, j))
    || (exists k :: (k, line) in covers
                    && (HasSummary(t.rows, k) || (k !in Contents(t.rows) && Added(events, k)) || exists j: nat :: Readded(events, k, j)))
  }

  /** The condition on a step, in terms of the store before it and of what detection finds. */
  ghost predicate StepSafe(g: Grammar, remote: seq<RemoteRule>, rules: seq<BurstRule>, l: Ledger, step: Step) {
    match step
    case DrainBuffer(buffer) =>
      forall i: nat :: i < |buffer| && RecogniseText(g, remote, buffer[i].text).Some? ==> DrainedLineSafe(g, rules, l, buffer, i)
    case CrashedDrain(_, _) => true
    case IngestSingly(_) => true
    case RunReparse(order) =>
      var before := BeforePass(g, remote, l.db, order);
      var events := EventsOf(g, rules, before);
      forall line :: line in l.lines ==> PassedLineSafe(before, events, l.covers + PassCovers(events), line)
  }

  /** Drained buffers come from one log. */
  ghost predicate StepOk(step: Step) {
    step.DrainBuffer? ==> Sourced(step.buffer) && OffsetsIncrease(step.buffer)
  }

  // ----- insertions and summaries -----

  lemma {:induction false} SummariesGrow(t: Table, ops: seq<Op>, key: Key)
    ensures HasSummary(t.rows, key) ==> HasSummary(InsertAll(t, ops).rows, key)
  {
    if HasSummary(t.rows, key) {
      var r :| r in t.rows && r.key == key && r.content.etype == TBurstSummary;
      InsertedRows(t, ops, r);
    }
  }

  lemma StandsGrows(t: Table, ops: seq<Op>, covers: set<(Key, Key)>, more: set<(Key, Key)>, line: Key)
    requires Stands(t.rows, covers, line) && covers <= more
    ensures Stands(InsertAll(t, ops).rows, more, line)
  {
    InsertAllGrows(t, ops);
    if Covered(t.rows, covers, line) {
      var k :| (k, line) in covers && HasSummary(t.rows, k);
      SummariesGrow(t, ops, k);
    }
  }

  /** After inserting summaries a key holds one iff it did before or it was free and one is for it. */
  lemma {:induction false} SummariesInserted(t: Table, ops: seq<Op>, key: Key)
    requires forall op :: op in ops ==> op.content.etype == TBurstSummary
    ensures HasSummary(InsertAll(t, ops).rows, key) <==> HasSummary(t.rows, key) || (key !in Contents(t.rows) && Inserts(ops, key))
  {
    if ops != [] {
      var init, last := ops[..|ops| - 1], ops[|ops| - 1];
      assert ops == init + [last] && last in ops && forall op :: op in init ==> op in ops;
      SummariesInserted(t, init, key);
      InsertAllIsPutAll(t, init);
      KeysPut(Contents(t.rows), init, key);
      SummaryAfterInsert(InsertAll(t, init), last, key);
    }
  }

  lemma SummaryAfterInsert(t: Table, op: Op, key: Key)
    ensures HasSummary(Insert(t, op).rows, key)
            <==> HasSummary(t.rows, key) || (op.content.etype == TBurstSummary && op.key == key && key !in Contents(t.rows))
  {
    var rows, row := Insert(t, op).rows, Row(t.nextId, op.key, op.content);
    if op.key !in Contents(t.rows) {
      assert rows == t.rows + [row] && row in rows;
      forall r
        ensures r in rows <==> r in t.rows || r == row
      {
      }
    }
  }

  lemma {:induction false} OrdinaryInserted(t: Table, ops: seq<Op>, key: Key)
    requires forall op :: op in ops ==> op.content.etype != TBurstSummary
    ensures HasSummary(InsertAll(t, ops).rows, key) <==> HasSummary(t.rows, key)
  {
    if ops != [] {
      var init, last := ops[..|ops| - 1], ops[|ops| - 1];
      assert last in ops && forall op :: op in init ==> op in ops;
      OrdinaryInserted(t, init, key);
      SummaryAfterInsert(InsertAll(t, init), last, key);
    }
  }

  lemma {:induction false} LinesAreOrdinary(g: Grammar, remote: seq<RemoteRule>, entries: seq<LogEntry>)
    ensures forall op :: op in LineOps(g, remote, entries) ==> op.content.etype != TBurstSummary
  {
    LineOpsMembers(g, remote, entries);
  }

  lemma BufferSummariesAreSummaries(g: Grammar, rules: seq<BurstRule>, buffer: seq<LogEntry>)
    ensures forall op :: op in BufferSummaries(g, rules, buffer) ==> op.content.etype == TBurstSummary
  {
  }

  /** What a drain does to the keys that hold a summary. */
  lemma SummaryAfterDrain(g: Grammar, remote: seq<RemoteRule>, rules: seq<BurstRule>, db: S.Db, buffer: seq<LogEntry>, key: Key)
    ensures HasSummary(ProcessedDb(g, remote, rules, db, buffer).events.rows, key)
            <==> HasSummary(db.events.rows, key)
                 || (key !in Contents(db.events.rows) && Inserts(BufferSummaries(g, rules, buffer), key))
  {
    var summaries, lines := BufferSummaries(g, rules, buffer), LineOps(g, remote, BufferLines(g, rules, buffer));
    ProcessedEvents(g, remote, rules, db, buffer);
    InsertAllConcat(db.events, summaries, lines);
    BufferSummariesAreSummaries(g, rules, buffer);
    SummariesInserted(db.events, summaries, key);
    LinesAreOrdinary(g, remote, BufferLines(g, rules, buffer));
    OrdinaryInserted(InsertAll(db.events, summaries), lines, key);
  }

  // ----- the steps -----

  /** A recognised line of a drained buffer stands afterwards iff it was safe. */
  lemma DrainedLineStandsIff(g: Grammar, remote: seq<RemoteRule>, rules: seq<BurstRule>, l: Ledger, buffer: seq<LogEntry>, i: nat)
    requires Sourced(buffer) && OffsetsIncrease(buffer) && i < |buffer| && RecogniseText(g, remote, buffer[i].text).Some?
    ensures Stands(ProcessedDb(g, remote, rules, l.db, buffer).events.rows, l.covers + BufferCovers(g, rules, buffer), KeyOf(buffer[i]))
            <==> DrainedLineSafe(g, rules, l, buffer, i)
  {
    var after, line := ProcessedDb(g, remote, rules, l.db, buffer).events.rows, KeyOf(buffer[i]);
    RowsOfBuffer(g, remote, rules, l.db, buffer);
    KeysPut(Rows(l.db), BufferOps(g, remote, rules, buffer), line);
    LineInsertedAgain(g, remote, rules, buffer, i, buffer);
    forall k
      ensures HasSummary(after, k)
              <==> HasSummary(l.db.events.rows, k) || (k !in Contents(l.db.events.rows) && Inserts(BufferSummaries(g, rules, buffer), k))
    {
      SummaryAfterDrain(g, remote, rules, l.db, buffer, k);
    }
    CoversOfLine(g, rules, buffer, i);
  }

  /** A buffer's summaries cover a line iff they stand for a burst it lies in. */
  lemma CoversOfLine(g: Grammar, rules: seq<BurstRule>, buffer: seq<LogEntry>, i: nat)
    requires Sourced(buffer) && OffsetsIncrease(buffer) && i < |buffer|
    ensures forall k :: (k, KeyOf(buffer[i])) in BufferCovers(g, rules, buffer)
                        <==> exists h: nat :: LiesIn(g, rules, buffer, i, h) && BufferSummaries(g, rules, buffer)[h].key == k
    ensures forall h: nat :: LiesIn(g, rules, buffer, i, h) ==> Inserts(BufferSummaries(g, rules, buffer), BufferSummaries(g, rules, buffer)[h].key)
  {
    forall j | 0 <= j < |buffer| && KeyOf(buffer[j]) == KeyOf(buffer[i])
      ensures j == i
    {
      LinesMeet(buffer, buffer, i, j);
    }
    forall h: nat | LiesIn(g, rules, buffer, i, h)
      ensures Inserts(BufferSummaries(g, rules, buffer), BufferSummaries(g, rules, buffer)[h].key)
    {
      assert BufferSummaries(g, rules, buffer)[h] in BufferSummaries(g, rules, buffer);
    }
  }

  /** A line stands after a re-parse iff it was safe in its pass. */
  lemma ReparsedLineStandsIff(g: Grammar, remote: seq<RemoteRule>, rules: seq<BurstRule>, db: S.Db, order: seq<U.SampleId>,
                              covers: set<(Key, Key)>, line: Key)
    requires ValidTable(db.events)
    ensures var before := BeforePass(g, remote, db, order);
            Stands(Reparsed(g, remote, rules, db, order).events.rows, covers, line)
            <==> PassedLineSafe(before, EventsOf(g, rules, before), covers, line)
  {
    var before := BeforePass(g, remote, db, order);
    var events := EventsOf(g, rules, before);
    BeforePassValid(g, remote, db, order);
    PassIsItsEvents(g, rules, before);
    KeyAfterIff(line in Contents(before.rows), events, line);
    forall k
      ensures SummaryAfter(k in Contents(before.rows), HasSummary(before.rows, k), events, k)
              <==> HasSummary(before.rows, k) || (k !in Contents(before.rows) && Added(events, k)) || exists j: nat :: Readded(events, k, j)
    {
      SummaryAfterIff(k in Contents(before.rows), HasSummary(before.rows, k), events, k);
    }
  }

  lemma DrainKeepsIff(g: Grammar, remote: seq<RemoteRule>, rules: seq<BurstRule>, l: Ledger, buffer: seq<LogEntry>)
    requires AllStand(l) && Sourced(buffer) && OffsetsIncrease(buffer)
    ensures AllStand(Next(g, remote, rules, l, DrainBuffer(buffer))) <==> StepSafe(g, remote, rules, l, DrainBuffer(buffer))
  {
    var l' := Next(g, remote, rules, l, DrainBuffer(buffer));
    ProcessedEvents(g, remote, rules, l.db, buffer);
    forall line | line in l.lines
      ensures Stands(l'.db.events.rows, l'.covers, line)
    {
      StandsGrows(l.db.events, BufferOps(g, remote, rules, buffer), l.covers, l'.covers, line);
    }
    forall i: nat | i < |buffer| && RecogniseText(g, remote, buffer[i].text).Some?
      ensures Stands(l'.db.events.rows, l'.covers, KeyOf(buffer[i])) <==> DrainedLineSafe(g, rules, l, buffer, i)
      ensures KeyOf(buffer[i]) in l'.lines
    {
      DrainedLineStandsIff(g, remote, rules, l, buffer, i);
      assert buffer[i] in buffer;
    }
  }

  lemma SinglyKeeps(g: Grammar, remote: seq<RemoteRule>, rules: seq<BurstRule>, l: Ledger, entries: seq<LogEntry>)
    requires AllStand(l)
    ensures AllStand(Next(g, remote, rules, l, IngestSingly(entries)))
  {
    var l', ops := Next(g, remote, rules, l, IngestSingly(entries)), LineOps(g, remote, entries);
    IngestAllEvents(g, remote, l.db, entries);
    InsertAllGrows(l.db.events, ops);
    LineOpsMembers(g, remote, entries);
    forall line | line in l'.lines
      ensures Stands(l'.db.events.rows, l'.covers, line)
    {
      if line in l.lines {
        StandsGrows(l.db.events, ops, l.covers, l'.covers, line);
      } else {
        var e :| e in entries && RecogniseText(g, remote, e.text).Some? && KeyOf(e) == line;
        assert LineOp(e, RecogniseText(g, remote, e.text).value) in ops;
      }
    }
  }

  /** After any step every recognised line read so far stands iff the step is safe. */
  lemma StepKeepsIff(g: Grammar, remote: seq<RemoteRule>, rules: seq<BurstRule>, l: Ledger, step: Step)
    requires AllStand(l) && ValidTable(l.db.events) && StepOk(step)
    ensures AllStand(Next(g, remote, rules, l, step)) <==> StepSafe(g, remote, rules, l, step)
  {
    match step
    case DrainBuffer(buffer) => DrainKeepsIff(g, remote, rules, l, buffer);
    case IngestSingly(entries) => SinglyKeeps(g, remote, rules, l, entries);
    case CrashedDrain(buffer, done) =>
      forall line | line in l.lines
        ensures Stands(Next(g, remote, rules, l, step).db.events.rows, l.covers, line)
      {
        StandsGrows(l.db.events, Early(g, remote, rules, buffer, done), l.covers, l.covers, line);
      }
    case RunReparse(order) =>
      var l' := Next(g, remote, rules, l, step);
      forall line | line in l.lines
        ensures Stands(l'.db.events.rows, l'.covers, line)
                <==> PassedLineSafe(BeforePass(g, remote, l.db, order), EventsOf(g, rules, BeforePass(g, remote, l.db, order)), l'.covers, line)
      {
        ReparsedLineStandsIff(g, remote, rules, l.db, order, l'.covers, line);
      }
  }

  // ----- runs -----

  lemma PrefixMembers(ops: seq<Op>, done: nat)
    ensures forall op :: op in S.Prefix(ops, done) ==> op in ops
  {
  }

  lemma StepValid(g: Grammar, remote: seq<RemoteRule>, rules: seq<BurstRule>, l: Ledger, step: Step)
    requires ValidTable(l.db.events)
    ensures ValidTable(Next(g, remote, rules, l, step).db.events)
  {
    match step
    case DrainBuffer(buffer) =>
      ProcessedEvents(g, remote, rules, l.db, buffer);
      LineOpsMembers(g, remote, BufferLines(g, rules, buffer));
      InsertAllValid(l.db.events, BufferOps(g, remote, rules, buffer));
    case CrashedDrain(buffer, done) =>
      LineOpsMembers(g, remote, BufferLines(g, rules, buffer));
      PrefixMembers(BufferOps(g, remote, rules, buffer), done);
      InsertAllValid(l.db.events, Early(g, remote, rules, buffer, done));
    case IngestSingly(entries) =>
      IngestAllEvents(g, remote, l.db, entries);
      LineOpsMembers(g, remote, entries);
      InsertAllValid(l.db.events, LineOps(g, remote, entries));
    case RunReparse(order) =>
      BeforePassValid(g, remote, l.db, order);
      PassAccounts(g, rules, BeforePass(g, remote, l.db, order));
  }

  ghost function Run(g: Grammar, remote: seq<RemoteRule>, rules: seq<BurstRule>, l: Ledger, steps: seq<Step>): Ledger {
    if steps == [] then l else Next(g, remote, rules, Run(g, remote, rules, l, steps[..|steps| - 1]), steps[|steps| - 1])
  }

  ghost predicate StepsOk(steps: seq<Step>) {
    forall i :: 0 <= i < |steps| ==> StepOk(steps[i])
  }

  /** Step `n` of the run is safe where it is taken. */
  ghost predicate SafeAt(g: Grammar, remote: seq<RemoteRule>, rules: seq<BurstRule>, l: Ledger, steps: seq<Step>, n: nat)
    requires n < |steps|
  {
    StepSafe(g, remote, rules, Run(g, remote, rules, l, steps[..n]), steps[n])
  }

  ghost predicate AllStandAt(g: Grammar, remote: seq<RemoteRule>, rules: seq<BurstRule>, l: Ledger, steps: seq<Step>, n: nat)
    requires n <= |steps|
  {
    AllStand(Run(g, remote, rules, l, steps[..n]))
  }

  lemma {:induction false} RunValid(g: Grammar, remote: seq<RemoteRule>, rules: seq<BurstRule>, l: Ledger, steps: seq<Step>)
    requires ValidTable(l.db.events)
    ensures ValidTable(Run(g, remote, rules, l, steps).db.events)
  {
    if steps != [] {
      RunValid(g, remote, rules, l, steps[..|steps| - 1]);
      StepValid(g, remote, rules, Run(g, remote, rules, l, steps[..|steps| - 1]), steps[|steps| - 1]);
    }
  }

  lemma OneMoreStep(g: Grammar, remote: seq<RemoteRule>, rules: seq<BurstRule>, l: Ledger, steps: seq<Step>, n: nat)
    requires n < |steps| && ValidTable(l.db.events) && StepsOk(steps) && AllStandAt(g, remote, rules, l, steps, n)
    ensures AllStandAt(g, remote, rules, l, steps, n + 1) <==> SafeAt(g, remote, rules, l, steps, n)
  {
    assert steps[..n + 1][..n] == steps[..n];
    RunValid(g, remote, rules, l, steps[..n]);
    StepKeepsIff(g, remote, rules, Run(g, remote, rules, l, steps[..n]), steps[n]);
  }

  /**
   Over any run of drains, crashes mid-drain, single ingests and re-parses: every recognised line
   stands at every moment iff every step is safe where it is taken.
   */
  lemma {:induction false} AllStandIffAllSafe(g: Grammar, remote: seq<RemoteRule>, rules: seq<BurstRule>, l: Ledger, steps: seq<Step>)
    requires ValidTable(l.db.events) && StepsOk(steps) && AllStand(l)
    ensures (forall n :: 0 <= n <= |steps| ==> AllStandAt(g, remote, rules, l, steps, n))
            <==> AllSafe(g, remote, rules, l, steps)
  {
    assert steps[..0] == [];
    assert AllStandAt(g, remote, rules, l, steps, 0);
    if forall n :: 0 <= n <= |steps| ==> AllStandAt(g, remote, rules, l, steps, n) {
      forall n | 0 <= n < |steps|
        ensures SafeAt(g, remote, rules, l, steps, n)
      {
        assert AllStandAt(g, remote, rules, l, steps, n + 1);
        OneMoreStep(g, remote, rules, l, steps, n);
      }
    }
    if AllSafe(g, remote, rules, l, steps) {
      forall n | 0 <= n <= |steps|
        ensures AllStandAt(g, remote, rules, l, steps, n)
      {
        SafeUpTo(g, remote, rules, l, steps, n);
      }
    }
  }

  ghost predicate AllSafe(g: Grammar, remote: seq<RemoteRule>, rules: seq<BurstRule>, l: Ledger, steps: seq<Step>) {
    forall n :: 0 <= n < |steps| ==> SafeAt(g, remote, rules, l, steps, n)
  }

  lemma {:induction false} SafeUpTo(g: Grammar, remote: seq<RemoteRule>, rules: seq<BurstRule>, l: Ledger, steps: seq<Step>, n: nat)
    requires n <= |steps| && ValidTable(l.db.events) && StepsOk(steps) && AllStand(l)
    requires AllSafe(g, remote, rules, l, steps)
    ensures AllStandAt(g, remote, rules, l, steps, n)
  {
    if n == 0 {
      assert steps[..0] == [];
    } else {
      SafeUpTo(g, remote, rules, l, steps, n - 1);
      assert SafeAt(g, remote, rules, l, steps, n - 1);
      OneMoreStep(g, remote, rules, l, steps, n - 1);
    }
  }
}
