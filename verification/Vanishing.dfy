/**
 How a re-parse can empty the store: phase 1 overwrites a live burst's summary by its anchor line,
 phase 3 takes that row for a member of the next burst, whose summary has the very same key and is
 therefore not inserted, and then deletes all members.
 */
module Vanishing {
  import opened Prelude
  import opened Keys
  import opened Grammar
  import opened Bursts
  import opened EventTable
  import opened Ingest
  import opened IngestLaws
  import opened Collapse
  import opened CollapseEquivalence
  import opened PassEvents
  import opened UniformBuffers
  import opened Reparse
  import opened Representation
  import R = Reclassify
  import U = Unknowns
  import S = Storage

  // ----- live summaries -----

  ghost predicate AllRecognised(g: Grammar, remote: seq<RemoteRule>, buffer: seq<LogEntry>) {
    forall e :: e in buffer ==> RecogniseText(g, remote, e.text).Some?
  }

  /** The summary a drain writes for a uniform buffer of recognised lines is one phase 1 overwrites. */
  lemma LiveSummaryIsOverwritten(g: Grammar, remote: seq<RemoteRule>, rules: seq<BurstRule>, r: nat, db: S.Db, buffer: seq<LogEntry>)
    requires ValidTable(db.events) && UniformBuffer(g, rules, r, buffer) && AllRecognised(g, remote, buffer)
    requires buffer != [] && |buffer| >= rules[r].minBurstSize
    requires BurstKey(buffer[0].source, buffer[0].offset, buffer[0].text, rules[r].id, |buffer|) !in Rows(db)
    ensures exists row :: row in ProcessedDb(g, remote, rules, db, buffer).events.rows
                          && row.key == BurstKey(buffer[0].source, buffer[0].offset, buffer[0].text, rules[r].id, |buffer|)
                          && Overwritten(g, remote, row)
  {
    UniformBufferOps(g, remote, rules, r, buffer);
    SummaryAtFirst(g, rules, r, buffer);
    ProcessedEvents(g, remote, rules, db, buffer);
    InsertedRow(db.events, BufferSummaries(g, rules, buffer)[0]);
    assert buffer[0] in buffer;
  }

  lemma InsertedRow(t: Table, op: Op)
    requires op.key !in Contents(t.rows)
    ensures InsertAll(t, [op]) == Table(t.rows + [Row(t.nextId, op.key, op.content)], t.nextId + 1)
    ensures Row(t.nextId, op.key, op.content) in InsertAll(t, [op]).rows
  {
    var none: seq<Op> := [];
    assert [op][..0] == none && InsertAll(t, none) == t;
  }

  /** A drain of a burst whose summary key is taken, by whatever row, stores nothing at all. */
  lemma DrainStoresNothing(g: Grammar, remote: seq<RemoteRule>, rules: seq<BurstRule>, r: nat, db: S.Db, buffer: seq<LogEntry>)
    requires UniformBuffer(g, rules, r, buffer) && buffer != [] && |buffer| >= rules[r].minBurstSize
    requires BurstKey(buffer[0].source, buffer[0].offset, buffer[0].text, rules[r].id, |buffer|) in Rows(db)
    ensures ProcessedDb(g, remote, rules, db, buffer).events == db.events
  {
    UniformBufferOps(g, remote, rules, r, buffer);
    ProcessedEvents(g, remote, rules, db, buffer);
    InsertAllAbsorbed(db.events, BufferOps(g, remote, rules, buffer));
  }

  // ----- the setting -----

  /** Rule `r` takes every line, no other rule anchors on one, and every line is recognised. */
  ghost predicate OnlyRule(g: Grammar, remote: seq<RemoteRule>, rules: seq<BurstRule>, r: nat, buffer: seq<LogEntry>) {
    && UniformBuffer(g, rules, r, buffer) && AllRecognised(g, remote, buffer)
    && forall e, q :: e in buffer && 0 <= q < |rules| && q != r ==>
         !LineMatches(g.parse(e.text).value, rules[q].anchor, rules[q].tags)
  }

  /** A first drain of a smallest burst, then one of all but one as many lines. */
  ghost predicate TwoDrains(g: Grammar, remote: seq<RemoteRule>, rules: seq<BurstRule>, r: nat,
                            first: seq<LogEntry>, second: seq<LogEntry>, source: string)
  {
    && OnlyRule(g, remote, rules, r, first + second)
    && ColonFree(source) && OneSource(first + second, source) && OffsetsIncrease(first + second)
    && |first| == rules[r].minBurstSize >= 2 && |second| == |first| - 1
  }

  function SummaryKey(rules: seq<BurstRule>, r: nat, first: seq<LogEntry>): Key
    requires r < |rules| && first != []
  {
    BurstKey(first[0].source, first[0].offset, first[0].text, rules[r].id, |first|)
  }

  // ----- what the drains leave -----

  lemma ShortBufferHasNoBurst(g: Grammar, remote: seq<RemoteRule>, rules: seq<BurstRule>, r: nat, buffer: seq<LogEntry>)
    requires OnlyRule(g, remote, rules, r, buffer) && |buffer| < rules[r].minBurstSize
    ensures BufferHits(g, rules, buffer) == []
    ensures BufferOps(g, remote, rules, buffer) == LineOps(g, remote, buffer)
  {
    var window, hits := LinesOf(BufferView(g, buffer)), BufferHits(g, rules, buffer);
    UniformView(g, rules, r, buffer);
    BurstsAreGood(window, rules);
    if hits != [] {
      NoHit(g, remote, rules, r, buffer, hits[0]);
    }
    assert BufferSuppressed(g, rules, buffer) == {};
    AllKept(buffer);
    assert BufferSummaries(g, rules, buffer) == [];
    assert [] + LineOps(g, remote, buffer) == LineOps(g, remote, buffer);
  }

  lemma NoHit(g: Grammar, remote: seq<RemoteRule>, rules: seq<BurstRule>, r: nat, buffer: seq<LogEntry>, hit: BurstHit)
    requires OnlyRule(g, remote, rules, r, buffer) && |buffer| < rules[r].minBurstSize
    ensures hit !in BufferHits(g, rules, buffer)
  {
    var window := LinesOf(BufferView(g, buffer));
    UniformView(g, rules, r, buffer);
    BurstsAreGood(window, rules);
    if hit in BufferHits(g, rules, buffer) {
      var rule, c :| rule in rules && FoundBy(window, rule, c, hit);
      var q :| 0 <= q < |rules| && rules[q] == rule;
      var i := hit.startIndex;
      assert buffer[i] in buffer && BufferView(g, buffer)[i] in BufferView(g, buffer);
      IncreasingFits(hit.memberIndices, |window|);
    }
  }

  lemma {:induction false} IncreasingFits(s: seq<nat>, n: nat)
    requires Increasing(s) && forall m :: m in s ==> m < n
    ensures |s| <= n
  {
    if s != [] {
      OrderedLast(s, (x: nat, y: nat) => x < y);
      assert s[|s| - 1] in s;
      IncreasingFits(s[..|s| - 1], s[|s| - 1]);
    }
  }

  lemma {:induction false} AllKept(buffer: seq<LogEntry>)
    ensures Kept(buffer, {}) == buffer
  {
    if buffer != [] {
      AllKept(buffer[..|buffer| - 1]);
      assert buffer == buffer[..|buffer| - 1] + [buffer[|buffer| - 1]];
    }
  }

  lemma {:induction false} RecognisedOps(g: Grammar, remote: seq<RemoteRule>, buffer: seq<LogEntry>)
    requires AllRecognised(g, remote, buffer)
    ensures |LineOps(g, remote, buffer)| == |buffer|
    ensures forall i :: 0 <= i < |buffer| ==> IsLineOp(g, remote, buffer[i], LineOps(g, remote, buffer)[i])
  {
    if buffer != [] {
      var init, last := buffer[..|buffer| - 1], buffer[|buffer| - 1];
      assert buffer == init + [last] && last in buffer;
      RecognisedOps(g, remote, init);
    }
  }

  ghost predicate IsLineOp(g: Grammar, remote: seq<RemoteRule>, e: LogEntry, op: Op) {
    RecogniseText(g, remote, e.text).Some? && op == LineOp(e, RecogniseText(g, remote, e.text).value)
  }

  /** Row `i` of the store stands at line `i` of the two drains, without the summarised lines but the first. */
  ghost predicate RowAt(row: Row, e: LogEntry, key: Key) {
    row.key == key && row.content.raw == e.text && row.content.source == e.source && row.content.offset == e.offset
  }

  ghost predicate Appended(t: Table, after: Table, buffer: seq<LogEntry>) {
    && |after.rows| == |t.rows| + |buffer| && after.rows[..|t.rows|] == t.rows
    && forall i :: 0 <= i < |buffer| ==> RowAt(after.rows[|t.rows| + i], buffer[i], KeyOf(buffer[i]))
  }

  lemma AppendedSnoc(t: Table, half: Table, init: seq<LogEntry>, last: LogEntry, row: Row)
    requires Appended(t, half, init) && RowAt(row, last, KeyOf(last))
    ensures Appended(t, Table(half.rows + [row], half.nextId + 1), init + [last])
  {
    var rows := half.rows + [row];
    assert rows[..|t.rows|] == half.rows[..|t.rows|];
  }

  lemma {:induction false} InsertedSingly(g: Grammar, remote: seq<RemoteRule>, t: Table, buffer: seq<LogEntry>)
    requires AllRecognised(g, remote, buffer) && Sourced(buffer) && OffsetsIncrease(buffer)
    requires forall e :: e in buffer ==> KeyOf(e) !in Contents(t.rows)
    ensures Appended(t, InsertAll(t, LineOps(g, remote, buffer)), buffer)
  {
    if buffer == [] {
      assert t.rows[..|t.rows|] == t.rows;
    } else {
      var init, last := buffer[..|buffer| - 1], buffer[|buffer| - 1];
      assert buffer == init + [last] && last in buffer;
      PartsWellFormed(init, [last]);
      InsertedSingly(g, remote, t, init);
      LastKeyIsNew(g, remote, t, init, last);
      LastOp(g, remote, t, init, last);
      var half, op := InsertAll(t, LineOps(g, remote, init)), LineOp(last, RecogniseText(g, remote, last.text).value);
      AppendedSnoc(t, half, init, last, Row(half.nextId, op.key, op.content));
    }
  }

  lemma LastOp(g: Grammar, remote: seq<RemoteRule>, t: Table, init: seq<LogEntry>, last: LogEntry)
    requires RecogniseText(g, remote, last.text).Some?
    ensures InsertAll(t, LineOps(g, remote, init + [last]))
            == Insert(InsertAll(t, LineOps(g, remote, init)), LineOp(last, RecogniseText(g, remote, last.text).value))
  {
    var buffer, ops, op := init + [last], LineOps(g, remote, init), LineOp(last, RecogniseText(g, remote, last.text).value);
    assert buffer[..|buffer| - 1] == init;
    assert (ops + [op])[..|ops|] == ops;
  }

  lemma LastKeyIsNew(g: Grammar, remote: seq<RemoteRule>, t: Table, init: seq<LogEntry>, last: LogEntry)
    requires Sourced(init + [last]) && OffsetsIncrease(init + [last]) && KeyOf(last) !in Contents(t.rows)
    ensures KeyOf(last) !in Contents(InsertAll(t, LineOps(g, remote, init)).rows)
  {
    InsertAllIsPutAll(t, LineOps(g, remote, init));
    KeysPut(Contents(t.rows), LineOps(g, remote, init), KeyOf(last));
    LineOpsMembers(g, remote, init);
    var all := init + [last];
    forall e | e in init
      ensures KeyOf(e) != KeyOf(last)
    {
      var i :| 0 <= i < |init| && init[i] == e;
      assert all[i] == e && all[|init|] == last && e in all && last in all;
      LineKeyInjective(e.source, e.offset, e.text, last.source, last.offset, last.text);
    }
  }

  /** The store after both drains: the summary at the first line, then the second drain's lines. */
  ghost predicate Drained(rows: seq<Row>, key: Key, first: LogEntry, second: seq<LogEntry>) {
    && |rows| == 1 + |second| && RowAt(rows[0], first, key)
    && forall i :: 0 <= i < |second| ==> RowAt(rows[1 + i], second[i], KeyOf(second[i]))
  }

  lemma OnlyRuleParts(g: Grammar, remote: seq<RemoteRule>, rules: seq<BurstRule>, r: nat,
                      first: seq<LogEntry>, second: seq<LogEntry>, source: string)
    requires TwoDrains(g, remote, rules, r, first, second, source)
    ensures OnlyRule(g, remote, rules, r, first) && OnlyRule(g, remote, rules, r, second)
    ensures Sourced(first + second) && Sourced(first) && OffsetsIncrease(first) && Sourced(second) && OffsetsIncrease(second)
  {
    assert forall e :: e in first ==> e in first + second;
    assert forall e :: e in second ==> e in first + second;
    PartsWellFormed(first, second);
  }

  /** The first drain into an empty store makes one row, the summary. */
  lemma FirstTable(g: Grammar, remote: seq<RemoteRule>, rules: seq<BurstRule>, r: nat, first: seq<LogEntry>, db: S.Db)
    requires OnlyRule(g, remote, rules, r, first) && first != [] && |first| >= rules[r].minBurstSize && db.events == EMPTY_TABLE
    ensures |BufferSummaries(g, rules, first)| == 1
    ensures var op := BufferSummaries(g, rules, first)[0];
            && ProcessedDb(g, remote, rules, db, first).events == InsertAll(EMPTY_TABLE, [op])
            && InsertAll(EMPTY_TABLE, [op]).rows == [Row(1, op.key, op.content)]
            && op.key == SummaryKey(rules, r, first)
  {
    UniformBufferOps(g, remote, rules, r, first);
    ProcessedEvents(g, remote, rules, db, first);
    SummaryAtFirst(g, rules, r, first);
    var op := BufferSummaries(g, rules, first)[0];
    InsertedRow(EMPTY_TABLE, op);
    assert EMPTY_TABLE.rows + [Row(1, op.key, op.content)] == [Row(1, op.key, op.content)];
  }

  lemma AfterFirstDrain(g: Grammar, remote: seq<RemoteRule>, rules: seq<BurstRule>, r: nat,
                        first: seq<LogEntry>, second: seq<LogEntry>, source: string, db: S.Db)
    requires TwoDrains(g, remote, rules, r, first, second, source) && db.events == EMPTY_TABLE
    ensures var t := ProcessedDb(g, remote, rules, db, first).events;
            && ValidTable(t) && |t.rows| == 1 && RowAt(t.rows[0], first[0], SummaryKey(rules, r, first))
            && t.rows[0].content.etype == TBurstSummary
            && forall e :: e in second ==> KeyOf(e) !in Contents(t.rows)
  {
    OnlyRuleParts(g, remote, rules, r, first, second, source);
    FirstTable(g, remote, rules, r, first, db);
    SummaryAtFirst(g, rules, r, first);
    SummaryAlone(BufferSummaries(g, rules, first)[0]);
    SecondKeysFree(rules, r, first, second, ProcessedDb(g, remote, rules, db, first).events.rows);
  }

  lemma SummaryAlone(op: Op)
    requires Consistent(op.content)
    ensures ValidTable(InsertAll(EMPTY_TABLE, [op]))
  {
    InsertAllValid(EMPTY_TABLE, [op]);
  }

  lemma SecondKeysFree(rules: seq<BurstRule>, r: nat, first: seq<LogEntry>, second: seq<LogEntry>, rows: seq<Row>)
    requires r < |rules| && first != [] && Sourced(first + second) && OffsetsIncrease(first + second)
    requires |rows| == 1 && rows[0].key == SummaryKey(rules, r, first)
    ensures forall e :: e in second ==> KeyOf(e) !in Contents(rows)
  {
    forall e | e in second
      ensures KeyOf(e) !in Contents(rows)
    {
      KeyHasRow(rows, KeyOf(e));
      SecondIsApart(rules, r, first, second, e);
    }
  }

  lemma SecondIsApart(rules: seq<BurstRule>, r: nat, first: seq<LogEntry>, second: seq<LogEntry>, e: LogEntry)
    requires r < |rules| && first != [] && e in second && Sourced(first + second) && OffsetsIncrease(first + second)
    ensures KeyOf(e) != SummaryKey(rules, r, first)
  {
    var i :| 0 <= i < |second| && second[i] == e;
    var all := first + second;
    assert all[|first| + i] == e && all[0] == first[0] && first[0] in all && e in all;
    BurstKeyVersusLineKey(first[0].source, first[0].offset, first[0].text, rules[r].id, |first|, e.source, e.offset, e.text);
  }

  lemma SummaryAtFirst(g: Grammar, rules: seq<BurstRule>, r: nat, first: seq<LogEntry>)
    requires UniformBuffer(g, rules, r, first) && first != [] && |first| >= rules[r].minBurstSize
    ensures |BufferSummaries(g, rules, first)| == 1
    ensures var c := BufferSummaries(g, rules, first)[0].content;
            && c.etype == TBurstSummary && Consistent(c)
            && c.raw == first[0].text && c.source == first[0].source && c.offset == first[0].offset
  {
    UniformBufferOps(g, [], rules, r, first);
    var view, hit := BufferView(g, first), BufferHits(g, rules, first)[0];
    assert view[hit.startIndex] in view;
  }

  lemma AfterBothDrains(g: Grammar, remote: seq<RemoteRule>, rules: seq<BurstRule>, r: nat,
                        first: seq<LogEntry>, second: seq<LogEntry>, source: string, db: S.Db)
    requires TwoDrains(g, remote, rules, r, first, second, source) && db.events == EMPTY_TABLE
    ensures var t := ProcessedDb(g, remote, rules, ProcessedDb(g, remote, rules, db, first), second).events;
            ValidTable(t) && Drained(t.rows, SummaryKey(rules, r, first), first[0], second)
  {
    var db1 := ProcessedDb(g, remote, rules, db, first);
    OnlyRuleParts(g, remote, rules, r, first, second, source);
    AfterFirstDrain(g, remote, rules, r, first, second, source, db);
    ShortBufferHasNoBurst(g, remote, rules, r, second);
    ProcessedEvents(g, remote, rules, db1, second);
    InsertedSingly(g, remote, db1.events, second);
    LineOpsMembers(g, remote, second);
    InsertAllValid(db1.events, LineOps(g, remote, second));
    var rows := ProcessedDb(g, remote, rules, db1, second).events.rows;
    assert |db1.events.rows| == 1 && rows[..1] == db1.events.rows;
    assert rows[0] == rows[..1][0];
  }

  // ----- what the re-parse makes of it -----

  /** Phase 1 turns every row, the summary included, into an ordinary row at the same place. */
  lemma WalkedRow(g: Grammar, remote: seq<RemoteRule>, rows: seq<Row>, i: nat, e: LogEntry, key: Key)
    requires i < |rows| && RowAt(rows[i], e, key) && RecogniseText(g, remote, e.text).Some?
    ensures RowAt(R.RowsAfter(g, remote, rows)[i], e, key)
    ensures R.RowsAfter(g, remote, rows)[i].content.etype != TBurstSummary
  {
    R.SameRaws(g, remote, rows, i);
  }

  /** The lines the rows stand at. */
  function LinesAt(first: LogEntry, second: seq<LogEntry>): seq<LogEntry> {
    [first] + second
  }

  ghost predicate OrdinaryRows(rows: seq<Row>, entries: seq<LogEntry>) {
    && |rows| == |entries|
    && forall i :: 0 <= i < |rows| ==> RowAt(rows[i], entries[i], rows[i].key) && rows[i].content.etype != TBurstSummary
  }

  /** A table of ordinary rows at the lines of a uniform stretch is one burst for the pass. */
  lemma OneEventOnly(g: Grammar, rules: seq<BurstRule>, r: nat, t: Table, entries: seq<LogEntry>, source: string)
    requires UniformBuffer(g, rules, r, entries) && |entries| >= rules[r].minBurstSize && |entries| >= 2
    requires OneSource(entries, source) && OffsetsIncrease(entries) && OrdinaryRows(t.rows, entries)
    ensures EventsOf(g, rules, t)
            == [Event(BurstKey(entries[0].source, entries[0].offset, entries[0].text, rules[r].id, |entries|), set x | x in t.rows :: x.key)]
  {
    WholeScan(g, rules, r, t, entries, source);
    var scan := t.rows;
    var view, hits := ScanView(g, scan), ScanHits(g, rules, scan);
    var hit := HitOf(rules[r], Range(0, |entries|));
    assert hits == [hit] && [hit][1..] == [];
    assert HitEvents(g, scan, view, [hit][1..]) == [];
    AllAreMembers(scan, view, hit);
    FirstIsAnchor(g, scan, view, hit, entries);
    assert SourceEvents(g, rules, t, source) == HitEvents(g, scan, view, [hit]);
    assert DistinctSources(t.rows) == [source] && [source][1..] == [];
    assert EventsOfSources(g, rules, t, [source][1..]) == [];
    assert EventsOfSources(g, rules, t, [source]) == SourceEvents(g, rules, t, source) + [];
  }

  lemma WholeScan(g: Grammar, rules: seq<BurstRule>, r: nat, t: Table, entries: seq<LogEntry>, source: string)
    requires UniformBuffer(g, rules, r, entries) && |entries| >= rules[r].minBurstSize && |entries| >= 2
    requires OneSource(entries, source) && OffsetsIncrease(entries) && OrdinaryRows(t.rows, entries)
    ensures Scan(t, source) == t.rows && DistinctSources(t.rows) == [source]
    ensures |ScanView(g, t.rows)| == |t.rows| && forall i :: 0 <= i < |t.rows| ==> ScanView(g, t.rows)[i].0 == i
    ensures ScanHits(g, rules, t.rows) == [HitOf(rules[r], Range(0, |entries|))]
  {
    RowsOfOneSource(t.rows, entries, source);
    OneSourceScan(t.rows, source);
    SortedStays(t.rows);
    RowsParse(g, rules, r, t.rows, entries);
    UniformBurst(LinesOf(ScanView(g, t.rows)), rules, r);
  }

  lemma RowsOfOneSource(rows: seq<Row>, entries: seq<LogEntry>, source: string)
    requires OneSource(entries, source) && OffsetsIncrease(entries) && OrdinaryRows(rows, entries)
    ensures (forall x :: x in rows ==> x.content.source == source) && OffsetsOrdered(rows)
  {
    forall x | x in rows
      ensures x.content.source == source
    {
      var i :| 0 <= i < |rows| && rows[i] == x;
      assert entries[i] in entries;
    }
  }

  lemma RowsParse(g: Grammar, rules: seq<BurstRule>, r: nat, rows: seq<Row>, entries: seq<LogEntry>)
    requires UniformBuffer(g, rules, r, entries) && OrdinaryRows(rows, entries)
    ensures |ScanView(g, rows)| == |rows| && forall i :: 0 <= i < |rows| ==> ScanView(g, rows)[i].0 == i
    ensures Uniform(LinesOf(ScanView(g, rows)), rules[r])
    ensures forall q :: 0 <= q < r ==> Silent(LinesOf(ScanView(g, rows)), rules[q])
  {
    assert ScanParsed(g, rows) == ParsedLines(g, entries);
    UniformView(g, rules, r, entries);
  }

  lemma AllAreMembers(scan: seq<Row>, view: seq<(nat, LogLine)>, hit: BurstHit)
    requires HitFits(|view|, hit) && |view| == |scan| && forall v :: v in view ==> v.0 < |scan|
    requires hit.memberIndices == Range(0, |scan|) && forall i :: 0 <= i < |view| ==> view[i].0 == i
    ensures MemberKeys(scan, view, hit) == set x | x in scan :: x.key
  {
    var members := MemberRows(scan, view, hit);
    forall i | 0 <= i < |scan|
      ensures members[i] == scan[i]
    {
      assert hit.memberIndices[i] == i;
    }
    assert members == scan;
  }

  lemma FirstIsAnchor(g: Grammar, scan: seq<Row>, view: seq<(nat, LogLine)>, hit: BurstHit, entries: seq<LogEntry>)
    requires HitFits(|view|, hit) && |view| == |scan| && forall v :: v in view ==> v.0 < |scan|
    requires hit.memberIndices == Range(0, |scan|) && forall i :: 0 <= i < |view| ==> view[i].0 == i
    requires OrdinaryRows(scan, entries)
    ensures ScanSummary(g, scan, view, hit).key
            == BurstKey(entries[0].source, entries[0].offset, entries[0].text, hit.ruleId, |entries|)
  {
    assert hit.memberIndices[0] == 0 && view[hit.startIndex] in view;
  }

  /** A pass whose one event adds a key it removes, and removes every key, leaves nothing. */
  lemma NothingLeft(g: Grammar, rules: seq<BurstRule>, t: Table, key: Key)
    requires ValidTable(t) && EventsOf(g, rules, t) == [Event(key, set x | x in t.rows :: x.key)]
    requires key in Contents(t.rows)
    ensures CollapsePass(g, rules, t).table.rows == []
  {
    var after, events := CollapsePass(g, rules, t).table, EventsOf(g, rules, t);
    PassIsItsEvents(g, rules, t);
    if after.rows != [] {
      var k := after.rows[0].key;
      KeyHasRow(after.rows, k);
      assert k in Contents(after.rows);
      KeyHasRow(t.rows, k);
      assert events[1..] == [];
      assert KeyAfter(k in Contents(t.rows), events, k) == ((k in Contents(t.rows) || k == key) && k !in events[0].removes);
    }
  }

  lemma {:induction false} NoUnknownsFromRecognised(g: Grammar, remote: seq<RemoteRule>, db: S.Db, entries: seq<LogEntry>)
    requires AllRecognised(g, remote, entries)
    ensures IngestAll(g, remote, db, entries).unknowns == db.unknowns
  {
    if entries != [] {
      assert entries[|entries| - 1] in entries;
      NoUnknownsFromRecognised(g, remote, db, entries[..|entries| - 1]);
    }
  }

  /**
   From an empty store: a drain of a smallest burst, a drain of one line less, and a re-parse leave
   no row at all, neither the lines of either drain nor a summary, although every line is recognised.
   */
  lemma ReparseEmptiesStore(g: Grammar, remote: seq<RemoteRule>, rules: seq<BurstRule>, r: nat,
                            first: seq<LogEntry>, second: seq<LogEntry>, source: string, db: S.Db)
    requires TwoDrains(g, remote, rules, r, first, second, source)
    requires db.events == EMPTY_TABLE && db.unknowns == map[]
    ensures var drained := ProcessedDb(g, remote, rules, ProcessedDb(g, remote, rules, db, first), second);
            && |drained.events.rows| == |first| && U.Enumerates([], drained.unknowns)
            && Reparsed(g, remote, rules, drained, []).events.rows == []
  {
    var drained := ProcessedDb(g, remote, rules, ProcessedDb(g, remote, rules, db, first), second);
    var entries, key := LinesAt(first[0], second), SummaryKey(rules, r, first);
    AfterBothDrains(g, remote, rules, r, first, second, source, db);
    UnknownsStayEmpty(g, remote, rules, r, first, second, source, db);
    EntriesAreUniform(g, remote, rules, r, first, second, source);
    var before := BeforePass(g, remote, drained, []);
    BeforePassValid(g, remote, drained, []);
    assert U.PromotionOps(g, remote, drained.unknowns, []) == [];
    assert before.rows == R.RowsAfter(g, remote, drained.events.rows);
    WalkedRows(g, remote, drained.events.rows, entries, second, key);
    OneEventOnly(g, rules, r, before, entries, source);
    KeyHasRow(before.rows, key);
    assert before.rows[0] in before.rows;
    NothingLeft(g, rules, before, key);
  }

  /** Row by row, before or after the walk: the key of the summary, then those of the second buffer's lines. */
  ghost predicate RowsAt(rows: seq<Row>, entries: seq<LogEntry>, second: seq<LogEntry>, key: Key) {
    && |rows| == |entries| == |second| + 1
    && forall i :: 0 <= i < |entries| ==> RowAt(rows[i], entries[i], if i == 0 then key else KeyOf(second[i - 1]))
  }

  lemma WalkedRows(g: Grammar, remote: seq<RemoteRule>, rows: seq<Row>, entries: seq<LogEntry>, second: seq<LogEntry>, key: Key)
    requires RowsAt(rows, entries, second, key) && AllRecognised(g, remote, entries)
    ensures var after := R.RowsAfter(g, remote, rows);
            RowsAt(after, entries, second, key) && forall i :: 0 <= i < |after| ==> after[i].content.etype != TBurstSummary
  {
    var after := R.RowsAfter(g, remote, rows);
    forall i | 0 <= i < |entries|
      ensures RowAt(after[i], entries[i], if i == 0 then key else KeyOf(second[i - 1]))
      ensures after[i].content.etype != TBurstSummary
    {
      assert entries[i] in entries;
      WalkedRow(g, remote, rows, i, entries[i], if i == 0 then key else KeyOf(second[i - 1]));
    }
  }

  lemma EntriesAreUniform(g: Grammar, remote: seq<RemoteRule>, rules: seq<BurstRule>, r: nat,
                          first: seq<LogEntry>, second: seq<LogEntry>, source: string)
    requires TwoDrains(g, remote, rules, r, first, second, source)
    ensures var entries := LinesAt(first[0], second);
            && UniformBuffer(g, rules, r, entries) && AllRecognised(g, remote, entries)
            && OneSource(entries, source) && OffsetsIncrease(entries)
  {
    var all, entries := first + second, LinesAt(first[0], second);
    assert all[0] == first[0];
    assert forall i :: 0 <= i < |second| ==> all[|first| + i] == second[i];
    forall e | e in entries
      ensures e in all
    {
      assert e == all[0] || e in second;
    }
  }

  lemma UnknownsStayEmpty(g: Grammar, remote: seq<RemoteRule>, rules: seq<BurstRule>, r: nat,
                          first: seq<LogEntry>, second: seq<LogEntry>, source: string, db: S.Db)
    requires TwoDrains(g, remote, rules, r, first, second, source) && db.unknowns == map[]
    ensures ProcessedDb(g, remote, rules, ProcessedDb(g, remote, rules, db, first), second).unknowns == map[]
  {
    OnlyRuleParts(g, remote, rules, r, first, second, source);
    UniformBufferOps(g, remote, rules, r, first);
    var db1 := ProcessedDb(g, remote, rules, db, first);
    assert db1.unknowns == map[];
    ShortBufferHasNoBurst(g, remote, rules, r, second);
    AllKept(second);
    assert BufferLines(g, rules, second) == second;
    NoUnknownsFromRecognised(g, remote, db1.(events := InsertAll(db1.events, BufferSummaries(g, rules, second))), second);
  }

  /** With the shipped rules, five notifications in drains of three and two will do. */
  lemma FiveNotificationsVanish(g: Grammar, remote: seq<RemoteRule>, first: seq<LogEntry>, second: seq<LogEntry>, source: string, db: S.Db)
    requires |first| == 3 && |second| == 2 && AllRecognised(g, remote, first + second)
    requires forall e :: e in first + second ==>
               g.parse(e.text).Some? && g.parse(e.text).value.eventName == Some("SHUDEvent_OnNotification")
    requires ColonFree(source) && OneSource(first + second, source) && OffsetsIncrease(first + second)
    requires db.events == EMPTY_TABLE && db.unknowns == map[]
    ensures var rules := BuiltinBurstRules();
            var drained := ProcessedDb(g, remote, rules, ProcessedDb(g, remote, rules, db, first), second);
            Reparsed(g, remote, rules, drained, []).events.rows == []
  {
    var rules := BuiltinBurstRules();
    forall e | e in first + second
      ensures UniformLine(g, rules, 2, e.text)
      ensures forall q :: 0 <= q < 4 && q != 2 ==> !LineMatches(g.parse(e.text).value, rules[q].anchor, rules[q].tags)
    {
      NotificationOnly(g.parse(e.text).value);
    }
    ReparseEmptiesStore(g, remote, rules, 2, first, second, source, db);
  }

  lemma NotificationOnly(line: LogLine)
    requires line.eventName == Some("SHUDEvent_OnNotification")
    ensures forall q :: 0 <= q < 4 ==>
              (LineMatches(line, BuiltinBurstRules()[q].anchor, BuiltinBurstRules()[q].tags) <==> q == 2)
    ensures LineMatches(line, BuiltinBurstRules()[2].member, BuiltinBurstRules()[2].tags)
  {
    OtherNames();
    DifferentNames();
    forall q | 0 <= q < 4
      ensures LineMatches(line, BuiltinBurstRules()[q].anchor, BuiltinBurstRules()[q].tags) <==> q == 2
    {
      assert q == 0 || q == 1 || q == 2 || q == 3;
    }
  }

  ghost function TwoDrainsAndReparse(g: Grammar, remote: seq<RemoteRule>, rules: seq<BurstRule>,
                                     first: seq<LogEntry>, second: seq<LogEntry>, db: S.Db): Ledger {
    var l1 := Next(g, remote, rules, Ledger(db, {}, {}), DrainBuffer(first));
    Next(g, remote, rules, Next(g, remote, rules, l1, DrainBuffer(second)), RunReparse([]))
  }

  lemma LedgerAfter(g: Grammar, remote: seq<RemoteRule>, rules: seq<BurstRule>,
                    first: seq<LogEntry>, second: seq<LogEntry>, db: S.Db)
    ensures var after := TwoDrainsAndReparse(g, remote, rules, first, second, db);
            && after.db == Reparsed(g, remote, rules, ProcessedDb(g, remote, rules, ProcessedDb(g, remote, rules, db, first), second), [])
            && after.lines == RecognisedKeys(g, remote, first) + RecognisedKeys(g, remote, second)
  {
    var l0 := Ledger(db, {}, {});
    var l1 := Next(g, remote, rules, l0, DrainBuffer(first));
    assert l1.db == ProcessedDb(g, remote, rules, db, first) && l1.lines == {} + RecognisedKeys(g, remote, first);
    var l2 := Next(g, remote, rules, l1, DrainBuffer(second));
    assert l2.db == ProcessedDb(g, remote, rules, l1.db, second) && l2.lines == l1.lines + RecognisedKeys(g, remote, second);
    ReparseStep(g, remote, rules, l2);
  }

  lemma ReparseStep(g: Grammar, remote: seq<RemoteRule>, rules: seq<BurstRule>, l: Ledger)
    ensures var after := Next(g, remote, rules, l, RunReparse([]));
            after.db == Reparsed(g, remote, rules, l.db, []) && after.lines == l.lines
  {
  }

  /** In the run's own terms: every line was read and recognised, and afterwards none stands. */
  lemma NoLineStands(g: Grammar, remote: seq<RemoteRule>, rules: seq<BurstRule>, r: nat,
                     first: seq<LogEntry>, second: seq<LogEntry>, source: string, db: S.Db)
    requires TwoDrains(g, remote, rules, r, first, second, source)
    requires db.events == EMPTY_TABLE && db.unknowns == map[]
    ensures var after := TwoDrainsAndReparse(g, remote, rules, first, second, db);
            && (forall e :: e in first + second ==> KeyOf(e) in after.lines)
            && forall line :: line in after.lines ==> !Stands(after.db.events.rows, after.covers, line)
  {
    var after := TwoDrainsAndReparse(g, remote, rules, first, second, db);
    LedgerAfter(g, remote, rules, first, second, db);
    ReparseEmptiesStore(g, remote, rules, r, first, second, source, db);
    OnlyRuleParts(g, remote, rules, r, first, second, source);
    forall line | line in after.lines
      ensures !Stands(after.db.events.rows, after.covers, line)
    {
      NothingStandsInNothing(after.covers, line);
    }
    AllRead(g, remote, first);
    AllRead(g, remote, second);
  }

  lemma NothingStandsInNothing(covers: set<(Key, Key)>, line: Key)
    ensures !Stands([], covers, line)
  {
    var noRows: seq<Row> := [];
    assert Contents(noRows) == map[];
  }

  lemma AllRead(g: Grammar, remote: seq<RemoteRule>, buffer: seq<LogEntry>)
    requires AllRecognised(g, remote, buffer)
    ensures forall e :: e in buffer ==> KeyOf(e) in RecognisedKeys(g, remote, buffer)
  {
  }
}
