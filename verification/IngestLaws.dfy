/**
 Laws of ingest: replay after a crash, insensitivity to order and repetition, remote rules as a
 pure addition, and no loss of recognised lines.
 */
module IngestLaws {
  import opened Prelude
  import opened Keys
  import opened Grammar
  import opened Bursts
  import opened EventTable
  import opened Ingest
  import PB = ProcessBuffer
  import S = Storage

  ghost predicate Sourced(entries: seq<LogEntry>) {
    forall e :: e in entries ==> ColonFree(e.source)
  }

  ghost predicate OffsetsIncrease(entries: seq<LogEntry>) {
    forall i, j :: 0 <= i < j < |entries| ==> entries[i].offset < entries[j].offset
  }

  ghost function Rows(db: S.Db): map<Key, Content> {
    Contents(db.events.rows)
  }

  // ----- order and repetition -----

  lemma LineOpsAgree(g: Grammar, remote: seq<RemoteRule>, entries: seq<LogEntry>)
    requires Sourced(entries)
    ensures Agree(LineOps(g, remote, entries))
  {
    var ops := LineOps(g, remote, entries);
    LineOpsMembers(g, remote, entries);
    forall a, b | a in ops && b in ops && a.key == b.key
      ensures a.content == b.content
    {
      var x :| x in entries && RecogniseText(g, remote, x.text).Some?
               && a == LineOp(x, RecogniseText(g, remote, x.text).value);
      var y :| y in entries && RecogniseText(g, remote, y.text).Some?
               && b == LineOp(y, RecogniseText(g, remote, y.text).value);
      LineKeyInjective(x.source, x.offset, x.text, y.source, y.offset, y.text);
    }
  }

  /** Any two lists of the same (source, offset, line) triples leave the same rows. */
  lemma IngestOrderInsensitive(g: Grammar, remote: seq<RemoteRule>, db: S.Db, a: seq<LogEntry>, b: seq<LogEntry>)
    requires Sourced(a) && forall e :: e in a <==> e in b
    ensures Rows(IngestAll(g, remote, db, a)) == Rows(IngestAll(g, remote, db, b))
  {
    IngestAllEvents(g, remote, db, a);
    IngestAllEvents(g, remote, db, b);
    LineOpsMembers(g, remote, a);
    LineOpsMembers(g, remote, b);
    LineOpsAgree(g, remote, a);
    InsertAllIsPutAll(db.events, LineOps(g, remote, a));
    InsertAllIsPutAll(db.events, LineOps(g, remote, b));
    PutAllOrderInsensitive(Rows(db), LineOps(g, remote, a), LineOps(g, remote, b));
  }

  // ----- one buffer -----

  /** The key belongs to some text at the place of one of the lines. */
  ghost predicate KeyAtLine(entries: seq<LogEntry>, key: Key) {
    exists i, x :: 0 <= i < |entries| && key == LineKey(entries[i].source, entries[i].offset, x)
  }

  /** Every insertion of a buffer is keyed at the offset of one of its lines. */
  lemma {:induction false} OpHasLine(g: Grammar, remote: seq<RemoteRule>, rules: seq<BurstRule>, buffer: seq<LogEntry>, op: Op)
    ensures op in BufferOps(g, remote, rules, buffer) ==> KeyAtLine(buffer, op.key)
  {
    var summaries := BufferSummaries(g, rules, buffer);
    if op in summaries {
      var h :| 0 <= h < |summaries| && op == summaries[h];
      var view, hits := BufferView(g, buffer), BufferHits(g, rules, buffer);
      assert hits[h] in hits && view[hits[h].startIndex] in view;
      var p := view[hits[h].startIndex].0;
      assert op.key == LineKey(buffer[p].source, buffer[p].offset, BurstLine(buffer[p].text, hits[h].ruleId, hits[h].size));
    } else if op in LineOps(g, remote, BufferLines(g, rules, buffer)) {
      var _ := LineOfOp(g, remote, rules, buffer, op);
    }
  }

  lemma LineOfOp(g: Grammar, remote: seq<RemoteRule>, rules: seq<BurstRule>, buffer: seq<LogEntry>, op: Op) returns (i: nat)
    requires op in LineOps(g, remote, BufferLines(g, rules, buffer))
    ensures i < |buffer| && i !in BufferSuppressed(g, rules, buffer)
    ensures RecogniseText(g, remote, buffer[i].text).Some?
    ensures op == LineOp(buffer[i], RecogniseText(g, remote, buffer[i].text).value)
    ensures op.key == LineKey(buffer[i].source, buffer[i].offset, buffer[i].text)
  {
    LineOpsMembers(g, remote, BufferLines(g, rules, buffer));
    KeptMembers(buffer, BufferSuppressed(g, rules, buffer));
    var e :| e in BufferLines(g, rules, buffer) && RecogniseText(g, remote, e.text).Some?
             && op == LineOp(e, RecogniseText(g, remote, e.text).value);
    i :| 0 <= i < |buffer| && i !in BufferSuppressed(g, rules, buffer) && buffer[i] == e;
  }

  /** The position in the buffer of the anchor of hit `h`. */
  function AnchorAt(g: Grammar, rules: seq<BurstRule>, buffer: seq<LogEntry>, h: nat): (p: nat)
    requires h < |BufferHits(g, rules, buffer)|
    ensures p < |buffer|
  {
    var view, hits := BufferView(g, buffer), BufferHits(g, rules, buffer);
    assert hits[h] in hits && view[hits[h].startIndex] in view;
    view[hits[h].startIndex].0
  }

  lemma SummaryKeyAt(g: Grammar, rules: seq<BurstRule>, buffer: seq<LogEntry>, h: nat)
    requires h < |BufferHits(g, rules, buffer)|
    ensures var anchor := buffer[AnchorAt(g, rules, buffer, h)];
            var hit := BufferHits(g, rules, buffer)[h];
            BufferSummaries(g, rules, buffer)[h].key
            == BurstKey(anchor.source, anchor.offset, anchor.text, hit.ruleId, hit.size)
  {
  }

  lemma AnchorsDiffer(g: Grammar, rules: seq<BurstRule>, buffer: seq<LogEntry>, h: nat, k: nat)
    requires h < k < |BufferHits(g, rules, buffer)|
    ensures AnchorAt(g, rules, buffer, h) < AnchorAt(g, rules, buffer, k)
  {
    ProjectIncreases(ParsedLines(g, buffer));
    var hits := BufferHits(g, rules, buffer);
    assert hits[h].startIndex < hits[k].startIndex;
    assert hits[h] in hits && hits[k] in hits;
  }

  /** Inside one buffer with increasing offsets no two insertions share a key. */
  lemma {:induction false} BufferOpsAgree(g: Grammar, remote: seq<RemoteRule>, rules: seq<BurstRule>, buffer: seq<LogEntry>)
    requires Sourced(buffer) && OffsetsIncrease(buffer)
    ensures Agree(BufferOps(g, remote, rules, buffer))
  {
    var summaries := BufferSummaries(g, rules, buffer);
    var lines := LineOps(g, remote, BufferLines(g, rules, buffer));
    assert BufferOps(g, remote, rules, buffer) == summaries + lines;
    forall a, b | a in summaries && b in summaries && a.key == b.key
      ensures a == b
    {
      var h :| 0 <= h < |summaries| && summaries[h] == a;
      var k :| 0 <= k < |summaries| && summaries[k] == b;
      SummaryKeysDiffer(g, rules, buffer, h, k);
    }
    forall a, b | a in summaries && b in lines
      ensures a.key != b.key
    {
      var h :| 0 <= h < |summaries| && summaries[h] == a;
      var i := LineOfOp(g, remote, rules, buffer, b);
      SummaryIsNoLine(g, rules, buffer, h, i);
    }
    KeptSourced(buffer, BufferSuppressed(g, rules, buffer));
    LineOpsAgree(g, remote, BufferLines(g, rules, buffer));
  }

  lemma KeptSourced(buffer: seq<LogEntry>, suppressed: set<nat>)
    requires Sourced(buffer)
    ensures Sourced(Kept(buffer, suppressed))
  {
    KeptMembers(buffer, suppressed);
  }

  lemma SummaryKeysDiffer(g: Grammar, rules: seq<BurstRule>, buffer: seq<LogEntry>, h: nat, k: nat)
    requires Sourced(buffer) && OffsetsIncrease(buffer)
    requires h < |BufferHits(g, rules, buffer)| && k < |BufferHits(g, rules, buffer)|
    ensures BufferSummaries(g, rules, buffer)[h].key == BufferSummaries(g, rules, buffer)[k].key ==> h == k
  {
    if h != k {
      AnchorsDiffer(g, rules, buffer, if h < k then h else k, if h < k then k else h);
      SummaryKeyAt(g, rules, buffer, h);
      SummaryKeyAt(g, rules, buffer, k);
      var a, b := buffer[AnchorAt(g, rules, buffer, h)], buffer[AnchorAt(g, rules, buffer, k)];
      var x, y := BufferHits(g, rules, buffer)[h], BufferHits(g, rules, buffer)[k];
      assert a in buffer && b in buffer && a.offset != b.offset;
      LineKeyInjective(a.source, a.offset, BurstLine(a.text, x.ruleId, x.size), b.source, b.offset, BurstLine(b.text, y.ruleId, y.size));
    }
  }

  lemma SummaryIsNoLine(g: Grammar, rules: seq<BurstRule>, buffer: seq<LogEntry>, h: nat, i: nat)
    requires Sourced(buffer) && OffsetsIncrease(buffer)
    requires h < |BufferHits(g, rules, buffer)| && i < |buffer|
    ensures BufferSummaries(g, rules, buffer)[h].key != LineKey(buffer[i].source, buffer[i].offset, buffer[i].text)
  {
    SummaryKeyAt(g, rules, buffer, h);
    var p := AnchorAt(g, rules, buffer, h);
    var anchor, hit := buffer[p], BufferHits(g, rules, buffer)[h];
    assert anchor in buffer && buffer[i] in buffer;
    BurstKeyVersusLineKey(anchor.source, anchor.offset, anchor.text, hit.ruleId, hit.size,
                          buffer[i].source, buffer[i].offset, buffer[i].text);
    assert p != i ==> anchor.offset != buffer[i].offset;
  }

  // ----- remote rules only add -----

  lemma RemoteRulesOnlyAddOps(g: Grammar, remote: seq<RemoteRule>, rules: seq<BurstRule>, buffer: seq<LogEntry>)
    ensures forall op :: op in BufferOps(g, [], rules, buffer) ==> op in BufferOps(g, remote, rules, buffer)
  {
    forall op | op in BufferOps(g, [], rules, buffer)
      ensures op in BufferOps(g, remote, rules, buffer)
    {
      if op !in BufferSummaries(g, rules, buffer) {
        var i := LineOfOp(g, [], rules, buffer, op);
        RemoteRulesOnlyAdd(g, remote, buffer[i].text);
        KeptLineOp(g, remote, rules, buffer, i);
      }
    }
  }

  /** A log as the sequence of buffers its drains produced. */
  function LogOps(g: Grammar, remote: seq<RemoteRule>, rules: seq<BurstRule>, drains: seq<seq<LogEntry>>): seq<Op> {
    if drains == [] then []
    else LogOps(g, remote, rules, drains[..|drains| - 1]) + BufferOps(g, remote, rules, drains[|drains| - 1])
  }

  function Flatten(drains: seq<seq<LogEntry>>): seq<LogEntry> {
    if drains == [] then [] else Flatten(drains[..|drains| - 1]) + drains[|drains| - 1]
  }

  function ProcessedLog(g: Grammar, remote: seq<RemoteRule>, rules: seq<BurstRule>, db: S.Db, drains: seq<seq<LogEntry>>): S.Db {
    if drains == [] then db
    else ProcessedDb(g, remote, rules, ProcessedLog(g, remote, rules, db, drains[..|drains| - 1]), drains[|drains| - 1])
  }

  lemma {:induction false} ProcessedLogEvents(g: Grammar, remote: seq<RemoteRule>, rules: seq<BurstRule>, db: S.Db, drains: seq<seq<LogEntry>>)
    ensures ProcessedLog(g, remote, rules, db, drains).events == InsertAll(db.events, LogOps(g, remote, rules, drains))
  {
    if drains != [] {
      var init, last := drains[..|drains| - 1], drains[|drains| - 1];
      ProcessedLogEvents(g, remote, rules, db, init);
      ProcessedEvents(g, remote, rules, ProcessedLog(g, remote, rules, db, init), last);
      InsertAllConcat(db.events, LogOps(g, remote, rules, init), BufferOps(g, remote, rules, last));
    }
  }

  lemma KeyAtLineOfSum(a: seq<LogEntry>, b: seq<LogEntry>, key: Key)
    ensures KeyAtLine(a, key) || KeyAtLine(b, key) ==> KeyAtLine(a + b, key)
  {
    if KeyAtLine(a, key) {
      var i, x :| 0 <= i < |a| && key == LineKey(a[i].source, a[i].offset, x);
      assert (a + b)[i] == a[i];
    } else if KeyAtLine(b, key) {
      var i, x :| 0 <= i < |b| && key == LineKey(b[i].source, b[i].offset, x);
      assert (a + b)[|a| + i] == b[i];
    }
  }

  lemma {:induction false} LogOpHasLine(g: Grammar, remote: seq<RemoteRule>, rules: seq<BurstRule>, drains: seq<seq<LogEntry>>, op: Op)
    ensures op in LogOps(g, remote, rules, drains) ==> KeyAtLine(Flatten(drains), op.key)
  {
    if drains != [] {
      var init, last := drains[..|drains| - 1], drains[|drains| - 1];
      LogOpHasLine(g, remote, rules, init, op);
      OpHasLine(g, remote, rules, last, op);
      KeyAtLineOfSum(Flatten(init), last, op.key);
    }
  }

  /** Lines of two stretches of one log never share a key. */
  lemma StretchesApart(front: seq<LogEntry>, last: seq<LogEntry>, key: Key)
    requires Sourced(front + last) && OffsetsIncrease(front + last) && KeyAtLine(front, key)
    ensures !KeyAtLine(last, key)
  {
    var all := front + last;
    var i, x :| 0 <= i < |front| && key == LineKey(front[i].source, front[i].offset, x);
    forall j, y | 0 <= j < |last|
      ensures key != LineKey(last[j].source, last[j].offset, y)
    {
      assert all[i] == front[i] && all[|front| + j] == last[j];
      assert all[i] in all && all[|front| + j] in all;
      LineKeyInjective(front[i].source, front[i].offset, x, last[j].source, last[j].offset, y);
    }
  }

  lemma PartsWellFormed(front: seq<LogEntry>, last: seq<LogEntry>)
    requires Sourced(front + last) && OffsetsIncrease(front + last)
    ensures Sourced(front) && OffsetsIncrease(front) && Sourced(last) && OffsetsIncrease(last)
  {
    var all := front + last;
    assert forall i :: 0 <= i < |front| ==> all[i] == front[i];
    assert forall i :: 0 <= i < |last| ==> all[|front| + i] == last[i];
  }

  lemma {:induction false} LogOpsAgree(g: Grammar, remote: seq<RemoteRule>, rules: seq<BurstRule>, drains: seq<seq<LogEntry>>)
    requires Sourced(Flatten(drains)) && OffsetsIncrease(Flatten(drains))
    ensures Agree(LogOps(g, remote, rules, drains))
  {
    if drains != [] {
      var init, last := drains[..|drains| - 1], drains[|drains| - 1];
      PartsWellFormed(Flatten(init), last);
      LogOpsAgree(g, remote, rules, init);
      BufferOpsAgree(g, remote, rules, last);
      forall a, b | a in LogOps(g, remote, rules, init) && b in BufferOps(g, remote, rules, last)
        ensures a.key != b.key
      {
        LogOpHasLine(g, remote, rules, init, a);
        OpHasLine(g, remote, rules, last, b);
        StretchesApart(Flatten(init), last, a.key);
      }
    }
  }

  lemma {:induction false} RemoteRulesOnlyAddLogOps(g: Grammar, remote: seq<RemoteRule>, rules: seq<BurstRule>, drains: seq<seq<LogEntry>>)
    ensures forall op :: op in LogOps(g, [], rules, drains) ==> op in LogOps(g, remote, rules, drains)
  {
    if drains != [] {
      RemoteRulesOnlyAddLogOps(g, remote, rules, drains[..|drains| - 1]);
      RemoteRulesOnlyAddOps(g, remote, rules, drains[|drains| - 1]);
    }
  }

  /** Every row a log yields without remote rules is there, unchanged, with any remote rules. */
  lemma RemoteRulesOnlyAddRows(g: Grammar, remote: seq<RemoteRule>, rules: seq<BurstRule>, db: S.Db, drains: seq<seq<LogEntry>>)
    requires Sourced(Flatten(drains)) && OffsetsIncrease(Flatten(drains))
    ensures var without, with := Rows(ProcessedLog(g, [], rules, db, drains)), Rows(ProcessedLog(g, remote, rules, db, drains));
            forall k :: k in without ==> k in with && with[k] == without[k]
  {
    var a, b := LogOps(g, [], rules, drains), LogOps(g, remote, rules, drains);
    ProcessedLogEvents(g, [], rules, db, drains);
    ProcessedLogEvents(g, remote, rules, db, drains);
    InsertAllIsPutAll(db.events, a);
    InsertAllIsPutAll(db.events, b);
    RemoteRulesOnlyAddLogOps(g, remote, rules, drains);
    LogOpsAgree(g, remote, rules, drains);
    PutAllSubset(Rows(db), a, b);
  }

  // ----- no recognised line vanishes -----

  /** The line at position `i` has its own row or is a member of a burst whose summary is stored. */
  ghost predicate Represented(g: Grammar, rules: seq<BurstRule>, rows: map<Key, Content>, buffer: seq<LogEntry>, i: nat)
    requires i < |buffer|
  {
    || LineKey(buffer[i].source, buffer[i].offset, buffer[i].text) in rows
    || exists h :: h in BufferHits(g, rules, buffer) && i in Positions(BufferView(g, buffer), h)
                   && BurstKeyOf(g, buffer, h) in rows
  }

  ghost function BurstKeyOf(g: Grammar, buffer: seq<LogEntry>, hit: BurstHit): Key
    requires HitFits(|BufferView(g, buffer)|, hit)
  {
    var view := BufferView(g, buffer);
    assert view[hit.startIndex] in view;
    SummaryOp(g, buffer, view, hit).key
  }

  lemma BufferLineRepresented(g: Grammar, remote: seq<RemoteRule>, rules: seq<BurstRule>, db: S.Db, buffer: seq<LogEntry>, i: nat)
    requires i < |buffer| && RecogniseText(g, remote, buffer[i].text).Some?
    ensures Represented(g, rules, Rows(ProcessedDb(g, remote, rules, db, buffer)), buffer, i)
  {
    var rows := Rows(ProcessedDb(g, remote, rules, db, buffer));
    var hits := BufferHits(g, rules, buffer);
    BufferOpsStored(g, remote, rules, db, buffer);
    if i in BufferSuppressed(g, rules, buffer) {
      SuppressedMembers(BufferView(g, buffer), hits, i);
      var h :| h in hits && i in Positions(BufferView(g, buffer), h);
      SummaryOfHit(g, rules, buffer, h);
    } else {
      KeptLineOp(g, remote, rules, buffer, i);
    }
  }

  lemma SummaryOfHit(g: Grammar, rules: seq<BurstRule>, buffer: seq<LogEntry>, hit: BurstHit)
    requires hit in BufferHits(g, rules, buffer)
    ensures exists op :: op in BufferSummaries(g, rules, buffer) && op.key == BurstKeyOf(g, buffer, hit)
  {
    var hits, ops := BufferHits(g, rules, buffer), BufferSummaries(g, rules, buffer);
    var k :| 0 <= k < |hits| && hits[k] == hit;
    assert ops[k] in ops;
  }

  /** Every key among a buffer's insertions is in the store afterwards. */
  lemma {:induction false} BufferOpsStored(g: Grammar, remote: seq<RemoteRule>, rules: seq<BurstRule>, db: S.Db, buffer: seq<LogEntry>)
    ensures forall op :: op in BufferOps(g, remote, rules, buffer) ==> op.key in Rows(ProcessedDb(g, remote, rules, db, buffer))
  {
    RowsOfBuffer(g, remote, rules, db, buffer);
    PutAllKeeps(Rows(db), BufferOps(g, remote, rules, buffer));
  }

  lemma BufferOpsConsistent(g: Grammar, remote: seq<RemoteRule>, rules: seq<BurstRule>, buffer: seq<LogEntry>)
    ensures forall op :: op in BufferOps(g, remote, rules, buffer) ==> Consistent(op.content)
  {
    var summaries := BufferSummaries(g, rules, buffer);
    LineOpsMembers(g, remote, BufferLines(g, rules, buffer));
    forall op | op in summaries
      ensures Consistent(op.content)
    {
      var h :| 0 <= h < |summaries| && summaries[h] == op;
      var view, hits := BufferView(g, buffer), BufferHits(g, rules, buffer);
      assert hits[h] in hits && view[hits[h].startIndex] in view;
      assert op == SummaryOp(g, buffer, view, hits[h]);
    }
  }

  /** Every insertion of a buffer whose key was free is a row afterwards. */
  lemma OpBecomesRow(g: Grammar, remote: seq<RemoteRule>, rules: seq<BurstRule>, db: S.Db, buffer: seq<LogEntry>, op: Op)
    requires ValidTable(db.events) && Sourced(buffer) && OffsetsIncrease(buffer)
    requires op in BufferOps(g, remote, rules, buffer) && op.key !in Rows(db)
    ensures exists r :: r in ProcessedDb(g, remote, rules, db, buffer).events.rows && r.key == op.key && r.content == op.content
  {
    var ops, after := BufferOps(g, remote, rules, buffer), ProcessedDb(g, remote, rules, db, buffer);
    BufferOpsConsistent(g, remote, rules, buffer);
    BufferOpsAgree(g, remote, rules, buffer);
    ProcessedEvents(g, remote, rules, db, buffer);
    InsertAllValid(db.events, ops);
    InsertAllIsPutAll(db.events, ops);
    NewEntry(Rows(db), ops, op);
    ContentIsRow(after.events.rows, op.key);
  }

  /** A row for this very line, as it reads. */
  ghost predicate RowOfLine(g: Grammar, remote: seq<RemoteRule>, e: LogEntry, r: Row) {
    && r.key == LineKey(e.source, e.offset, e.text)
    && r.content.raw == e.text && r.content.source == e.source && r.content.offset == e.offset
    && Some(r.content.payload) == RecogniseText(g, remote, e.text)
    && r.content.etype == TypeOf(r.content.payload) && r.content.timestamp == TimestampOf(r.content.payload)
  }

  /** A recognised line that is in no burst and whose key is free. */
  ghost predicate OwesRow(g: Grammar, remote: seq<RemoteRule>, rules: seq<BurstRule>, db: S.Db, buffer: seq<LogEntry>, i: nat) {
    && i < |buffer| && InNoBurst(g, rules, buffer, i) && RecogniseText(g, remote, buffer[i].text).Some?
    && LineKey(buffer[i].source, buffer[i].offset, buffer[i].text) !in Rows(db)
  }

  ghost predicate InNoBurst(g: Grammar, rules: seq<BurstRule>, buffer: seq<LogEntry>, i: nat) {
    forall h :: h in BufferHits(g, rules, buffer) ==> i !in Positions(BufferView(g, buffer), h)
  }

  /**
   Processing a buffer stores what it read: a recognised line that is in no burst becomes its own
   row, and every burst becomes a row describing it, each unless its key was taken.
   */
  lemma BufferBecomesRows(g: Grammar, remote: seq<RemoteRule>, rules: seq<BurstRule>, db: S.Db, buffer: seq<LogEntry>)
    requires ValidTable(db.events) && Sourced(buffer) && OffsetsIncrease(buffer)
    ensures var rows := ProcessedDb(g, remote, rules, db, buffer).events.rows;
            && (forall i: nat :: OwesRow(g, remote, rules, db, buffer, i) ==>
                  exists r :: r in rows && RowOfLine(g, remote, buffer[i], r))
            && (forall h :: h in BufferHits(g, rules, buffer) && BurstKeyOf(g, buffer, h) !in Rows(db) ==>
                  exists r :: r in rows && RowOfBurst(g, buffer, h, r))
  {
    var rows := ProcessedDb(g, remote, rules, db, buffer).events.rows;
    forall i: nat | OwesRow(g, remote, rules, db, buffer, i)
      ensures exists r :: r in rows && RowOfLine(g, remote, buffer[i], r)
    {
      LineBecomesRow(g, remote, rules, db, buffer, i);
    }
    forall h | h in BufferHits(g, rules, buffer) && BurstKeyOf(g, buffer, h) !in Rows(db)
      ensures exists r :: r in rows && RowOfBurst(g, buffer, h, r)
    {
      BurstBecomesRow(g, remote, rules, db, buffer, h);
    }
  }

  lemma LineBecomesRow(g: Grammar, remote: seq<RemoteRule>, rules: seq<BurstRule>, db: S.Db, buffer: seq<LogEntry>, i: nat)
    requires ValidTable(db.events) && Sourced(buffer) && OffsetsIncrease(buffer)
    requires OwesRow(g, remote, rules, db, buffer, i)
    ensures exists r :: r in ProcessedDb(g, remote, rules, db, buffer).events.rows && RowOfLine(g, remote, buffer[i], r)
  {
    var op := LineOp(buffer[i], RecogniseText(g, remote, buffer[i].text).value);
    SuppressedMembers(BufferView(g, buffer), BufferHits(g, rules, buffer), i);
    KeptLineOp(g, remote, rules, buffer, i);
    OpBecomesRow(g, remote, rules, db, buffer, op);
    var r :| r in ProcessedDb(g, remote, rules, db, buffer).events.rows && r.key == op.key && r.content == op.content;
    assert RowOfLine(g, remote, buffer[i], r);
  }

  /** A row that stands for the members of the burst. */
  ghost predicate RowOfBurst(g: Grammar, buffer: seq<LogEntry>, hit: BurstHit, r: Row) {
    && HitFits(|BufferView(g, buffer)|, hit)
    && exists first, last ::
         PB.Describes(g, buffer, Positions(BufferView(g, buffer), hit), first, last, hit.ruleId, Op(r.key, r.content))
  }

  lemma BurstBecomesRow(g: Grammar, remote: seq<RemoteRule>, rules: seq<BurstRule>, db: S.Db, buffer: seq<LogEntry>, hit: BurstHit)
    requires ValidTable(db.events) && Sourced(buffer) && OffsetsIncrease(buffer)
    requires hit in BufferHits(g, rules, buffer) && BurstKeyOf(g, buffer, hit) !in Rows(db)
    ensures exists r :: r in ProcessedDb(g, remote, rules, db, buffer).events.rows && RowOfBurst(g, buffer, hit, r)
  {
    var hits, ops := BufferHits(g, rules, buffer), BufferSummaries(g, rules, buffer);
    var k :| 0 <= k < |hits| && hits[k] == hit;
    PB.SummaryDescribesItsBurst(g, rules, buffer, k);
    var op := ops[k];
    assert op in ops && op.key == BurstKeyOf(g, buffer, hit);
    OpBecomesRow(g, remote, rules, db, buffer, op);
    var r :| r in ProcessedDb(g, remote, rules, db, buffer).events.rows && r.key == op.key && r.content == op.content;
    assert op == Op(r.key, r.content);
    assert RowOfBurst(g, buffer, hit, r);
  }

  /** Representation only needs the rows to grow. */
  lemma RepresentedGrows(g: Grammar, rules: seq<BurstRule>, before: map<Key, Content>, after: map<Key, Content>, buffer: seq<LogEntry>, i: nat)
    requires i < |buffer| && before.Keys <= after.Keys && Represented(g, rules, before, buffer, i)
    ensures Represented(g, rules, after, buffer, i)
  {
    if LineKey(buffer[i].source, buffer[i].offset, buffer[i].text) !in before {
      var h :| h in BufferHits(g, rules, buffer) && i in Positions(BufferView(g, buffer), h) && BurstKeyOf(g, buffer, h) in before;
    }
  }

  // ----- crash replay -----

  /** The insertions of a buffer made before the process dies, `done` of them or all. */
  ghost function Early(g: Grammar, remote: seq<RemoteRule>, rules: seq<BurstRule>, buffer: seq<LogEntry>, done: nat): seq<Op> {
    S.Prefix(BufferOps(g, remote, rules, buffer), done)
  }

  /** What the store holds when the process dies after `done` insertions of a buffer. */
  ghost function Crashed(g: Grammar, remote: seq<RemoteRule>, rules: seq<BurstRule>, db: S.Db, buffer: seq<LogEntry>, done: nat): S.Db {
    db.(events := InsertAll(db.events, Early(g, remote, rules, buffer, done)))
  }

  /** Draining the same bytes again after a crash ends with the very table of a crash-free drain. */
  lemma CrashReplay(g: Grammar, remote: seq<RemoteRule>, rules: seq<BurstRule>, db: S.Db, buffer: seq<LogEntry>, done: nat)
    ensures ProcessedDb(g, remote, rules, Crashed(g, remote, rules, db, buffer, done), buffer).events
            == ProcessedDb(g, remote, rules, db, buffer).events
  {
    var ops := BufferOps(g, remote, rules, buffer);
    ProcessedEvents(g, remote, rules, db, buffer);
    ProcessedEvents(g, remote, rules, Crashed(g, remote, rules, db, buffer, done), buffer);
    ReplayAfterPrefix(db.events, ops, if |ops| <= done then |ops| else done);
    assert ops[..|ops|] == ops;
  }

  /**
   Draining other bytes after a crash leaves only crash-free keys iff each early key was stored
   before or is inserted again.
   */
  lemma {:induction false} CrashReplayOfOtherBytes(g: Grammar, remote: seq<RemoteRule>, rules: seq<BurstRule>, db: S.Db,
                                buffer: seq<LogEntry>, done: nat, later: seq<LogEntry>)
    ensures Rows(ProcessedDb(g, remote, rules, Crashed(g, remote, rules, db, buffer, done), later)).Keys
            == Rows(ProcessedDb(g, remote, rules, db, later)).Keys
            <==> forall op :: op in Early(g, remote, rules, buffer, done) ==>
                   op.key in Rows(db) || Inserts(BufferOps(g, remote, rules, later), op.key)
  {
    CrashedRows(g, remote, rules, db, buffer, done, later);
    ReplayWithOtherOps(Rows(db), Early(g, remote, rules, buffer, done), BufferOps(g, remote, rules, later));
  }

  lemma CrashedRows(g: Grammar, remote: seq<RemoteRule>, rules: seq<BurstRule>, db: S.Db,
                    buffer: seq<LogEntry>, done: nat, later: seq<LogEntry>)
    ensures var early, ops := Early(g, remote, rules, buffer, done), BufferOps(g, remote, rules, later);
            && Rows(ProcessedDb(g, remote, rules, Crashed(g, remote, rules, db, buffer, done), later)) == PutAll(PutAll(Rows(db), early), ops)
            && Rows(ProcessedDb(g, remote, rules, db, later)) == PutAll(Rows(db), ops)
  {
    RowsOfBuffer(g, remote, rules, db, later);
    RowsOfBuffer(g, remote, rules, Crashed(g, remote, rules, db, buffer, done), later);
    InsertAllIsPutAll(db.events, Early(g, remote, rules, buffer, done));
  }

  lemma RowsOfBuffer(g: Grammar, remote: seq<RemoteRule>, rules: seq<BurstRule>, db: S.Db, buffer: seq<LogEntry>)
    ensures Rows(ProcessedDb(g, remote, rules, db, buffer)) == PutAll(Rows(db), BufferOps(g, remote, rules, buffer))
  {
    ProcessedEvents(g, remote, rules, db, buffer);
    InsertAllIsPutAll(db.events, BufferOps(g, remote, rules, buffer));
  }

  lemma {:induction false} AllParsed(parsed: seq<Option<LogLine>>)
    requires forall i :: 0 <= i < |parsed| ==> parsed[i].Some?
    ensures Project(parsed) == seq(|parsed|, i requires 0 <= i < |parsed| => (i, parsed[i].value))
  {
    if parsed != [] {
      AllParsed(parsed[..|parsed| - 1]);
    }
  }
}
