/**
 What a crash in the middle of a drain leaves behind when the log has grown before the restart: the
 exact condition under which the second drain ends where a crash-free one would have ended.
 */
module CrashReplays {
  import opened Prelude
  import opened Keys
  import opened Grammar
  import opened Bursts
  import opened EventTable
  import opened Ingest
  import opened IngestLaws
  import S = Storage

  ghost predicate Grown(buffer: seq<LogEntry>, later: seq<LogEntry>) {
    buffer <= later && Sourced(later) && OffsetsIncrease(later)
  }

  /** Hit `k` of the longer buffer has the anchor, the rule and the size of hit `h` of the shorter. */
  ghost predicate SameBurst(g: Grammar, rules: seq<BurstRule>, buffer: seq<LogEntry>, h: nat, later: seq<LogEntry>, k: nat)
    requires h < |BufferHits(g, rules, buffer)| && k < |BufferHits(g, rules, later)|
  {
    var x, y := BufferHits(g, rules, buffer)[h], BufferHits(g, rules, later)[k];
    && AnchorAt(g, rules, buffer, h) == AnchorAt(g, rules, later, k)
    && x.ruleId == y.ruleId && x.size == y.size
  }

  /** Detection still finds the burst in the longer buffer. */
  ghost predicate StillFound(g: Grammar, rules: seq<BurstRule>, buffer: seq<LogEntry>, h: nat, later: seq<LogEntry>)
    requires h < |BufferHits(g, rules, buffer)|
  {
    exists k :: 0 <= k < |BufferHits(g, rules, later)| && SameBurst(g, rules, buffer, h, later, k)
  }

  function EndOf(g: Grammar, rules: seq<BurstRule>, buffer: seq<LogEntry>, h: nat): string
    requires h < |BufferHits(g, rules, buffer)|
  {
    var hit := BufferHits(g, rules, buffer)[h];
    assert hit in BufferHits(g, rules, buffer);
    BufferView(g, buffer)[hit.endIndex].1.timestamp
  }

  /** Detection still finds the burst, ending at the same time. */
  ghost predicate StillFoundWhole(g: Grammar, rules: seq<BurstRule>, buffer: seq<LogEntry>, h: nat, later: seq<LogEntry>)
    requires h < |BufferHits(g, rules, buffer)|
  {
    exists k :: 0 <= k < |BufferHits(g, rules, later)| && SameBurst(g, rules, buffer, h, later, k)
                && EndOf(g, rules, buffer, h) == EndOf(g, rules, later, k)
  }

  // ----- keys -----

  lemma EntriesAt(buffer: seq<LogEntry>, later: seq<LogEntry>, i: nat, j: nat)
    requires Grown(buffer, later) && i < |buffer| && j < |later|
    ensures buffer[i] == later[i] && ColonFree(later[i].source) && ColonFree(later[j].source)
    ensures buffer[i].offset == later[j].offset <==> i == j
  {
    assert later[i] in later && later[j] in later;
  }

  /** Two summaries share their key iff they stand for the same burst; rule ids may be any text. */
  lemma SummaryKeysMeet(g: Grammar, rules: seq<BurstRule>, buffer: seq<LogEntry>, h: nat, later: seq<LogEntry>, k: nat)
    requires Grown(buffer, later) && h < |BufferHits(g, rules, buffer)| && k < |BufferHits(g, rules, later)|
    ensures BufferSummaries(g, rules, buffer)[h].key == BufferSummaries(g, rules, later)[k].key
            <==> SameBurst(g, rules, buffer, h, later, k)
  {
    var i, j := AnchorAt(g, rules, buffer, h), AnchorAt(g, rules, later, k);
    var a, b := buffer[i], later[j];
    var x, y := BufferHits(g, rules, buffer)[h], BufferHits(g, rules, later)[k];
    EntriesAt(buffer, later, i, j);
    SummaryKeyAt(g, rules, buffer, h);
    SummaryKeyAt(g, rules, later, k);
    if i == j {
      BurstKeyInjective(a.source, a.offset, a.text, x.ruleId, x.size, b.source, b.offset, b.text, y.ruleId, y.size);
    } else {
      LineKeyInjective(a.source, a.offset, BurstLine(a.text, x.ruleId, x.size), b.source, b.offset, BurstLine(b.text, y.ruleId, y.size));
    }
  }

  lemma SummaryMeetsNoLine(g: Grammar, rules: seq<BurstRule>, buffer: seq<LogEntry>, h: nat, later: seq<LogEntry>, j: nat)
    requires Grown(buffer, later) && h < |BufferHits(g, rules, buffer)| && j < |later|
    ensures BufferSummaries(g, rules, buffer)[h].key != LineKey(later[j].source, later[j].offset, later[j].text)
  {
    var i := AnchorAt(g, rules, buffer, h);
    var a, x := buffer[i], BufferHits(g, rules, buffer)[h];
    EntriesAt(buffer, later, i, j);
    SummaryKeyAt(g, rules, buffer, h);
    BurstKeyVersusLineKey(a.source, a.offset, a.text, x.ruleId, x.size, later[j].source, later[j].offset, later[j].text);
  }

  lemma LinesMeet(buffer: seq<LogEntry>, later: seq<LogEntry>, i: nat, j: nat)
    requires Grown(buffer, later) && i < |buffer| && j < |later|
    ensures LineKey(buffer[i].source, buffer[i].offset, buffer[i].text) == LineKey(later[j].source, later[j].offset, later[j].text)
            <==> i == j
  {
    EntriesAt(buffer, later, i, j);
    LineKeyInjective(buffer[i].source, buffer[i].offset, buffer[i].text, later[j].source, later[j].offset, later[j].text);
  }

  /** The longer buffer inserts the summary's key iff the burst is still found. */
  lemma SummaryInsertedAgain(g: Grammar, remote: seq<RemoteRule>, rules: seq<BurstRule>, buffer: seq<LogEntry>, h: nat, later: seq<LogEntry>)
    requires Grown(buffer, later) && h < |BufferHits(g, rules, buffer)|
    ensures Inserts(BufferOps(g, remote, rules, later), BufferSummaries(g, rules, buffer)[h].key)
            <==> StillFound(g, rules, buffer, h, later)
  {
    var key, summaries := BufferSummaries(g, rules, buffer)[h].key, BufferSummaries(g, rules, later);
    if StillFound(g, rules, buffer, h, later) {
      var k :| 0 <= k < |BufferHits(g, rules, later)| && SameBurst(g, rules, buffer, h, later, k);
      SummaryKeysMeet(g, rules, buffer, h, later, k);
      assert summaries[k] in BufferOps(g, remote, rules, later);
    } else {
      forall op | op in BufferOps(g, remote, rules, later)
        ensures op.key != key
      {
        LostBurstMeetsNothing(g, remote, rules, buffer, h, later, op);
      }
    }
  }

  lemma LostBurstMeetsNothing(g: Grammar, remote: seq<RemoteRule>, rules: seq<BurstRule>, buffer: seq<LogEntry>, h: nat,
                              later: seq<LogEntry>, op: Op)
    requires Grown(buffer, later) && h < |BufferHits(g, rules, buffer)| && !StillFound(g, rules, buffer, h, later)
    ensures op in BufferOps(g, remote, rules, later) ==> op.key != BufferSummaries(g, rules, buffer)[h].key
  {
    var summaries := BufferSummaries(g, rules, later);
    if op in summaries {
      var k :| 0 <= k < |summaries| && summaries[k] == op;
      SummaryKeysMeet(g, rules, buffer, h, later, k);
      assert !SameBurst(g, rules, buffer, h, later, k);
    } else if op in LineOps(g, remote, BufferLines(g, rules, later)) {
      var j := LineOfOp(g, remote, rules, later, op);
      SummaryMeetsNoLine(g, rules, buffer, h, later, j);
    }
  }

  /** The longer buffer inserts a line of the shorter iff no burst claims it there. */
  lemma LineInsertedAgain(g: Grammar, remote: seq<RemoteRule>, rules: seq<BurstRule>, buffer: seq<LogEntry>, i: nat, later: seq<LogEntry>)
    requires Grown(buffer, later) && i < |buffer| && RecogniseText(g, remote, buffer[i].text).Some?
    ensures Inserts(BufferOps(g, remote, rules, later), LineKey(buffer[i].source, buffer[i].offset, buffer[i].text))
            <==> i !in BufferSuppressed(g, rules, later)
    ensures LineOp(buffer[i], RecogniseText(g, remote, buffer[i].text).value) in BufferOps(g, remote, rules, later)
            <==> i !in BufferSuppressed(g, rules, later)
  {
    var key, summaries := LineKey(buffer[i].source, buffer[i].offset, buffer[i].text), BufferSummaries(g, rules, later);
    EntriesAt(buffer, later, i, i);
    if i !in BufferSuppressed(g, rules, later) {
      KeptLineOp(g, remote, rules, later, i);
    } else {
      forall op | op in BufferOps(g, remote, rules, later)
        ensures op.key != key
      {
        if op in summaries {
          var k :| 0 <= k < |summaries| && summaries[k] == op;
          SummaryMeetsNoLine(g, rules, later, k, later, i);
        } else {
          var j := LineOfOp(g, remote, rules, later, op);
          LinesMeet(buffer, later, i, j);
        }
      }
    }
  }

  /** Two summaries of the same burst have the same content iff they end at the same time. */
  lemma SameBurstSameOp(g: Grammar, rules: seq<BurstRule>, buffer: seq<LogEntry>, h: nat, later: seq<LogEntry>, k: nat)
    requires Grown(buffer, later) && h < |BufferHits(g, rules, buffer)| && k < |BufferHits(g, rules, later)|
    requires SameBurst(g, rules, buffer, h, later, k)
    ensures BufferSummaries(g, rules, buffer)[h] == BufferSummaries(g, rules, later)[k]
            <==> EndOf(g, rules, buffer, h) == EndOf(g, rules, later, k)
  {
    var view, view' := BufferView(g, buffer), BufferView(g, later);
    var x, y := BufferHits(g, rules, buffer)[h], BufferHits(g, rules, later)[k];
    assert x in BufferHits(g, rules, buffer) && y in BufferHits(g, rules, later);
    assert view[x.startIndex] in view && view'[y.startIndex] in view';
    SummaryKeysMeet(g, rules, buffer, h, later, k);
    EntriesAt(buffer, later, AnchorAt(g, rules, buffer, h), AnchorAt(g, rules, later, k));
    assert BufferSummaries(g, rules, buffer)[h] == SummaryOp(g, buffer, view, x);
    assert BufferSummaries(g, rules, later)[k] == SummaryOp(g, later, view', y);
  }

  lemma SummaryMadeAgain(g: Grammar, remote: seq<RemoteRule>, rules: seq<BurstRule>, buffer: seq<LogEntry>, h: nat, later: seq<LogEntry>)
    requires Grown(buffer, later) && h < |BufferHits(g, rules, buffer)|
    ensures BufferSummaries(g, rules, buffer)[h] in BufferOps(g, remote, rules, later)
            <==> StillFoundWhole(g, rules, buffer, h, later)
  {
    var op, summaries := BufferSummaries(g, rules, buffer)[h], BufferSummaries(g, rules, later);
    if StillFoundWhole(g, rules, buffer, h, later) {
      var k :| 0 <= k < |BufferHits(g, rules, later)| && SameBurst(g, rules, buffer, h, later, k)
               && EndOf(g, rules, buffer, h) == EndOf(g, rules, later, k);
      SameBurstSameOp(g, rules, buffer, h, later, k);
      assert summaries[k] in BufferOps(g, remote, rules, later);
    }
    if op in BufferOps(g, remote, rules, later) {
      if op in summaries {
        var k :| 0 <= k < |summaries| && summaries[k] == op;
        SummaryKeysMeet(g, rules, buffer, h, later, k);
        SameBurstSameOp(g, rules, buffer, h, later, k);
      } else {
        var j := LineOfOp(g, remote, rules, later, op);
        SummaryMeetsNoLine(g, rules, buffer, h, later, j);
      }
    }
  }

  // ----- the condition -----

  /** Line `i` had been inserted on its own before the crash. */
  ghost predicate LineDone(g: Grammar, remote: seq<RemoteRule>, rules: seq<BurstRule>, buffer: seq<LogEntry>, done: nat, i: nat)
  {
    && i < |buffer| && RecogniseText(g, remote, buffer[i].text).Some?
    && LineOp(buffer[i], RecogniseText(g, remote, buffer[i].text).value) in Early(g, remote, rules, buffer, done)
  }

  /** Every early line is stored from before or still outside every burst. */
  ghost predicate LinesStillLoose(g: Grammar, remote: seq<RemoteRule>, rules: seq<BurstRule>, rows: map<Key, Content>,
                                  buffer: seq<LogEntry>, done: nat, later: seq<LogEntry>)
  {
    forall i: nat :: LineDone(g, remote, rules, buffer, done, i) ==>
      LineKey(buffer[i].source, buffer[i].offset, buffer[i].text) in rows || i !in BufferSuppressed(g, rules, later)
  }

  ghost predicate BurstsStillFound(g: Grammar, rules: seq<BurstRule>, rows: map<Key, Content>,
                                   buffer: seq<LogEntry>, done: nat, later: seq<LogEntry>)
  {
    forall h :: 0 <= h < |BufferHits(g, rules, buffer)| && h < done ==>
      BufferSummaries(g, rules, buffer)[h].key in rows || StillFound(g, rules, buffer, h, later)
  }

  ghost predicate BurstsStillWhole(g: Grammar, rules: seq<BurstRule>, rows: map<Key, Content>,
                                   buffer: seq<LogEntry>, done: nat, later: seq<LogEntry>)
  {
    forall h :: 0 <= h < |BufferHits(g, rules, buffer)| && h < done ==>
      BufferSummaries(g, rules, buffer)[h].key in rows || StillFoundWhole(g, rules, buffer, h, later)
  }

  /** The early insertions are the summaries by number, then lines. */
  lemma EarlyOp(g: Grammar, remote: seq<RemoteRule>, rules: seq<BurstRule>, buffer: seq<LogEntry>, done: nat, op: Op)
    returns (h: nat, i: nat)
    ensures op in Early(g, remote, rules, buffer, done) ==>
            || (h < |BufferHits(g, rules, buffer)| && h < done && BufferSummaries(g, rules, buffer)[h] == op)
            || (LineDone(g, remote, rules, buffer, done, i) && op == LineOp(buffer[i], RecogniseText(g, remote, buffer[i].text).value))
  {
    var early, summaries := Early(g, remote, rules, buffer, done), BufferSummaries(g, rules, buffer);
    var lines := LineOps(g, remote, BufferLines(g, rules, buffer));
    h, i := 0, 0;
    if op in early {
      var k :| 0 <= k < |early| && early[k] == op;
      h := k;
      AtOfSum(summaries, lines, k);
      if k >= |summaries| {
        i := LineOfOp(g, remote, rules, buffer, op);
      }
    }
  }

  lemma AtOfSum(a: seq<Op>, b: seq<Op>, k: nat)
    requires k < |a + b|
    ensures if k < |a| then (a + b)[k] == a[k] else (a + b)[k] in b
  {
  }

  lemma EarlySummary(g: Grammar, remote: seq<RemoteRule>, rules: seq<BurstRule>, buffer: seq<LogEntry>, done: nat, h: nat)
    requires h < |BufferHits(g, rules, buffer)| && h < done
    ensures BufferSummaries(g, rules, buffer)[h] in Early(g, remote, rules, buffer, done)
  {
    assert Early(g, remote, rules, buffer, done)[h] == BufferSummaries(g, rules, buffer)[h];
  }

  /**
   Draining after a crash what the log has become by then. With the summaries among the first
   `done` insertions, and the lines after them, already stored:
   - the keys are those of a crash-free drain iff detection on the grown log still finds each of
     those bursts with its anchor, rule and size and claims none of those lines;
   - the rows are those of a crash-free drain iff each such burst also still ends at the same time.
   What the store held before the first drain is exempt.
   */
  lemma CrashReplayOfGrownLog(g: Grammar, remote: seq<RemoteRule>, rules: seq<BurstRule>, db: S.Db,
                              buffer: seq<LogEntry>, done: nat, later: seq<LogEntry>)
    requires Grown(buffer, later)
    ensures Rows(ProcessedDb(g, remote, rules, Crashed(g, remote, rules, db, buffer, done), later)).Keys
            == Rows(ProcessedDb(g, remote, rules, db, later)).Keys
            <==> BurstsStillFound(g, rules, Rows(db), buffer, done, later)
                 && LinesStillLoose(g, remote, rules, Rows(db), buffer, done, later)
    ensures Rows(ProcessedDb(g, remote, rules, Crashed(g, remote, rules, db, buffer, done), later))
            == Rows(ProcessedDb(g, remote, rules, db, later))
            <==> BurstsStillWhole(g, rules, Rows(db), buffer, done, later)
                 && LinesStillLoose(g, remote, rules, Rows(db), buffer, done, later)
  {
    var early, ops, m := Early(g, remote, rules, buffer, done), BufferOps(g, remote, rules, later), Rows(db);
    CrashedRows(g, remote, rules, db, buffer, done, later);
    ReplayWithOtherOps(m, early, ops);
    EarlyAgree(g, remote, rules, buffer, done, later);
    ReplayOfSameRows(m, early, ops);
    KeysCondition(g, remote, rules, m, buffer, done, later);
    RowsCondition(g, remote, rules, m, buffer, done, later);
  }

  lemma EarlyAgree(g: Grammar, remote: seq<RemoteRule>, rules: seq<BurstRule>, buffer: seq<LogEntry>, done: nat, later: seq<LogEntry>)
    requires Grown(buffer, later)
    ensures Agree(Early(g, remote, rules, buffer, done)) && Agree(BufferOps(g, remote, rules, later))
  {
    assert later == buffer + later[|buffer|..];
    PartsWellFormed(buffer, later[|buffer|..]);
    BufferOpsAgree(g, remote, rules, buffer);
    BufferOpsAgree(g, remote, rules, later);
  }

  lemma KeysCondition(g: Grammar, remote: seq<RemoteRule>, rules: seq<BurstRule>, m: map<Key, Content>,
                      buffer: seq<LogEntry>, done: nat, later: seq<LogEntry>)
    requires Grown(buffer, later)
    ensures (forall op :: op in Early(g, remote, rules, buffer, done) ==> op.key in m || Inserts(BufferOps(g, remote, rules, later), op.key))
            <==> BurstsStillFound(g, rules, m, buffer, done, later) && LinesStillLoose(g, remote, rules, m, buffer, done, later)
  {
    var early := Early(g, remote, rules, buffer, done);
    if forall op :: op in early ==> op.key in m || Inserts(BufferOps(g, remote, rules, later), op.key) {
      forall h | 0 <= h < |BufferHits(g, rules, buffer)| && h < done
        ensures BufferSummaries(g, rules, buffer)[h].key in m || StillFound(g, rules, buffer, h, later)
      {
        EarlySummary(g, remote, rules, buffer, done, h);
        SummaryInsertedAgain(g, remote, rules, buffer, h, later);
      }
      forall i: nat | LineDone(g, remote, rules, buffer, done, i)
        ensures LineKey(buffer[i].source, buffer[i].offset, buffer[i].text) in m || i !in BufferSuppressed(g, rules, later)
      {
        LineInsertedAgain(g, remote, rules, buffer, i, later);
      }
    }
    if BurstsStillFound(g, rules, m, buffer, done, later) && LinesStillLoose(g, remote, rules, m, buffer, done, later) {
      forall op | op in early
        ensures op.key in m || Inserts(BufferOps(g, remote, rules, later), op.key)
      {
        var h, i := EarlyOp(g, remote, rules, buffer, done, op);
        if h < |BufferHits(g, rules, buffer)| && h < done && BufferSummaries(g, rules, buffer)[h] == op {
          SummaryInsertedAgain(g, remote, rules, buffer, h, later);
        } else {
          LineInsertedAgain(g, remote, rules, buffer, i, later);
        }
      }
    }
  }

  lemma RowsCondition(g: Grammar, remote: seq<RemoteRule>, rules: seq<BurstRule>, m: map<Key, Content>,
                      buffer: seq<LogEntry>, done: nat, later: seq<LogEntry>)
    requires Grown(buffer, later)
    ensures (forall op :: op in Early(g, remote, rules, buffer, done) ==> op.key in m || op in BufferOps(g, remote, rules, later))
            <==> BurstsStillWhole(g, rules, m, buffer, done, later) && LinesStillLoose(g, remote, rules, m, buffer, done, later)
  {
    var early := Early(g, remote, rules, buffer, done);
    if forall op :: op in early ==> op.key in m || op in BufferOps(g, remote, rules, later) {
      forall h | 0 <= h < |BufferHits(g, rules, buffer)| && h < done
        ensures BufferSummaries(g, rules, buffer)[h].key in m || StillFoundWhole(g, rules, buffer, h, later)
      {
        EarlySummary(g, remote, rules, buffer, done, h);
        SummaryMadeAgain(g, remote, rules, buffer, h, later);
      }
      forall i: nat | LineDone(g, remote, rules, buffer, done, i)
        ensures LineKey(buffer[i].source, buffer[i].offset, buffer[i].text) in m || i !in BufferSuppressed(g, rules, later)
      {
        LineInsertedAgain(g, remote, rules, buffer, i, later);
      }
    }
    if BurstsStillWhole(g, rules, m, buffer, done, later) && LinesStillLoose(g, remote, rules, m, buffer, done, later) {
      forall op | op in early
        ensures op.key in m || op in BufferOps(g, remote, rules, later)
      {
        var h, i := EarlyOp(g, remote, rules, buffer, done, op);
        if h < |BufferHits(g, rules, buffer)| && h < done && BufferSummaries(g, rules, buffer)[h] == op {
          SummaryMadeAgain(g, remote, rules, buffer, h, later);
        } else {
          LineInsertedAgain(g, remote, rules, buffer, i, later);
        }
      }
    }
  }
}
