/**
 A whole re-parse: reclassify every row, promote the samples that classify by now, collapse the
 bursts that are stored line by line.
 */
module Reparse {
  import opened Prelude
  import opened Grammar
  import opened Bursts
  import opened EventTable
  import opened Collapse
  import opened CollapseLaws
  import R = Reclassify
  import U = Unknowns
  import C = CollapseRun
  import S = Storage

  /** The store after phase 1. */
  function Walked(g: Grammar, remote: seq<RemoteRule>, db: S.Db): S.Db {
    db.(events := db.events.(rows := R.RowsAfter(g, remote, db.events.rows)))
  }

  /** The store after phases 1 and 2. */
  function WalkedAndPromoted(g: Grammar, remote: seq<RemoteRule>, db: S.Db, order: seq<U.SampleId>): S.Db {
    U.Promoted(g, remote, Walked(g, remote, db), order)
  }

  function Reparsed(g: Grammar, remote: seq<RemoteRule>, rules: seq<BurstRule>, db: S.Db, order: seq<U.SampleId>): S.Db {
    var promoted := WalkedAndPromoted(g, remote, db, order);
    promoted.(events := CollapsePass(g, rules, promoted.events).table)
  }

  datatype Report = Report(examined: nat, updated: nat, unmatched: nat, promoted: nat, collapsed: nat, suppressed: nat)

  function ReportOf(g: Grammar, remote: seq<RemoteRule>, rules: seq<BurstRule>, db: S.Db, order: seq<U.SampleId>): Report {
    var rows := db.events.rows;
    var pass := CollapsePass(g, rules, WalkedAndPromoted(g, remote, db, order).events);
    Report(|rows|, R.Changed(g, remote, rows, |rows|), R.Unmatched(g, remote, rows, |rows|),
           |U.PromotionOps(g, remote, db.unknowns, order)|, pass.burstsCollapsed, pass.membersSuppressed)
  }

  method RunReparse(g: Grammar, remote: seq<RemoteRule>, rules: seq<BurstRule>, storage: S.Storage, order: seq<U.SampleId>)
    returns (report: Report)
    requires storage.Valid() && U.Enumerates(order, storage.unknowns)
    modifies storage
    ensures storage.Valid()
    ensures storage.State() == Reparsed(g, remote, rules, old(storage.State()), order)
    ensures report == ReportOf(g, remote, rules, old(storage.State()), order)
  {
    var examined, updated, unmatched := R.ReclassifyAll(g, remote, storage, 500);
    assert storage.State() == Walked(g, remote, old(storage.State()));
    var promoted := U.PromoteUnknowns(g, remote, storage, order);
    var collapsed, suppressed := C.RunCollapse(g, rules, storage);
    report := Report(examined, updated, unmatched, promoted, collapsed, suppressed);
  }

  // ----- when a re-parse has nothing to do -----

  ghost predicate UpToDate(g: Grammar, remote: seq<RemoteRule>, rows: seq<Row>) {
    forall i :: 0 <= i < |rows| ==> R.RowAfter(g, remote, rows, i) == rows[i]
  }

  ghost predicate NonePromotable(g: Grammar, remote: seq<RemoteRule>, u: S.Unknowns) {
    forall id :: id in u ==> !U.Promotable(g, remote, u, id)
  }

  lemma {:induction false} ChangedNone(g: Grammar, remote: seq<RemoteRule>, rows: seq<Row>, n: nat)
    requires n <= |rows|
    ensures R.Changed(g, remote, rows, n) == 0 <==> forall i :: 0 <= i < n ==> R.RowAfter(g, remote, rows, i) == rows[i]
  {
    if n > 0 {
      ChangedNone(g, remote, rows, n - 1);
    }
  }

  /** Same ids in the same places: rows found again are found where they were. */
  lemma RowsInPlace(before: seq<Row>, after: seq<Row>)
    requires IdsIncrease(before) && |after| == |before|
    requires forall i :: 0 <= i < |before| ==> after[i].id == before[i].id
    requires forall r :: r in before ==> r in after
    ensures after == before
  {
    forall i | 0 <= i < |before|
      ensures after[i] == before[i]
    {
      assert before[i] in after;
      var j :| 0 <= j < |after| && after[j] == before[i];
      assert before[j].id == before[i].id;
    }
  }

  lemma PromotionIdleIff(g: Grammar, remote: seq<RemoteRule>, db: S.Db, order: seq<U.SampleId>)
    requires U.Enumerates(order, db.unknowns)
    ensures U.Promoted(g, remote, db, order).unknowns == db.unknowns <==> NonePromotable(g, remote, db.unknowns)
    ensures U.PromotionOps(g, remote, db.unknowns, order) == [] <==> NonePromotable(g, remote, db.unknowns)
    ensures NonePromotable(g, remote, db.unknowns) ==> U.Promoted(g, remote, db, order) == db
  {
    if NonePromotable(g, remote, db.unknowns) {
      U.NothingToPromote(g, remote, db.unknowns, order);
      assert U.Remaining(g, remote, db.unknowns, order) == db.unknowns;
    } else {
      var id :| id in db.unknowns && U.Promotable(g, remote, db.unknowns, id);
      U.PromotableHasOp(g, remote, db.unknowns, order, id);
      assert id !in U.Remaining(g, remote, db.unknowns, order);
    }
  }

  /** A pass cannot undo a rewrite: if it ends with the old table, the walk changed no row. */
  lemma PassCannotUndoWalk(g: Grammar, remote: seq<RemoteRule>, rules: seq<BurstRule>, t: Table)
    requires ValidTable(t)
    ensures CollapsePass(g, rules, t.(rows := R.RowsAfter(g, remote, t.rows))).table == t ==> R.RowsAfter(g, remote, t.rows) == t.rows
  {
    var walked := t.(rows := R.RowsAfter(g, remote, t.rows));
    R.RowsAfterValid(g, remote, t);
    PassAccounts(g, rules, walked);
    forall i | 0 <= i < |t.rows|
      ensures walked.rows[i].id == t.rows[i].id
    {
      R.SameRaws(g, remote, t.rows, i);
    }
    if CollapsePass(g, rules, walked).table == t {
      RowsInPlace(t.rows, walked.rows);
    }
  }

  /**
   A re-parse leaves the store exactly as it was iff every row already carries what it classifies
   to, no sample classifies, and no stored source holds a burst.
   */
  lemma {:induction false} ReparseIsIdleIff(g: Grammar, remote: seq<RemoteRule>, rules: seq<BurstRule>, db: S.Db, order: seq<U.SampleId>)
    requires ValidTable(db.events) && U.Enumerates(order, db.unknowns)
    requires forall r :: r in rules ==> r.minBurstSize >= 1
    ensures Reparsed(g, remote, rules, db, order) == db
            <==> UpToDate(g, remote, db.events.rows) && NonePromotable(g, remote, db.unknowns) && Settled(g, rules, db.events)
  {
    var walked := Walked(g, remote, db);
    PromotionIdleIff(g, remote, walked, order);
    PassIsNoOpIffSettled(g, rules, db.events);
    UpToDateRows(g, remote, db.events.rows);
    if Reparsed(g, remote, rules, db, order) == db {
      PassCannotUndoWalk(g, remote, rules, db.events);
    }
  }

  lemma UpToDateRows(g: Grammar, remote: seq<RemoteRule>, rows: seq<Row>)
    ensures UpToDate(g, remote, rows) <==> R.RowsAfter(g, remote, rows) == rows
  {
    var after := R.RowsAfter(g, remote, rows);
    assert forall i :: 0 <= i < |rows| ==> after[i] == R.RowAfter(g, remote, rows, i);
  }

  /** The report is honest: it shows no update, promotion or collapse iff the store is unchanged. */
  lemma ReportIsHonest(g: Grammar, remote: seq<RemoteRule>, rules: seq<BurstRule>, db: S.Db, order: seq<U.SampleId>)
    requires ValidTable(db.events) && U.Enumerates(order, db.unknowns)
    requires forall r :: r in rules ==> r.minBurstSize >= 1
    ensures var report := ReportOf(g, remote, rules, db, order);
            Reparsed(g, remote, rules, db, order) == db <==> report.updated == 0 && report.promoted == 0 && report.collapsed == 0
  {
    var rows, walked := db.events.rows, Walked(g, remote, db);
    ReparseIsIdleIff(g, remote, rules, db, order);
    ChangedNone(g, remote, rows, |rows|);
    PromotionIdleIff(g, remote, walked, order);
    UpToDateRows(g, remote, rows);
    PassIsNoOpIffNoHits(g, rules, db.events);
    PassIsNoOpIffSettled(g, rules, db.events);
  }

  // ----- the lines a store stands for -----

  /** Row `r` is a summary that phase 1 will overwrite by its anchor line. */
  predicate Overwritten(g: Grammar, remote: seq<RemoteRule>, r: Row) {
    r.content.etype == TBurstSummary && RecogniseText(g, remote, r.content.raw).Some?
  }

  /** Lines forgotten by overwriting summaries: all but one of each. */
  function Forgotten(g: Grammar, remote: seq<RemoteRule>, rows: seq<Row>): int {
    if rows == [] then 0
    else
      var r := rows[|rows| - 1];
      Forgotten(g, remote, rows[..|rows| - 1]) + if Overwritten(g, remote, r) then RowWeight(r) - 1 else 0
  }

  lemma WeightOfRow(g: Grammar, remote: seq<RemoteRule>, rows: seq<Row>, i: nat)
    requires i < |rows| && Consistent(rows[i].content)
    ensures RowWeight(R.RowAfter(g, remote, rows, i))
            == RowWeight(rows[i]) - if Overwritten(g, remote, rows[i]) then RowWeight(rows[i]) - 1 else 0
  {
  }

  lemma {:induction false} WeightOfWalk(g: Grammar, remote: seq<RemoteRule>, rows: seq<Row>, n: nat)
    requires n <= |rows| && forall r :: r in rows ==> Consistent(r.content)
    ensures Weight(R.RowsAfter(g, remote, rows)[..n]) == Weight(rows[..n]) - Forgotten(g, remote, rows[..n])
  {
    if n > 0 {
      var after := R.RowsAfter(g, remote, rows);
      assert rows[n - 1] in rows;
      WeightOfWalk(g, remote, rows, n - 1);
      WeightOfRow(g, remote, rows, n - 1);
      assert rows[..n] == rows[..n - 1] + [rows[n - 1]] && after[..n] == after[..n - 1] + [after[n - 1]];
      TotalSnoc(rows[..n - 1], rows[n - 1], RowWeight);
      TotalSnoc(after[..n - 1], after[n - 1], RowWeight);
    }
  }

  /** Phase 1 forgets all but one line of every summary whose anchor line classifies. */
  lemma WalkForgets(g: Grammar, remote: seq<RemoteRule>, t: Table)
    requires ValidTable(t)
    ensures Weight(R.RowsAfter(g, remote, t.rows)) == Weight(t.rows) - Forgotten(g, remote, t.rows)
  {
    WeightOfWalk(g, remote, t.rows, |t.rows|);
    assert R.RowsAfter(g, remote, t.rows)[..|t.rows|] == R.RowsAfter(g, remote, t.rows) && t.rows[..|t.rows|] == t.rows;
  }

  lemma {:induction false} WeightOfInserts(t: Table, ops: seq<Op>)
    requires forall op :: op in ops ==> !op.content.payload.BurstSummary?
    ensures Weight(InsertAll(t, ops).rows) == Weight(t.rows) + |InsertAll(t, ops).rows| - |t.rows|
  {
    if ops != [] {
      var init, last := ops[..|ops| - 1], ops[|ops| - 1];
      assert last in ops && forall op :: op in init ==> op in ops;
      WeightOfInserts(t, init);
      var half := InsertAll(t, init);
      TotalSnoc(half.rows, Row(half.nextId, last.key, last.content), RowWeight);
    }
  }

  lemma {:induction false} PromotionsAreOrdinary(g: Grammar, remote: seq<RemoteRule>, u: S.Unknowns, order: seq<U.SampleId>)
    ensures forall op :: op in U.PromotionOps(g, remote, u, order) ==> !op.content.payload.BurstSummary? && Consistent(op.content)
  {
    if order != [] {
      PromotionsAreOrdinary(g, remote, u, order[..|order| - 1]);
    }
  }

  /** Samples that became new rows in phase 2. */
  function FreshPromotions(g: Grammar, remote: seq<RemoteRule>, db: S.Db, order: seq<U.SampleId>): int {
    |WalkedAndPromoted(g, remote, db, order).events.rows| - |db.events.rows|
  }

  /**
   The account of a whole re-parse: the lines the store stands for change by the samples newly
   promoted, less the lines forgotten with overwritten summaries, less the members deleted for
   summaries that were there already.
   */
  lemma WeightOfReparse(g: Grammar, remote: seq<RemoteRule>, rules: seq<BurstRule>, db: S.Db, order: seq<U.SampleId>)
    requires ValidTable(db.events)
    ensures var pass := CollapsePass(g, rules, WalkedAndPromoted(g, remote, db, order).events);
            Weight(Reparsed(g, remote, rules, db, order).events.rows)
            == Weight(db.events.rows) + FreshPromotions(g, remote, db, order)
               - Forgotten(g, remote, db.events.rows) - (pass.membersSuppressed - pass.newSize)
  {
    var walked, ops := Walked(g, remote, db), U.PromotionOps(g, remote, db.unknowns, order);
    WalkForgets(g, remote, db.events);
    R.RowsAfterValid(g, remote, db.events);
    PromotionsAreOrdinary(g, remote, db.unknowns, order);
    WeightOfInserts(walked.events, ops);
    InsertAllValid(walked.events, ops);
    PassAccounts(g, rules, WalkedAndPromoted(g, remote, db, order).events);
  }
}
