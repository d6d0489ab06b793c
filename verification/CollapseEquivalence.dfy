/**
 Collapsing a buffer before storing it and storing its lines singly before collapsing them
 retroactively leave the same rows.
 */
module CollapseEquivalence {
  import opened Prelude
  import opened Keys
  import opened Grammar
  import opened Bursts
  import opened EventTable
  import opened Ingest
  import opened IngestLaws
  import opened Collapse
  import opened CollapseLaws

  ghost predicate OneSource(buffer: seq<LogEntry>, source: string) {
    forall e :: e in buffer ==> e.source == source
  }

  /** Every line that parses classifies. */
  ghost predicate AllClassify(g: Grammar, remote: seq<RemoteRule>, buffer: seq<LogEntry>) {
    forall e :: e in buffer && g.parse(e.text).Some? ==> RecogniseText(g, remote, e.text).Some?
  }

  // ----- the table of single lines -----

  function NumberedRows(ops: seq<Op>): (rows: seq<Row>)
    ensures |rows| == |ops|
  {
    seq(|ops|, i requires 0 <= i < |ops| => Row(i + 1, ops[i].key, ops[i].content))
  }

  ghost predicate OpKeysDiffer(ops: seq<Op>) {
    forall i, j :: 0 <= i < j < |ops| ==> ops[i].key != ops[j].key
  }

  lemma {:induction false} DistinctInserts(ops: seq<Op>)
    requires OpKeysDiffer(ops)
    ensures InsertAll(EMPTY_TABLE, ops) == Table(NumberedRows(ops), |ops| + 1)
  {
    if ops == [] {
      assert NumberedRows(ops) == [];
    } else {
      var init, last := ops[..|ops| - 1], ops[|ops| - 1];
      DistinctInserts(init);
      var rows := NumberedRows(init);
      assert last.key !in Contents(rows) by {
        KeyHasRow(rows, last.key);
        forall r | r in rows
          ensures r.key != last.key
        {
          var i :| 0 <= i < |rows| && rows[i] == r;
          assert ops[i].key != ops[|ops| - 1].key;
        }
      }
      assert NumberedRows(ops) == rows + [Row(|ops|, last.key, last.content)];
    }
  }

  /** Line `j` of the parseable view makes insertion `j`. */
  lemma {:induction false} SingleOps(g: Grammar, remote: seq<RemoteRule>, buffer: seq<LogEntry>)
    requires AllClassify(g, remote, buffer)
    ensures |LineOps(g, remote, buffer)| == |BufferView(g, buffer)|
    ensures forall j :: 0 <= j < |BufferView(g, buffer)| ==> IsSingle(g, remote, buffer, j)
  {
    if buffer != [] {
      var init, last := buffer[..|buffer| - 1], buffer[|buffer| - 1];
      assert buffer == init + [last] && last in buffer;
      SingleOps(g, remote, init);
      assert ParsedLines(g, buffer)[..|buffer| - 1] == ParsedLines(g, init);
      var before, view := BufferView(g, init), BufferView(g, buffer);
      forall j | 0 <= j < |view|
        ensures IsSingle(g, remote, buffer, j)
      {
        if j < |before| {
          assert IsSingle(g, remote, init, j);
          assert before[j] in before && view[j] == before[j];
        }
      }
    }
  }

  ghost predicate IsSingle(g: Grammar, remote: seq<RemoteRule>, buffer: seq<LogEntry>, j: nat) {
    && j < |BufferView(g, buffer)| && j < |LineOps(g, remote, buffer)|
    && BufferView(g, buffer)[j].0 < |buffer|
    && var e := buffer[BufferView(g, buffer)[j].0];
       && g.parse(e.text) == Some(BufferView(g, buffer)[j].1)
       && RecogniseText(g, remote, e.text).Some?
       && LineOps(g, remote, buffer)[j] == LineOp(e, RecogniseText(g, remote, e.text).value)
  }

  function Singles(g: Grammar, remote: seq<RemoteRule>, buffer: seq<LogEntry>): Table {
    Table(NumberedRows(LineOps(g, remote, buffer)), |LineOps(g, remote, buffer)| + 1)
  }

  lemma {:induction false} SinglesInserted(g: Grammar, remote: seq<RemoteRule>, buffer: seq<LogEntry>)
    requires AllClassify(g, remote, buffer) && Sourced(buffer) && OffsetsIncrease(buffer)
    ensures InsertAll(EMPTY_TABLE, LineOps(g, remote, buffer)) == Singles(g, remote, buffer)
  {
    SingleOps(g, remote, buffer);
    ProjectIncreases(ParsedLines(g, buffer));
    var ops, view := LineOps(g, remote, buffer), BufferView(g, buffer);
    forall i, j | 0 <= i < j < |ops|
      ensures ops[i].key != ops[j].key
    {
      assert IsSingle(g, remote, buffer, i) && IsSingle(g, remote, buffer, j);
      var a, b := buffer[view[i].0], buffer[view[j].0];
      assert a in buffer && b in buffer && a.offset < b.offset;
      LineKeyInjective(a.source, a.offset, a.text, b.source, b.offset, b.text);
    }
    DistinctInserts(ops);
  }

  lemma SinglesValid(g: Grammar, remote: seq<RemoteRule>, buffer: seq<LogEntry>)
    requires AllClassify(g, remote, buffer) && Sourced(buffer) && OffsetsIncrease(buffer)
    ensures ValidTable(Singles(g, remote, buffer))
  {
    SinglesInserted(g, remote, buffer);
    LineOpsMembers(g, remote, buffer);
    InsertAllValid(EMPTY_TABLE, LineOps(g, remote, buffer));
  }

  // ----- its scan is itself -----

  lemma {:induction false} OneSourceScan(rows: seq<Row>, source: string)
    requires forall r :: r in rows ==> r.content.source == source
    ensures BySource(rows, source) == rows
    ensures DistinctSources(rows) == if rows == [] then [] else [source]
  {
    if rows != [] {
      var init := rows[..|rows| - 1];
      assert rows == init + [rows[|rows| - 1]] && rows[|rows| - 1] in rows;
      OneSourceScan(init, source);
    }
  }

  lemma {:induction false} SortedStays(rows: seq<Row>)
    requires OffsetsOrdered(rows)
    ensures SortByOffset(rows) == rows
  {
    if rows != [] {
      SortedStays(rows[..|rows| - 1]);
      assert rows == rows[..|rows| - 1] + [rows[|rows| - 1]];
    }
  }

  /** Row `j` of the table of singles is line `j` of the view. */
  lemma SingleRow(g: Grammar, remote: seq<RemoteRule>, buffer: seq<LogEntry>, j: nat)
    requires AllClassify(g, remote, buffer) && j < |BufferView(g, buffer)|
    ensures |Singles(g, remote, buffer).rows| == |BufferView(g, buffer)|
    ensures BufferView(g, buffer)[j].0 < |buffer|
    ensures var r, e := Singles(g, remote, buffer).rows[j], buffer[BufferView(g, buffer)[j].0];
            && r.id == j + 1 && r.content.etype != TBurstSummary
            && r.content.raw == e.text && r.content.source == e.source && r.content.offset == e.offset
            && g.parse(e.text) == Some(BufferView(g, buffer)[j].1)
            && RecogniseText(g, remote, e.text).Some?
            && Op(r.key, r.content) == LineOp(e, RecogniseText(g, remote, e.text).value)
  {
    SingleOps(g, remote, buffer);
    assert IsSingle(g, remote, buffer, j);
  }

  lemma SinglesScan(g: Grammar, remote: seq<RemoteRule>, buffer: seq<LogEntry>, source: string)
    requires AllClassify(g, remote, buffer) && OneSource(buffer, source) && OffsetsIncrease(buffer)
    ensures var t := Singles(g, remote, buffer);
            && Scan(t, source) == t.rows
            && DistinctSources(t.rows) == (if t.rows == [] then [] else [source])
  {
    SingleOps(g, remote, buffer);
    ProjectIncreases(ParsedLines(g, buffer));
    var rows, view := Singles(g, remote, buffer).rows, BufferView(g, buffer);
    forall r | r in rows
      ensures r.content.source == source
    {
      var j :| 0 <= j < |rows| && rows[j] == r;
      SingleRow(g, remote, buffer, j);
      assert buffer[view[j].0] in buffer;
    }
    forall i, j | 0 <= i < j < |rows|
      ensures rows[i].content.offset <= rows[j].content.offset
    {
      SingleRow(g, remote, buffer, i);
      SingleRow(g, remote, buffer, j);
      assert view[i].0 < view[j].0;
    }
    OneSourceScan(rows, source);
    SortedStays(rows);
  }

  /** Fewer than two lines hold no burst of two. */
  lemma NoBurstBelowTwo(window: Window, rules: seq<BurstRule>)
    requires |window| < 2 && forall r :: r in rules ==> r.minBurstSize >= 2
    ensures BurstsOf(window, rules) == []
  {
    var hits := BurstsOf(window, rules);
    assert hits == [] || hits[0] in hits;
    BurstsAreGood(window, rules);
    SizesAtLeast(window, rules, 2);
  }

  /** The retroactive scan sees the same lines, finds the same bursts and writes the same summaries. */
  lemma SameHits(g: Grammar, remote: seq<RemoteRule>, rules: seq<BurstRule>, buffer: seq<LogEntry>)
    requires AllClassify(g, remote, buffer) && forall r :: r in rules ==> r.minBurstSize >= 2
    ensures var scan := Singles(g, remote, buffer).rows;
            && |ScanView(g, scan)| == |scan| == |BufferView(g, buffer)|
            && (forall j :: 0 <= j < |scan| ==> ScanView(g, scan)[j] == (j, BufferView(g, buffer)[j].1))
            && ScanHits(g, rules, scan) == BufferHits(g, rules, buffer)
  {
    SingleOps(g, remote, buffer);
    var scan, view := Singles(g, remote, buffer).rows, BufferView(g, buffer);
    var parsed := ScanParsed(g, scan);
    forall j | 0 <= j < |scan|
      ensures parsed[j] == Some(view[j].1)
    {
      SingleRow(g, remote, buffer, j);
    }
    AllParsed(parsed);
    assert LinesOf(ScanView(g, scan)) == LinesOf(view);
    if |view| < 2 {
      NoBurstBelowTwo(LinesOf(view), rules);
    }
  }

  lemma {:induction false} SameSummary(g: Grammar, remote: seq<RemoteRule>, rules: seq<BurstRule>, buffer: seq<LogEntry>, h: nat)
    requires AllClassify(g, remote, buffer) && forall r :: r in rules ==> r.minBurstSize >= 2
    requires h < |BufferHits(g, rules, buffer)|
    ensures var scan := Singles(g, remote, buffer).rows;
            && |ScanView(g, scan)| == |BufferView(g, buffer)|
            && HitFits(|ScanView(g, scan)|, BufferHits(g, rules, buffer)[h])
            && ScanSummary(g, scan, ScanView(g, scan), BufferHits(g, rules, buffer)[h]) == BufferSummaries(g, rules, buffer)[h]
  {
    SameHits(g, remote, rules, buffer);
    var hit := BufferHits(g, rules, buffer)[h];
    assert hit in BufferHits(g, rules, buffer);
    SingleRow(g, remote, buffer, hit.startIndex);
  }

  // ----- what the pass does to the table of singles -----

  /** The rows added since `t0` are exactly the insertions `done`. */
  ghost predicate AddedAre(t0: Table, t: Table, done: seq<Op>) {
    && (forall r :: r in t.rows && r.id >= t0.nextId ==> Op(r.key, r.content) in done)
    && (forall op :: op in done ==> exists r :: r in t.rows && r.id >= t0.nextId && Op(r.key, r.content) == op)
  }

  ghost predicate KeysFresh(t: Table, ops: seq<Op>) {
    OpKeysDiffer(ops) && forall op :: op in ops ==> op.key !in Contents(t.rows)
  }

  function ScanSummaries(g: Grammar, scan: seq<Row>, view: seq<(nat, LogLine)>, hits: seq<BurstHit>): (ops: seq<Op>)
    requires (forall h :: h in hits ==> HitFits(|view|, h)) && forall v :: v in view ==> v.0 < |scan|
    ensures |ops| == |hits|
  {
    if hits == [] then []
    else assert hits[0] in hits; [ScanSummary(g, scan, view, hits[0])] + ScanSummaries(g, scan, view, hits[1..])
  }

  lemma {:induction false} CollapseHitAdds(g: Grammar, t0: Table, p: Pass, scan: seq<Row>, view: seq<(nat, LogLine)>, hit: BurstHit, done: seq<Op>)
    requires forall v :: v in view ==> v.0 < |scan|
    requires ValidTable(t0) && Accounts(t0, p) && MembersStored(p.table, scan, view, hit)
    requires AddedAre(t0, p.table, done) && ScanSummary(g, scan, view, hit).key !in Contents(p.table.rows)
    ensures AddedAre(t0, CollapseHit(g, p, scan, view, hit).table, done + [ScanSummary(g, scan, view, hit)])
  {
    var op, ids := ScanSummary(g, scan, view, hit), MemberIds(scan, view, hit);
    var t1 := Insert(p.table, op);
    InsertedSummary(p.table, op);
    MembersAreOrdinary(p.table, t1, scan, view, hit, op);
    InsertAdds(t0, p.table, op, done);
    forall r | r in t1.rows && r.id >= t0.nextId
      ensures r.content.etype == TBurstSummary
    {
    }
    DeleteKeepsAdded(t0, t1, ids, done + [op]);
  }

  lemma InsertAdds(t0: Table, t: Table, op: Op, done: seq<Op>)
    requires AddedAre(t0, t, done) && t0.nextId <= t.nextId && op.key !in Contents(t.rows)
    ensures AddedAre(t0, Insert(t, op), done + [op])
  {
    var t1, row := Insert(t, op), Row(t.nextId, op.key, op.content);
    assert t1.rows == t.rows + [row] && row in t1.rows;
    forall x | x in done + [op]
      ensures exists r :: r in t1.rows && r.id >= t0.nextId && Op(r.key, r.content) == x
    {
      if x == op {
        assert Op(row.key, row.content) == x;
      } else {
        var r :| r in t.rows && r.id >= t0.nextId && Op(r.key, r.content) == x;
        assert r in t1.rows;
      }
    }
  }

  /** Deleting ordinary rows touches none of the added summaries. */
  lemma DeleteKeepsAdded(t0: Table, t: Table, ids: set<nat>, done: seq<Op>)
    requires AddedAre(t0, t, done) && OrdinaryIds(t.rows, ids)
    requires forall r :: r in t.rows && r.id >= t0.nextId ==> r.content.etype == TBurstSummary
    ensures AddedAre(t0, Delete(t, ids), done)
  {
    WithoutRows(t.rows, ids);
    var after := Delete(t, ids);
    forall x | x in done
      ensures exists r :: r in after.rows && r.id >= t0.nextId && Op(r.key, r.content) == x
    {
      var r :| r in t.rows && r.id >= t0.nextId && Op(r.key, r.content) == x;
      assert r in after.rows;
    }
  }

  lemma KeysStayFresh(g: Grammar, p: Pass, scan: seq<Row>, view: seq<(nat, LogLine)>, hit: BurstHit, rest: seq<Op>)
    requires forall v :: v in view ==> v.0 < |scan|
    requires HitFits(|view|, hit) && KeysFresh(p.table, [ScanSummary(g, scan, view, hit)] + rest)
    ensures KeysFresh(CollapseHit(g, p, scan, view, hit).table, rest)
  {
    var op, ids := ScanSummary(g, scan, view, hit), MemberIds(scan, view, hit);
    var all, t1 := [op] + rest, Insert(p.table, op);
    assert all[0] == op;
    WithoutRows(t1.rows, ids);
    forall x | x in rest
      ensures x.key !in Contents(Without(t1.rows, ids))
    {
      var i :| 0 <= i < |rest| && rest[i] == x;
      assert all[i + 1] == x && all[0].key != all[i + 1].key && x in all;
      KeyHasRow(p.table.rows, x.key);
      KeyHasRow(Without(t1.rows, ids), x.key);
    }
    forall i, j | 0 <= i < j < |rest|
      ensures rest[i].key != rest[j].key
    {
      assert all[i + 1].key != all[j + 1].key;
    }
  }

  /** Everything the hits still to come rely on. */
  ghost predicate Ready(t0: Table, p: Pass, scan: seq<Row>, view: seq<(nat, LogLine)>, hits: seq<BurstHit>)
    requires forall v :: v in view ==> v.0 < |scan|
  {
    && IdsDiffer(scan) && PositionsIncrease(view) && PairwiseDisjoint(hits)
    && ValidTable(t0) && Accounts(t0, p)
    && (forall h :: h in hits ==> HitFits(|view|, h))
    && (forall h :: h in hits ==> MembersStored(p.table, scan, view, h))
  }

  lemma {:induction false} ReadyStep(g: Grammar, t0: Table, p: Pass, scan: seq<Row>, view: seq<(nat, LogLine)>, hits: seq<BurstHit>)
    requires forall v :: v in view ==> v.0 < |scan|
    requires hits != [] && Ready(t0, p, scan, view, hits)
    ensures HitFits(|view|, hits[0])
    ensures Ready(t0, CollapseHit(g, p, scan, view, hits[0]), scan, view, hits[1..])
  {
    assert hits[0] in hits;
    CollapseHitAccounts(g, t0, p, scan, view, hits[0]);
    forall h | h in hits[1..]
      ensures HitFits(|view|, h) && MembersStored(CollapseHit(g, p, scan, view, hits[0]).table, scan, view, h)
    {
      var i :| 1 <= i < |hits| && hits[i] == h;
      assert Disjoint(hits[0], hits[i]);
      MembersSurvive(g, p, scan, view, hits[0], h);
    }
  }

  lemma {:induction false} CollapseHitsAdd(g: Grammar, t0: Table, p: Pass, scan: seq<Row>, view: seq<(nat, LogLine)>, hits: seq<BurstHit>, done: seq<Op>)
    requires forall v :: v in view ==> v.0 < |scan|
    requires Ready(t0, p, scan, view, hits)
    requires AddedAre(t0, p.table, done) && KeysFresh(p.table, ScanSummaries(g, scan, view, hits))
    ensures AddedAre(t0, CollapseHits(g, p, scan, view, hits).table, done + ScanSummaries(g, scan, view, hits))
    decreases |hits|
  {
    if hits == [] {
      assert done + ScanSummaries(g, scan, view, hits) == done;
    } else {
      ReadyStep(g, t0, p, scan, view, hits);
      HeadAdds(g, t0, p, scan, view, hits, done);
      var p' := CollapseHit(g, p, scan, view, hits[0]);
      var op, rest := ScanSummary(g, scan, view, hits[0]), ScanSummaries(g, scan, view, hits[1..]);
      CollapseHitsAdd(g, t0, p', scan, view, hits[1..], done + [op]);
      assert (done + [op]) + rest == done + ([op] + rest);
    }
  }

  lemma {:induction false} HeadAdds(g: Grammar, t0: Table, p: Pass, scan: seq<Row>, view: seq<(nat, LogLine)>, hits: seq<BurstHit>, done: seq<Op>)
    requires forall v :: v in view ==> v.0 < |scan|
    requires hits != [] && Ready(t0, p, scan, view, hits)
    requires AddedAre(t0, p.table, done) && KeysFresh(p.table, ScanSummaries(g, scan, view, hits))
    ensures HitFits(|view|, hits[0])
    ensures forall h :: h in hits[1..] ==> HitFits(|view|, h)
    ensures AddedAre(t0, CollapseHit(g, p, scan, view, hits[0]).table, done + [ScanSummary(g, scan, view, hits[0])])
    ensures KeysFresh(CollapseHit(g, p, scan, view, hits[0]).table, ScanSummaries(g, scan, view, hits[1..]))
  {
    assert hits[0] in hits;
    var op, rest := ScanSummary(g, scan, view, hits[0]), ScanSummaries(g, scan, view, hits[1..]);
    assert ScanSummaries(g, scan, view, hits) == [op] + rest && op in [op] + rest;
    CollapseHitAdds(g, t0, p, scan, view, hits[0], done);
    KeysStayFresh(g, p, scan, view, hits[0], rest);
  }

  lemma {:induction false} CollapseHitsDelete(g: Grammar, p: Pass, scan: seq<Row>, view: seq<(nat, LogLine)>, hits: seq<BurstHit>, id: nat)
    requires forall v :: v in view ==> v.0 < |scan|
    requires forall h :: h in hits ==> HitFits(|view|, h)
    ensures id in CollapseHits(g, p, scan, view, hits).deleted
            <==> id in p.deleted || exists h :: h in hits && id in MemberIds(scan, view, h)
    decreases |hits|
  {
    if hits != [] {
      assert hits == [hits[0]] + hits[1..] && hits[0] in hits;
      CollapseHitsDelete(g, CollapseHit(g, p, scan, view, hits[0]), scan, view, hits[1..], id);
    }
  }

  // ----- comparing rows with insertions -----

  /** A table whose rows are exactly some agreeing insertions is their map. */
  lemma RowsAreOps(rows: seq<Row>, ops: seq<Op>)
    requires KeysDiffer(rows) && Agree(ops)
    requires forall r :: r in rows ==> Op(r.key, r.content) in ops
    requires forall op :: op in ops ==> exists r :: r in rows && Op(r.key, r.content) == op
    ensures Contents(rows) == PutAll(map[], ops)
  {
    var a, b := Contents(rows), PutAll(map[], ops);
    PutAllKeeps(map[], ops);
    forall k | k in a
      ensures k in b && a[k] == b[k]
    {
      ContentIsRow(rows, k);
      var r :| r in rows && r.key == k && r.content == a[k];
      assert Op(r.key, r.content) in ops;
      var op :| op in ops && op.key == k && op.content == b[k];
    }
    forall k | k in b
      ensures k in a
    {
      var op :| op in ops && op.key == k && op.content == b[k];
      var r :| r in rows && Op(r.key, r.content) == op;
      RowIsContent(rows, r);
    }
  }

  // ----- the equivalence -----

  /** The setting of the theorem. */
  ghost predicate Setting(g: Grammar, remote: seq<RemoteRule>, rules: seq<BurstRule>, buffer: seq<LogEntry>, source: string) {
    && ColonFree(source) && OneSource(buffer, source) && OffsetsIncrease(buffer)
    && AllClassify(g, remote, buffer)
    && forall r :: r in rules ==> r.minBurstSize >= 2
  }

  /** The pass over the singles, as one list of collapsed hits. */
  function Collapsed(g: Grammar, remote: seq<RemoteRule>, rules: seq<BurstRule>, buffer: seq<LogEntry>): Pass {
    var t := Singles(g, remote, buffer);
    CollapseHits(g, Begin(t), t.rows, ScanView(g, t.rows), ScanHits(g, rules, t.rows))
  }

  lemma PassOverSingles(g: Grammar, remote: seq<RemoteRule>, rules: seq<BurstRule>, buffer: seq<LogEntry>, source: string)
    requires Setting(g, remote, rules, buffer, source)
    ensures CollapsePass(g, rules, Singles(g, remote, buffer)) == Collapsed(g, remote, rules, buffer)
  {
    var t := Singles(g, remote, buffer);
    SinglesScan(g, remote, buffer, source);
    if t.rows == [] {
      assert ScanHits(g, rules, t.rows) == [];
    } else {
      var sources, p := [source], CollapseSource(g, rules, Begin(t), source);
      assert DistinctSources(t.rows) == sources && sources[0] == source && sources[1..] == [];
      assert CollapseSources(g, rules, p, []) == p;
      assert CollapseSources(g, rules, Begin(t), sources) == p;
    }
  }

  lemma {:induction false} ScanSummariesAt(g: Grammar, scan: seq<Row>, view: seq<(nat, LogLine)>, hits: seq<BurstHit>, i: nat)
    requires (forall h :: h in hits ==> HitFits(|view|, h)) && forall v :: v in view ==> v.0 < |scan|
    requires i < |hits|
    ensures HitFits(|view|, hits[i])
    ensures ScanSummaries(g, scan, view, hits)[i] == ScanSummary(g, scan, view, hits[i])
    decreases i
  {
    assert hits[i] in hits;
    if i > 0 {
      ScanSummariesAt(g, scan, view, hits[1..], i - 1);
    }
  }

  lemma SameSummaries(g: Grammar, remote: seq<RemoteRule>, rules: seq<BurstRule>, buffer: seq<LogEntry>, source: string)
    requires Setting(g, remote, rules, buffer, source)
    ensures var scan := Singles(g, remote, buffer).rows;
            ScanSummaries(g, scan, ScanView(g, scan), ScanHits(g, rules, scan)) == BufferSummaries(g, rules, buffer)
  {
    SameHits(g, remote, rules, buffer);
    var scan, hits := Singles(g, remote, buffer).rows, BufferHits(g, rules, buffer);
    forall i | 0 <= i < |hits|
      ensures ScanSummaries(g, scan, ScanView(g, scan), hits)[i] == BufferSummaries(g, rules, buffer)[i]
    {
      ScanSummariesAt(g, scan, ScanView(g, scan), hits, i);
      SameSummary(g, remote, rules, buffer, i);
    }
  }

  lemma SummariesFresh(g: Grammar, remote: seq<RemoteRule>, rules: seq<BurstRule>, buffer: seq<LogEntry>, source: string)
    requires Setting(g, remote, rules, buffer, source)
    ensures KeysFresh(Singles(g, remote, buffer), BufferSummaries(g, rules, buffer))
  {
    var t, ops, view := Singles(g, remote, buffer), BufferSummaries(g, rules, buffer), BufferView(g, buffer);
    SingleOps(g, remote, buffer);
    forall i, j | 0 <= i < j < |ops|
      ensures ops[i].key != ops[j].key
    {
      SummaryKeysDiffer(g, rules, buffer, i, j);
    }
    forall op | op in ops
      ensures op.key !in Contents(t.rows)
    {
      var h :| 0 <= h < |ops| && ops[h] == op;
      KeyHasRow(t.rows, op.key);
      forall j | 0 <= j < |t.rows|
        ensures t.rows[j].key != op.key
      {
        SingleRow(g, remote, buffer, j);
        SummaryIsNoLine(g, rules, buffer, h, view[j].0);
      }
    }
  }

  lemma CollapsedFacts(g: Grammar, remote: seq<RemoteRule>, rules: seq<BurstRule>, buffer: seq<LogEntry>, source: string)
    requires Setting(g, remote, rules, buffer, source)
    ensures var t, p := Singles(g, remote, buffer), Collapsed(g, remote, rules, buffer);
            && ValidTable(t) && Accounts(t, p)
            && AddedAre(t, p.table, BufferSummaries(g, rules, buffer))
  {
    var t := Singles(g, remote, buffer);
    var view, hits := ScanView(g, t.rows), ScanHits(g, rules, t.rows);
    SinglesReady(g, remote, rules, buffer, source);
    SummariesFresh(g, remote, rules, buffer, source);
    SameSummaries(g, remote, rules, buffer, source);
    FromTheStart(g, t, t.rows, view, hits);
  }

  lemma {:induction false} FromTheStart(g: Grammar, t: Table, scan: seq<Row>, view: seq<(nat, LogLine)>, hits: seq<BurstHit>)
    requires forall v :: v in view ==> v.0 < |scan|
    requires Ready(t, Begin(t), scan, view, hits) && AddedAre(t, t, [])
    requires KeysFresh(t, ScanSummaries(g, scan, view, hits))
    ensures Accounts(t, CollapseHits(g, Begin(t), scan, view, hits))
    ensures AddedAre(t, CollapseHits(g, Begin(t), scan, view, hits).table, ScanSummaries(g, scan, view, hits))
  {
    var ops := ScanSummaries(g, scan, view, hits);
    CollapseHitsAccounts(g, t, Begin(t), scan, view, hits);
    CollapseHitsAdd(g, t, Begin(t), scan, view, hits, []);
    assert [] + ops == ops;
  }

  lemma SinglesReady(g: Grammar, remote: seq<RemoteRule>, rules: seq<BurstRule>, buffer: seq<LogEntry>, source: string)
    requires Setting(g, remote, rules, buffer, source)
    ensures var t := Singles(g, remote, buffer);
            && Ready(t, Begin(t), t.rows, ScanView(g, t.rows), ScanHits(g, rules, t.rows))
            && AddedAre(t, t, [])
  {
    var t := Singles(g, remote, buffer);
    SinglesValid(g, remote, buffer);
    SinglesScan(g, remote, buffer, source);
    ScanMembersStored(g, rules, t, source);
    BeginAccounts(t);
  }

  /** A single survives the pass exactly when live collapsing would have kept its line. */
  lemma {:induction false} SurvivesIffKept(g: Grammar, remote: seq<RemoteRule>, rules: seq<BurstRule>, buffer: seq<LogEntry>, source: string, j: nat)
    requires Setting(g, remote, rules, buffer, source) && j < |BufferView(g, buffer)|
    ensures j + 1 in Collapsed(g, remote, rules, buffer).deleted
            <==> BufferView(g, buffer)[j].0 in BufferSuppressed(g, rules, buffer)
  {
    var t := Singles(g, remote, buffer);
    var hits, view := BufferHits(g, rules, buffer), BufferView(g, buffer);
    SameHits(g, remote, rules, buffer);
    SingleOps(g, remote, buffer);
    CollapseHitsDelete(g, Begin(t), t.rows, ScanView(g, t.rows), hits, j + 1);
    SuppressedMembers(view, hits, view[j].0);
    forall h | h in hits
      ensures j + 1 in MemberIds(t.rows, ScanView(g, t.rows), h) <==> view[j].0 in Positions(view, h)
    {
      MemberIffPosition(g, remote, rules, buffer, h, j);
    }
  }

  lemma MemberIffPosition(g: Grammar, remote: seq<RemoteRule>, rules: seq<BurstRule>, buffer: seq<LogEntry>, h: BurstHit, j: nat)
    requires AllClassify(g, remote, buffer) && forall r :: r in rules ==> r.minBurstSize >= 2
    requires j < |BufferView(g, buffer)| && HitFits(|BufferView(g, buffer)|, h)
    ensures |ScanView(g, Singles(g, remote, buffer).rows)| == |BufferView(g, buffer)|
    ensures j + 1 in MemberIds(Singles(g, remote, buffer).rows, ScanView(g, Singles(g, remote, buffer).rows), h)
            <==> BufferView(g, buffer)[j].0 in Positions(BufferView(g, buffer), h)
  {
    SameHits(g, remote, rules, buffer);
    ProjectIncreases(ParsedLines(g, buffer));
    var scan, view := Singles(g, remote, buffer).rows, BufferView(g, buffer);
    forall k | 0 <= k < |scan|
      ensures scan[k].id == k + 1
    {
      SingleRow(g, remote, buffer, k);
    }
    MemberById(scan, ScanView(g, scan), h, j);
    MemberByPosition(view, h, j);
  }

  lemma MemberById(scan: seq<Row>, view: seq<(nat, LogLine)>, h: BurstHit, j: nat)
    requires |view| == |scan| && HitFits(|view|, h)
    requires forall v :: v in view ==> v.0 < |scan|
    requires forall k :: 0 <= k < |scan| ==> scan[k].id == k + 1 && view[k].0 == k
    ensures j + 1 in MemberIds(scan, view, h) <==> j in h.memberIndices
  {
    var rows := MemberRows(scan, view, h);
    forall i | 0 <= i < h.size
      ensures rows[i].id == h.memberIndices[i] + 1 && rows[i] in rows
    {
      assert h.memberIndices[i] in h.memberIndices;
    }
    if j in h.memberIndices {
      var i :| 0 <= i < h.size && h.memberIndices[i] == j;
      assert rows[i].id == j + 1;
    }
  }

  lemma MemberByPosition(view: seq<(nat, LogLine)>, h: BurstHit, j: nat)
    requires j < |view| && HitFits(|view|, h) && PositionsIncrease(view)
    ensures view[j].0 in Positions(view, h) <==> j in h.memberIndices
  {
    forall m | m in h.memberIndices && m != j
      ensures view[m].0 != view[j].0
    {
      var lo, hi := if m < j then m else j, if m < j then j else m;
      assert view[lo].0 < view[hi].0;
    }
  }

  lemma {:induction false} FinalRowIsOp(g: Grammar, remote: seq<RemoteRule>, rules: seq<BurstRule>, buffer: seq<LogEntry>, source: string, r: Row)
    requires Setting(g, remote, rules, buffer, source)
    ensures r in Collapsed(g, remote, rules, buffer).table.rows ==> Op(r.key, r.content) in BufferOps(g, remote, rules, buffer)
  {
    var t, p := Singles(g, remote, buffer), Collapsed(g, remote, rules, buffer);
    CollapsedFacts(g, remote, rules, buffer, source);
    if r in t.rows && r in p.table.rows {
      var j :| 0 <= j < |t.rows| && t.rows[j] == r;
      FinalSingleIsOp(g, remote, rules, buffer, source, j);
    }
  }

  lemma FinalSingleIsOp(g: Grammar, remote: seq<RemoteRule>, rules: seq<BurstRule>, buffer: seq<LogEntry>, source: string, j: nat)
    requires Setting(g, remote, rules, buffer, source) && j < |Singles(g, remote, buffer).rows|
    requires Singles(g, remote, buffer).rows[j].id !in Collapsed(g, remote, rules, buffer).deleted
    ensures var r := Singles(g, remote, buffer).rows[j]; Op(r.key, r.content) in BufferOps(g, remote, rules, buffer)
  {
    SingleOps(g, remote, buffer);
    SingleRow(g, remote, buffer, j);
    SurvivesIffKept(g, remote, rules, buffer, source, j);
    KeptLineOp(g, remote, rules, buffer, BufferView(g, buffer)[j].0);
  }

  lemma OpHasFinalRow(g: Grammar, remote: seq<RemoteRule>, rules: seq<BurstRule>, buffer: seq<LogEntry>, source: string, op: Op)
    requires Setting(g, remote, rules, buffer, source)
    ensures op in BufferOps(g, remote, rules, buffer) ==>
              exists r :: r in Collapsed(g, remote, rules, buffer).table.rows && Op(r.key, r.content) == op
  {
    CollapsedFacts(g, remote, rules, buffer, source);
    if op in LineOps(g, remote, BufferLines(g, rules, buffer)) {
      LineHasFinalRow(g, remote, rules, buffer, source, op);
    }
  }

  lemma LineHasFinalRow(g: Grammar, remote: seq<RemoteRule>, rules: seq<BurstRule>, buffer: seq<LogEntry>, source: string, op: Op)
    requires Setting(g, remote, rules, buffer, source) && op in LineOps(g, remote, BufferLines(g, rules, buffer))
    ensures exists r :: r in Collapsed(g, remote, rules, buffer).table.rows && Op(r.key, r.content) == op
  {
    CollapsedFacts(g, remote, rules, buffer, source);
    var t := Singles(g, remote, buffer);
    var i := LineOfOp(g, remote, rules, buffer, op);
    var j := SingleOfLine(g, remote, buffer, i);
    SurvivesIffKept(g, remote, rules, buffer, source, j);
    Survives(t, Collapsed(g, remote, rules, buffer), t.rows[j]);
  }

  lemma Survives(t: Table, p: Pass, r: Row)
    requires Accounts(t, p) && r in t.rows && r.id !in p.deleted
    ensures r in p.table.rows
  {
  }

  lemma SingleOfLine(g: Grammar, remote: seq<RemoteRule>, buffer: seq<LogEntry>, i: nat) returns (j: nat)
    requires AllClassify(g, remote, buffer) && i < |buffer| && RecogniseText(g, remote, buffer[i].text).Some?
    ensures j < |BufferView(g, buffer)| == |Singles(g, remote, buffer).rows| && BufferView(g, buffer)[j].0 == i
    ensures var r := Singles(g, remote, buffer).rows[j];
            r.id == j + 1 && Op(r.key, r.content) == LineOp(buffer[i], RecogniseText(g, remote, buffer[i].text).value)
  {
    ProjectIncreases(ParsedLines(g, buffer));
    assert ParsedLines(g, buffer)[i].Some?;
    j :| 0 <= j < |BufferView(g, buffer)| && BufferView(g, buffer)[j].0 == i;
    SingleRow(g, remote, buffer, j);
  }

  /**
   From an empty store, for every buffer of one source with increasing offsets in which every
   parseable line classifies: collapsing live gives the same key-to-content map as ingesting every
   line singly and then running one retroactive pass.
   */
  lemma CollapseBeforeEqualsAfter(g: Grammar, remote: seq<RemoteRule>, rules: seq<BurstRule>, buffer: seq<LogEntry>, source: string)
    requires Setting(g, remote, rules, buffer, source)
    ensures var live := InsertAll(EMPTY_TABLE, BufferOps(g, remote, rules, buffer));
            var singly := InsertAll(EMPTY_TABLE, LineOps(g, remote, buffer));
            Contents(CollapsePass(g, rules, singly).table.rows) == Contents(live.rows)
  {
    var p, ops := Collapsed(g, remote, rules, buffer), BufferOps(g, remote, rules, buffer);
    SinglesInserted(g, remote, buffer);
    PassOverSingles(g, remote, rules, buffer, source);
    CollapsedFacts(g, remote, rules, buffer, source);
    forall r | r in p.table.rows
      ensures Op(r.key, r.content) in ops
    {
      FinalRowIsOp(g, remote, rules, buffer, source, r);
    }
    forall op | op in ops
      ensures exists r :: r in p.table.rows && Op(r.key, r.content) == op
    {
      OpHasFinalRow(g, remote, rules, buffer, source, op);
    }
    BufferOpsAgree(g, remote, rules, buffer);
    RowsAreOps(p.table.rows, ops);
    InsertAllIsPutAll(EMPTY_TABLE, ops);
  }
}
