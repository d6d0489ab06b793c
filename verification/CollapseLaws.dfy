/**
 Accounting and termination of retroactive burst collapse.
 */
module CollapseLaws {
  import opened Prelude
  import opened Keys
  import opened Grammar
  import opened Bursts
  import opened EventTable
  import opened Ingest
  import opened Collapse

  /** Log lines a row stands for: a summary stands for its whole burst. */
  function RowWeight(r: Row): nat {
    if r.content.payload.BurstSummary? then r.content.payload.size else 1
  }

  function OrdinaryWeight(r: Row): nat {
    if r.content.etype == TBurstSummary then 0 else 1
  }

  function Total(rows: seq<Row>, f: Row -> nat): nat {
    if rows == [] then 0 else Total(rows[..|rows| - 1], f) + f(rows[|rows| - 1])
  }

  function Weight(rows: seq<Row>): nat {
    Total(rows, RowWeight)
  }

  /** Number of rows that are not summaries. */
  function Ordinary(rows: seq<Row>): nat {
    Total(rows, OrdinaryWeight)
  }

  // ----- deleting ordinary rows -----

  ghost predicate OrdinaryIds(rows: seq<Row>, ids: set<nat>) {
    && ids <= IdsOf(rows)
    && (forall r :: r in rows && r.id in ids ==> r.content.etype != TBurstSummary && Consistent(r.content))
  }

  lemma LastIdIsNew(rows: seq<Row>)
    requires IdsIncrease(rows) && rows != []
    ensures rows[|rows| - 1].id !in IdsOf(rows[..|rows| - 1])
    ensures IdsOf(rows) == IdsOf(rows[..|rows| - 1]) + {rows[|rows| - 1].id}
  {
    var init, last := rows[..|rows| - 1], rows[|rows| - 1];
    assert rows == init + [last];
    forall r | r in init
      ensures r.id != last.id
    {
      var j :| 0 <= j < |init| && init[j] == r;
      assert rows[j].id < rows[|rows| - 1].id;
    }
  }

  lemma {:induction false} WithoutIrrelevant(rows: seq<Row>, ids: set<nat>, id: nat)
    requires id !in IdsOf(rows)
    ensures Without(rows, ids) == Without(rows, ids - {id})
  {
    if rows != [] {
      assert rows[|rows| - 1] in rows && forall r :: r in rows[..|rows| - 1] ==> r in rows;
      WithoutIrrelevant(rows[..|rows| - 1], ids, id);
    }
  }

  /** Deleting rows of weight one lowers a total by their number. */
  lemma {:induction false} DeleteUnits(rows: seq<Row>, ids: set<nat>, f: Row -> nat)
    requires IdsIncrease(rows) && ids <= IdsOf(rows)
    requires forall r :: r in rows && r.id in ids ==> f(r) == 1
    ensures Total(Without(rows, ids), f) + |ids| == Total(rows, f)
  {
    if rows == [] {
      assert ids == {};
    } else {
      var init, last := rows[..|rows| - 1], rows[|rows| - 1];
      UnitsOfInit(rows, ids, f);
      DeleteUnits(init, ids - {last.id}, f);
      TotalWithoutLast(rows, ids, f);
      if last.id in ids {
        assert |ids| == |ids - {last.id}| + 1;
      } else {
        assert ids - {last.id} == ids;
      }
    }
  }

  lemma UnitsOfInit(rows: seq<Row>, ids: set<nat>, f: Row -> nat)
    requires rows != [] && IdsIncrease(rows) && ids <= IdsOf(rows)
    requires forall r :: r in rows && r.id in ids ==> f(r) == 1
    ensures var init, last := rows[..|rows| - 1], rows[|rows| - 1];
            && ids - {last.id} <= IdsOf(init)
            && (forall r :: r in init && r.id in ids - {last.id} ==> f(r) == 1)
            && Without(init, ids) == Without(init, ids - {last.id})
            && (last.id in ids ==> f(last) == 1)
  {
    LastIdIsNew(rows);
    WithoutIrrelevant(rows[..|rows| - 1], ids, rows[|rows| - 1].id);
    assert rows[|rows| - 1] in rows && forall r :: r in rows[..|rows| - 1] ==> r in rows;
  }

  lemma TotalWithoutLast(rows: seq<Row>, ids: set<nat>, f: Row -> nat)
    requires rows != []
    ensures var init, last := rows[..|rows| - 1], rows[|rows| - 1];
            && Total(Without(rows, ids), f) == Total(Without(init, ids), f) + (if last.id in ids then 0 else f(last))
            && Total(rows, f) == Total(init, f) + f(last)
  {
    var last, kept := rows[|rows| - 1], Without(rows[..|rows| - 1], ids);
    assert Without(rows, ids) == if last.id in ids then kept else kept + [last];
    TotalSnoc(kept, last, f);
  }

  lemma TotalSnoc(rows: seq<Row>, r: Row, f: Row -> nat)
    ensures Total(rows + [r], f) == Total(rows, f) + f(r)
  {
    assert (rows + [r])[..|rows|] == rows;
  }

  lemma {:induction false} TotalOfOnes(rows: seq<Row>)
    ensures Total(rows, _ => 1) == |rows|
  {
    if rows != [] {
      TotalOfOnes(rows[..|rows| - 1]);
    }
  }

  lemma DeleteOrdinary(rows: seq<Row>, ids: set<nat>)
    requires IdsIncrease(rows) && OrdinaryIds(rows, ids)
    ensures |Without(rows, ids)| + |ids| == |rows|
    ensures Weight(Without(rows, ids)) + |ids| == Weight(rows)
    ensures Ordinary(Without(rows, ids)) + |ids| == Ordinary(rows)
  {
    DeleteUnits(rows, ids, RowWeight);
    DeleteUnits(rows, ids, OrdinaryWeight);
    DeleteUnits(rows, ids, _ => 1);
    TotalOfOnes(rows);
    TotalOfOnes(Without(rows, ids));
  }

  // ----- one hit -----

  /** The members of a hit are ordinary rows of the table. */
  ghost predicate MembersStored(t: Table, scan: seq<Row>, view: seq<(nat, LogLine)>, hit: BurstHit)
    requires forall v :: v in view ==> v.0 < |scan|
  {
    && HitFits(|view|, hit)
    && forall r :: r in MemberRows(scan, view, hit) ==> r in t.rows && r.content.etype != TBurstSummary
  }

  lemma {:induction false} IdsCount(rows: seq<Row>)
    requires IdsDiffer(rows)
    ensures |IdsOf(rows)| == |rows|
  {
    if rows != [] {
      var init, last := rows[..|rows| - 1], rows[|rows| - 1];
      assert rows == init + [last];
      IdsCount(init);
      assert IdsOf(rows) == IdsOf(init) + {last.id};
      forall r | r in init
        ensures r.id != last.id
      {
        var j :| 0 <= j < |init| && init[j] == r;
        assert rows[j].id != rows[|rows| - 1].id;
      }
    }
  }

  lemma MemberIdsCount(scan: seq<Row>, view: seq<(nat, LogLine)>, hit: BurstHit)
    requires IdsDiffer(scan) && PositionsIncrease(view) && HitFits(|view|, hit)
    requires forall v :: v in view ==> v.0 < |scan|
    ensures |MemberIds(scan, view, hit)| == hit.size
  {
    var rows, ms := MemberRows(scan, view, hit), hit.memberIndices;
    forall i, j | 0 <= i < j < |rows|
      ensures rows[i].id != rows[j].id
    {
      assert ms[i] < ms[j] && ms[i] in ms && ms[j] in ms;
      assert view[ms[i]].0 < view[ms[j]].0 && view[ms[j]] in view;
    }
    IdsCount(rows);
  }

  /** What a pass that started from `t0` has done so far. */
  ghost predicate Accounts(t0: Table, p: Pass) {
    && ValidTable(p.table) && t0.nextId <= p.table.nextId
    // rows after = rows before + new summaries - deleted members
    && |p.table.rows| + p.membersSuppressed == |t0.rows| + p.newSummaries
    // weight is lost exactly by the bursts whose summary already existed
    && Weight(p.table.rows) + p.membersSuppressed == Weight(t0.rows) + p.newSize
    && p.newSize <= p.membersSuppressed && p.newSummaries <= p.burstsCollapsed
    && (p.newSize == p.membersSuppressed <==> p.newSummaries == p.burstsCollapsed)
    // no ordinary row is added
    && Ordinary(p.table.rows) + p.membersSuppressed == Ordinary(t0.rows)
    && RowsAccountedFor(t0, p)
  }

  /** Only members go, no summary goes, everything else stays as it was; only summaries are added. */
  ghost predicate RowsAccountedFor(t0: Table, p: Pass) {
    && |p.deleted| == p.membersSuppressed
    && (forall r :: r in t0.rows ==> (r in p.table.rows <==> r.id !in p.deleted))
    && (forall r :: r in t0.rows && r.content.etype == TBurstSummary ==> r.id !in p.deleted)
    && (forall r :: r in p.table.rows ==> r in t0.rows || (r.id >= t0.nextId && r.content.etype == TBurstSummary))
  }

  lemma BeginAccounts(t: Table)
    requires ValidTable(t)
    ensures Accounts(t, Begin(t))
  {
  }

  lemma InsertedSummary(t: Table, op: Op)
    requires ValidTable(t) && op.content.etype == TBurstSummary && Consistent(op.content)
    ensures var t1 := Insert(t, op);
            && ValidTable(t1)
            && (forall r :: r in t.rows ==> r in t1.rows)
            && (forall r :: r in t1.rows ==> r in t.rows || (r.id == t.nextId && r.content == op.content))
            && Ordinary(t1.rows) == Ordinary(t.rows)
            && (op.key in Contents(t.rows) ==> t1 == t)
            && (op.key !in Contents(t.rows) ==>
                  |t1.rows| == |t.rows| + 1 && Weight(t1.rows) == Weight(t.rows) + op.content.payload.size)
  {
    InsertValid(t, op);
    if op.key !in Contents(t.rows) {
      var rows := Insert(t, op).rows;
      assert rows[..|rows| - 1] == t.rows;
    }
  }

  lemma {:induction false} CollapseHitAccounts(g: Grammar, t0: Table, p: Pass, scan: seq<Row>, view: seq<(nat, LogLine)>, hit: BurstHit)
    requires forall v :: v in view ==> v.0 < |scan|
    requires IdsDiffer(scan) && PositionsIncrease(view) && ValidTable(t0)
    requires Accounts(t0, p) && MembersStored(p.table, scan, view, hit)
    ensures Accounts(t0, CollapseHit(g, p, scan, view, hit))
    ensures CollapseHit(g, p, scan, view, hit).membersSuppressed == p.membersSuppressed + hit.size
  {
    var op, ids := ScanSummary(g, scan, view, hit), MemberIds(scan, view, hit);
    var t1 := Insert(p.table, op);
    InsertedSummary(p.table, op);
    MemberIdsCount(scan, view, hit);
    MembersAreOrdinary(p.table, t1, scan, view, hit, op);
    DeleteOrdinary(t1.rows, ids);
    DeleteValid(t1, ids);
    CollapseHitRows(g, t0, p, scan, view, hit);
  }

  lemma MembersAreOrdinary(t: Table, t1: Table, scan: seq<Row>, view: seq<(nat, LogLine)>, hit: BurstHit, op: Op)
    requires forall v :: v in view ==> v.0 < |scan|
    requires ValidTable(t) && ValidTable(t1) && MembersStored(t, scan, view, hit)
    requires forall r :: r in t.rows ==> r in t1.rows
    requires forall r :: r in t1.rows ==> r in t.rows || (r.id == t.nextId && r.content == op.content)
    ensures OrdinaryIds(t1.rows, MemberIds(scan, view, hit))
    ensures forall r :: r in t.rows && r.content.etype == TBurstSummary ==> r.id !in MemberIds(scan, view, hit)
  {
    var ids := MemberIds(scan, view, hit);
    forall r | r in t1.rows && r.id in ids
      ensures r.content.etype != TBurstSummary && r in t.rows
    {
      var member :| member in MemberRows(scan, view, hit) && member.id == r.id;
      SameId(t1, r, member);
    }
  }

  lemma SameId(t: Table, a: Row, b: Row)
    requires ValidTable(t) && a in t.rows && b in t.rows && a.id == b.id
    ensures a == b
  {
    var i :| 0 <= i < |t.rows| && t.rows[i] == a;
    var j :| 0 <= j < |t.rows| && t.rows[j] == b;
    assert i < j ==> t.rows[i].id < t.rows[j].id;
    assert j < i ==> t.rows[j].id < t.rows[i].id;
  }

  lemma {:induction false} CollapseHitRows(g: Grammar, t0: Table, p: Pass, scan: seq<Row>, view: seq<(nat, LogLine)>, hit: BurstHit)
    requires forall v :: v in view ==> v.0 < |scan|
    requires IdsDiffer(scan) && PositionsIncrease(view) && ValidTable(t0)
    requires Accounts(t0, p) && MembersStored(p.table, scan, view, hit)
    ensures var p' := CollapseHit(g, p, scan, view, hit);
            p'.membersSuppressed == p.membersSuppressed + hit.size ==> RowsAccountedFor(t0, p')
  {
    var op, ids := ScanSummary(g, scan, view, hit), MemberIds(scan, view, hit);
    var t1 := Insert(p.table, op);
    InsertedSummary(p.table, op);
    MembersAreOrdinary(p.table, t1, scan, view, hit, op);
    WithoutRows(t1.rows, ids);
    MembersNotYetDeleted(t0, p, scan, view, hit);
  }

  lemma MembersNotYetDeleted(t0: Table, p: Pass, scan: seq<Row>, view: seq<(nat, LogLine)>, hit: BurstHit)
    requires forall v :: v in view ==> v.0 < |scan|
    requires IdsDiffer(scan) && PositionsIncrease(view)
    requires RowsAccountedFor(t0, p) && MembersStored(p.table, scan, view, hit)
    ensures |p.deleted + MemberIds(scan, view, hit)| == |p.deleted| + hit.size
  {
    var ids := MemberIds(scan, view, hit);
    MemberIdsCount(scan, view, hit);
    forall id | id in ids
      ensures id !in p.deleted
    {
      var r :| r in MemberRows(scan, view, hit) && r.id == id;
      assert r in p.table.rows && r in t0.rows;
    }
    assert p.deleted !! ids;
  }

  // ----- all hits of a source, all sources -----

  lemma MembersSurvive(g: Grammar, p: Pass, scan: seq<Row>, view: seq<(nat, LogLine)>, hit: BurstHit, other: BurstHit)
    requires forall v :: v in view ==> v.0 < |scan|
    requires IdsDiffer(scan) && PositionsIncrease(view) && Disjoint(hit, other) && ValidTable(p.table)
    requires HitFits(|view|, hit) && MembersStored(p.table, scan, view, other)
    ensures MembersStored(CollapseHit(g, p, scan, view, hit).table, scan, view, other)
  {
    var op, ids := ScanSummary(g, scan, view, hit), MemberIds(scan, view, hit);
    InsertedSummary(p.table, op);
    WithoutRows(Insert(p.table, op).rows, ids);
    forall r | r in MemberRows(scan, view, other)
      ensures r.id !in ids
    {
      forall x | x in MemberRows(scan, view, hit)
        ensures x.id != r.id
      {
        MemberRowsApart(scan, view, hit, other, x, r);
      }
    }
  }

  lemma MemberRowsApart(scan: seq<Row>, view: seq<(nat, LogLine)>, a: BurstHit, b: BurstHit, x: Row, y: Row)
    requires forall v :: v in view ==> v.0 < |scan|
    requires IdsDiffer(scan) && PositionsIncrease(view) && Disjoint(a, b)
    requires HitFits(|view|, a) && HitFits(|view|, b)
    requires x in MemberRows(scan, view, a) && y in MemberRows(scan, view, b)
    ensures x.id != y.id
  {
    var i :| 0 <= i < a.size && MemberRows(scan, view, a)[i] == x;
    var j :| 0 <= j < b.size && MemberRows(scan, view, b)[j] == y;
    var m, n := a.memberIndices[i], b.memberIndices[j];
    assert m in a.memberIndices && n in b.memberIndices;
    var lo, hi := if m < n then m else n, if m < n then n else m;
    assert view[lo].0 < view[hi].0 && view[hi] in view;
  }

  function TotalSize(hits: seq<BurstHit>): nat {
    if hits == [] then 0 else hits[0].size + TotalSize(hits[1..])
  }

  lemma {:induction false} CollapseHitsAccounts(g: Grammar, t0: Table, p: Pass, scan: seq<Row>, view: seq<(nat, LogLine)>, hits: seq<BurstHit>)
    requires forall v :: v in view ==> v.0 < |scan|
    requires IdsDiffer(scan) && PositionsIncrease(view) && ValidTable(t0) && PairwiseDisjoint(hits)
    requires Accounts(t0, p) && (forall h :: h in hits ==> HitFits(|view|, h))
    requires forall h :: h in hits ==> MembersStored(p.table, scan, view, h)
    ensures Accounts(t0, CollapseHits(g, p, scan, view, hits))
    ensures CollapseHits(g, p, scan, view, hits).membersSuppressed == p.membersSuppressed + TotalSize(hits)
    ensures CollapseHits(g, p, scan, view, hits).burstsCollapsed == p.burstsCollapsed + |hits|
    decreases |hits|
  {
    if hits != [] {
      assert hits[0] in hits;
      var p' := CollapseHit(g, p, scan, view, hits[0]);
      CollapseHitAccounts(g, t0, p, scan, view, hits[0]);
      forall h | h in hits[1..]
        ensures MembersStored(p'.table, scan, view, h)
      {
        var i :| 1 <= i < |hits| && hits[i] == h;
        assert Disjoint(hits[0], hits[i]);
        MembersSurvive(g, p, scan, view, hits[0], h);
      }
      CollapseHitsAccounts(g, t0, p', scan, view, hits[1..]);
    }
  }

  lemma ScanMembersStored(g: Grammar, rules: seq<BurstRule>, t: Table, source: string)
    requires ValidTable(t)
    ensures var scan := Scan(t, source);
            && IdsDiffer(scan) && PositionsIncrease(ScanView(g, scan))
            && forall h :: h in ScanHits(g, rules, scan) ==> MembersStored(t, scan, ScanView(g, scan), h)
  {
    ScanRows(t, source);
    var scan := Scan(t, source);
    ProjectIncreases(ScanParsed(g, scan));
    forall h, r | h in ScanHits(g, rules, scan) && r in MemberRows(scan, ScanView(g, scan), h)
      ensures r in t.rows && r.content.etype != TBurstSummary
    {
      MemberIsScanned(g, scan, h, r);
    }
  }

  lemma MemberIsScanned(g: Grammar, scan: seq<Row>, h: BurstHit, r: Row)
    requires HitFits(|ScanView(g, scan)|, h) && r in MemberRows(scan, ScanView(g, scan), h)
    ensures r in scan && r.content.etype != TBurstSummary
  {
    var view := ScanView(g, scan);
    var i :| 0 <= i < h.size && MemberRows(scan, view, h)[i] == r;
    assert h.memberIndices[i] in h.memberIndices && view[h.memberIndices[i]] in view;
  }

  lemma {:induction false} CollapseSourceAccounts(g: Grammar, rules: seq<BurstRule>, t0: Table, p: Pass, source: string, least: nat)
    requires ValidTable(t0) && Accounts(t0, p) && Progress(p, least)
    requires forall r :: r in rules ==> r.minBurstSize >= least
    ensures var p' := CollapseSource(g, rules, p, source);
            && Accounts(t0, p')
            && Progress(p', least)
            && p'.burstsCollapsed >= p.burstsCollapsed
            && (p'.burstsCollapsed == p.burstsCollapsed ==> p' == p)
  {
    var scan := Scan(p.table, source);
    var view, hits := ScanView(g, scan), ScanHits(g, rules, scan);
    ScanMembersStored(g, rules, p.table, source);
    CollapseHitsAccounts(g, t0, p, scan, view, hits);
    if hits != [] {
      SizesAtLeast(LinesOf(view), rules, least);
      assert hits[0] in hits;
    }
  }

  ghost predicate Progress(p: Pass, least: nat) {
    p.burstsCollapsed > 0 ==> p.membersSuppressed >= least
  }

  lemma {:induction false} CollapseSourcesAccounts(g: Grammar, rules: seq<BurstRule>, t0: Table, p: Pass, sources: seq<string>, least: nat)
    requires ValidTable(t0) && Accounts(t0, p) && Progress(p, least)
    requires forall r :: r in rules ==> r.minBurstSize >= least
    ensures var p' := CollapseSources(g, rules, p, sources);
            && Accounts(t0, p')
            && Progress(p', least)
            && p'.burstsCollapsed >= p.burstsCollapsed
            && (p'.burstsCollapsed == p.burstsCollapsed ==> p' == p)
    decreases |sources|
  {
    if sources != [] {
      CollapseSourceAccounts(g, rules, t0, p, sources[0], least);
      CollapseSourcesAccounts(g, rules, t0, CollapseSource(g, rules, p, sources[0]), sources[1..], least);
    }
  }

  // ----- the claims about a whole pass -----

  /** Every pass over every valid table accounts for its rows and their weight. */
  lemma PassAccounts(g: Grammar, rules: seq<BurstRule>, t: Table)
    requires ValidTable(t)
    ensures Accounts(t, CollapsePass(g, rules, t))
  {
    BeginAccounts(t);
    CollapseSourcesAccounts(g, rules, t, Begin(t), DistinctSources(t.rows), 0);
  }

  /** The weight never grows, and is preserved exactly when every summary was new. */
  lemma WeightNeverGrows(g: Grammar, rules: seq<BurstRule>, t: Table)
    requires ValidTable(t)
    ensures var p := CollapsePass(g, rules, t);
            && Weight(p.table.rows) <= Weight(t.rows)
            && (Weight(p.table.rows) == Weight(t.rows) <==> p.newSummaries == p.burstsCollapsed)
  {
    PassAccounts(g, rules, t);
  }

  /** A pass leaves the table alone exactly when it finds no burst. */
  lemma PassIsNoOpIffNoHits(g: Grammar, rules: seq<BurstRule>, t: Table)
    requires ValidTable(t) && forall r :: r in rules ==> r.minBurstSize >= 1
    ensures CollapsePass(g, rules, t).table == t <==> CollapsePass(g, rules, t).burstsCollapsed == 0
    ensures CollapsePass(g, rules, t).burstsCollapsed == 0 ==> CollapsePass(g, rules, t) == Begin(t)
  {
    BeginAccounts(t);
    CollapseSourcesAccounts(g, rules, t, Begin(t), DistinctSources(t.rows), 1);
  }

  /** No source has anything to collapse. */
  ghost predicate Settled(g: Grammar, rules: seq<BurstRule>, t: Table) {
    forall r :: r in t.rows ==> ScanHits(g, rules, Scan(t, r.content.source)) == []
  }

  lemma {:induction false} CountNeverDrops(g: Grammar, p: Pass, scan: seq<Row>, view: seq<(nat, LogLine)>, hits: seq<BurstHit>)
    requires (forall h :: h in hits ==> HitFits(|view|, h)) && forall v :: v in view ==> v.0 < |scan|
    ensures CollapseHits(g, p, scan, view, hits).burstsCollapsed == p.burstsCollapsed + |hits|
    decreases |hits|
  {
    if hits != [] {
      assert hits[0] in hits;
      CountNeverDrops(g, CollapseHit(g, p, scan, view, hits[0]), scan, view, hits[1..]);
    }
  }

  lemma {:induction false} QuietSources(g: Grammar, rules: seq<BurstRule>, p: Pass, sources: seq<string>)
    ensures CollapseSources(g, rules, p, sources).burstsCollapsed >= p.burstsCollapsed
    ensures CollapseSources(g, rules, p, sources).burstsCollapsed == p.burstsCollapsed
            <==> forall s :: s in sources ==> ScanHits(g, rules, Scan(p.table, s)) == []
    decreases |sources|
  {
    if sources != [] {
      var first, rest, p' := sources[0], sources[1..], CollapseSource(g, rules, p, sources[0]);
      assert sources == [first] + rest;
      var scan := Scan(p.table, first);
      CountNeverDrops(g, p, scan, ScanView(g, scan), ScanHits(g, rules, scan));
      QuietSources(g, rules, p', rest);
      if ScanHits(g, rules, scan) == [] {
        assert p' == p;
      }
    }
  }

  /** A pass collapses nothing, and changes nothing, exactly when no stored source holds a burst. */
  lemma {:induction false} PassIsNoOpIffSettled(g: Grammar, rules: seq<BurstRule>, t: Table)
    requires ValidTable(t) && forall r :: r in rules ==> r.minBurstSize >= 1
    ensures CollapsePass(g, rules, t).table == t <==> Settled(g, rules, t)
  {
    PassIsNoOpIffNoHits(g, rules, t);
    SourcesListed(t.rows);
    var sources := DistinctSources(t.rows);
    QuietSources(g, rules, Begin(t), sources);
    forall r | r in t.rows
      ensures r.content.source in sources
    {
    }
  }

  function Passes(g: Grammar, rules: seq<BurstRule>, t: Table, n: nat): Table
    decreases n
  {
    if n == 0 then t else CollapsePass(g, rules, Passes(g, rules, t, n - 1)).table
  }

  /** A pass that collapses anything removes at least one smallest burst of ordinary rows. */
  lemma PassShrinks(g: Grammar, rules: seq<BurstRule>, t: Table, least: nat)
    requires ValidTable(t) && least >= 1 && forall r :: r in rules ==> r.minBurstSize >= least
    ensures var p := CollapsePass(g, rules, t);
            && ValidTable(p.table)
            && (p.burstsCollapsed == 0 ==> p == Begin(t))
            && (p.burstsCollapsed > 0 ==> Ordinary(p.table.rows) + least <= Ordinary(t.rows))
  {
    BeginAccounts(t);
    CollapseSourcesAccounts(g, rules, t, Begin(t), DistinctSources(t.rows), least);
  }

  function Times(n: nat, k: nat): nat {
    if n == 0 then 0 else Times(n - 1, k) + k
  }

  lemma {:induction false} TimesIsProduct(n: nat, k: nat)
    ensures Times(n, k) == n * k
  {
    if n > 0 {
      TimesIsProduct(n - 1, k);
    }
  }

  /** After `n` passes that all found something, that many bursts of ordinary rows are gone. */
  ghost predicate Shrunk(g: Grammar, rules: seq<BurstRule>, t: Table, least: nat, n: nat) {
    && ValidTable(Passes(g, rules, t, n))
    && Times(n, least) + Ordinary(Passes(g, rules, t, n).rows) <= Ordinary(t.rows)
  }

  lemma {:induction false} ShrunkStep(g: Grammar, rules: seq<BurstRule>, t: Table, least: nat, n: nat)
    requires least >= 1 && forall r :: r in rules ==> r.minBurstSize >= least
    ensures Shrunk(g, rules, t, least, n) ==>
              CollapsePass(g, rules, Passes(g, rules, t, n)) == Begin(Passes(g, rules, t, n))
              || Shrunk(g, rules, t, least, n + 1)
  {
    if ValidTable(Passes(g, rules, t, n)) {
      PassShrinks(g, rules, Passes(g, rules, t, n), least);
    }
  }

  lemma TimesAtLeast(n: nat, k: nat)
    requires k >= 1
    ensures Times(n, k) >= n
  {
  }

  /**
   Repeated passes settle: after at most (ordinary rows / smallest burst size) of them a pass
   finds nothing, and from then on nothing changes.
   */
  lemma {:induction false} PassesSettle(g: Grammar, rules: seq<BurstRule>, t: Table, least: nat) returns (n: nat)
    requires ValidTable(t) && least >= 1 && forall r :: r in rules ==> r.minBurstSize >= least
    ensures n * least <= Ordinary(t.rows)
    ensures CollapsePass(g, rules, Passes(g, rules, t, n)) == Begin(Passes(g, rules, t, n))
  {
    n := 0;
    while CollapsePass(g, rules, Passes(g, rules, t, n)) != Begin(Passes(g, rules, t, n))
      invariant Shrunk(g, rules, t, least, n)
      decreases Ordinary(t.rows) - n
    {
      ShrunkStep(g, rules, t, least, n);
      n := n + 1;
      TimesAtLeast(n, least);
    }
    TimesIsProduct(n, least);
  }
}
