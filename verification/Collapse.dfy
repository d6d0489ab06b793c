/**
 Retroactive burst collapse (phase 3 of a re-parse): per log source, stored runs are replaced by
 one summary row each and their member rows are deleted.
 */
module Collapse {
  import opened Prelude
  import opened Grammar
  import opened Bursts
  import opened EventTable
  import opened Ingest

  // ----- the scan of one source -----

  function BySource(rows: seq<Row>, source: string): seq<Row> {
    if rows == [] then []
    else
      var init, last := rows[..|rows| - 1], rows[|rows| - 1];
      BySource(init, source) + if last.content.source == source then [last] else []
  }

  function PlaceByOffset(sorted: seq<Row>, row: Row): seq<Row> {
    if sorted == [] || sorted[|sorted| - 1].content.offset <= row.content.offset then sorted + [row]
    else PlaceByOffset(sorted[..|sorted| - 1], row) + [sorted[|sorted| - 1]]
  }

  /** Stable sort by offset; rows arrive in id order, so ties stay in id order. */
  function SortByOffset(rows: seq<Row>): seq<Row> {
    if rows == [] then [] else PlaceByOffset(SortByOffset(rows[..|rows| - 1]), rows[|rows| - 1])
  }

  /** The rows of one source in offset order. */
  function Scan(t: Table, source: string): seq<Row> {
    SortByOffset(BySource(t.rows, source))
  }

  function ScanEntries(scan: seq<Row>): (entries: seq<LogEntry>)
    ensures |entries| == |scan|
  {
    seq(|scan|, i requires 0 <= i < |scan| =>
      LogEntry(scan[i].content.source, scan[i].content.offset, scan[i].content.raw))
  }

  /** Summary rows are skipped, every other row is parsed again. */
  function ScanParsed(g: Grammar, scan: seq<Row>): (parsed: seq<Option<LogLine>>)
    ensures |parsed| == |scan|
  {
    seq(|scan|, i requires 0 <= i < |scan| =>
      if scan[i].content.etype == TBurstSummary then None else g.parse(scan[i].content.raw))
  }

  function ScanView(g: Grammar, scan: seq<Row>): (view: seq<(nat, LogLine)>)
    ensures forall v :: v in view ==> v.0 < |scan| && scan[v.0].content.etype != TBurstSummary
  {
    Project(ScanParsed(g, scan))
  }

  function ScanHits(g: Grammar, rules: seq<BurstRule>, scan: seq<Row>): (hits: seq<BurstHit>)
    ensures GoodHits(|ScanView(g, scan)|, hits)
  {
    var view := ScanView(g, scan);
    BurstsAreGood(LinesOf(view), rules);
    if |view| < 2 then [] else BurstsOf(LinesOf(view), rules)
  }

  function PlaceSource(sorted: seq<string>, source: string): seq<string> {
    if sorted == [] || !StrLess(source, sorted[|sorted| - 1]) then sorted + [source]
    else PlaceSource(sorted[..|sorted| - 1], source) + [sorted[|sorted| - 1]]
  }

  predicate StrLess(a: string, b: string) {
    if b == "" then false
    else if a == "" then true
    else a[0] < b[0] || (a[0] == b[0] && StrLess(a[1..], b[1..]))
  }

  /** The log sources present, each once, in name order. */
  function DistinctSources(rows: seq<Row>): seq<string> {
    if rows == [] then []
    else
      var before, source := DistinctSources(rows[..|rows| - 1]), rows[|rows| - 1].content.source;
      if source in before then before else PlaceSource(before, source)
  }

  lemma {:induction false} StrLessTransitive(a: string, b: string, c: string)
    requires StrLess(a, b) && StrLess(b, c)
    ensures StrLess(a, c)
  {
    if a != "" && a[0] == b[0] == c[0] {
      StrLessTransitive(a[1..], b[1..], c[1..]);
    }
  }

  lemma {:induction false} StrLessTotal(a: string, b: string)
    ensures a == b || StrLess(a, b) || StrLess(b, a)
  {
    if a != "" && b != "" && a[0] == b[0] {
      StrLessTotal(a[1..], b[1..]);
      assert a == [a[0]] + a[1..] && b == [b[0]] + b[1..];
    }
  }

  ghost predicate NamesIncrease(names: seq<string>) {
    forall i, j :: 0 <= i < j < |names| ==> StrLess(names[i], names[j])
  }

  lemma NamesSnoc(names: seq<string>, last: string)
    requires NamesIncrease(names) && forall x :: x in names ==> StrLess(x, last)
    ensures NamesIncrease(names + [last])
  {
  }

  lemma {:induction false} PlaceSourceKeeps(sorted: seq<string>, source: string)
    requires NamesIncrease(sorted) && source !in sorted
    ensures NamesIncrease(PlaceSource(sorted, source))
    ensures forall x :: x in PlaceSource(sorted, source) <==> x in sorted || x == source
  {
    if sorted != [] {
      var init, last := sorted[..|sorted| - 1], sorted[|sorted| - 1];
      assert sorted == init + [last];
      StrLessTotal(source, last);
      if StrLess(source, last) {
        PlaceSourceKeeps(init, source);
        NamesSnoc(PlaceSource(init, source), last);
      } else {
        forall x | x in init
          ensures StrLess(x, source)
        {
          StrLessTransitive(x, last, source);
        }
        NamesSnoc(sorted, source);
      }
    }
  }

  /** The list names exactly the sources that have a row, in strictly increasing order. */
  lemma {:induction false} SourcesListed(rows: seq<Row>)
    ensures NamesIncrease(DistinctSources(rows))
    ensures forall s :: s in DistinctSources(rows) <==> exists r :: r in rows && r.content.source == s
  {
    if rows != [] {
      var init, last := rows[..|rows| - 1], rows[|rows| - 1];
      assert rows == init + [last];
      SourcesListed(init);
      if last.content.source !in DistinctSources(init) {
        PlaceSourceKeeps(DistinctSources(init), last.content.source);
      }
    }
  }

  // ----- collapsing -----

  /**
   Progress of a pass: the table, the counters shown to the user, and for the accounting the ids
   deleted, how many summaries were new, and how many lines the new summaries stand for.
   */
  datatype Pass = Pass(
    table: Table,
    burstsCollapsed: nat,
    membersSuppressed: nat,
    deleted: set<nat>,
    newSummaries: nat,
    newSize: nat)

  function Begin(t: Table): Pass {
    Pass(t, 0, 0, {}, 0, 0)
  }

  /** The rows a burst is made of. */
  function MemberRows(scan: seq<Row>, view: seq<(nat, LogLine)>, hit: BurstHit): (rows: seq<Row>)
    requires HitFits(|view|, hit) && forall v :: v in view ==> v.0 < |scan|
    ensures |rows| == hit.size
  {
    seq(hit.size, i requires 0 <= i < hit.size =>
      assert hit.memberIndices[i] in hit.memberIndices && view[hit.memberIndices[i]] in view;
      scan[view[hit.memberIndices[i]].0])
  }

  function MemberIds(scan: seq<Row>, view: seq<(nat, LogLine)>, hit: BurstHit): set<nat>
    requires HitFits(|view|, hit) && forall v :: v in view ==> v.0 < |scan|
  {
    IdsOf(MemberRows(scan, view, hit))
  }

  function ScanSummary(g: Grammar, scan: seq<Row>, view: seq<(nat, LogLine)>, hit: BurstHit): (op: Op)
    requires HitFits(|view|, hit) && forall v :: v in view ==> v.0 < |scan|
    ensures op.content.etype == TBurstSummary && Consistent(op.content)
  {
    assert view[hit.startIndex] in view;
    SummaryOp(g, ScanEntries(scan), view, hit)
  }

  /** Insert the summary, then delete the members. */
  function CollapseHit(g: Grammar, p: Pass, scan: seq<Row>, view: seq<(nat, LogLine)>, hit: BurstHit): Pass
    requires HitFits(|view|, hit) && forall v :: v in view ==> v.0 < |scan|
  {
    var op := ScanSummary(g, scan, view, hit);
    var isFresh := op.key !in Contents(p.table.rows);
    var inserted := Insert(p.table, op);
    var ids := MemberIds(scan, view, hit);
    var after := Delete(inserted, ids);
    Pass(after, p.burstsCollapsed + 1, p.membersSuppressed + (|inserted.rows| - |after.rows|), p.deleted + ids,
         p.newSummaries + (if isFresh then 1 else 0), p.newSize + if isFresh then hit.size else 0)
  }

  function CollapseHits(g: Grammar, p: Pass, scan: seq<Row>, view: seq<(nat, LogLine)>, hits: seq<BurstHit>): Pass
    requires (forall h :: h in hits ==> HitFits(|view|, h)) && forall v :: v in view ==> v.0 < |scan|
    decreases |hits|
  {
    if hits == [] then p
    else CollapseHits(g, CollapseHit(g, p, scan, view, hits[0]), scan, view, hits[1..])
  }

  function CollapseSource(g: Grammar, rules: seq<BurstRule>, p: Pass, source: string): Pass {
    var scan := Scan(p.table, source);
    CollapseHits(g, p, scan, ScanView(g, scan), ScanHits(g, rules, scan))
  }

  function CollapseSources(g: Grammar, rules: seq<BurstRule>, p: Pass, sources: seq<string>): Pass
    decreases |sources|
  {
    if sources == [] then p
    else CollapseSources(g, rules, CollapseSource(g, rules, p, sources[0]), sources[1..])
  }

  /** Specification of one whole pass. */
  function CollapsePass(g: Grammar, rules: seq<BurstRule>, t: Table): Pass {
    CollapseSources(g, rules, Begin(t), DistinctSources(t.rows))
  }

  // ----- the scan holds exactly the rows of its source -----

  ghost predicate IdsDiffer(rows: seq<Row>) {
    forall i, j :: 0 <= i < j < |rows| ==> rows[i].id != rows[j].id
  }

  ghost predicate OffsetsOrdered(rows: seq<Row>) {
    forall i, j :: 0 <= i < j < |rows| ==> rows[i].content.offset <= rows[j].content.offset
  }

  /** The order the scan query asks for. */
  predicate ScansBefore(a: Row, b: Row) {
    a.content.offset < b.content.offset || (a.content.offset == b.content.offset && a.id < b.id)
  }

  ghost predicate ScanSorted(rows: seq<Row>) {
    forall i, j :: 0 <= i < j < |rows| ==> ScansBefore(rows[i], rows[j])
  }

  lemma ScanSnoc(rows: seq<Row>, last: Row)
    requires ScanSorted(rows) && forall r :: r in rows ==> ScansBefore(r, last)
    ensures ScanSorted(rows + [last])
  {
  }

  lemma {:induction false} PlaceKeepsOrder(sorted: seq<Row>, row: Row)
    requires ScanSorted(sorted) && forall r :: r in sorted ==> r.id < row.id
    ensures ScanSorted(PlaceByOffset(sorted, row))
    ensures forall r :: r in PlaceByOffset(sorted, row) <==> r in sorted || r == row
  {
    if sorted != [] {
      var init, last := sorted[..|sorted| - 1], sorted[|sorted| - 1];
      OrderedLast(sorted, ScansBefore);
      if last.content.offset <= row.content.offset {
        ScanSnoc(sorted, row);
      } else {
        PlaceKeepsOrder(init, row);
        ScanSnoc(PlaceByOffset(init, row), last);
      }
    }
  }

  lemma {:induction false} SortKeepsOrder(rows: seq<Row>)
    requires IdsIncrease(rows)
    ensures ScanSorted(SortByOffset(rows)) && forall r :: r in SortByOffset(rows) <==> r in rows
  {
    if rows != [] {
      var init, last := rows[..|rows| - 1], rows[|rows| - 1];
      SortKeepsOrder(init);
      assert rows == init + [last];
      forall r | r in init
        ensures r.id < last.id
      {
        var i :| 0 <= i < |init| && init[i] == r;
        assert rows[i] == r;
      }
      PlaceKeepsOrder(SortByOffset(init), last);
    }
  }

  lemma {:induction false} BySourceOrdered(rows: seq<Row>, source: string)
    requires IdsIncrease(rows)
    ensures IdsIncrease(BySource(rows, source)) && forall r :: r in BySource(rows, source) <==> r in rows && r.content.source == source
  {
    if rows != [] {
      var init, last := rows[..|rows| - 1], rows[|rows| - 1];
      BySourceOrdered(init, source);
      assert rows == init + [last];
      forall r | r in BySource(init, source)
        ensures r.id < last.id
      {
        var i :| 0 <= i < |init| && init[i] == r;
        assert rows[i] == r;
      }
    }
  }

  /** The scan is the answer to its query: the rows of the source, by offset and then by id. */
  lemma ScanIsTheQuery(t: Table, source: string, rows: seq<Row>)
    requires ValidTable(t)
    ensures rows == Scan(t, source) <==> ScanSorted(rows) && forall r :: r in rows <==> r in t.rows && r.content.source == source
  {
    BySourceOrdered(t.rows, source);
    SortKeepsOrder(BySource(t.rows, source));
    if ScanSorted(rows) && forall r :: r in rows <==> r in t.rows && r.content.source == source {
      OrderedUnique(rows, Scan(t, source), ScansBefore);
    }
  }

  lemma ScanRows(t: Table, source: string)
    requires ValidTable(t)
    ensures forall r :: r in Scan(t, source) <==> r in t.rows && r.content.source == source
    ensures IdsDiffer(Scan(t, source))
  {
    var scan := Scan(t, source);
    ScanIsTheQuery(t, source, scan);
    forall i, j | 0 <= i < j < |scan|
      ensures scan[i].id != scan[j].id
    {
      assert scan[i] in scan && scan[j] in scan;
      var a :| 0 <= a < |t.rows| && t.rows[a] == scan[i];
      var b :| 0 <= b < |t.rows| && t.rows[b] == scan[j];
    }
  }
}
