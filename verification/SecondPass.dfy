/**
 Why one retroactive pass is not enough: taking out one burst can make the lines around it another.
 */
module SecondPass {
  import opened Prelude
  import opened Keys
  import opened Grammar
  import opened Bursts
  import opened EventTable
  import opened Ingest
  import opened IngestLaws
  import opened Collapse
  import opened CollapseLaws
  import opened CollapseEquivalence

  /** Six lines of one log: two notifications, three stowed vehicles, one notification. */
  ghost predicate SixLines(g: Grammar, buffer: seq<LogEntry>, hud: LogLine, stowed: LogLine) {
    && HudAndStowed(hud, stowed) && |buffer| == 6
    && forall i :: 0 <= i < 6 ==> g.parse(buffer[i].text) == Some(Interrupted(hud, stowed)[i])
  }

  lemma ViewOfSix(g: Grammar, buffer: seq<LogEntry>, hud: LogLine, stowed: LogLine)
    requires SixLines(g, buffer, hud, stowed)
    ensures |BufferView(g, buffer)| == 6 && forall i :: 0 <= i < 6 ==> BufferView(g, buffer)[i].0 == i
    ensures BufferHits(g, BuiltinBurstRules(), buffer) == [BurstHit("vehicle_stowed_burst", 2, 4, 3, [2, 3, 4])]
  {
    AllParsed(ParsedLines(g, buffer));
    assert LinesOf(BufferView(g, buffer)) == Interrupted(hud, stowed);
    StowedIsTheBurst(hud, stowed);
  }

  lemma WithoutMiddle(rows: seq<Row>, s: Row)
    requires |rows| == 6 && s.id == 7 && forall i :: 0 <= i < 6 ==> rows[i].id == i + 1
    ensures Without(rows + [s], {3, 4, 5}) == [rows[0], rows[1], rows[5], s]
  {
    var all, ids := rows + [s], {3, 4, 5};
    assert all[..7] == all && all[..7][..6] == all[..6] && all[..6][..5] == all[..5] && all[..5][..4] == all[..4];
    assert all[..4][..3] == all[..3] && all[..3][..2] == all[..2] && all[..2][..1] == all[..1] && all[..1][..0] == [];
    assert Without(all[..1], ids) == [rows[0]];
    assert Without(all[..2], ids) == [rows[0], rows[1]];
    assert Without(all[..3], ids) == [rows[0], rows[1]];
    assert Without(all[..4], ids) == [rows[0], rows[1]];
    assert Without(all[..5], ids) == [rows[0], rows[1]];
    assert Without(all[..6], ids) == [rows[0], rows[1], rows[5]];
  }

  lemma ScanOfFour(a: Row, b: Row, c: Row, s: Row, nextId: nat, source: string)
    requires a.content.source == b.content.source == c.content.source == s.content.source == source
    requires a.content.offset < b.content.offset < s.content.offset < c.content.offset
    ensures Scan(Table([a, b, c, s], nextId), source) == [a, b, s, c]
  {
    var rows := [a, b, c, s];
    OneSourceScan(rows, source);
    SortedStays([a, b, c]);
    assert BySource(rows, source) == rows && rows[..3] == [a, b, c] && rows[3] == s;
    assert [a, b, c][..2] == [a, b];
    assert PlaceByOffset([a, b], s) == [a, b] + [s] == [a, b, s];
    assert PlaceByOffset([a, b, c], s) == PlaceByOffset([a, b], s) + [c] == [a, b, s, c];
  }

  lemma ViewOfFour(g: Grammar, a: Row, b: Row, c: Row, s: Row, line: LogLine)
    requires s.content.etype == TBurstSummary
    requires a.content.etype != TBurstSummary && b.content.etype != TBurstSummary && c.content.etype != TBurstSummary
    requires g.parse(a.content.raw) == g.parse(b.content.raw) == g.parse(c.content.raw) == Some(line)
    ensures LinesOf(ScanView(g, [a, b, s, c])) == [line, line, line]
  {
    var parsed := ScanParsed(g, [a, b, s, c]);
    assert parsed == [Some(line), Some(line), None, Some(line)];
    assert parsed[..3] == [Some(line), Some(line), None] && parsed[..3][..2] == [Some(line), Some(line)];
    assert parsed[..3][..2][..1] == [Some(line)] && parsed[..3][..2][..1][..0] == [];
    assert Project(parsed[..3][..2][..1]) == [(0, line)];
    assert Project(parsed[..3][..2]) == [(0, line), (1, line)];
    assert Project(parsed[..3]) == [(0, line), (1, line)];
    assert Project(parsed) == [(0, line), (1, line), (3, line)];
  }

  /** The table after the first pass: three notifications and the summary of the vehicles. */
  lemma AfterFirstPass(g: Grammar, remote: seq<RemoteRule>, buffer: seq<LogEntry>, source: string, hud: LogLine, stowed: LogLine)
    returns (s: Row)
    requires Setting(g, remote, BuiltinBurstRules(), buffer, source) && SixLines(g, buffer, hud, stowed)
    ensures |Singles(g, remote, buffer).rows| == 6
    ensures var rows := Singles(g, remote, buffer).rows;
            && Collapsed(g, remote, BuiltinBurstRules(), buffer).table == Table([rows[0], rows[1], rows[5], s], 8)
            && s.content.etype == TBurstSummary && s.content.source == source
            && s.content.offset == rows[2].content.offset
  {
    var rules, t := BuiltinBurstRules(), Singles(g, remote, buffer);
    ViewOfSix(g, buffer, hud, stowed);
    SameHits(g, remote, rules, buffer);
    SameSummary(g, remote, rules, buffer, 0);
    SummariesFresh(g, remote, rules, buffer, source);
    forall i | 0 <= i < 6
      ensures t.rows[i].id == i + 1
    {
      SingleRow(g, remote, buffer, i);
    }
    SingleRow(g, remote, buffer, 2);
    var view, hit := ScanView(g, t.rows), BufferHits(g, rules, buffer)[0];
    var op := ScanSummary(g, t.rows, view, hit);
    assert op == BufferSummaries(g, rules, buffer)[0] && op in BufferSummaries(g, rules, buffer);
    s := Row(7, op.key, op.content);
    OneHitPass(g, t, t.rows, view, hit);
    MembersOfHit(t.rows, view, hit);
    WithoutMiddle(t.rows, s);
    assert buffer[2] in buffer;
  }

  lemma OneHitPass(g: Grammar, t: Table, scan: seq<Row>, view: seq<(nat, LogLine)>, hit: BurstHit)
    requires HitFits(|view|, hit) && forall v :: v in view ==> v.0 < |scan|
    requires ScanSummary(g, scan, view, hit).key !in Contents(t.rows)
    ensures var op := ScanSummary(g, scan, view, hit);
            CollapseHits(g, Begin(t), scan, view, [hit]).table
            == Table(Without(t.rows + [Row(t.nextId, op.key, op.content)], MemberIds(scan, view, hit)), t.nextId + 1)
  {
    assert [hit][1..] == [];
  }

  lemma MembersOfHit(rows: seq<Row>, view: seq<(nat, LogLine)>, hit: BurstHit)
    requires |rows| == |view| == 6 && hit == BurstHit("vehicle_stowed_burst", 2, 4, 3, [2, 3, 4])
    requires forall i :: 0 <= i < 6 ==> rows[i].id == i + 1 && view[i].0 == i
    requires HitFits(6, hit) && forall v :: v in view ==> v.0 < 6
    ensures MemberIds(rows, view, hit) == {3, 4, 5}
  {
    assert MemberRows(rows, view, hit) == [rows[2], rows[3], rows[4]];
  }

  /**
   The documentation calls a second retroactive pass a strict no-op. With the shipped rules and
   these six lines, ingested singly, it is not: the first pass takes out the vehicles that kept
   the notifications apart, and the second finds the notifications to be a burst themselves.
   */
  lemma SecondPassFindsMore(g: Grammar, remote: seq<RemoteRule>, buffer: seq<LogEntry>, source: string, hud: LogLine, stowed: LogLine)
    requires Setting(g, remote, BuiltinBurstRules(), buffer, source) && SixLines(g, buffer, hud, stowed)
    ensures var rules := BuiltinBurstRules();
            var first := CollapsePass(g, rules, InsertAll(EMPTY_TABLE, LineOps(g, remote, buffer)));
            var second := CollapsePass(g, rules, first.table);
            && first.burstsCollapsed == 1 && |first.table.rows| == 4
            && second.table != first.table && second.burstsCollapsed > 0
  {
    var rules, t := BuiltinBurstRules(), Singles(g, remote, buffer);
    SinglesInserted(g, remote, buffer);
    PassOverSingles(g, remote, rules, buffer, source);
    var first := Collapsed(g, remote, rules, buffer);
    var s := AfterFirstPass(g, remote, buffer, source, hud, stowed);
    OneHitCounted(g, remote, buffer, hud, stowed);
    var a, b, c := t.rows[0], t.rows[1], t.rows[5];
    FourInOrder(g, remote, buffer, source, hud, stowed);
    ScanOfFour(a, b, c, s, 8, source);
    ViewOfFour(g, a, b, c, s, hud);
    ThreeHudsAreABurst(hud, stowed);
    assert a in first.table.rows;
    CollapsedFacts(g, remote, rules, buffer, source);
    BuiltinRulesAreSafe();
    PassIsNoOpIffSettled(g, rules, first.table);
    PassIsNoOpIffNoHits(g, rules, first.table);
  }

  lemma OneHitCounted(g: Grammar, remote: seq<RemoteRule>, buffer: seq<LogEntry>, hud: LogLine, stowed: LogLine)
    requires AllClassify(g, remote, buffer) && SixLines(g, buffer, hud, stowed)
    ensures Collapsed(g, remote, BuiltinBurstRules(), buffer).burstsCollapsed == 1
  {
    var t := Singles(g, remote, buffer);
    ViewOfSix(g, buffer, hud, stowed);
    BuiltinRulesAreSafe();
    SameHits(g, remote, BuiltinBurstRules(), buffer);
    CountNeverDrops(g, Begin(t), t.rows, ScanView(g, t.rows), ScanHits(g, BuiltinBurstRules(), t.rows));
  }

  /** The rows left, and the place of the summary among them. */
  lemma FourInOrder(g: Grammar, remote: seq<RemoteRule>, buffer: seq<LogEntry>, source: string, hud: LogLine, stowed: LogLine)
    requires Setting(g, remote, BuiltinBurstRules(), buffer, source) && SixLines(g, buffer, hud, stowed)
    ensures |Singles(g, remote, buffer).rows| == 6
    ensures var rows := Singles(g, remote, buffer).rows;
            && rows[0].content.offset < rows[1].content.offset < rows[2].content.offset < rows[5].content.offset
            && forall i :: i in {0, 1, 5} ==>
                 rows[i].content.source == source && rows[i].content.etype != TBurstSummary
                 && g.parse(rows[i].content.raw) == Some(hud)
  {
    ViewOfSix(g, buffer, hud, stowed);
    SingleRow(g, remote, buffer, 0);
    SingleRow(g, remote, buffer, 1);
    SingleRow(g, remote, buffer, 2);
    SingleRow(g, remote, buffer, 5);
    assert buffer[0] in buffer && buffer[1] in buffer && buffer[5] in buffer;
  }
}
