/** The collapse pass as it runs against the store. */
module CollapseRun {
  import opened Prelude
  import opened Grammar
  import opened Bursts
  import opened EventTable
  import opened Ingest
  import opened Collapse
  import S = Storage

  lemma {:induction false} WithoutTwice(rows: seq<Row>, a: set<nat>, b: set<nat>)
    ensures Without(Without(rows, a), b) == Without(rows, a + b)
  {
    if rows != [] {
      var init, last := rows[..|rows| - 1], rows[|rows| - 1];
      WithoutTwice(init, a, b);
      var kept := Without(init, a);
      if last.id !in a {
        assert (kept + [last])[..|kept|] == kept;
      } else {
        assert kept + [] == kept;
      }
    }
  }

  lemma {:induction false} WithoutNone(rows: seq<Row>)
    ensures Without(rows, {}) == rows
  {
    if rows != [] {
      WithoutNone(rows[..|rows| - 1]);
    }
  }

  lemma WithoutOneMore(rows: seq<Row>, members: seq<Row>, i: nat)
    requires i < |members|
    ensures Without(Without(rows, IdsOf(members[..i])), {members[i].id}) == Without(rows, IdsOf(members[..i + 1]))
  {
    WithoutTwice(rows, IdsOf(members[..i]), {members[i].id});
    assert members[..i + 1] == members[..i] + [members[i]];
    assert IdsOf(members[..i + 1]) == IdsOf(members[..i]) + {members[i].id};
  }

  /** Delete the given rows one by one, counting how many were there. */
  method DeleteEach(storage: S.Storage, members: seq<Row>) returns (deleted: nat)
    requires storage.Valid()
    modifies storage
    ensures storage.Valid()
    ensures storage.State() == old(storage.State()).(events := Delete(old(storage.State()).events, IdsOf(members)))
    ensures deleted == |old(storage.rows)| - |storage.rows|
  {
    ghost var saved := storage.State();
    deleted := 0;
    WithoutNone(storage.rows);
    assert IdsOf(members[..0]) == {};
    for i := 0 to |members|
      invariant storage.Valid()
      invariant storage.State() == saved.(events := Delete(saved.events, IdsOf(members[..i])))
      invariant deleted == |saved.events.rows| - |storage.rows|
    {
      var n := storage.DeleteEventById(members[i].id);
      deleted := deleted + n;
      WithoutOneMore(saved.events.rows, members, i);
    }
    assert members[..|members|] == members;
  }

  method CollapseOne(g: Grammar, storage: S.Storage, scan: seq<Row>, view: seq<(nat, LogLine)>, hit: BurstHit, ghost p: Pass)
    returns (suppressed: nat)
    requires storage.Valid() && HitFits(|view|, hit) && forall v :: v in view ==> v.0 < |scan|
    requires p.table == storage.State().events
    modifies storage
    ensures storage.Valid()
    ensures storage.State() == old(storage.State()).(events := CollapseHit(g, p, scan, view, hit).table)
    ensures CollapseHit(g, p, scan, view, hit).membersSuppressed == p.membersSuppressed + suppressed
  {
    storage.InsertEvent(ScanSummary(g, scan, view, hit));
    suppressed := DeleteEach(storage, MemberRows(scan, view, hit));
  }

  method CollapseOneSource(g: Grammar, rules: seq<BurstRule>, storage: S.Storage, source: string, ghost p: Pass)
    returns (collapsed: nat, suppressed: nat)
    requires storage.Valid() && p.table == storage.State().events
    modifies storage
    ensures storage.Valid()
    ensures var p' := CollapseSource(g, rules, p, source);
            && storage.State() == old(storage.State()).(events := p'.table)
            && p'.burstsCollapsed == p.burstsCollapsed + collapsed
            && p'.membersSuppressed == p.membersSuppressed + suppressed
  {
    collapsed, suppressed := 0, 0;
    var scan := Scan(Table(storage.rows, storage.nextId), source);
    var view := ScanView(g, scan);
    if |view| < 2 {
      return;
    }
    var hits := DetectBursts(LinesOf(view), rules);
    assert hits == ScanHits(g, rules, scan);
    ghost var saved, q := storage.State(), p;
    for h := 0 to |hits|
      invariant storage.Valid() && forall x :: x in hits[h..] ==> HitFits(|view|, x)
      invariant storage.State() == saved.(events := q.table)
      invariant q.burstsCollapsed == p.burstsCollapsed + collapsed
      invariant q.membersSuppressed == p.membersSuppressed + suppressed
      invariant CollapseHits(g, q, scan, view, hits[h..]) == CollapseHits(g, p, scan, view, hits)
    {
      assert hits[h] in hits && hits[h..][0] == hits[h] && hits[h..][1..] == hits[h + 1..];
      var n := CollapseOne(g, storage, scan, view, hits[h], q);
      q := CollapseHit(g, q, scan, view, hits[h]);
      suppressed := suppressed + n;
      collapsed := collapsed + 1;
    }
    assert hits[|hits|..] == [];
  }

  /** Phase 3 of a re-parse: one pass over every source present at its start. */
  method RunCollapse(g: Grammar, rules: seq<BurstRule>, storage: S.Storage) returns (collapsed: nat, suppressed: nat)
    requires storage.Valid()
    modifies storage
    ensures storage.Valid()
    ensures var p := CollapsePass(g, rules, old(storage.State()).events);
            && storage.State() == old(storage.State()).(events := p.table)
            && collapsed == p.burstsCollapsed && suppressed == p.membersSuppressed
  {
    var sources := DistinctSources(storage.rows);
    ghost var saved := storage.State();
    ghost var q := Begin(saved.events);
    collapsed, suppressed := 0, 0;
    for s := 0 to |sources|
      invariant storage.Valid()
      invariant storage.State() == saved.(events := q.table)
      invariant q.burstsCollapsed == collapsed && q.membersSuppressed == suppressed
      invariant CollapseSources(g, rules, q, sources[s..]) == CollapsePass(g, rules, saved.events)
    {
      assert sources[s..][0] == sources[s] && sources[s..][1..] == sources[s + 1..];
      var c, m := CollapseOneSource(g, rules, storage, sources[s], q);
      q := CollapseSource(g, rules, q, sources[s]);
      collapsed, suppressed := collapsed + c, suppressed + m;
    }
    assert sources[|sources|..] == [];
  }
}
