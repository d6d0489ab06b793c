/**
 What a collapse pass does to the keys of the store, told as a list of events known before it
 starts: each burst found adds the key of its summary and removes the keys of its members.
 */
module PassEvents {
  import opened Prelude
  import opened Keys
  import opened Grammar
  import opened Bursts
  import opened EventTable
  import opened Ingest
  import opened Collapse
  import opened CollapseLaws
  import opened CollapseEquivalence

  /** A burst summary is stored under the key. */
  ghost predicate HasSummary(rows: seq<Row>, key: Key) {
    exists r :: r in rows && r.key == key && r.content.etype == TBurstSummary
  }

  datatype Event = Event(adds: Key, removes: set<Key>)

  // ----- one burst -----

  function MemberKeys(scan: seq<Row>, view: seq<(nat, LogLine)>, hit: BurstHit): set<Key>
    requires HitFits(|view|, hit) && forall v :: v in view ==> v.0 < |scan|
  {
    set r | r in MemberRows(scan, view, hit) :: r.key
  }

  /** The rows after one burst: all but its members, and its summary if the key was free. */
  lemma RowsAfterHit(g: Grammar, p: Pass, scan: seq<Row>, view: seq<(nat, LogLine)>, hit: BurstHit, r: Row)
    requires forall v :: v in view ==> v.0 < |scan|
    requires ValidTable(p.table) && MembersStored(p.table, scan, view, hit)
    ensures var op := ScanSummary(g, scan, view, hit);
            r in CollapseHit(g, p, scan, view, hit).table.rows
            <==> (r in p.table.rows && r !in MemberRows(scan, view, hit))
                 || (op.key !in Contents(p.table.rows) && r == Row(p.table.nextId, op.key, op.content))
  {
    var op, ids, members := ScanSummary(g, scan, view, hit), MemberIds(scan, view, hit), MemberRows(scan, view, hit);
    WithoutRows(Insert(p.table, op).rows, ids);
    if r in p.table.rows && r.id in ids {
      var m :| m in members && m.id == r.id;
      SameId(p.table, r, m);
    }
    if r.id in ids {
      var m :| m in members && m.id == r.id;
      assert m in p.table.rows;
    }
  }

  lemma SameKey(t: Table, a: Row, b: Row)
    requires ValidTable(t) && a in t.rows && b in t.rows && a.key == b.key
    ensures a == b
  {
    var i :| 0 <= i < |t.rows| && t.rows[i] == a;
    var j :| 0 <= j < |t.rows| && t.rows[j] == b;
  }

  /**
   A key is stored after one burst iff it was stored before or is the summary's, and no member
   carries it. In particular the summary's own key is stored afterwards iff no member has it.
   */
  lemma {:induction false} KeyAfterHit(g: Grammar, p: Pass, scan: seq<Row>, view: seq<(nat, LogLine)>, hit: BurstHit, key: Key)
    requires forall v :: v in view ==> v.0 < |scan|
    requires ValidTable(p.table) && MembersStored(p.table, scan, view, hit)
    ensures key in Contents(CollapseHit(g, p, scan, view, hit).table.rows)
            <==> (key in Contents(p.table.rows) || key == ScanSummary(g, scan, view, hit).key)
                 && forall m :: m in MemberRows(scan, view, hit) ==> m.key != key
  {
    var after, op := CollapseHit(g, p, scan, view, hit).table.rows, ScanSummary(g, scan, view, hit);
    KeyHasRow(p.table.rows, key);
    KeyHasRow(after, key);
    var added := Row(p.table.nextId, op.key, op.content);
    if key in Contents(after) {
      var r :| r in after && r.key == key;
      RowsAfterHit(g, p, scan, view, hit, r);
      forall m | m in MemberRows(scan, view, hit)
        ensures m.key != key
      {
        MemberKeyStored(p.table, scan, view, hit, m);
        if m.key == key && r in p.table.rows {
          SameKey(p.table, m, r);
        }
      }
    } else if key in Contents(p.table.rows) {
      var r :| r in p.table.rows && r.key == key;
      RowsAfterHit(g, p, scan, view, hit, r);
    } else {
      RowsAfterHit(g, p, scan, view, hit, added);
    }
  }

  lemma MemberKeyStored(t: Table, scan: seq<Row>, view: seq<(nat, LogLine)>, hit: BurstHit, m: Row)
    requires forall v :: v in view ==> v.0 < |scan|
    requires MembersStored(t, scan, view, hit) && m in MemberRows(scan, view, hit)
    ensures m in t.rows && m.key in Contents(t.rows) && m.content.etype != TBurstSummary
  {
    KeyHasRow(t.rows, m.key);
  }

  /** A summary is stored under a key after one burst iff one was before or the burst's own went in. */
  lemma SummaryAfterHit(g: Grammar, p: Pass, scan: seq<Row>, view: seq<(nat, LogLine)>, hit: BurstHit, key: Key)
    requires forall v :: v in view ==> v.0 < |scan|
    requires ValidTable(p.table) && MembersStored(p.table, scan, view, hit)
    ensures HasSummary(CollapseHit(g, p, scan, view, hit).table.rows, key)
            <==> HasSummary(p.table.rows, key)
                 || (key == ScanSummary(g, scan, view, hit).key && key !in Contents(p.table.rows))
  {
    var after, op := CollapseHit(g, p, scan, view, hit).table.rows, ScanSummary(g, scan, view, hit);
    var added := Row(p.table.nextId, op.key, op.content);
    RowsAfterHit(g, p, scan, view, hit, added);
    forall r: Row | r.content.etype == TBurstSummary && r.key == key
      ensures r in after <==> r in p.table.rows || (op.key !in Contents(p.table.rows) && r == added)
    {
      RowsAfterHit(g, p, scan, view, hit, r);
    }
  }

  // ----- a list of events -----

  /** Is the key stored after the events, when `stored` says whether it was before? */
  predicate KeyAfter(stored: bool, events: seq<Event>, key: Key)
    decreases |events|
  {
    if events == [] then stored
    else KeyAfter((stored || key == events[0].adds) && key !in events[0].removes, events[1..], key)
  }

  /** Is a summary stored under the key after the events? */
  predicate SummaryAfter(stored: bool, summary: bool, events: seq<Event>, key: Key)
    decreases |events|
  {
    if events == [] then summary
    else SummaryAfter((stored || key == events[0].adds) && key !in events[0].removes,
                      summary || (!stored && key == events[0].adds), events[1..], key)
  }

  ghost predicate NeverRemovedFrom(events: seq<Event>, key: Key, from: nat) {
    forall i :: from <= i < |events| ==> key !in events[i].removes
  }

  ghost predicate AddedForGood(events: seq<Event>, key: Key, j: nat) {
    j < |events| && events[j].adds == key && NeverRemovedFrom(events, key, j)
  }

  /** In closed form: stored and never removed, or added by an event from which on none removes it. */
  lemma {:induction false} KeyAfterIff(stored: bool, events: seq<Event>, key: Key)
    ensures KeyAfter(stored, events, key)
            <==> (stored && NeverRemovedFrom(events, key, 0)) || exists j: nat :: AddedForGood(events, key, j)
    decreases |events|
  {
    if events != [] {
      var rest := events[1..];
      KeyAfterIff((stored || key == events[0].adds) && key !in events[0].removes, rest, key);
      assert forall i :: 0 <= i < |rest| ==> rest[i] == events[i + 1];
      assert forall i :: 1 <= i < |events| ==> events[i] == rest[i - 1];
      NeverRemovedTail(events, key);
      if j: nat :| AddedForGood(rest, key, j) {
        assert AddedForGood(events, key, j + 1);
      }
      if j: nat :| AddedForGood(events, key, j) {
        assert j > 0 ==> AddedForGood(rest, key, j - 1);
      }
      assert events[0].adds == key && NeverRemovedFrom(events, key, 0) ==> AddedForGood(events, key, 0);
    }
  }

  lemma NeverRemovedTail(events: seq<Event>, key: Key)
    requires events != []
    ensures NeverRemovedFrom(events, key, 0) <==> key !in events[0].removes && NeverRemovedFrom(events[1..], key, 0)
  {
    assert forall i :: 0 <= i < |events[1..]| ==> events[1..][i] == events[i + 1];
    assert forall i :: 1 <= i < |events| ==> events[i] == events[1..][i - 1];
  }

  /** Event `j` adds the key after some earlier event has removed it. */
  ghost predicate Readded(events: seq<Event>, key: Key, j: nat) {
    j < |events| && events[j].adds == key && exists i :: 0 <= i < j && key in events[i].removes
  }

  ghost predicate Added(events: seq<Event>, key: Key) {
    exists j :: 0 <= j < |events| && events[j].adds == key
  }

  /**
   In closed form: there was a summary, or an event adds the key while it is free, because it was
   free from the start or because an earlier event freed it.
   */
  lemma {:induction false} SummaryAfterIff(stored: bool, summary: bool, events: seq<Event>, key: Key)
    ensures SummaryAfter(stored, summary, events, key)
            <==> summary || (!stored && Added(events, key)) || exists j: nat :: Readded(events, key, j)
    decreases |events|
  {
    if events != [] {
      var rest := events[1..];
      SummaryAfterIff((stored || key == events[0].adds) && key !in events[0].removes,
                      summary || (!stored && key == events[0].adds), rest, key);
      ShiftedFacts(events, key);
    }
  }

  lemma ShiftedFacts(events: seq<Event>, key: Key)
    requires events != []
    ensures Added(events, key) <==> events[0].adds == key || Added(events[1..], key)
    ensures (exists j: nat :: Readded(events, key, j))
            <==> (exists j: nat :: Readded(events[1..], key, j)) || (key in events[0].removes && Added(events[1..], key))
  {
    var rest := events[1..];
    assert forall i :: 0 <= i < |rest| ==> rest[i] == events[i + 1];
    if Added(rest, key) {
      var j :| 0 <= j < |rest| && rest[j].adds == key;
      assert events[j + 1].adds == key;
      assert key in events[0].removes ==> Readded(events, key, j + 1);
    }
    if j: nat :| Readded(rest, key, j) {
      var i :| 0 <= i < j && key in rest[i].removes;
      assert key in events[i + 1].removes;
      assert Readded(events, key, j + 1);
    }
    if j: nat :| Readded(events, key, j) {
      var i :| 0 <= i < j && key in events[i].removes;
      assert rest[j - 1].adds == key;
      assert i > 0 ==> key in rest[i - 1].removes && Readded(rest, key, j - 1);
    }
    if Added(events, key) {
      var j :| 0 <= j < |events| && events[j].adds == key;
      assert j > 0 ==> rest[j - 1].adds == key;
    }
  }

  lemma {:induction false} KeyAfterConcat(stored: bool, a: seq<Event>, b: seq<Event>, key: Key)
    ensures KeyAfter(stored, a + b, key) == KeyAfter(KeyAfter(stored, a, key), b, key)
    decreases |a|
  {
    if a == [] {
      assert a + b == b;
    } else {
      assert (a + b)[0] == a[0] && (a + b)[1..] == a[1..] + b;
      KeyAfterConcat((stored || key == a[0].adds) && key !in a[0].removes, a[1..], b, key);
    }
  }

  lemma {:induction false} SummaryAfterConcat(stored: bool, summary: bool, a: seq<Event>, b: seq<Event>, key: Key)
    ensures SummaryAfter(stored, summary, a + b, key)
            == SummaryAfter(KeyAfter(stored, a, key), SummaryAfter(stored, summary, a, key), b, key)
    decreases |a|
  {
    if a == [] {
      assert a + b == b;
    } else {
      assert (a + b)[0] == a[0] && (a + b)[1..] == a[1..] + b;
      SummaryAfterConcat((stored || key == a[0].adds) && key !in a[0].removes, summary || (!stored && key == a[0].adds), a[1..], b, key);
    }
  }

  // ----- the events of a pass -----

  function HitEvents(g: Grammar, scan: seq<Row>, view: seq<(nat, LogLine)>, hits: seq<BurstHit>): (events: seq<Event>)
    requires (forall h :: h in hits ==> HitFits(|view|, h)) && forall v :: v in view ==> v.0 < |scan|
    ensures |events| == |hits|
  {
    if hits == [] then []
    else
      assert hits[0] in hits;
      [Event(ScanSummary(g, scan, view, hits[0]).key, MemberKeys(scan, view, hits[0]))] + HitEvents(g, scan, view, hits[1..])
  }

  /** What detection finds in the rows of one source. */
  function SourceEvents(g: Grammar, rules: seq<BurstRule>, t: Table, source: string): seq<Event> {
    var scan := Scan(t, source);
    HitEvents(g, scan, ScanView(g, scan), ScanHits(g, rules, scan))
  }

  function EventsOfSources(g: Grammar, rules: seq<BurstRule>, t: Table, sources: seq<string>): seq<Event>
    decreases |sources|
  {
    if sources == [] then [] else SourceEvents(g, rules, t, sources[0]) + EventsOfSources(g, rules, t, sources[1..])
  }

  /** Everything a pass over the table will find, read off the table before the pass. */
  function EventsOf(g: Grammar, rules: seq<BurstRule>, t: Table): seq<Event> {
    EventsOfSources(g, rules, t, DistinctSources(t.rows))
  }

  /** The rows of one source are the same in both tables. */
  ghost predicate SameSource(a: Table, b: Table, source: string) {
    forall r: Row :: r.content.source == source ==> (r in a.rows <==> r in b.rows)
  }

  lemma SameScan(a: Table, b: Table, source: string)
    requires ValidTable(a) && ValidTable(b) && SameSource(a, b, source)
    ensures Scan(a, source) == Scan(b, source)
  {
    ScanIsTheQuery(a, source, Scan(a, source));
    ScanIsTheQuery(b, source, Scan(a, source));
  }

  /** Keys and rows after a list of bursts of one source. */
  ghost predicate TableAfter(before: Table, after: Table, events: seq<Event>, source: string) {
    && (forall key :: key in Contents(after.rows) <==> KeyAfter(key in Contents(before.rows), events, key))
    && (forall key :: HasSummary(after.rows, key)
                      <==> SummaryAfter(key in Contents(before.rows), HasSummary(before.rows, key), events, key))
    && OldRows(before, after, events)
    && (forall r: Row :: r.content.source != source ==> (r in after.rows <==> r in before.rows))
  }

  /** A row from before is still there iff no event removes its key. */
  ghost predicate OldRows(before: Table, after: Table, events: seq<Event>) {
    && before.nextId <= after.nextId
    && forall r: Row :: r.id < before.nextId ==>
         (r in after.rows <==> r in before.rows && NeverRemovedFrom(events, r.key, 0))
  }

  lemma {:induction false} HitsAreEvents(g: Grammar, t0: Table, p: Pass, scan: seq<Row>, view: seq<(nat, LogLine)>,
                                         hits: seq<BurstHit>, source: string)
    requires forall v :: v in view ==> v.0 < |scan|
    requires Ready(t0, p, scan, view, hits) && forall r :: r in scan ==> r.content.source == source
    ensures TableAfter(p.table, CollapseHits(g, p, scan, view, hits).table, HitEvents(g, scan, view, hits), source)
    decreases |hits|
  {
    if hits != [] {
      assert hits[0] in hits;
      var p1 := CollapseHit(g, p, scan, view, hits[0]);
      var event := HitEvents(g, scan, view, hits)[0];
      ReadyStep(g, t0, p, scan, view, hits);
      HitsAreEvents(g, t0, p1, scan, view, hits[1..], source);
      HitIsEvent(g, p, scan, view, hits[0], source);
      TableAfterCons(p.table, p1.table, CollapseHits(g, p, scan, view, hits).table, event,
                     HitEvents(g, scan, view, hits[1..]), source);
    }
  }

  ghost predicate OneEvent(before: Table, after: Table, event: Event, source: string) {
    && (forall key :: key in Contents(after.rows)
                      <==> (key in Contents(before.rows) || key == event.adds) && key !in event.removes)
    && (forall key :: HasSummary(after.rows, key)
                      <==> HasSummary(before.rows, key) || (key !in Contents(before.rows) && key == event.adds))
    && before.nextId <= after.nextId
    && (forall r: Row :: r.id < before.nextId ==> (r in after.rows <==> r in before.rows && r.key !in event.removes))
    && (forall r: Row :: r.content.source != source ==> (r in after.rows <==> r in before.rows))
  }

  lemma HitIsEvent(g: Grammar, p: Pass, scan: seq<Row>, view: seq<(nat, LogLine)>, hit: BurstHit, source: string)
    requires forall v :: v in view ==> v.0 < |scan|
    requires ValidTable(p.table) && MembersStored(p.table, scan, view, hit)
    requires forall r :: r in scan ==> r.content.source == source
    ensures OneEvent(p.table, CollapseHit(g, p, scan, view, hit).table,
                     Event(ScanSummary(g, scan, view, hit).key, MemberKeys(scan, view, hit)), source)
  {
    forall key
      ensures key in Contents(CollapseHit(g, p, scan, view, hit).table.rows)
              <==> (key in Contents(p.table.rows) || key == ScanSummary(g, scan, view, hit).key)
                   && key !in MemberKeys(scan, view, hit)
    {
      KeyAfterHit(g, p, scan, view, hit, key);
    }
    forall key
      ensures HasSummary(CollapseHit(g, p, scan, view, hit).table.rows, key)
              <==> HasSummary(p.table.rows, key)
                   || (key !in Contents(p.table.rows) && key == ScanSummary(g, scan, view, hit).key)
    {
      SummaryAfterHit(g, p, scan, view, hit, key);
    }
    forall r: Row | r.id < p.table.nextId
      ensures r in CollapseHit(g, p, scan, view, hit).table.rows <==> r in p.table.rows && r.key !in MemberKeys(scan, view, hit)
    {
      OldRowAfterHit(g, p, scan, view, hit, r);
    }
    forall r: Row | r.content.source != source
      ensures r in CollapseHit(g, p, scan, view, hit).table.rows <==> r in p.table.rows
    {
      RowsAfterHit(g, p, scan, view, hit, r);
      OneSourceOnly(g, scan, view, hit, source, r);
    }
  }

  lemma OldRowAfterHit(g: Grammar, p: Pass, scan: seq<Row>, view: seq<(nat, LogLine)>, hit: BurstHit, r: Row)
    requires forall v :: v in view ==> v.0 < |scan|
    requires ValidTable(p.table) && MembersStored(p.table, scan, view, hit) && r.id < p.table.nextId
    ensures r in CollapseHit(g, p, scan, view, hit).table.rows <==> r in p.table.rows && r.key !in MemberKeys(scan, view, hit)
  {
    RowsAfterHit(g, p, scan, view, hit, r);
    if r in p.table.rows && r.key in MemberKeys(scan, view, hit) {
      var m :| m in MemberRows(scan, view, hit) && m.key == r.key;
      SameKey(p.table, r, m);
    }
  }

  lemma OneSourceOnly(g: Grammar, scan: seq<Row>, view: seq<(nat, LogLine)>, hit: BurstHit, source: string, r: Row)
    requires forall v :: v in view ==> v.0 < |scan|
    requires HitFits(|view|, hit) && forall x :: x in scan ==> x.content.source == source
    ensures r in MemberRows(scan, view, hit) ==> r.content.source == source
    ensures ScanSummary(g, scan, view, hit).content.source == source
  {
    if r in MemberRows(scan, view, hit) {
      var i :| 0 <= i < hit.size && MemberRows(scan, view, hit)[i] == r;
      assert hit.memberIndices[i] in hit.memberIndices && view[hit.memberIndices[i]] in view;
    }
    assert view[hit.startIndex] in view;
    assert scan[view[hit.startIndex].0] in scan;
  }

  lemma TableAfterCons(before: Table, mid: Table, after: Table, event: Event, rest: seq<Event>, source: string)
    requires OneEvent(before, mid, event, source) && TableAfter(mid, after, rest, source)
    ensures TableAfter(before, after, [event] + rest, source)
  {
    var events := [event] + rest;
    assert events[1..] == rest;
    forall key
      ensures NeverRemovedFrom(events, key, 0) <==> key !in event.removes && NeverRemovedFrom(rest, key, 0)
    {
      NeverRemovedTail(events, key);
    }
  }

  ghost predicate PassAfter(before: Table, after: Table, events: seq<Event>) {
    && (forall key :: key in Contents(after.rows) <==> KeyAfter(key in Contents(before.rows), events, key))
    && (forall key :: HasSummary(after.rows, key)
                      <==> SummaryAfter(key in Contents(before.rows), HasSummary(before.rows, key), events, key))
    && OldRows(before, after, events)
  }

  lemma SourceIsEvents(g: Grammar, rules: seq<BurstRule>, t0: Table, p: Pass, source: string)
    requires ValidTable(t0) && Accounts(t0, p) && SameSource(t0, p.table, source)
    ensures TableAfter(p.table, CollapseSource(g, rules, p, source).table, SourceEvents(g, rules, t0, source), source)
  {
    var scan := Scan(p.table, source);
    SameScan(t0, p.table, source);
    ScanMembersStored(g, rules, p.table, source);
    ScanRows(p.table, source);
    HitsAreEvents(g, t0, p, scan, ScanView(g, scan), ScanHits(g, rules, scan), source);
  }

  lemma {:induction false} SourcesAreEvents(g: Grammar, rules: seq<BurstRule>, t0: Table, p: Pass, sources: seq<string>)
    requires ValidTable(t0) && Accounts(t0, p) && NamesIncrease(sources)
    requires forall s :: s in sources ==> SameSource(t0, p.table, s)
    ensures PassAfter(p.table, CollapseSources(g, rules, p, sources).table, EventsOfSources(g, rules, t0, sources))
    decreases |sources|
  {
    if sources != [] {
      var first, rest, p1 := sources[0], sources[1..], CollapseSource(g, rules, p, sources[0]);
      SourceIsEvents(g, rules, t0, p, first);
      SourceKeepsAccounts(g, rules, t0, p, first);
      RestUntouched(t0, p.table, p1.table, SourceEvents(g, rules, t0, first), sources);
      SourcesAreEvents(g, rules, t0, p1, rest);
      PassAfterConcat(p.table, p1.table, CollapseSources(g, rules, p, sources).table, SourceEvents(g, rules, t0, first),
                      EventsOfSources(g, rules, t0, rest), first);
    }
  }

  lemma RestUntouched(t0: Table, before: Table, after: Table, events: seq<Event>, sources: seq<string>)
    requires sources != [] && NamesIncrease(sources) && TableAfter(before, after, events, sources[0])
    requires forall s :: s in sources ==> SameSource(t0, before, s)
    ensures NamesIncrease(sources[1..]) && forall s :: s in sources[1..] ==> SameSource(t0, after, s)
  {
    var rest := sources[1..];
    forall s | s in rest
      ensures SameSource(t0, after, s)
    {
      var j :| 0 <= j < |rest| && rest[j] == s;
      assert StrLess(sources[0], sources[j + 1]) && s in sources;
      NotLessThanItself(s);
    }
  }

  lemma SourceKeepsAccounts(g: Grammar, rules: seq<BurstRule>, t0: Table, p: Pass, source: string)
    requires ValidTable(t0) && Accounts(t0, p)
    ensures Accounts(t0, CollapseSource(g, rules, p, source))
  {
    CollapseSourceAccounts(g, rules, t0, p, source, 0);
  }

  lemma {:induction false} NotLessThanItself(s: string)
    ensures !StrLess(s, s)
  {
    if s != "" {
      NotLessThanItself(s[1..]);
    }
  }

  lemma PassAfterConcat(before: Table, mid: Table, after: Table, a: seq<Event>, b: seq<Event>, source: string)
    requires TableAfter(before, mid, a, source) && PassAfter(mid, after, b)
    ensures PassAfter(before, after, a + b)
  {
    forall key
      ensures key in Contents(after.rows) <==> KeyAfter(key in Contents(before.rows), a + b, key)
    {
      KeyAfterConcat(key in Contents(before.rows), a, b, key);
    }
    forall key
      ensures HasSummary(after.rows, key)
              <==> SummaryAfter(key in Contents(before.rows), HasSummary(before.rows, key), a + b, key)
    {
      SummaryAfterConcat(key in Contents(before.rows), HasSummary(before.rows, key), a, b, key);
    }
    forall key
      ensures NeverRemovedFrom(a + b, key, 0) <==> NeverRemovedFrom(a, key, 0) && NeverRemovedFrom(b, key, 0)
    {
      NeverRemovedConcat(a, b, key);
    }
  }

  lemma NeverRemovedConcat(a: seq<Event>, b: seq<Event>, key: Key)
    ensures NeverRemovedFrom(a + b, key, 0) <==> NeverRemovedFrom(a, key, 0) && NeverRemovedFrom(b, key, 0)
  {
    assert forall i :: 0 <= i < |a| ==> (a + b)[i] == a[i];
    assert forall i :: 0 <= i < |b| ==> (a + b)[|a| + i] == b[i];
  }

  /** The keys, and the keys with a summary, after a pass, from what detection finds before it. */
  lemma PassIsItsEvents(g: Grammar, rules: seq<BurstRule>, t: Table)
    requires ValidTable(t)
    ensures PassAfter(t, CollapsePass(g, rules, t).table, EventsOf(g, rules, t))
  {
    BeginAccounts(t);
    SourcesListed(t.rows);
    SourcesAreEvents(g, rules, t, Begin(t), DistinctSources(t.rows));
  }

  /** Every event removes the key of some ordinary row of the table. */
  ghost predicate RemovesARow(t: Table, event: Event) {
    exists r :: r in t.rows && r.key in event.removes
  }

  lemma {:induction false} HitsRemoveRows(g: Grammar, t: Table, scan: seq<Row>, view: seq<(nat, LogLine)>, hits: seq<BurstHit>)
    requires forall v :: v in view ==> v.0 < |scan|
    requires forall h :: h in hits ==> HitFits(|view|, h) && MembersStored(t, scan, view, h)
    ensures forall e :: e in HitEvents(g, scan, view, hits) ==> RemovesARow(t, e)
    decreases |hits|
  {
    if hits != [] {
      assert hits[0] in hits;
      var first := MemberRows(scan, view, hits[0])[0];
      assert first in MemberRows(scan, view, hits[0]) && first.key in MemberKeys(scan, view, hits[0]);
      HitsRemoveRows(g, t, scan, view, hits[1..]);
    }
  }

  lemma {:induction false} SourcesRemoveRows(g: Grammar, rules: seq<BurstRule>, t: Table, sources: seq<string>)
    requires ValidTable(t)
    ensures forall e :: e in EventsOfSources(g, rules, t, sources) ==> RemovesARow(t, e)
    decreases |sources|
  {
    if sources != [] {
      var scan := Scan(t, sources[0]);
      ScanMembersStored(g, rules, t, sources[0]);
      HitsRemoveRows(g, t, scan, ScanView(g, scan), ScanHits(g, rules, scan));
      SourcesRemoveRows(g, rules, t, sources[1..]);
    }
  }

  // ----- when a pass keeps every row, itself or behind a summary -----

  /** Row `r` is not a member of any burst whose summary is missing afterwards. */
  ghost predicate RowKept(after: Table, events: seq<Event>, r: Row) {
    forall j :: 0 <= j < |events| && r.key in events[j].removes ==> HasSummary(after.rows, events[j].adds)
  }

  /** Nothing keeps the summary of event `j` out: its key is free, holds a summary, or is freed in time. */
  ghost predicate Unblocked(t: Table, events: seq<Event>, j: nat)
    requires j < |events|
  {
    || events[j].adds !in Contents(t.rows) || HasSummary(t.rows, events[j].adds)
    || exists k: nat :: Readded(events, events[j].adds, k)
  }

  lemma SummaryStoredIff(g: Grammar, rules: seq<BurstRule>, t: Table, j: nat)
    requires ValidTable(t) && j < |EventsOf(g, rules, t)|
    ensures HasSummary(CollapsePass(g, rules, t).table.rows, EventsOf(g, rules, t)[j].adds) <==> Unblocked(t, EventsOf(g, rules, t), j)
  {
    var events := EventsOf(g, rules, t);
    var key := events[j].adds;
    PassIsItsEvents(g, rules, t);
    SummaryAfterIff(key in Contents(t.rows), HasSummary(t.rows, key), events, key);
    assert Added(events, key);
  }

  /**
   A pass deletes a row only as a member of a burst, and every row it deletes is represented by a
   stored summary of its burst iff no burst's summary key is held by an ordinary row, unless an
   earlier burst removes that row in time.
   */
  lemma PassKeepsRowsIff(g: Grammar, rules: seq<BurstRule>, t: Table)
    requires ValidTable(t)
    ensures var after, events := CollapsePass(g, rules, t).table, EventsOf(g, rules, t);
            && (forall r :: r in t.rows ==> (r in after.rows <==> NeverRemovedFrom(events, r.key, 0)))
            && ((forall r :: r in t.rows ==> RowKept(after, events, r)) <==> forall j :: 0 <= j < |events| ==> Unblocked(t, events, j))
  {
    var after, events := CollapsePass(g, rules, t).table, EventsOf(g, rules, t);
    PassIsItsEvents(g, rules, t);
    SourcesRemoveRows(g, rules, t, DistinctSources(t.rows));
    forall j | 0 <= j < |events|
      ensures HasSummary(after.rows, events[j].adds) <==> Unblocked(t, events, j)
      ensures RemovesARow(t, events[j])
    {
      SummaryStoredIff(g, rules, t, j);
      assert events[j] in events;
    }
    if forall r :: r in t.rows ==> RowKept(after, events, r) {
      forall j | 0 <= j < |events|
        ensures Unblocked(t, events, j)
      {
        var r :| r in t.rows && r.key in events[j].removes;
        assert RowKept(after, events, r);
      }
    }
  }
}
