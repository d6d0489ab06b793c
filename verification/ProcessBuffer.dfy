/**
 The three passes over one drain's buffer, with the counters shown to the user.
 */
module ProcessBuffer {
  import opened Prelude
  import opened Keys
  import opened Grammar
  import opened Bursts
  import opened EventTable
  import opened Ingest
  import S = Storage

  /** The four outcome counters and the last recognised event. */
  datatype Counts = Counts(
    skipped: nat, noise: nat, structuralOnly: nat, recognised: nat,
    lastType: Option<EventType>, lastAt: Option<string>)

  function Count(c: Counts, o: Outcome): Counts {
    match o
    case Skipped => c.(skipped := c.skipped + 1)
    case Noise => c.(noise := c.noise + 1)
    case StructuralOnly => c.(structuralOnly := c.structuralOnly + 1)
    case Recognised(etype, timestamp) =>
      c.(recognised := c.recognised + 1, lastType := Some(etype), lastAt := Some(timestamp))
  }

  function CountAll(c: Counts, outcomes: seq<Outcome>): Counts {
    if outcomes == [] then c else Count(CountAll(c, outcomes[..|outcomes| - 1]), outcomes[|outcomes| - 1])
  }

  function Total(c: Counts): nat {
    c.skipped + c.noise + c.structuralOnly + c.recognised
  }

  function SummaryOutcomes(ops: seq<Op>): (outcomes: seq<Outcome>)
    ensures |outcomes| == |ops|
  {
    seq(|ops|, i requires 0 <= i < |ops| => Recognised(ops[i].content.etype, ops[i].content.timestamp))
  }

  function LineOutcomes(g: Grammar, remote: seq<RemoteRule>, noise: map<string, string>, entries: seq<LogEntry>): (outcomes: seq<Outcome>)
    ensures |outcomes| == |entries|
  {
    seq(|entries|, i requires 0 <= i < |entries| => OutcomeOf(g, remote, noise, entries[i].text))
  }

  /** What one buffer adds to the counters, in order. */
  function BufferOutcomes(g: Grammar, remote: seq<RemoteRule>, rules: seq<BurstRule>, noise: map<string, string>,
                          buffer: seq<LogEntry>): seq<Outcome> {
    SummaryOutcomes(BufferSummaries(g, rules, buffer)) + LineOutcomes(g, remote, noise, BufferLines(g, rules, buffer))
  }

  class TailStats {
    var bytesRead: nat
    var linesProcessed: nat
    var counts: Counts

    constructor ()
      ensures bytesRead == 0 && linesProcessed == 0 && counts == Counts(0, 0, 0, 0, None, None)
    {
      bytesRead, linesProcessed, counts := 0, 0, Counts(0, 0, 0, 0, None, None);
    }

    method Record(o: Outcome)
      modifies this`counts
      ensures counts == Count(old(counts), o)
    {
      counts := Count(counts, o);
    }
  }

  method CollectSuppressed(view: seq<(nat, LogLine)>, hits: seq<BurstHit>) returns (suppressed: set<nat>)
    requires GoodHits(|view|, hits)
    ensures suppressed == Suppressed(view, hits)
  {
    suppressed := {};
    for h := 0 to |hits|
      invariant suppressed == Suppressed(view, hits[..h])
    {
      assert hits[h] in hits;
      var members := hits[h].memberIndices;
      ghost var before := suppressed;
      for m := 0 to |members|
        invariant suppressed == before + set x | x in members[..m] && x < |view| :: view[x].0
      {
        assert members[..m + 1] == members[..m] + [members[m]] && members[m] in members;
        suppressed := suppressed + {view[members[m]].0};
      }
      assert members[..|members|] == members;
      assert hits[..h + 1][..h] == hits[..h];
    }
    assert hits[..|hits|] == hits;
  }

  method EmitSummary(op: Op, storage: S.Storage, stats: TailStats)
    requires storage.Valid() && Consistent(op.content)
    modifies storage, stats`counts
    ensures storage.Valid() && storage.State() == old(storage.State()).(events := Insert(old(storage.State()).events, op))
    ensures stats.counts == Count(old(stats.counts), Recognised(op.content.etype, op.content.timestamp))
  {
    storage.InsertEvent(op);
    stats.Record(Recognised(op.content.etype, op.content.timestamp));
  }

  lemma CountAllStep(c: Counts, outcomes: seq<Outcome>, i: nat)
    requires i < |outcomes|
    ensures CountAll(c, outcomes[..i + 1]) == Count(CountAll(c, outcomes[..i]), outcomes[i])
  {
    assert outcomes[..i + 1][..i] == outcomes[..i];
  }

  method EmitSummaries(g: Grammar, buffer: seq<LogEntry>, view: seq<(nat, LogLine)>, hits: seq<BurstHit>,
                       storage: S.Storage, stats: TailStats)
    requires GoodHits(|view|, hits) && forall v :: v in view ==> v.0 < |buffer|
    requires storage.Valid()
    modifies storage, stats`counts
    ensures storage.Valid()
    ensures storage.State() == old(storage.State()).(events := InsertAll(old(storage.State()).events, SummaryOps(g, buffer, view, hits)))
    ensures stats.counts == CountAll(old(stats.counts), SummaryOutcomes(SummaryOps(g, buffer, view, hits)))
  {
    ghost var ops, saved := SummaryOps(g, buffer, view, hits), storage.State();
    ghost var outcomes := SummaryOutcomes(ops);
    for h := 0 to |hits|
      invariant storage.Valid()
      invariant storage.State() == saved.(events := InsertAll(saved.events, ops[..h]))
      invariant stats.counts == CountAll(old(stats.counts), outcomes[..h])
    {
      assert hits[h] in hits && view[hits[h].startIndex] in view;
      InsertAllStep(saved.events, ops, h);
      CountAllStep(old(stats.counts), outcomes, h);
      EmitSummary(SummaryOp(g, buffer, view, hits[h]), storage, stats);
    }
    assert ops[..|hits|] == ops && outcomes[..|hits|] == outcomes;
  }

  method IngestLines(g: Grammar, remote: seq<RemoteRule>, buffer: seq<LogEntry>, suppressed: set<nat>,
                     storage: S.Storage, stats: TailStats)
    requires storage.Valid()
    modifies storage, stats`counts
    ensures storage.Valid()
    ensures storage.State() == IngestAll(g, remote, old(storage.State()), Kept(buffer, suppressed))
    ensures stats.counts == CountAll(old(stats.counts), LineOutcomes(g, remote, old(storage.noise), Kept(buffer, suppressed)))
  {
    assert Kept(buffer[..0], suppressed) == [];
    for i := 0 to |buffer|
      invariant storage.Valid()
      invariant storage.State() == IngestAll(g, remote, old(storage.State()), Kept(buffer[..i], suppressed))
      invariant stats.counts == CountAll(old(stats.counts), LineOutcomes(g, remote, old(storage.noise), Kept(buffer[..i], suppressed)))
    {
      ghost var before := Kept(buffer[..i], suppressed);
      assert buffer[..i + 1][..i] == buffer[..i];
      if i in suppressed {
        assert Kept(buffer[..i + 1], suppressed) == before;
        continue;
      }
      ghost var after := before + [buffer[i]];
      assert Kept(buffer[..i + 1], suppressed) == after;
      assert after[..|after| - 1] == before;
      IngestAllEvents(g, remote, old(storage.State()), before);
      ghost var outcomes := LineOutcomes(g, remote, old(storage.noise), after);
      assert outcomes[..|outcomes| - 1] == LineOutcomes(g, remote, old(storage.noise), before);
      var outcome := IngestOneLine(g, remote, storage, buffer[i]);
      stats.Record(outcome);
    }
    assert buffer[..|buffer|] == buffer;
  }

  method Process(g: Grammar, remote: seq<RemoteRule>, rules: seq<BurstRule>, buffer: seq<LogEntry>,
                 storage: S.Storage, stats: TailStats)
    requires storage.Valid()
    modifies storage, stats`counts
    ensures storage.Valid()
    ensures storage.State() == ProcessedDb(g, remote, rules, old(storage.State()), buffer)
    ensures stats.counts == CountAll(old(stats.counts), BufferOutcomes(g, remote, rules, old(storage.noise), buffer))
  {
    var parsed := ParsedLines(g, buffer);
    var view := Project(parsed);
    var hits := DetectBursts(LinesOf(view), rules);
    assert hits == BufferHits(g, rules, buffer);
    var suppressed := CollectSuppressed(view, hits);
    EmitSummaries(g, buffer, view, hits, storage, stats);
    IngestLines(g, remote, buffer, suppressed, storage, stats);
    CountAllConcat(old(stats.counts), SummaryOutcomes(BufferSummaries(g, rules, buffer)),
                   LineOutcomes(g, remote, old(storage.noise), BufferLines(g, rules, buffer)));
  }

  // ----- counter conservation -----

  lemma {:induction false} CountAllConcat(c: Counts, a: seq<Outcome>, b: seq<Outcome>)
    ensures CountAll(c, a + b) == CountAll(CountAll(c, a), b)
  {
    if b == [] {
      assert a + b == a;
    } else {
      assert (a + b)[..|a + b| - 1] == a + b[..|b| - 1];
      CountAllConcat(c, a, b[..|b| - 1]);
    }
  }

  lemma {:induction false} CountAllTotal(c: Counts, outcomes: seq<Outcome>)
    ensures Total(CountAll(c, outcomes)) == Total(c) + |outcomes|
  {
    if outcomes != [] {
      CountAllTotal(c, outcomes[..|outcomes| - 1]);
    }
  }

  /** Lines a burst hides behind its summary. */
  function Hidden(hits: seq<BurstHit>): (n: int) {
    if hits == [] then 0 else Hidden(hits[..|hits| - 1]) + hits[|hits| - 1].size - 1
  }

  ghost function Image(view: seq<(nat, LogLine)>, members: seq<nat>): set<nat> {
    set m | m in members && m < |view| :: view[m].0
  }

  lemma {:induction false} ImageCardinality(view: seq<(nat, LogLine)>, members: seq<nat>)
    requires PositionsIncrease(view) && Increasing(members) && forall m :: m in members ==> m < |view|
    ensures |Image(view, members)| == |members|
  {
    if members != [] {
      var init, last := members[..|members| - 1], members[|members| - 1];
      assert members == init + [last];
      assert last in members && forall m :: m in init ==> m in members && m < last;
      ImageCardinality(view, init);
      ImageOfSnoc(view, init, last);
    }
  }

  lemma ImageOfSnoc(view: seq<(nat, LogLine)>, init: seq<nat>, last: nat)
    requires PositionsIncrease(view) && last < |view| && forall m :: m in init ==> m < last
    ensures Image(view, init + [last]) == Image(view, init) + {view[last].0}
    ensures view[last].0 !in Image(view, init)
  {
    forall m | m in init
      ensures view[m].0 < view[last].0
    {
    }
  }

  lemma PositionsDisjoint(view: seq<(nat, LogLine)>, a: BurstHit, b: BurstHit)
    requires PositionsIncrease(view) && HitFits(|view|, a) && HitFits(|view|, b) && Disjoint(a, b)
    ensures Positions(view, a) !! Positions(view, b)
  {
    forall x, y | x in a.memberIndices && y in b.memberIndices
      ensures view[x].0 != view[y].0
    {
      assert x < y || y < x;
    }
  }

  lemma {:induction false} SuppressedCount(view: seq<(nat, LogLine)>, hits: seq<BurstHit>)
    requires PositionsIncrease(view) && PairwiseDisjoint(hits)
    requires forall h :: h in hits ==> HitFits(|view|, h)
    ensures |Suppressed(view, hits)| == Hidden(hits) + |hits|
  {
    if hits != [] {
      var init, last := hits[..|hits| - 1], hits[|hits| - 1];
      assert hits == init + [last] && last in hits;
      SuppressedCount(view, init);
      ImageCardinality(view, last.memberIndices);
      assert Positions(view, last) == Image(view, last.memberIndices);
      forall p | p in Suppressed(view, init)
        ensures p !in Positions(view, last)
      {
        SuppressedMembers(view, init, p);
        var i :| 0 <= i < |init| && p in Positions(view, init[i]);
        assert Disjoint(hits[i], hits[|hits| - 1]);
        PositionsDisjoint(view, init[i], last);
      }
    }
  }

  /** `op` stands for the lines `members`, the first and last of which are `first` and `last`. */
  ghost predicate Describes(g: Grammar, buffer: seq<LogEntry>, members: set<nat>, first: nat, last: nat, ruleId: string, op: Op) {
    && first in members && last in members && (forall p :: p in members ==> first <= p <= last < |buffer|)
    && g.parse(buffer[first].text).Some? && g.parse(buffer[last].text).Some?
    && var start, end := g.parse(buffer[first].text).value, g.parse(buffer[last].text).value;
       var sample := g.clip(start.body);
       && op.key == BurstKey(buffer[first].source, buffer[first].offset, buffer[first].text, ruleId, |members|)
       && op.content.raw == buffer[first].text
       && op.content.source == buffer[first].source && op.content.offset == buffer[first].offset
       && op.content.timestamp == start.timestamp
       && op.content.payload == BurstSummary(start.timestamp, ruleId, |members|, end.timestamp,
                                             if sample == "" then None else Some(sample))
  }

  /**
   A summary row sits at its burst's first line, spans the time from the first to the last line,
   and counts exactly the lines kept out of the per-line pass on its account.
   */
  lemma SummaryDescribesItsBurst(g: Grammar, rules: seq<BurstRule>, buffer: seq<LogEntry>, h: nat)
    requires h < |BufferHits(g, rules, buffer)|
    ensures HitFits(|BufferView(g, buffer)|, BufferHits(g, rules, buffer)[h])
    ensures var hit := BufferHits(g, rules, buffer)[h];
            exists first, last ::
              Describes(g, buffer, Positions(BufferView(g, buffer), hit), first, last, hit.ruleId, BufferSummaries(g, rules, buffer)[h])
  {
    var view, hit := BufferView(g, buffer), BufferHits(g, rules, buffer)[h];
    assert hit in BufferHits(g, rules, buffer);
    ProjectIncreases(ParsedLines(g, buffer));
    assert view[hit.startIndex] in view && view[hit.endIndex] in view;
    FirstAndLast(view, hit);
    SummaryOfFits(g, buffer, view, hit);
    assert BufferSummaries(g, rules, buffer)[h] == SummaryOp(g, buffer, view, hit);
  }

  lemma SummaryOfFits(g: Grammar, buffer: seq<LogEntry>, view: seq<(nat, LogLine)>, hit: BurstHit)
    requires PositionsIncrease(view) && HitFits(|view|, hit)
    requires forall v :: v in view ==> v.0 < |buffer| && g.parse(buffer[v.0].text) == Some(v.1)
    requires view[hit.startIndex] in view && view[hit.endIndex] in view
    ensures Describes(g, buffer, Positions(view, hit), view[hit.startIndex].0, view[hit.endIndex].0, hit.ruleId,
                      SummaryOp(g, buffer, view, hit))
  {
    ImageCardinality(view, hit.memberIndices);
    assert Positions(view, hit) == Image(view, hit.memberIndices);
    FirstAndLast(view, hit);
  }

  lemma FirstAndLast(view: seq<(nat, LogLine)>, hit: BurstHit)
    requires PositionsIncrease(view) && HitFits(|view|, hit)
    ensures hit.startIndex in hit.memberIndices && hit.endIndex in hit.memberIndices
    ensures forall p :: p in Positions(view, hit) ==> view[hit.startIndex].0 <= p <= view[hit.endIndex].0
  {
    var members := hit.memberIndices;
    forall m | m in members
      ensures view[hit.startIndex].0 <= view[m].0 <= view[hit.endIndex].0
    {
      var i :| 0 <= i < |members| && members[i] == m;
      assert i > 0 ==> members[0] < members[i];
      assert i < |members| - 1 ==> members[i] < members[|members| - 1];
    }
  }

  ghost function Below(positions: set<nat>, n: nat): set<nat> {
    set i | i in positions && i < n
  }

  lemma {:induction false} KeptCount(entries: seq<LogEntry>, suppressed: set<nat>)
    ensures |Kept(entries, suppressed)| + |Below(suppressed, |entries|)| == |entries|
  {
    if entries == [] {
      assert Below(suppressed, |entries|) == {};
    } else {
      var n := |entries| - 1;
      KeptCount(entries[..n], suppressed);
      assert Below(suppressed, |entries|) == Below(suppressed, n) + if n in suppressed then {n} else {};
    }
  }

  /**
   Conservation for one buffer: every line lands in exactly one counter, except that a burst of
   `size` lines counts once.
   */
  lemma CountersConserveLines(g: Grammar, remote: seq<RemoteRule>, rules: seq<BurstRule>, noise: map<string, string>,
                              buffer: seq<LogEntry>, c: Counts)
    ensures Total(CountAll(c, BufferOutcomes(g, remote, rules, noise, buffer)))
            == Total(c) + |buffer| - Hidden(BufferHits(g, rules, buffer))
  {
    var view, hits := BufferView(g, buffer), BufferHits(g, rules, buffer);
    var suppressed := BufferSuppressed(g, rules, buffer);
    CountAllTotal(c, BufferOutcomes(g, remote, rules, noise, buffer));
    ProjectIncreases(ParsedLines(g, buffer));
    SuppressedCount(view, hits);
    KeptCount(buffer, suppressed);
    forall p | p in suppressed
      ensures p < |buffer|
    {
      SuppressedMembers(view, hits, p);
      var h :| h in hits && p in Positions(view, h);
      var m :| m in h.memberIndices && view[m].0 == p;
      assert view[m] in view;
    }
    assert Below(suppressed, |buffer|) == suppressed;
  }

  // ----- what each counter counts -----

  ghost predicate Unparsed(g: Grammar, e: LogEntry) {
    g.parse(e.text).None?
  }

  ghost predicate Read(g: Grammar, remote: seq<RemoteRule>, e: LogEntry) {
    RecogniseText(g, remote, e.text).Some?
  }

  ghost predicate Noisy(g: Grammar, remote: seq<RemoteRule>, noise: map<string, string>, e: LogEntry) {
    && !Unparsed(g, e) && !Read(g, remote, e)
    && exists name :: g.parse(e.text).value.eventName == Some(name) && name in noise
  }

  ghost predicate Unclear(g: Grammar, remote: seq<RemoteRule>, noise: map<string, string>, e: LogEntry) {
    && !Unparsed(g, e) && !Read(g, remote, e)
    && forall name :: g.parse(e.text).value.eventName == Some(name) ==> name !in noise
  }

  /** Positions, outside `suppressed`, of the lines of one kind. */
  ghost function Those(entries: seq<LogEntry>, suppressed: set<nat>, kind: LogEntry -> bool): set<nat> {
    set i | 0 <= i < |entries| && i !in suppressed && kind(entries[i])
  }

  lemma OneMoreLine(entries: seq<LogEntry>, suppressed: set<nat>, kind: LogEntry -> bool)
    requires entries != []
    ensures var n := |entries| - 1;
            |Those(entries, suppressed, kind)|
            == |Those(entries[..n], suppressed, kind)| + if n !in suppressed && kind(entries[n]) then 1 else 0
  {
    var n := |entries| - 1;
    OneMore(Those(entries[..n], suppressed, kind), Those(entries, suppressed, kind), n, n !in suppressed && kind(entries[n]));
  }

  /** From `c` to `after`: as many more of each kind as there are such lines outside `suppressed`. */
  ghost predicate Tallies(g: Grammar, remote: seq<RemoteRule>, noise: map<string, string>, entries: seq<LogEntry>,
                          suppressed: set<nat>, c: Counts, after: Counts) {
    && after.skipped == c.skipped + |Those(entries, suppressed, e => Unparsed(g, e))|
    && after.noise == c.noise + |Those(entries, suppressed, e => Noisy(g, remote, noise, e))|
    && after.structuralOnly == c.structuralOnly + |Those(entries, suppressed, e => Unclear(g, remote, noise, e))|
    && after.recognised == c.recognised + |Those(entries, suppressed, e => Read(g, remote, e))|
  }

  lemma CountTallies(g: Grammar, remote: seq<RemoteRule>, noise: map<string, string>, e: LogEntry, before: Counts)
    ensures var after := Count(before, OutcomeOf(g, remote, noise, e.text));
            && after.skipped == before.skipped + (if Unparsed(g, e) then 1 else 0)
            && after.noise == before.noise + (if Noisy(g, remote, noise, e) then 1 else 0)
            && after.structuralOnly == before.structuralOnly + (if Unclear(g, remote, noise, e) then 1 else 0)
            && after.recognised == before.recognised + (if Read(g, remote, e) then 1 else 0)
  {
  }

  lemma {:induction false} LinesTally(g: Grammar, remote: seq<RemoteRule>, noise: map<string, string>, entries: seq<LogEntry>,
                                      suppressed: set<nat>, c: Counts)
    ensures Tallies(g, remote, noise, entries, suppressed, c,
                    CountAll(c, LineOutcomes(g, remote, noise, Kept(entries, suppressed))))
  {
    if entries != [] {
      var n := |entries| - 1;
      LinesTally(g, remote, noise, entries[..n], suppressed, c);
      KeptStep(g, remote, noise, entries, suppressed, c);
      CountTallies(g, remote, noise, entries[n], CountAll(c, LineOutcomes(g, remote, noise, Kept(entries[..n], suppressed))));
      OneMoreLine(entries, suppressed, e => Unparsed(g, e));
      OneMoreLine(entries, suppressed, e => Noisy(g, remote, noise, e));
      OneMoreLine(entries, suppressed, e => Unclear(g, remote, noise, e));
      OneMoreLine(entries, suppressed, e => Read(g, remote, e));
    }
  }

  lemma KeptStep(g: Grammar, remote: seq<RemoteRule>, noise: map<string, string>, entries: seq<LogEntry>,
                 suppressed: set<nat>, c: Counts)
    requires entries != []
    ensures var n := |entries| - 1;
            var before := CountAll(c, LineOutcomes(g, remote, noise, Kept(entries[..n], suppressed)));
            CountAll(c, LineOutcomes(g, remote, noise, Kept(entries, suppressed)))
            == if n in suppressed then before else Count(before, OutcomeOf(g, remote, noise, entries[n].text))
  {
    var n := |entries| - 1;
    var front := Kept(entries[..n], suppressed);
    if n in suppressed {
      assert Kept(entries, suppressed) == front;
    } else {
      var outcomes := LineOutcomes(g, remote, noise, front + [entries[n]]);
      assert outcomes[..|front|] == LineOutcomes(g, remote, noise, front);
    }
  }

  lemma {:induction false} SummariesTally(ops: seq<Op>, c: Counts)
    ensures CountAll(c, SummaryOutcomes(ops))
            == if ops == [] then c
               else c.(recognised := c.recognised + |ops|,
                       lastType := Some(ops[|ops| - 1].content.etype), lastAt := Some(ops[|ops| - 1].content.timestamp))
  {
    if ops != [] {
      var init := ops[..|ops| - 1];
      SummariesTally(init, c);
      assert SummaryOutcomes(ops)[..|init|] == SummaryOutcomes(init);
    }
  }

  ghost predicate ReadAt(g: Grammar, remote: seq<RemoteRule>, entries: seq<LogEntry>, suppressed: set<nat>, i: nat) {
    i < |entries| && i !in suppressed && Read(g, remote, entries[i])
  }

  ghost predicate LastRead(g: Grammar, remote: seq<RemoteRule>, entries: seq<LogEntry>, suppressed: set<nat>, i: nat) {
    ReadAt(g, remote, entries, suppressed, i) && forall j: nat :: j > i ==> !ReadAt(g, remote, entries, suppressed, j)
  }

  ghost predicate Names(event: GameEvent, c: Counts) {
    c.lastType == Some(TypeOf(event)) && c.lastAt == Some(TimestampOf(event))
  }

  /** The last of the kept lines that is read, if any, is what the counters name as last seen. */
  ghost predicate NamesLast(g: Grammar, remote: seq<RemoteRule>, entries: seq<LogEntry>, suppressed: set<nat>, c: Counts, after: Counts) {
    && ((forall i: nat :: !ReadAt(g, remote, entries, suppressed, i)) ==> after.lastType == c.lastType && after.lastAt == c.lastAt)
    && forall i: nat :: LastRead(g, remote, entries, suppressed, i) ==> Names(RecogniseText(g, remote, entries[i].text).value, after)
  }

  lemma {:induction false} LinesNameLast(g: Grammar, remote: seq<RemoteRule>, noise: map<string, string>, entries: seq<LogEntry>,
                                         suppressed: set<nat>, c: Counts)
    ensures NamesLast(g, remote, entries, suppressed, c,
                      CountAll(c, LineOutcomes(g, remote, noise, Kept(entries, suppressed))))
  {
    if entries != [] {
      var n := |entries| - 1;
      var before := CountAll(c, LineOutcomes(g, remote, noise, Kept(entries[..n], suppressed)));
      LinesNameLast(g, remote, noise, entries[..n], suppressed, c);
      KeptStep(g, remote, noise, entries, suppressed, c);
      NextNamed(g, remote, noise, entries, suppressed, c, before);
    }
  }

  lemma CountNames(g: Grammar, remote: seq<RemoteRule>, noise: map<string, string>, e: LogEntry, before: Counts)
    ensures var after, event := Count(before, OutcomeOf(g, remote, noise, e.text)), RecogniseText(g, remote, e.text);
            if event.Some? then Names(event.value, after)
            else after.lastType == before.lastType && after.lastAt == before.lastAt
  {
  }

  lemma NextNamed(g: Grammar, remote: seq<RemoteRule>, noise: map<string, string>, entries: seq<LogEntry>,
                  suppressed: set<nat>, c: Counts, before: Counts)
    requires entries != [] && NamesLast(g, remote, entries[..|entries| - 1], suppressed, c, before)
    ensures var n := |entries| - 1;
            NamesLast(g, remote, entries, suppressed, c,
                      if n in suppressed then before else Count(before, OutcomeOf(g, remote, noise, entries[n].text)))
  {
    var n := |entries| - 1;
    CountNames(g, remote, noise, entries[n], before);
    if ReadAt(g, remote, entries, suppressed, n) {
      assert LastRead(g, remote, entries, suppressed, n);
      assert forall i: nat :: LastRead(g, remote, entries, suppressed, i) ==> i == n;
    } else {
      StillNamed(g, remote, entries, suppressed, c, before);
    }
  }

  lemma StillNamed(g: Grammar, remote: seq<RemoteRule>, entries: seq<LogEntry>, suppressed: set<nat>, c: Counts, before: Counts)
    requires entries != [] && NamesLast(g, remote, entries[..|entries| - 1], suppressed, c, before)
    requires !ReadAt(g, remote, entries, suppressed, |entries| - 1)
    ensures NamesLast(g, remote, entries, suppressed, c, before)
  {
    var init := entries[..|entries| - 1];
    forall i: nat
      ensures ReadAt(g, remote, entries, suppressed, i) <==> ReadAt(g, remote, init, suppressed, i)
    {
    }
    forall i: nat
      ensures LastRead(g, remote, entries, suppressed, i) <==> LastRead(g, remote, init, suppressed, i)
    {
    }
  }

  /** The counters when a buffer's summaries are in and its lines are not. */
  ghost function AfterSummaries(g: Grammar, rules: seq<BurstRule>, buffer: seq<LogEntry>, c: Counts): Counts {
    CountAll(c, SummaryOutcomes(BufferSummaries(g, rules, buffer)))
  }

  lemma LinesAfterSummaries(g: Grammar, remote: seq<RemoteRule>, rules: seq<BurstRule>, noise: map<string, string>,
                            buffer: seq<LogEntry>, c: Counts)
    ensures var suppressed := BufferSuppressed(g, rules, buffer);
            var middle, after := AfterSummaries(g, rules, buffer, c), CountAll(c, BufferOutcomes(g, remote, rules, noise, buffer));
            Tallies(g, remote, noise, buffer, suppressed, middle, after) && NamesLast(g, remote, buffer, suppressed, middle, after)
  {
    CountAllConcat(c, SummaryOutcomes(BufferSummaries(g, rules, buffer)), LineOutcomes(g, remote, noise, BufferLines(g, rules, buffer)));
    LinesTally(g, remote, noise, buffer, BufferSuppressed(g, rules, buffer), AfterSummaries(g, rules, buffer, c));
    LinesNameLast(g, remote, noise, buffer, BufferSuppressed(g, rules, buffer), AfterSummaries(g, rules, buffer, c));
  }

  /** Every burst counts as recognised, and the last one is named as last seen. */
  ghost predicate CountsBursts(g: Grammar, rules: seq<BurstRule>, buffer: seq<LogEntry>, c: Counts, middle: Counts) {
    var hits := BufferHits(g, rules, buffer);
    if hits == [] then middle == c
    else middle == c.(recognised := c.recognised + |hits|, lastType := Some(TBurstSummary),
                      lastAt := Some(BufferSummaries(g, rules, buffer)[|hits| - 1].content.timestamp))
  }

  /**
   The counters after a buffer: first every burst counts as recognised; then each counter goes up
   by the number of lines of its kind that are in no burst, and the last of these lines that is
   read, if any, is the last event named.
   */
  lemma CountersOfBuffer(g: Grammar, remote: seq<RemoteRule>, rules: seq<BurstRule>, noise: map<string, string>,
                         buffer: seq<LogEntry>, c: Counts)
    ensures var suppressed, after := BufferSuppressed(g, rules, buffer), CountAll(c, BufferOutcomes(g, remote, rules, noise, buffer));
            exists middle :: CountsBursts(g, rules, buffer, c, middle)
              && Tallies(g, remote, noise, buffer, suppressed, middle, after)
              && NamesLast(g, remote, buffer, suppressed, middle, after)
  {
    var ops := BufferSummaries(g, rules, buffer);
    LinesAfterSummaries(g, remote, rules, noise, buffer, c);
    SummariesTally(ops, c);
    if ops != [] {
      LastSummaryType(g, rules, buffer);
    }
    assert CountsBursts(g, rules, buffer, c, AfterSummaries(g, rules, buffer, c));
  }

  lemma LastSummaryType(g: Grammar, rules: seq<BurstRule>, buffer: seq<LogEntry>)
    requires BufferHits(g, rules, buffer) != []
    ensures BufferSummaries(g, rules, buffer)[|BufferHits(g, rules, buffer)| - 1].content.etype == TBurstSummary
  {
    var view, hits := BufferView(g, buffer), BufferHits(g, rules, buffer);
    var last := hits[|hits| - 1];
    assert last in hits && view[last.startIndex] in view;
    assert BufferSummaries(g, rules, buffer)[|hits| - 1] == SummaryOp(g, buffer, view, last);
  }
}
