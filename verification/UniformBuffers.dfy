/**
 Buffers that are one burst from end to end: what a drain makes of them, and what becomes of the
 burst when it grows between a crash and the restart.
 */
module UniformBuffers {
  import opened Prelude
  import opened Keys
  import opened Grammar
  import opened Bursts
  import opened EventTable
  import opened Ingest
  import opened IngestLaws
  import S = Storage

  /** Rule `r` takes every line both as anchor and as member, and no earlier rule takes one as anchor. */
  ghost predicate UniformBuffer(g: Grammar, rules: seq<BurstRule>, r: nat, buffer: seq<LogEntry>) {
    r < |rules| && forall e :: e in buffer ==> UniformLine(g, rules, r, e.text)
  }

  ghost predicate UniformLine(g: Grammar, rules: seq<BurstRule>, r: nat, text: string)
    requires r < |rules|
  {
    && g.parse(text).Some?
    && var line := g.parse(text).value;
       && LineMatches(line, rules[r].anchor, rules[r].tags) && LineMatches(line, rules[r].member, rules[r].tags)
       && forall q :: 0 <= q < r ==> !LineMatches(line, rules[q].anchor, rules[q].tags)
  }

  lemma UniformView(g: Grammar, rules: seq<BurstRule>, r: nat, buffer: seq<LogEntry>)
    requires UniformBuffer(g, rules, r, buffer)
    ensures |BufferView(g, buffer)| == |buffer| && forall i :: 0 <= i < |buffer| ==> BufferView(g, buffer)[i].0 == i
    ensures Uniform(LinesOf(BufferView(g, buffer)), rules[r])
    ensures forall q :: 0 <= q < r ==> Silent(LinesOf(BufferView(g, buffer)), rules[q])
  {
    var parsed := ParsedLines(g, buffer);
    forall i | 0 <= i < |buffer|
      ensures parsed[i].Some? && UniformLine(g, rules, r, buffer[i].text)
    {
      assert buffer[i] in buffer;
    }
    AllParsed(parsed);
  }

  /** A long enough uniform buffer is one burst: one summary, keyed at the first line, and no line of its own. */
  lemma UniformBufferOps(g: Grammar, remote: seq<RemoteRule>, rules: seq<BurstRule>, r: nat, buffer: seq<LogEntry>)
    requires UniformBuffer(g, rules, r, buffer) && buffer != [] && |buffer| >= rules[r].minBurstSize
    ensures BufferHits(g, rules, buffer) == [HitOf(rules[r], Range(0, |buffer|))]
    ensures AnchorAt(g, rules, buffer, 0) == 0
    ensures BufferSummaries(g, rules, buffer)[0].key
            == BurstKey(buffer[0].source, buffer[0].offset, buffer[0].text, rules[r].id, |buffer|)
    ensures BufferLines(g, rules, buffer) == []
    ensures BufferOps(g, remote, rules, buffer) == [BufferSummaries(g, rules, buffer)[0]]
  {
    var view := BufferView(g, buffer);
    UniformView(g, rules, r, buffer);
    UniformBurst(LinesOf(view), rules, r);
    SummaryKeyAt(g, rules, buffer, 0);
    forall i | 0 <= i < |buffer|
      ensures i in BufferSuppressed(g, rules, buffer)
    {
      MemberSuppressed(view, HitOf(rules[r], Range(0, |buffer|)), i);
    }
    NothingKept(buffer, BufferSuppressed(g, rules, buffer));
  }

  lemma MemberSuppressed(view: seq<(nat, LogLine)>, hit: BurstHit, i: nat)
    requires i < |view| && view[i].0 == i && HitFits(|view|, hit) && hit.memberIndices == Range(0, |view|)
    ensures i in Suppressed(view, [hit])
  {
    SuppressedMembers(view, [hit], i);
    assert hit.memberIndices[i] == i;
    assert i in Positions(view, hit) && hit in [hit];
  }

  lemma {:induction false} NothingKept(buffer: seq<LogEntry>, suppressed: set<nat>)
    requires forall i :: 0 <= i < |buffer| ==> i in suppressed
    ensures Kept(buffer, suppressed) == []
  {
    if buffer != [] {
      NothingKept(buffer[..|buffer| - 1], suppressed);
    }
  }

  /**
   The documentation promises that a crash mid-flush re-emits the same summary. When the burst
   grew on disk before the restart, the second drain emits a summary under another key and the
   first one stays: the store ends with both, while a crash-free drain writes only the longer.
   */
  lemma {:induction false} GrowthDuplicatesSummary(g: Grammar, remote: seq<RemoteRule>, rules: seq<BurstRule>, r: nat,
                                                   buffer: seq<LogEntry>, more: seq<LogEntry>, db: S.Db)
    requires Sourced(buffer + more)
    requires UniformBuffer(g, rules, r, buffer + more) && buffer != [] && more != [] && |buffer| >= rules[r].minBurstSize
    ensures var first := buffer[0];
            var short := BurstKey(first.source, first.offset, first.text, rules[r].id, |buffer|);
            var long := BurstKey(first.source, first.offset, first.text, rules[r].id, |buffer + more|);
            var clean := Rows(ProcessedDb(g, remote, rules, db, buffer + more));
            var replayed := Rows(ProcessedDb(g, remote, rules, Crashed(g, remote, rules, db, buffer, 1), buffer + more));
            && short in replayed && long in replayed && long in clean
            && (short in clean <==> short in Rows(db))
  {
    var all := buffer + more;
    var early, ops := Early(g, remote, rules, buffer, 1), BufferOps(g, remote, rules, all);
    GrownOps(g, remote, rules, r, buffer, more);
    CrashedRows(g, remote, rules, db, buffer, 1, all);
    OneEarlyOneLate(Rows(db), early[0], ops[0]);
    assert early == [early[0]] && ops == [ops[0]];
  }

  /** Before the growth one insertion, after it one other. */
  lemma GrownOps(g: Grammar, remote: seq<RemoteRule>, rules: seq<BurstRule>, r: nat, buffer: seq<LogEntry>, more: seq<LogEntry>)
    requires Sourced(buffer + more) && UniformBuffer(g, rules, r, buffer + more)
    requires buffer != [] && more != [] && |buffer| >= rules[r].minBurstSize
    ensures var first, all := buffer[0], buffer + more;
            var early, ops := Early(g, remote, rules, buffer, 1), BufferOps(g, remote, rules, all);
            && |early| == 1 && early[0].key == BurstKey(first.source, first.offset, first.text, rules[r].id, |buffer|)
            && |ops| == 1 && ops[0].key == BurstKey(first.source, first.offset, first.text, rules[r].id, |all|)
            && early[0].key != ops[0].key
  {
    var first, all := buffer[0], buffer + more;
    assert forall e :: e in buffer ==> e in all;
    assert all[0] == first && first in all;
    UniformBufferOps(g, remote, rules, r, buffer);
    UniformBufferOps(g, remote, rules, r, all);
    BurstKeyInjective(first.source, first.offset, first.text, rules[r].id, |buffer|,
                      first.source, first.offset, first.text, rules[r].id, |all|);
  }

  lemma OneEarlyOneLate(m: map<Key, Content>, a: Op, b: Op)
    requires a.key != b.key
    ensures var replayed, clean := PutAll(PutAll(m, [a]), [b]), PutAll(m, [b]);
            a.key in replayed && b.key in replayed && b.key in clean && (a.key in clean <==> a.key in m)
  {
    KeysPut(m, [a], a.key);
    KeysPut(PutAll(m, [a]), [b], a.key);
    KeysPut(PutAll(m, [a]), [b], b.key);
    KeysPut(m, [b], a.key);
    KeysPut(m, [b], b.key);
    assert a in [a] && b in [b];
  }
}
