/**
 Whole runs of the tailer: the file grows, drains happen on any schedule, the process restarts or
 dies in the middle of a drain. Every claim is about all runs.
 */
module TailRuns {
  import opened Prelude
  import opened Keys
  import opened Grammar
  import opened Bursts
  import opened EventTable
  import opened Ingest
  import opened IngestLaws
  import opened Tail
  import PB = ProcessBuffer
  import S = Storage

  datatype Config = Config(g: Grammar, remote: seq<RemoteRule>, rules: seq<BurstRule>, source: string, path: string)

  /** `drained` lists the buffers of completed drains, `emitted` the bursts this process reported. */
  datatype State = State(
    content: string,
    offset: nat,
    db: S.Db,
    drained: seq<seq<LogEntry>>,
    linesProcessed: nat,
    counts: PB.Counts,
    emitted: seq<BurstHit>)

  /**
   A drain looks at the file length when `visible` bytes are there and then reads to the end. A
   crash happens after `done` of the drain's insertions, leaving the unknown samples in any state.
   */
  datatype Step =
    | Append(bytes: string)
    | Drain(visible: nat)
    | CrashMidDrain(visible: nat, done: nat, unknowns: S.Unknowns)
    | Restart

  const NO_COUNTS := PB.Counts(0, 0, 0, 0, None, None)

  function Init(db: S.Db): State {
    State("", 0, db, [], 0, NO_COUNTS, [])
  }

  /** The file as seen at open: an append-only file never shows fewer bytes than were consumed. */
  function AtOpen(s: State, visible: nat): (seen: string)
    ensures seen <= s.content
  {
    if visible > |s.content| then s.content
    else if visible < s.offset <= |s.content| then s.content[..s.offset]
    else s.content[..visible]
  }

  function PlanOf(c: Config, s: State, visible: nat): Plan {
    DrainPlan(c.source, Some(AtOpen(s, visible)), s.content, s.offset)
  }

  function AfterDrain(c: Config, s: State, plan: Plan): State {
    var processed := plan.saves && plan.buffer != [];
    s.(offset := plan.offset,
       db := DrainedDb(c.g, c.remote, c.rules, s.db, c.path, plan),
       drained := if plan.saves then s.drained + [plan.buffer] else s.drained,
       linesProcessed := s.linesProcessed + |plan.buffer|,
       counts := if processed then PB.CountAll(s.counts, PB.BufferOutcomes(c.g, c.remote, c.rules, s.db.noise, plan.buffer)) else s.counts,
       emitted := if processed then s.emitted + BufferHits(c.g, c.rules, plan.buffer) else s.emitted)
  }

  function Reopened(c: Config, s: State): State {
    s.(offset := S.TailCursor(s.db, c.path), linesProcessed := 0, counts := NO_COUNTS, emitted := [])
  }

  function Next(c: Config, s: State, step: Step): State {
    match step
    case Append(bytes) => s.(content := s.content + bytes)
    case Drain(visible) => AfterDrain(c, s, PlanOf(c, s, visible))
    case CrashMidDrain(visible, done, unknowns) =>
      var ops := BufferOps(c.g, c.remote, c.rules, PlanOf(c, s, visible).buffer);
      Reopened(c, s.(db := s.db.(events := InsertAll(s.db.events, S.Prefix(ops, done)), unknowns := unknowns)))
    case Restart => Reopened(c, s)
  }

  function Run(c: Config, db: S.Db, steps: seq<Step>): State {
    if steps == [] then Init(db) else Next(c, Run(c, db, steps[..|steps| - 1]), steps[|steps| - 1])
  }

  // ----- the three invariants -----

  /** What was buffered so far and what is still to be read make up the file. */
  ghost predicate Reads(c: Config, s: State) {
    && s.offset == S.TailCursor(s.db, c.path)
    && AtBoundary(s.content, s.offset)
    && Split(c.source, Flatten(s.drained), s.content, s.offset)
  }

  ghost predicate BufferKept(c: Config, rows: map<Key, Content>, buffer: seq<LogEntry>) {
    forall i :: 0 <= i < |buffer| && RecogniseText(c.g, c.remote, buffer[i].text).Some?
                ==> Represented(c.g, c.rules, rows, buffer, i)
  }

  ghost predicate AllKept(c: Config, s: State) {
    forall d :: 0 <= d < |s.drained| ==> BufferKept(c, Rows(s.db), s.drained[d])
  }

  ghost predicate Conserves(s: State) {
    s.linesProcessed == PB.Total(s.counts) + PB.Hidden(s.emitted)
  }

  /** `front` followed by the lines past `offset` is the whole text; this survives growth. */
  ghost predicate Split(source: string, front: seq<LogEntry>, text: string, offset: nat)
    requires offset <= |text|
  {
    && front + Lines(source, text, offset) == Lines(source, text, 0)
    && End(text, offset) == End(text, 0)
  }

  lemma SplitGrows(source: string, front: seq<LogEntry>, text: string, more: string, offset: nat)
    requires text <= more && offset <= |text| && Split(source, front, text, offset)
    ensures Split(source, front, more, offset)
  {
    LinesResume(source, text, more, offset);
    LinesResume(source, text, more, 0);
    Assoc(front, Lines(source, text, offset), Lines(source, more, End(text, 0)));
  }

  lemma SplitAdvances(source: string, front: seq<LogEntry>, text: string, offset: nat)
    requires offset <= |text| && Split(source, front, text, offset)
    ensures Split(source, front + Lines(source, text, offset), text, End(text, offset))
  {
    LinesResume(source, text, text, offset);
    LinesResume(source, text, text, 0);
    Assoc(front, Lines(source, text, offset), Lines(source, text, End(text, offset)));
  }

  lemma Assoc(a: seq<LogEntry>, b: seq<LogEntry>, d: seq<LogEntry>)
    ensures (a + b) + d == a + (b + d)
  {
  }

  lemma ReadsAppend(c: Config, s: State, bytes: string)
    requires Reads(c, s)
    ensures Reads(c, Next(c, s, Append(bytes)))
  {
    SplitGrows(c.source, Flatten(s.drained), s.content, s.content + bytes, s.offset);
    assert s.offset > 0 ==> (s.content + bytes)[s.offset - 1] == s.content[s.offset - 1];
  }

  /** Reading never starts before what was consumed. */
  lemma PlanContinues(c: Config, s: State, visible: nat)
    requires s.offset <= |s.content|
    ensures var plan := PlanOf(c, s, visible);
            if plan.saves then plan.offset == End(s.content, s.offset) && plan.buffer == Lines(c.source, s.content, s.offset)
            else plan.offset == s.offset
  {
  }

  lemma {:induction false} FlattenSnoc(drained: seq<seq<LogEntry>>, buffer: seq<LogEntry>)
    ensures Flatten(drained + [buffer]) == Flatten(drained) + buffer
  {
    var all := drained + [buffer];
    assert all[..|all| - 1] == drained;
  }

  lemma ReadsAdvance(c: Config, s: State, s': State)
    requires Reads(c, s) && s'.content == s.content
    requires s'.offset == S.TailCursor(s'.db, c.path) == End(s.content, s.offset)
    requires s'.drained == s.drained + [Lines(c.source, s.content, s.offset)]
    ensures Reads(c, s')
  {
    EndIsLastBoundary(s.content, s.offset);
    SplitAdvances(c.source, Flatten(s.drained), s.content, s.offset);
    FlattenSnoc(s.drained, Lines(c.source, s.content, s.offset));
  }

  lemma {:induction false} ReadsDrain(c: Config, s: State, visible: nat)
    requires Reads(c, s)
    ensures Reads(c, Next(c, s, Drain(visible)))
  {
    PlanContinues(c, s, visible);
    if PlanOf(c, s, visible).saves {
      ReadsAdvance(c, s, Next(c, s, Drain(visible)));
    }
  }

  lemma {:induction false} ReadsStep(c: Config, s: State, step: Step)
    requires Reads(c, s)
    ensures Reads(c, Next(c, s, step))
  {
    match step
    case Append(bytes) => ReadsAppend(c, s, bytes);
    case Drain(visible) => ReadsDrain(c, s, visible);
    case CrashMidDrain(_, _, _) =>
    case Restart =>
  }

  lemma KeptGrows(c: Config, before: map<Key, Content>, after: map<Key, Content>, buffer: seq<LogEntry>)
    requires before.Keys <= after.Keys && BufferKept(c, before, buffer)
    ensures BufferKept(c, after, buffer)
  {
    forall i | 0 <= i < |buffer| && RecogniseText(c.g, c.remote, buffer[i].text).Some?
      ensures Represented(c.g, c.rules, after, buffer, i)
    {
      RepresentedGrows(c.g, c.rules, before, after, buffer, i);
    }
  }

  lemma {:induction false} KeptStep(c: Config, s: State, step: Step)
    requires AllKept(c, s)
    ensures AllKept(c, Next(c, s, step))
  {
    var s' := Next(c, s, step);
    RowsGrow(c, s, step);
    forall d | 0 <= d < |s'.drained|
      ensures BufferKept(c, Rows(s'.db), s'.drained[d])
    {
      if d < |s.drained| {
        KeptGrows(c, Rows(s.db), Rows(s'.db), s.drained[d]);
      } else {
        var buffer := s'.drained[d];
        forall i | 0 <= i < |buffer| && RecogniseText(c.g, c.remote, buffer[i].text).Some?
          ensures Represented(c.g, c.rules, Rows(s'.db), buffer, i)
        {
          BufferLineRepresented(c.g, c.remote, c.rules, s.db, buffer, i);
        }
      }
    }
  }

  /** No step of a run removes a row. */
  lemma {:induction false} RowsGrow(c: Config, s: State, step: Step)
    ensures Rows(s.db).Keys <= Rows(Next(c, s, step).db).Keys
  {
    match step
    case Append(_) =>
    case Restart =>
    case Drain(visible) =>
      var plan := PlanOf(c, s, visible);
      ProcessedEvents(c.g, c.remote, c.rules, s.db, plan.buffer);
      InsertAllGrows(s.db.events, BufferOps(c.g, c.remote, c.rules, plan.buffer));
    case CrashMidDrain(visible, done, _) =>
      InsertAllGrows(s.db.events, S.Prefix(BufferOps(c.g, c.remote, c.rules, PlanOf(c, s, visible).buffer), done));
  }

  lemma {:induction false} ConservesStep(c: Config, s: State, step: Step)
    requires Conserves(s)
    ensures Conserves(Next(c, s, step))
  {
    if step.Drain? {
      var plan := PlanOf(c, s, step.visible);
      PB.CountersConserveLines(c.g, c.remote, c.rules, s.db.noise, plan.buffer, s.counts);
      HiddenConcat(s.emitted, BufferHits(c.g, c.rules, plan.buffer));
    }
  }

  lemma {:induction false} HiddenConcat(a: seq<BurstHit>, b: seq<BurstHit>)
    ensures PB.Hidden(a + b) == PB.Hidden(a) + PB.Hidden(b)
  {
    if b == [] {
      assert a + b == a;
    } else {
      assert (a + b)[..|a + b| - 1] == a + b[..|b| - 1];
      HiddenConcat(a, b[..|b| - 1]);
    }
  }

  lemma {:induction false} RunInvariant(c: Config, db: S.Db, steps: seq<Step>)
    requires S.TailCursor(db, c.path) == 0
    ensures Reads(c, Run(c, db, steps)) && AllKept(c, Run(c, db, steps)) && Conserves(Run(c, db, steps))
  {
    if steps == [] {
      assert Lines(c.source, "", 0) == [];
    } else {
      var s, step := Run(c, db, steps[..|steps| - 1]), steps[|steps| - 1];
      RunInvariant(c, db, steps[..|steps| - 1]);
      ReadsStep(c, s, step);
      KeptStep(c, s, step);
      ConservesStep(c, s, step);
    }
  }

  // ----- the claims -----

  /**
   Whatever the schedule of growth, drains, restarts and crashes: the saved offset is the start of
   the file or just past a newline, and the buffers of the completed drains, put together, are the
   file's complete lines up to it. Once a drain has seen the whole file they are all of them.
   */
  lemma {:induction false} ScheduleIndependence(c: Config, db: S.Db, steps: seq<Step>, visible: nat)
    requires S.TailCursor(db, c.path) == 0
    ensures var s := Run(c, db, steps);
            && AtBoundary(s.content, s.offset) && s.offset == S.TailCursor(s.db, c.path)
            && Flatten(s.drained) + Lines(c.source, s.content, s.offset) == Lines(c.source, s.content, 0)
    ensures var s := Run(c, db, steps + [Drain(visible)]);
            visible >= |s.content| ==> Flatten(s.drained) == Lines(c.source, s.content, 0)
  {
    RunInvariant(c, db, steps);
    var longer := steps + [Drain(visible)];
    assert longer[..|longer| - 1] == steps;
    RunInvariant(c, db, longer);
    var s, s' := Run(c, db, steps), Run(c, db, longer);
    if visible >= |s'.content| {
      EndIsLastBoundary(s.content, s.offset);
      assert Lines(c.source, s'.content, s'.offset) == [];
      assert Flatten(s'.drained) + [] == Flatten(s'.drained);
    }
  }

  /**
   In every run, a complete line read by a finished drain that classifies has its own row, or is a
   member of a burst whose summary row is stored.
   */
  lemma {:induction false} NoRecognisedLineVanishes(c: Config, db: S.Db, steps: seq<Step>)
    requires S.TailCursor(db, c.path) == 0
    ensures var s := Run(c, db, steps);
            forall d, i :: 0 <= d < |s.drained| && 0 <= i < |s.drained[d]|
                           && RecogniseText(c.g, c.remote, s.drained[d][i].text).Some?
                           ==> Represented(c.g, c.rules, Rows(s.db), s.drained[d], i)
  {
    RunInvariant(c, db, steps);
    var s := Run(c, db, steps);
    forall d | 0 <= d < |s.drained|
      ensures BufferKept(c, Rows(s.db), s.drained[d])
    {
    }
  }

  /** Lines processed are exactly the lines counted plus the lines hidden behind burst summaries. */
  lemma {:induction false} CountersConserve(c: Config, db: S.Db, steps: seq<Step>)
    requires S.TailCursor(db, c.path) == 0
    ensures var s := Run(c, db, steps);
            s.linesProcessed == s.counts.skipped + s.counts.noise + s.counts.structuralOnly + s.counts.recognised
                                + PB.Hidden(s.emitted)
  {
    RunInvariant(c, db, steps);
  }

  // ----- restarts and crashes -----

  predicate Restarts(step: Step) {
    step.Restart? || step.CrashMidDrain?
  }

  /** The counter of lines is the number of lines in the buffers drained after `begun`. */
  ghost predicate CountsSince(s: State, begun: seq<seq<LogEntry>>) {
    begun <= s.drained && s.linesProcessed == |Flatten(s.drained[|begun|..])|
  }

  /** The counter of lines speaks of the lines drained since the program last started, and of those only. */
  lemma {:induction false} LinesSinceRestart(c: Config, db: S.Db, steps: seq<Step>, k: nat)
    requires k <= |steps| && (k == 0 || Restarts(steps[k - 1])) && forall i :: k <= i < |steps| ==> !Restarts(steps[i])
    ensures CountsSince(Run(c, db, steps), Run(c, db, steps[..k]).drained)
  {
    if k == |steps| {
      assert steps[..k] == steps;
      StartsAtZero(c, db, steps);
    } else {
      var init := steps[..|steps| - 1];
      assert init[..k] == steps[..k];
      LinesSinceRestart(c, db, init, k);
      LinesOfStep(c, Run(c, db, init), steps[|steps| - 1], Run(c, db, steps[..k]).drained);
    }
  }

  lemma StartsAtZero(c: Config, db: S.Db, steps: seq<Step>)
    requires steps == [] || Restarts(steps[|steps| - 1])
    ensures CountsSince(Run(c, db, steps), Run(c, db, steps).drained)
  {
    var s := Run(c, db, steps);
    assert s.linesProcessed == 0;
    assert s.drained[|s.drained|..] == [];
  }

  lemma LinesOfStep(c: Config, s: State, step: Step, begun: seq<seq<LogEntry>>)
    requires !Restarts(step) && CountsSince(s, begun)
    ensures CountsSince(Next(c, s, step), begun)
  {
    if step.Drain? && PlanOf(c, s, step.visible).saves {
      var buffer := PlanOf(c, s, step.visible).buffer;
      assert (s.drained + [buffer])[|begun|..] == s.drained[|begun|..] + [buffer];
      FlattenSnoc(s.drained[|begun|..], buffer);
    }
  }

  /** All bytes appended, in order. */
  function Appended(steps: seq<Step>): string {
    if steps == [] then ""
    else
      var before, last := Appended(steps[..|steps| - 1]), steps[|steps| - 1];
      if last.Append? then before + last.bytes else before
  }

  /** No drain, crash or restart touches the file. */
  lemma {:induction false} FileIsWhatWasAppended(c: Config, db: S.Db, steps: seq<Step>)
    ensures Run(c, db, steps).content == Appended(steps)
  {
    if steps != [] {
      FileIsWhatWasAppended(c, db, steps[..|steps| - 1]);
    }
  }

  lemma {:induction false} NoLinesNoOps(g: Grammar, remote: seq<RemoteRule>, rules: seq<BurstRule>)
    ensures BufferOps(g, remote, rules, []) == []
  {
    var none: seq<LogEntry> := [];
    var hits := BufferHits(g, rules, none);
    assert BufferView(g, none) == [];
    assert forall i :: 0 <= i < |hits| ==> hits[i] in hits;
  }

  /**
   A crash in the middle of a drain: the store has gained the keys of the first `done` insertions
   of the buffer that the drain would have finished, the saved offset is as before, and the next
   start reads on from it; a crash behind the last insertion has stored the whole buffer.
   */
  lemma CrashLeavesPrefix(c: Config, s: State, visible: nat, done: nat, unknowns: S.Unknowns)
    ensures var crashed, finished := Next(c, s, CrashMidDrain(visible, done, unknowns)), Next(c, s, Drain(visible));
            && crashed.content == s.content && crashed.drained == s.drained
            && crashed.db.tailCursor == s.db.tailCursor && crashed.offset == S.TailCursor(s.db, c.path)
            && (finished.drained == s.drained ==> crashed.db.events == s.db.events)
            && (finished.drained != s.drained ==>
                  && |finished.drained| == |s.drained| + 1
                  && var ops := BufferOps(c.g, c.remote, c.rules, finished.drained[|s.drained|]);
                     && (forall key :: key in Rows(crashed.db) <==> key in Rows(s.db) || Inserts(S.Prefix(ops, done), key))
                     && (done >= |ops| ==> crashed.db.events == finished.db.events))
  {
    var plan := PlanOf(c, s, visible);
    NoLinesNoOps(c.g, c.remote, c.rules);
    EarlyKeys(c, s.db, plan.buffer, done);
  }

  lemma EarlyKeys(c: Config, db: S.Db, buffer: seq<LogEntry>, done: nat)
    ensures var ops := BufferOps(c.g, c.remote, c.rules, buffer);
            var early := InsertAll(db.events, S.Prefix(ops, done));
            && (forall key :: key in Contents(early.rows) <==> key in Rows(db) || Inserts(S.Prefix(ops, done), key))
            && (done >= |ops| ==> early == ProcessedDb(c.g, c.remote, c.rules, db, buffer).events)
  {
    var early := S.Prefix(BufferOps(c.g, c.remote, c.rules, buffer), done);
    InsertAllIsPutAll(db.events, early);
    forall key
      ensures key in PutAll(Rows(db), early) <==> key in Rows(db) || Inserts(early, key)
    {
      KeysPut(Rows(db), early, key);
    }
    ProcessedEvents(c.g, c.remote, c.rules, db, buffer);
  }

  // ----- runs and logs -----

  /** In every run the buffers drained so far, put together, are lines of one source with increasing offsets. */
  lemma BuffersWellFormed(c: Config, db: S.Db, steps: seq<Step>)
    requires S.TailCursor(db, c.path) == 0 && ColonFree(c.source)
    ensures Sourced(Flatten(Run(c, db, steps).drained)) && OffsetsIncrease(Flatten(Run(c, db, steps).drained))
  {
    var s := Run(c, db, steps);
    RunInvariant(c, db, steps);
    LinesWellFormed(c.source, s.content, 0);
    PartsWellFormed(Flatten(s.drained), Lines(c.source, s.content, s.offset));
  }

  predicate CrashFree(steps: seq<Step>) {
    forall i :: 0 <= i < |steps| ==> !steps[i].CrashMidDrain?
  }

  lemma NoOpsForNothing(g: Grammar, remote: seq<RemoteRule>, rules: seq<BurstRule>)
    ensures BufferOps(g, remote, rules, []) == []
  {
    NothingInEmptyWindow(rules);
    assert LinesOf(BufferView(g, [])) == [];
    assert BufferSummaries(g, rules, []) == [];
  }

  lemma {:induction false} CrashFreeEvents(c: Config, db: S.Db, steps: seq<Step>)
    requires CrashFree(steps)
    ensures Run(c, db, steps).db.events == InsertAll(db.events, LogOps(c.g, c.remote, c.rules, Run(c, db, steps).drained))
  {
    if steps != [] {
      var init, step := steps[..|steps| - 1], steps[|steps| - 1];
      CrashFreeEvents(c, db, init);
      if step.Drain? {
        var s := Run(c, db, init);
        DrainEvents(c, db, s, PlanOf(c, s, step.visible));
      }
    }
  }

  lemma DrainEvents(c: Config, db: S.Db, s: State, plan: Plan)
    requires s.db.events == InsertAll(db.events, LogOps(c.g, c.remote, c.rules, s.drained))
    ensures var s' := AfterDrain(c, s, plan);
            s'.db.events == InsertAll(db.events, LogOps(c.g, c.remote, c.rules, s'.drained))
  {
    if plan.saves {
      var drained := s.drained + [plan.buffer];
      assert drained[..|drained| - 1] == s.drained;
      InsertAllConcat(db.events, LogOps(c.g, c.remote, c.rules, s.drained), BufferOps(c.g, c.remote, c.rules, plan.buffer));
      if plan.buffer == [] {
        NoOpsForNothing(c.g, c.remote, c.rules);
      } else {
        ProcessedEvents(c.g, c.remote, c.rules, s.db, plan.buffer);
      }
    }
  }

  /** A run without crashes leaves the events of processing its buffers one after the other. */
  lemma CrashFreeRunIsItsLog(c: Config, db: S.Db, steps: seq<Step>)
    requires CrashFree(steps)
    ensures Run(c, db, steps).db.events == ProcessedLog(c.g, c.remote, c.rules, db, Run(c, db, steps).drained).events
  {
    CrashFreeEvents(c, db, steps);
    ProcessedLogEvents(c.g, c.remote, c.rules, db, Run(c, db, steps).drained);
  }

  /** What is read does not depend on the rules. */
  lemma {:induction false} SameReading(c: Config, c': Config, db: S.Db, steps: seq<Step>)
    requires CrashFree(steps) && S.TailCursor(db, c.path) == 0 && c' == c.(remote := c'.remote)
    ensures var s, s' := Run(c, db, steps), Run(c', db, steps);
            s.content == s'.content && s.offset == s'.offset && s.drained == s'.drained
  {
    if steps != [] {
      SameReading(c, c', db, steps[..|steps| - 1]);
      RunInvariant(c, db, steps[..|steps| - 1]);
      RunInvariant(c', db, steps[..|steps| - 1]);
    }
  }

  /**
   Remote rules only add, over runs: whatever the schedule, without crashes every row stored with
   no remote rules is stored, unchanged, with any remote rules.
   */
  lemma {:induction false} RemoteRulesOnlyAddOverRuns(c: Config, db: S.Db, steps: seq<Step>)
    requires CrashFree(steps) && S.TailCursor(db, c.path) == 0 && ColonFree(c.source)
    ensures var without, with := Rows(Run(c.(remote := []), db, steps).db), Rows(Run(c, db, steps).db);
            forall k :: k in without ==> k in with && with[k] == without[k]
  {
    var plain := c.(remote := []);
    var drained := Run(c, db, steps).drained;
    SameReading(c, plain, db, steps);
    BuffersWellFormed(c, db, steps);
    CrashFreeRunIsItsLog(c, db, steps);
    CrashFreeRunIsItsLog(plain, db, steps);
    assert Rows(Run(c, db, steps).db) == Rows(ProcessedLog(c.g, c.remote, c.rules, db, drained));
    assert Rows(Run(plain, db, steps).db) == Rows(ProcessedLog(c.g, [], c.rules, db, drained));
    RemoteRulesOnlyAddRows(c.g, c.remote, c.rules, db, drained);
  }
}
