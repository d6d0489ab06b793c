/**
 The upload protocol under every interleaving: writers insert, delete and reclassify rows, any
 number of workers overlap after a respawn (aborting is not waited for), answers get lost, the
 token is rejected, the process crashes. Each store call is one atomic step.
 */
module SyncRuns {
  import opened Prelude
  import opened Keys
  import opened Grammar
  import opened EventTable
  import opened Sync
  import S = Storage

  /**
   Where a worker is inside one drain. It may pass its check of the token before another worker's
   is rejected, and only then read the cursor. `changed` are the ids rewritten since it read its batch.
   */
  datatype Worker =
    | Idle
    | Checked
    | HasCursor(cursor: nat)
    | Posting(cursor: nat, batch: seq<Row>, changed: set<nat>)
    | Acked(highest: nat)

  /**
   `answered` holds the rows, as they were when read, of every batch the server answered 2xx;
   `dirty` the ids rewritten since they were last read for such a batch. That the token was lost is
   kept in memory only: a restart forgets it, and the account check made on request and at start
   (`AccountAnswer`) sets it either way.
   */
  datatype State = State(
    table: Table,
    cursor: nat,
    workers: map<nat, Worker>,
    authLost: bool,
    answered: set<Row>,
    dirty: set<nat>)

  datatype Step =
    | InsertRow(key: Key, event: GameEvent, raw: string, source: string, offset: nat)
    | DeleteRow(id: nat)
    | RewriteRow(id: nat, event: GameEvent)
    | Spawn(w: nat)
    | Abort(w: nat)
    | CheckAuth(w: nat)
    | ReadCursor(w: nat)
    | ReadBatch(w: nat, batchSize: nat)
    | Respond(w: nat, response: Response)
    | WriteCursor(w: nat)
    | Crash
    | RePair
    | AccountAnswer(valid: bool)

  const INITIAL := State(EMPTY_TABLE, 0, map[], false, {}, {})

  function RowSet(batch: seq<Row>): set<Row> {
    set r | r in batch
  }

  function Touch(worker: Worker, ids: set<nat>): Worker {
    if worker.Posting? then worker.(changed := worker.changed + ids) else worker
  }

  /** A step that is not enabled does nothing. */
  function Next(s: State, step: Step): State {
    match step
    case InsertRow(key, event, raw, source, offset) =>
      s.(table := Insert(s.table, Op(key, Serialised(event, raw, source, offset))))
    case DeleteRow(id) => s.(table := Delete(s.table, {id}))
    case RewriteRow(id, event) =>
      if id in IdsOf(s.table.rows) then
        s.(table := S.Reclassify(s.table, id, event),
           workers := map w | w in s.workers :: Touch(s.workers[w], {id}),
           dirty := s.dirty + {id})
      else s
    case Spawn(w) => if w in s.workers then s else s.(workers := s.workers[w := Idle])
    case Abort(w) => s.(workers := s.workers - {w})
    case CheckAuth(w) =>
      if w in s.workers && s.workers[w].Idle? && !s.authLost then s.(workers := s.workers[w := Checked]) else s
    case ReadCursor(w) =>
      if w in s.workers && s.workers[w].Checked? then s.(workers := s.workers[w := HasCursor(s.cursor)]) else s
    case ReadBatch(w, batchSize) =>
      if w in s.workers && s.workers[w].HasCursor? then
        var cursor := s.workers[w].cursor;
        var batch := Batch(s.table.rows, cursor, batchSize);
        s.(workers := s.workers[w := if batch == [] then Idle else Posting(cursor, batch, {})])
      else s
    case Respond(w, response) =>
      if w in s.workers && s.workers[w].Posting? then
        var batch := s.workers[w].batch;
        match response
        case Accepted(parsed) =>
          s.(answered := s.answered + RowSet(batch),
             dirty := s.dirty - (IdsOf(batch) - s.workers[w].changed),
             workers := s.workers[w := if parsed then Acked(HighestId(batch)) else Idle])
        case AuthRejected => s.(authLost := true, workers := s.workers[w := Idle])
        case Failed(_) => s.(workers := s.workers[w := Idle])
      else s
    case WriteCursor(w) =>
      if w in s.workers && s.workers[w].Acked? then
        s.(cursor := s.workers[w].highest, workers := s.workers[w := Idle])
      else s
    case Crash => s.(workers := map[], authLost := false)
    case RePair => s.(authLost := false)
    case AccountAnswer(valid) => s.(authLost := !valid)
  }

  function Run(s: State, steps: seq<Step>): State
    decreases |steps|
  {
    if steps == [] then s else Run(Next(s, steps[0]), steps[1..])
  }

  lemma {:induction false} RunConcat(s: State, a: seq<Step>, b: seq<Step>)
    ensures Run(s, a + b) == Run(Run(s, a), b)
    decreases |a|
  {
    if a == [] {
      assert a + b == b;
    } else {
      assert (a + b)[0] == a[0] && (a + b)[1..] == a[1..] + b;
      RunConcat(Next(s, a[0]), a[1..], b);
    }
  }

  // ----- the invariant -----

  /** `sent` is row `r` as read at some earlier time; only a rewrite can tell them apart. */
  predicate IsVersionOf(sent: Row, r: Row, rewritten: set<nat>) {
    && sent.id == r.id && sent.key == r.key
    && sent.content.raw == r.content.raw
    && sent.content.source == r.content.source && sent.content.offset == r.content.offset
    && (r.id !in rewritten ==> sent == r)
  }

  predicate WasSent(rows: set<Row>, r: Row, rewritten: set<nat>) {
    exists e :: e in rows && IsVersionOf(e, r, rewritten)
  }

  /** Every row still stored with an id up to `cursor` was answered. */
  ghost predicate Covered(s: State, cursor: nat) {
    cursor < s.table.nextId
    && forall r :: r in s.table.rows && r.id <= cursor ==> WasSent(s.answered, r, s.dirty)
  }

  /** The batch holds every row still stored between its cursor and its highest id. */
  ghost predicate Complete(s: State, cursor: nat, batch: seq<Row>, changed: set<nat>) {
    && HighestId(batch) < s.table.nextId
    && (forall e :: e in batch ==> cursor < e.id <= HighestId(batch))
    && (forall r :: r in s.table.rows && cursor < r.id <= HighestId(batch) ==> WasSent(RowSet(batch), r, changed))
  }

  /** A row rewritten behind a worker's back is still dirty, or was answered as it is now. */
  ghost predicate ChangedOk(s: State, changed: set<nat>) {
    && (forall x :: x in changed ==> x < s.table.nextId)
    && (forall r :: r in s.table.rows && r.id in changed && r.id !in s.dirty ==> r in s.answered)
  }

  ghost predicate WorkerOk(s: State, worker: Worker) {
    match worker
    case Idle => true
    case Checked => true
    case HasCursor(cursor) => Covered(s, cursor)
    case Posting(cursor, batch, changed) =>
      Covered(s, cursor) && Complete(s, cursor, batch, changed) && ChangedOk(s, changed)
    case Acked(highest) => Covered(s, highest)
  }

  ghost predicate Inv(s: State) {
    && ValidTable(s.table)
    && Covered(s, s.cursor)
    && forall w :: w in s.workers ==> WorkerOk(s, s.workers[w])
  }

  // ----- store changes -----

  /** `s'` has the rows of `s`, possibly fewer, with newer ids, or rewritten where `touched` says so. */
  ghost predicate Evolves(s: State, s': State, touched: set<nat>) {
    && s.table.nextId <= s'.table.nextId
    && s'.answered == s.answered && s'.dirty == s.dirty + touched
    && (forall x :: x in touched ==> x < s.table.nextId)
    && forall r' :: r' in s'.table.rows ==>
         r'.id >= s.table.nextId || WasSent(RowSet(s.table.rows), r', touched)
  }

  lemma SentSurvives(rows: set<Row>, r: Row, r': Row, before: set<nat>, touched: set<nat>)
    requires WasSent(rows, r, before) && IsVersionOf(r, r', touched)
    ensures WasSent(rows, r', before + touched)
  {
    var e :| e in rows && IsVersionOf(e, r, before);
    assert IsVersionOf(e, r', before + touched);
  }

  lemma CoveredSurvives(s: State, s': State, touched: set<nat>, cursor: nat)
    requires Evolves(s, s', touched) && Covered(s, cursor)
    ensures Covered(s', cursor)
  {
    forall r' | r' in s'.table.rows && r'.id <= cursor
      ensures WasSent(s'.answered, r', s'.dirty)
    {
      var r :| r in RowSet(s.table.rows) && IsVersionOf(r, r', touched);
      SentSurvives(s.answered, r, r', s.dirty, touched);
    }
  }

  lemma CompleteSurvives(s: State, s': State, touched: set<nat>, cursor: nat, batch: seq<Row>, changed: set<nat>)
    requires Evolves(s, s', touched) && Complete(s, cursor, batch, changed)
    ensures Complete(s', cursor, batch, changed + touched)
  {
    forall r' | r' in s'.table.rows && cursor < r'.id <= HighestId(batch)
      ensures WasSent(RowSet(batch), r', changed + touched)
    {
      var r :| r in RowSet(s.table.rows) && IsVersionOf(r, r', touched);
      SentSurvives(RowSet(batch), r, r', changed, touched);
    }
  }

  lemma ChangedSurvives(s: State, s': State, touched: set<nat>, changed: set<nat>)
    requires Evolves(s, s', touched) && ChangedOk(s, changed)
    ensures ChangedOk(s', changed + touched)
  {
    forall r' | r' in s'.table.rows && r'.id in changed + touched && r'.id !in s'.dirty
      ensures r' in s'.answered
    {
      var r :| r in RowSet(s.table.rows) && IsVersionOf(r, r', touched);
      assert r == r';
    }
  }

  lemma WorkerSurvives(s: State, s': State, touched: set<nat>, worker: Worker)
    requires Evolves(s, s', touched) && WorkerOk(s, worker)
    ensures WorkerOk(s', Touch(worker, touched))
  {
    match worker
    case Idle =>
    case Checked =>
    case HasCursor(cursor) => CoveredSurvives(s, s', touched, cursor);
    case Posting(cursor, batch, changed) =>
      CoveredSurvives(s, s', touched, cursor);
      CompleteSurvives(s, s', touched, cursor, batch, changed);
      ChangedSurvives(s, s', touched, changed);
    case Acked(highest) => CoveredSurvives(s, s', touched, highest);
  }

  lemma {:induction false} InvSurvives(s: State, s': State, touched: set<nat>)
    requires Inv(s) && Evolves(s, s', touched) && ValidTable(s'.table) && s'.cursor == s.cursor
    requires forall w :: w in s'.workers ==> w in s.workers && s'.workers[w] == Touch(s.workers[w], touched)
    ensures Inv(s')
  {
    CoveredSurvives(s, s', touched, s.cursor);
    forall w | w in s'.workers
      ensures WorkerOk(s', s'.workers[w])
    {
      WorkerSurvives(s, s', touched, s.workers[w]);
    }
  }

  lemma TouchNothing(worker: Worker)
    ensures Touch(worker, {}) == worker
  {
    if worker.Posting? {
      assert worker.changed + {} == worker.changed;
    }
  }

  lemma SelfVersion(rows: seq<Row>, r: Row)
    requires r in rows
    ensures WasSent(RowSet(rows), r, {})
  {
    assert r in RowSet(rows) && IsVersionOf(r, r, {});
  }

  /** A step that only takes rows or workers away, or adds a row with a new id. */
  lemma QuietStep(s: State, s': State)
    requires Inv(s) && s.table.nextId <= s'.table.nextId && s' == s.(table := s'.table, workers := s'.workers, authLost := s'.authLost)
    requires ValidTable(s'.table) && forall r :: r in s'.table.rows ==> r in s.table.rows || r.id >= s.table.nextId
    requires forall w :: w in s'.workers ==> w in s.workers && s'.workers[w] == s.workers[w]
    ensures Inv(s')
  {
    forall r' | r' in s'.table.rows && r'.id < s.table.nextId
      ensures WasSent(RowSet(s.table.rows), r', {})
    {
      SelfVersion(s.table.rows, r');
    }
    assert s.dirty + {} == s.dirty;
    forall w | w in s'.workers
      ensures s'.workers[w] == Touch(s.workers[w], {})
    {
      TouchNothing(s.workers[w]);
    }
    InvSurvives(s, s', {});
  }

  lemma {:induction false} RewriteKeeps(s: State, id: nat, event: GameEvent)
    requires Inv(s)
    ensures Inv(Next(s, RewriteRow(id, event)))
  {
    if id in IdsOf(s.table.rows) {
      var s' := Next(s, RewriteRow(id, event));
      var rows, rows' := s.table.rows, s'.table.rows;
      forall r' | r' in rows'
        ensures WasSent(RowSet(rows), r', {id})
      {
        var i :| 0 <= i < |rows'| && rows'[i] == r';
        assert rows[i] in RowSet(rows) && IsVersionOf(rows[i], r', {id});
      }
      S.ReclassifyValid(s.table, id, event);
      InvSurvives(s, s', {id});
    }
  }

  // ----- worker steps -----

  /** A step of worker `w` that changes only itself, the cursor or the token keeps the others fine. */
  lemma OwnStep(s: State, s': State, w: nat)
    requires Inv(s) && s'.table == s.table && s'.answered == s.answered && s'.dirty == s.dirty
    requires Covered(s, s'.cursor) && w in s'.workers && WorkerOk(s, s'.workers[w])
    requires forall x :: x in s'.workers && x != w ==> x in s.workers && s'.workers[x] == s.workers[x]
    ensures Inv(s')
  {
    forall x | x in s'.workers
      ensures WorkerOk(s', s'.workers[x])
    {
      assert WorkerOk(s, s'.workers[x]);
    }
  }

  lemma ReadBatchKeeps(s: State, w: nat, batchSize: nat)
    requires Inv(s)
    ensures Inv(Next(s, ReadBatch(w, batchSize)))
  {
    if w in s.workers && s.workers[w].HasCursor? {
      assert WorkerOk(s, s.workers[w]);
      var cursor := s.workers[w].cursor;
      if Batch(s.table.rows, cursor, batchSize) != [] {
        BatchIsComplete(s, cursor, batchSize);
      }
      OwnStep(s, Next(s, ReadBatch(w, batchSize)), w);
    }
  }

  lemma {:induction false} BatchHolds(t: Table, cursor: nat, batchSize: nat, r: Row)
    requires ValidTable(t) && r in t.rows
    ensures cursor < r.id <= HighestId(Batch(t.rows, cursor, batchSize)) ==> r in Batch(t.rows, cursor, batchSize)
  {
    var batch := Batch(t.rows, cursor, batchSize);
    var k := BatchSpan(t, cursor, batchSize);
    var i :| 0 <= i < |t.rows| && t.rows[i] == r;
    if cursor < r.id <= HighestId(batch) {
      assert k <= i < k + |batch|;
      assert batch[i - k] == r;
    }
  }

  lemma BatchIsComplete(s: State, cursor: nat, batchSize: nat)
    requires ValidTable(s.table) && Batch(s.table.rows, cursor, batchSize) != []
    ensures Complete(s, cursor, Batch(s.table.rows, cursor, batchSize), {})
  {
    var batch := Batch(s.table.rows, cursor, batchSize);
    BatchMembers(s.table.rows, cursor, batchSize);
    HighestInBatch(batch);
    var e :| e in batch && e.id == HighestId(batch);
    forall r | r in s.table.rows && cursor < r.id <= HighestId(batch)
      ensures WasSent(RowSet(batch), r, {})
    {
      BatchHolds(s.table, cursor, batchSize, r);
      SelfVersion(batch, r);
    }
  }

  lemma {:induction false} HighestInBatch(batch: seq<Row>)
    requires batch != []
    ensures exists e :: e in batch && e.id == HighestId(batch)
    ensures forall e :: e in batch ==> e.id <= HighestId(batch)
  {
    var init, last := batch[..|batch| - 1], batch[|batch| - 1];
    assert batch == init + [last] && last in batch;
    if init != [] {
      HighestInBatch(init);
      var e :| e in init && e.id == HighestId(init);
      assert e in batch;
    }
  }

  lemma {:induction false} UnsentMembers(rows: seq<Row>, cursor: nat)
    ensures forall r :: r in S.Unsent(rows, cursor) <==> r in rows && r.id > cursor
  {
    if rows != [] {
      var init, last := rows[..|rows| - 1], rows[|rows| - 1];
      assert rows == init + [last];
      UnsentMembers(init, cursor);
    }
  }

  lemma BatchMembers(rows: seq<Row>, cursor: nat, batchSize: nat)
    ensures var batch := Batch(rows, cursor, batchSize);
            && (forall r :: r in batch ==> r in rows && r.id > cursor)
            && (batch != [] ==> HighestId(batch) > cursor)
            && (batchSize >= |rows| && batchSize > 0 ==> forall r :: r in rows && r.id > cursor ==> r in batch)
  {
    UnsentMembers(rows, cursor);
    UnsentIsShorter(rows, cursor);
    var batch := Batch(rows, cursor, batchSize);
    if batch != [] {
      assert batch[0] in batch;
      HighestInBatch(batch);
    }
  }

  lemma {:induction false} UnsentIsShorter(rows: seq<Row>, cursor: nat)
    ensures |S.Unsent(rows, cursor)| <= |rows|
  {
    if rows != [] {
      UnsentIsShorter(rows[..|rows| - 1], cursor);
    }
  }

  /** What an accepted answer makes of the state, apart from the worker. */
  function AfterAnswer(s: State, batch: seq<Row>, changed: set<nat>): State {
    s.(answered := s.answered + RowSet(batch), dirty := s.dirty - (IdsOf(batch) - changed))
  }

  /** A row of the batch not rewritten since is in the batch as it is now. */
  lemma CleanedIsSent(s: State, cursor: nat, batch: seq<Row>, changed: set<nat>, r: Row)
    requires Complete(s, cursor, batch, changed)
    ensures r in s.table.rows && r.id in IdsOf(batch) && r.id !in changed ==> r in RowSet(batch)
  {
    if r in s.table.rows && r.id in IdsOf(batch) && r.id !in changed {
      var b :| b in batch && b.id == r.id;
      assert cursor < b.id <= HighestId(batch);
      var e :| e in RowSet(batch) && IsVersionOf(e, r, changed);
      assert e == r;
    }
  }

  /** A row once answered stays answered, exactly so if this answer makes it clean. */
  lemma SentStays(s: State, cursor: nat, batch: seq<Row>, changed: set<nat>, r: Row)
    requires Complete(s, cursor, batch, changed)
    ensures var s' := AfterAnswer(s, batch, changed);
            r in s.table.rows && WasSent(s.answered, r, s.dirty) ==> WasSent(s'.answered, r, s'.dirty)
  {
    if r in s.table.rows && WasSent(s.answered, r, s.dirty) {
      var s' := AfterAnswer(s, batch, changed);
      var e :| e in s.answered && IsVersionOf(e, r, s.dirty);
      if r.id in s.dirty && r.id !in s'.dirty {
        CleanedIsSent(s, cursor, batch, changed, r);
        assert IsVersionOf(r, r, s'.dirty);
      } else {
        assert e in s'.answered && IsVersionOf(e, r, s'.dirty);
      }
    }
  }

  lemma WorkerStays(s: State, cursor: nat, batch: seq<Row>, changed: set<nat>, worker: Worker)
    requires Complete(s, cursor, batch, changed)
    ensures WorkerOk(s, worker) ==> WorkerOk(AfterAnswer(s, batch, changed), worker)
  {
    var s' := AfterAnswer(s, batch, changed);
    forall r | r in s.table.rows && WasSent(s.answered, r, s.dirty)
      ensures WasSent(s'.answered, r, s'.dirty)
    {
      SentStays(s, cursor, batch, changed, r);
    }
    forall r | r in s.table.rows && r.id in s.dirty && r.id !in s'.dirty
      ensures r in s'.answered
    {
      CleanedIsSent(s, cursor, batch, changed, r);
    }
  }

  /** Once a complete batch is answered, every row up to its highest id was. */
  lemma AcceptedCovers(s: State, cursor: nat, batch: seq<Row>, changed: set<nat>)
    requires WorkerOk(s, Posting(cursor, batch, changed))
    ensures Covered(AfterAnswer(s, batch, changed), HighestId(batch))
  {
    var s' := AfterAnswer(s, batch, changed);
    forall r | r in s.table.rows && r.id <= HighestId(batch)
      ensures WasSent(s'.answered, r, s'.dirty)
    {
      if r.id <= cursor {
        SentStays(s, cursor, batch, changed, r);
      } else {
        var e :| e in RowSet(batch) && IsVersionOf(e, r, changed);
        assert e in s'.answered;
        if r.id in changed && r.id !in s.dirty {
          assert r in s'.answered && IsVersionOf(r, r, s'.dirty);
        } else {
          assert IsVersionOf(e, r, s'.dirty);
        }
      }
    }
  }

  lemma AcceptedKeeps(s: State, w: nat, after: Worker)
    requires Inv(s) && w in s.workers && s.workers[w].Posting?
    requires after == Idle || after == Acked(HighestId(s.workers[w].batch))
    ensures Inv(AfterAnswer(s, s.workers[w].batch, s.workers[w].changed).(workers := s.workers[w := after]))
  {
    var Posting(cursor, batch, changed) := s.workers[w];
    var answered := AfterAnswer(s, batch, changed);
    var s' := answered.(workers := s.workers[w := after]);
    assert WorkerOk(s, s.workers[w]);
    AcceptedCovers(s, cursor, batch, changed);
    WorkerStays(s, cursor, batch, changed, HasCursor(s.cursor));
    forall x | x in s'.workers
      ensures WorkerOk(s', s'.workers[x])
    {
      if x != w {
        WorkerStays(s, cursor, batch, changed, s.workers[x]);
        assert WorkerOk(answered, s.workers[x]);
      }
    }
  }

  lemma RespondKeeps(s: State, w: nat, response: Response)
    requires Inv(s)
    ensures Inv(Next(s, Respond(w, response)))
  {
    if w in s.workers && s.workers[w].Posting? {
      var s' := Next(s, Respond(w, response));
      assert WorkerOk(s, s.workers[w]);
      if response.Accepted? {
        AcceptedKeeps(s, w, s'.workers[w]);
      } else {
        OwnStep(s, s', w);
      }
    }
  }

  lemma WriteCursorKeeps(s: State, w: nat)
    requires Inv(s)
    ensures Inv(Next(s, WriteCursor(w)))
  {
    if w in s.workers && s.workers[w].Acked? {
      assert WorkerOk(s, s.workers[w]);
      OwnStep(s, Next(s, WriteCursor(w)), w);
    }
  }

  lemma StepKeeps(s: State, step: Step)
    requires Inv(s)
    ensures Inv(Next(s, step))
  {
    var s' := Next(s, step);
    match step
    case InsertRow(key, event, raw, source, offset) =>
      InsertValid(s.table, Op(key, Serialised(event, raw, source, offset)));
      QuietStep(s, s');
    case DeleteRow(id) => DeleteValid(s.table, {id}); WithoutRows(s.table.rows, {id}); QuietStep(s, s');
    case RewriteRow(id, event) => RewriteKeeps(s, id, event);
    case Spawn(w) => if w !in s.workers { OwnStep(s, s', w); }
    case Abort(w) => QuietStep(s, s');
    case CheckAuth(w) => if w in s.workers && s.workers[w].Idle? && !s.authLost { OwnStep(s, s', w); }
    case ReadCursor(w) => if w in s.workers && s.workers[w].Checked? { OwnStep(s, s', w); }
    case ReadBatch(w, batchSize) => ReadBatchKeeps(s, w, batchSize);
    case Respond(w, response) => RespondKeeps(s, w, response);
    case WriteCursor(w) => WriteCursorKeeps(s, w);
    case Crash => QuietStep(s, s');
    case RePair => QuietStep(s, s');
    case AccountAnswer(_) => QuietStep(s, s');
  }

  lemma {:induction false} RunKeeps(s: State, steps: seq<Step>)
    requires Inv(s)
    ensures Inv(Run(s, steps))
    decreases |steps|
  {
    if steps != [] {
      StepKeeps(s, steps[0]);
      RunKeeps(Next(s, steps[0]), steps[1..]);
    }
  }

  // ----- the claim -----

  /**
   No row is skipped: in every run, a row still stored with an id at or below the cursor was in a
   batch the server answered 2xx, under the same key, line, source and offset, and with its very
   content unless it was rewritten since it was last read for an answered batch.
   */
  lemma {:induction false} SyncNeverSkips(steps: seq<Step>)
    ensures var s := Run(INITIAL, steps);
            forall r :: r in s.table.rows && r.id <= s.cursor ==> exists e :: e in s.answered && IsVersionOf(e, r, s.dirty)
  {
    RunKeeps(INITIAL, steps);
    var s := Run(INITIAL, steps);
    forall r | r in s.table.rows && r.id <= s.cursor
      ensures exists e :: e in s.answered && IsVersionOf(e, r, s.dirty)
    {
      assert WasSent(s.answered, r, s.dirty);
    }
  }
}
