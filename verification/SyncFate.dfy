/**
 What the upload protocol promises and does not promise about rows that are deleted or rewritten
 while uploads are under way, and about the cursor: for each, the exact condition.
 */
module SyncFate {
  import opened Prelude
  import opened Keys
  import opened Grammar
  import opened EventTable
  import opened Sync
  import opened SyncRuns
  import S = Storage

  // ----- deleted rows -----

  ghost predicate Answered(s: State, id: nat) {
    exists e :: e in s.answered && e.id == id
  }

  /** The row is in a batch posted by worker `w` whose answer is still out. */
  predicate InFlight(s: State, w: nat, id: nat) {
    w in s.workers && s.workers[w].Posting? && id in IdsOf(s.workers[w].batch)
  }

  /** The step ends whatever request worker `w` has under way. */
  predicate Ends(step: Step, w: nat) {
    step == Abort(w) || step.Crash? || (step.Respond? && step.w == w)
  }

  /** The first step that ends the request of `w` is a 2xx answer. */
  predicate Delivered(steps: seq<Step>, w: nat) {
    if steps == [] then false
    else if Ends(steps[0], w) then steps[0].Respond? && steps[0].response.Accepted?
    else Delivered(steps[1..], w)
  }

  ghost predicate Gone(s: State, id: nat) {
    id < s.table.nextId && id !in IdsOf(s.table.rows)
  }

  lemma GoneStaysGone(s: State, step: Step, id: nat)
    requires Gone(s, id)
    ensures Gone(Next(s, step), id)
  {
    var s' := Next(s, step);
    if step.DeleteRow? {
      WithoutRows(s.table.rows, {step.id});
    }
    forall r' | r' in s'.table.rows
      ensures r'.id != id
    {
      if step.RewriteRow? && step.id in IdsOf(s.table.rows) {
        var i :| 0 <= i < |s'.table.rows| && s'.table.rows[i] == r';
        assert s.table.rows[i] in s.table.rows;
      }
    }
  }

  lemma GoneStep(s: State, step: Step, id: nat)
    requires Gone(s, id)
    ensures forall w :: InFlight(Next(s, step), w, id) <==> InFlight(s, w, id) && !Ends(step, w)
    ensures Answered(Next(s, step), id)
            <==> Answered(s, id) || (step.Respond? && step.response.Accepted? && InFlight(s, step.w, id))
  {
    if step.ReadBatch? && step.w in s.workers && s.workers[step.w].HasCursor? {
      BatchMembers(s.table.rows, s.workers[step.w].cursor, step.batchSize);
    }
    if step.Respond? && step.w in s.workers && s.workers[step.w].Posting? && step.response.Accepted? {
      var batch := s.workers[step.w].batch;
      if id in IdsOf(batch) {
        var e :| e in batch && e.id == id;
        assert e in Next(s, step).answered;
      }
      if Answered(s, id) {
        var e :| e in s.answered && e.id == id;
        assert e in Next(s, step).answered;
      }
    }
  }

  /** Once a row is gone, it is answered iff it was before or a request in flight delivers it. */
  lemma {:induction false} GoneFate(s: State, steps: seq<Step>, id: nat)
    requires Gone(s, id)
    ensures Answered(Run(s, steps), id)
            <==> Answered(s, id) || exists w :: InFlight(s, w, id) && Delivered(steps, w)
    decreases |steps|
  {
    if steps != [] {
      var step, rest, s1 := steps[0], steps[1..], Next(s, steps[0]);
      GoneStaysGone(s, step, id);
      GoneStep(s, step, id);
      GoneFate(s1, rest, id);
      if w :| InFlight(s1, w, id) && Delivered(rest, w) {
        assert InFlight(s, w, id) && Delivered(steps, w);
      }
      if step.Respond? && step.response.Accepted? && InFlight(s, step.w, id) {
        assert Delivered(steps, step.w);
      }
      if w :| InFlight(s, w, id) && Delivered(steps, w) {
        assert Ends(step, w) || (InFlight(s1, w, id) && Delivered(rest, w));
      }
    }
  }

  /** Step `k` of `later` deletes the row. */
  ghost predicate DeletedAt(s: State, later: seq<Step>, k: nat, id: nat) {
    k < |later| && later[k] == DeleteRow(id) && id in IdsOf(Run(s, later[..k]).table.rows)
  }

  lemma StoredUnlessDeleted(s: State, step: Step, id: nat)
    requires id in IdsOf(s.table.rows) && step != DeleteRow(id)
    ensures id in IdsOf(Next(s, step).table.rows)
  {
    var r :| r in s.table.rows && r.id == id;
    if step.DeleteRow? {
      WithoutRows(s.table.rows, {step.id});
      assert r in Next(s, step).table.rows;
    } else if step.RewriteRow? && step.id in IdsOf(s.table.rows) {
      var i :| 0 <= i < |s.table.rows| && s.table.rows[i] == r;
      assert Next(s, step).table.rows[i] in Next(s, step).table.rows;
    } else {
      assert r in Next(s, step).table.rows;
    }
  }

  lemma {:induction false} StoredOrDeleted(s: State, later: seq<Step>, id: nat)
    requires id in IdsOf(s.table.rows)
    ensures id in IdsOf(Run(s, later).table.rows) || exists k: nat :: DeletedAt(s, later, k, id)
    decreases |later|
  {
    if later != [] {
      var step, rest := later[0], later[1..];
      if step == DeleteRow(id) {
        assert Run(s, later[..0]) == s;
        assert DeletedAt(s, later, 0, id);
      } else {
        StoredUnlessDeleted(s, step, id);
        StoredOrDeleted(Next(s, step), rest, id);
        if k: nat :| DeletedAt(Next(s, step), rest, k, id) {
          assert later[..k + 1][1..] == rest[..k];
          assert DeletedAt(s, later, k + 1, id);
        }
      }
    }
  }

  /** The deletion left no way for the row to be answered unless it was answered already or on its way. */
  ghost predicate SentByDeletion(s: State, later: seq<Step>, k: nat, id: nat)
    requires k < |later|
  {
    var before := Run(s, later[..k]);
    Answered(before, id) || exists w :: InFlight(before, w, id) && Delivered(later[k + 1..], w)
  }

  lemma DeletionDecides(s: State, later: seq<Step>, k: nat, id: nat)
    requires Inv(s) && DeletedAt(s, later, k, id)
    ensures Answered(Run(s, later), id) <==> SentByDeletion(s, later, k, id)
  {
    var before, rest := Run(s, later[..k]), later[k + 1..];
    var after := Next(before, DeleteRow(id));
    RunKeeps(s, later[..k]);
    WithoutRows(before.table.rows, {id});
    var r :| r in before.table.rows && r.id == id;
    assert later == later[..k] + ([DeleteRow(id)] + rest);
    RunConcat(s, later[..k], [DeleteRow(id)] + rest);
    RunConcat(before, [DeleteRow(id)], rest);
    assert Run(before, [DeleteRow(id)]) == after by {
      assert [DeleteRow(id)][1..] == [];
    }
    GoneFate(after, rest, id);
    forall w
      ensures InFlight(after, w, id) <==> InFlight(before, w, id)
    {
    }
  }

  /**
   The timeline reads its rows first and the cursor later, and marks a row synced when its id is at
   most the cursor. Such a row was answered iff, if it was deleted in between, it had been answered
   by then or was in flight on a request that ends in a 2xx answer.
   */
  lemma SyncedRowAnsweredIff(steps: seq<Step>, later: seq<Step>, id: nat)
    requires id in IdsOf(Run(INITIAL, steps).table.rows)
    requires id <= Run(Run(INITIAL, steps), later).cursor
    ensures Answered(Run(Run(INITIAL, steps), later), id)
            <==> forall k: nat :: DeletedAt(Run(INITIAL, steps), later, k, id) ==> SentByDeletion(Run(INITIAL, steps), later, k, id)
  {
    var s := Run(INITIAL, steps);
    RunKeeps(INITIAL, steps);
    forall k: nat | DeletedAt(s, later, k, id)
      ensures Answered(Run(s, later), id) <==> SentByDeletion(s, later, k, id)
    {
      DeletionDecides(s, later, k, id);
    }
    if forall k: nat :: !DeletedAt(s, later, k, id) {
      StoredOrDeleted(s, later, id);
      var r :| r in Run(s, later).table.rows && r.id == id;
      SyncedTimelineRow(steps, later, r);
      var e :| e in Run(s, later).answered && IsVersionOf(e, r, Run(s, later).dirty);
    }
  }

  /** The usual case: a row still stored when the cursor is read was answered. */
  lemma SyncedTimelineRow(steps: seq<Step>, later: seq<Step>, r: Row)
    requires var s := Run(Run(INITIAL, steps), later); r in s.table.rows && r.id <= s.cursor
    ensures var s := Run(Run(INITIAL, steps), later); exists e :: e in s.answered && IsVersionOf(e, r, s.dirty)
  {
    RunConcat(INITIAL, steps, later);
    SyncNeverSkips(steps + later);
  }

  // ----- rewritten rows -----

  /** The worker will go on from a place before `id`. */
  predicate Behind(worker: Worker, id: nat) {
    match worker
    case Idle => false
    case Checked => false
    case HasCursor(cursor) => cursor < id
    case Posting(_, batch, _) => HighestId(batch) < id
    case Acked(highest) => highest < id
  }

  ghost predicate CanReturn(s: State, id: nat) {
    exists w :: w in s.workers && Behind(s.workers[w], id)
  }

  /** This very version of a row was answered or is on its way. */
  ghost predicate Known(s: State, r: Row) {
    || r in s.answered
    || exists w :: w in s.workers && s.workers[w].Posting? && r in s.workers[w].batch
  }

  ghost predicate Passed(s: State, r: Row) {
    r.id <= s.cursor && !CanReturn(s, r.id) && !Known(s, r)
  }

  lemma PassedStep(s: State, step: Step, r: Row)
    requires Passed(s, r)
    ensures Passed(Next(s, step), r)
  {
    var s' := Next(s, step);
    if step.ReadBatch? && step.w in s.workers && s.workers[step.w].HasCursor? {
      BatchMembers(s.table.rows, s.workers[step.w].cursor, step.batchSize);
    }
    forall w | w in s'.workers
      ensures !Behind(s'.workers[w], r.id) && (s'.workers[w].Posting? ==> r !in s'.workers[w].batch)
    {
      PassedWorker(s, r, w);
    }
    if step.Respond? {
      PassedWorker(s, r, step.w);
    }
    if step.WriteCursor? {
      PassedWorker(s, r, step.w);
    }
  }

  lemma PassedWorker(s: State, r: Row, w: nat)
    requires Passed(s, r)
    ensures w in s.workers ==> !Behind(s.workers[w], r.id) && (s.workers[w].Posting? ==> r !in s.workers[w].batch)
  {
  }

  lemma {:induction false} PassedForGood(s: State, steps: seq<Step>, r: Row)
    requires Passed(s, r)
    ensures Passed(Run(s, steps), r)
    decreases |steps|
  {
    if steps != [] {
      PassedStep(s, steps[0], r);
      PassedForGood(Next(s, steps[0]), steps[1..], r);
    }
  }

  lemma RunCons(s: State, step: Step, rest: seq<Step>)
    ensures Run(s, [step] + rest) == Run(Next(s, step), rest)
  {
    assert ([step] + rest)[1..] == rest;
  }

  /** A worker behind the row can get it answered in a few steps. */
  lemma SentFromCursor(s: State, w: nat, r: Row) returns (steps: seq<Step>)
    requires r in s.table.rows && w in s.workers && s.workers[w].HasCursor? && s.workers[w].cursor < r.id
    ensures r in Run(s, steps).answered
  {
    var n := |s.table.rows|;
    BatchMembers(s.table.rows, s.workers[w].cursor, n);
    steps := [ReadBatch(w, n)] + ([Respond(w, Accepted(true))] + []);
    var s1 := Next(s, ReadBatch(w, n));
    RunCons(s, ReadBatch(w, n), [Respond(w, Accepted(true))] + []);
    RunCons(s1, Respond(w, Accepted(true)), []);
    assert s1.workers[w].Posting? && r in s1.workers[w].batch;
  }

  lemma SentFromAcked(s: State, w: nat, r: Row) returns (steps: seq<Step>)
    requires r in s.table.rows && w in s.workers && s.workers[w].Acked? && s.workers[w].highest < r.id
    ensures r in Run(s, steps).answered
  {
    var s1 := Next(s, WriteCursor(w));
    var s2 := Next(s1, RePair);
    var s3 := Next(s2, CheckAuth(w));
    var s4 := Next(s3, ReadCursor(w));
    var rest := SentFromCursor(s4, w, r);
    steps := [WriteCursor(w)] + ([RePair] + ([CheckAuth(w)] + ([ReadCursor(w)] + rest)));
    RunCons(s, WriteCursor(w), [RePair] + ([CheckAuth(w)] + ([ReadCursor(w)] + rest)));
    RunCons(s1, RePair, [CheckAuth(w)] + ([ReadCursor(w)] + rest));
    RunCons(s2, CheckAuth(w), [ReadCursor(w)] + rest);
    RunCons(s3, ReadCursor(w), rest);
  }

  lemma SentFromBehind(s: State, w: nat, r: Row) returns (steps: seq<Step>)
    requires r in s.table.rows && w in s.workers && Behind(s.workers[w], r.id)
    ensures r in Run(s, steps).answered
  {
    match s.workers[w]
    case HasCursor(_) => steps := SentFromCursor(s, w, r);
    case Acked(_) => steps := SentFromAcked(s, w, r);
    case Posting(_, _, _) =>
      var s1 := Next(s, Respond(w, Accepted(true)));
      var rest := SentFromAcked(s1, w, r);
      steps := [Respond(w, Accepted(true))] + rest;
      RunCons(s, Respond(w, Accepted(true)), rest);
  }

  /**
   A version of a stored row that lies at or below the cursor and was neither answered nor posted
   so far can still be sent iff some live worker is behind the row.
   */
  lemma {:induction false} SentLaterIff(s: State, r: Row)
    requires r in s.table.rows && r.id <= s.cursor && !Known(s, r)
    ensures (exists steps :: r in Run(s, steps).answered) <==> CanReturn(s, r.id)
  {
    if CanReturn(s, r.id) {
      var w :| w in s.workers && Behind(s.workers[w], r.id);
      var steps := SentFromBehind(s, w, r);
    } else {
      forall steps
        ensures r !in Run(s, steps).answered
      {
        PassedForGood(s, steps, r);
      }
    }
  }

  /**
   So a row rewritten at or below the cursor is not sent again with its new content unless a
   worker from before the cursor moved past it is still at large.
   */
  lemma {:induction false} RewrittenRowSentIff(s: State, id: nat, event: GameEvent, r: Row)
    requires id in IdsOf(s.table.rows) && id <= s.cursor
    requires r in Next(s, RewriteRow(id, event)).table.rows && r.id == id && !Known(s, r)
    ensures (exists steps :: r in Run(Next(s, RewriteRow(id, event)), steps).answered) <==> CanReturn(s, id)
  {
    var s' := Next(s, RewriteRow(id, event));
    if CanReturn(s, id) {
      var w :| w in s.workers && Behind(s.workers[w], id);
      assert w in s'.workers && Behind(s'.workers[w], id);
    }
    if CanReturn(s', id) {
      var w :| w in s'.workers && Behind(s'.workers[w], id);
      assert w in s.workers && Behind(s.workers[w], id);
    }
    SentLaterIff(s', r);
  }

  // ----- the cursor -----

  /** Never more than one worker alive. */
  ghost predicate NoOverlap(s: State, steps: seq<Step>)
    decreases |steps|
  {
    && (forall v, w :: v in s.workers && w in s.workers ==> v == w)
    && (steps == [] || NoOverlap(Next(s, steps[0]), steps[1..]))
  }

  lemma CursorStep(s: State, step: Step)
    requires forall v, w :: v in s.workers && w in s.workers ==> v == w
    requires !CanReturn(s, s.cursor)
    ensures s.cursor <= Next(s, step).cursor && !CanReturn(Next(s, step), Next(s, step).cursor)
  {
    var s' := Next(s, step);
    if step.ReadBatch? && step.w in s.workers && s.workers[step.w].HasCursor? {
      BatchMembers(s.table.rows, s.workers[step.w].cursor, step.batchSize);
    }
    forall w | w in s'.workers
      ensures !Behind(s'.workers[w], s'.cursor)
    {
      assert w in s.workers ==> !Behind(s.workers[w], s.cursor);
    }
  }

  lemma {:induction false} CursorRun(s: State, steps: seq<Step>)
    requires NoOverlap(s, steps) && !CanReturn(s, s.cursor)
    ensures s.cursor <= Run(s, steps).cursor && !CanReturn(Run(s, steps), Run(s, steps).cursor)
    decreases |steps|
  {
    if steps != [] {
      CursorStep(s, steps[0]);
      CursorRun(Next(s, steps[0]), steps[1..]);
    }
  }

  lemma {:induction false} NoOverlapParts(s: State, a: seq<Step>, b: seq<Step>)
    requires NoOverlap(s, a + b)
    ensures NoOverlap(s, a) && NoOverlap(Run(s, a), b)
    decreases |a|
  {
    if a == [] {
      assert a + b == b;
    } else {
      assert (a + b)[0] == a[0] && (a + b)[1..] == a[1..] + b;
      NoOverlapParts(Next(s, a[0]), a[1..], b);
    }
  }

  /** As long as workers do not overlap, the cursor never moves back. */
  lemma CursorNeverDecreases(a: seq<Step>, b: seq<Step>)
    requires NoOverlap(INITIAL, a + b)
    ensures Run(INITIAL, a).cursor <= Run(INITIAL, a + b).cursor
  {
    NoOverlapParts(INITIAL, a, b);
    RunConcat(INITIAL, a, b);
    CursorRun(INITIAL, a);
    CursorRun(Run(INITIAL, a), b);
  }

  // ----- a rejected token -----

  /** A 401 or 403 reaches a worker waiting for its answer, or answers the account check. */
  ghost predicate Rejects(s: State, step: Step) {
    || step == AccountAnswer(false)
    || (step.Respond? && step.response == AuthRejected && step.w in s.workers && s.workers[step.w].Posting?)
  }

  /** The user pairs again, the account check succeeds, or the program restarts. */
  predicate Readmits(step: Step) {
    step == RePair || step == AccountAnswer(true) || step == Crash
  }

  ghost predicate RejectedAt(s: State, steps: seq<Step>, k: nat) {
    k < |steps| && Rejects(Run(s, steps[..k]), steps[k])
  }

  ghost predicate NotReadmittedFrom(steps: seq<Step>, k: nat) {
    forall i :: k <= i < |steps| ==> !Readmits(steps[i])
  }

  /** The token was rejected in the run and nothing has readmitted it since. */
  ghost predicate Barred(s: State, steps: seq<Step>) {
    exists k: nat :: RejectedAt(s, steps, k) && NotReadmittedFrom(steps, k)
  }

  lemma RunSnoc(s: State, steps: seq<Step>, step: Step)
    ensures Run(s, steps + [step]) == Next(Run(s, steps), step)
  {
    RunConcat(s, steps, [step]);
    assert [step][1..] == [];
  }

  lemma BarredSnoc(s: State, steps: seq<Step>, step: Step)
    ensures Barred(s, steps + [step])
            <==> !Readmits(step) && (Barred(s, steps) || Rejects(Run(s, steps), step))
  {
    var all, n := steps + [step], |steps|;
    assert all[..n] == steps && all[n] == step;
    forall k: nat | k < n
      ensures RejectedAt(s, all, k) <==> RejectedAt(s, steps, k)
      ensures NotReadmittedFrom(all, k) <==> NotReadmittedFrom(steps, k) && !Readmits(step)
    {
      assert all[..k] == steps[..k];
      assert forall i :: k <= i < n ==> all[i] == steps[i];
    }
    if k: nat :| RejectedAt(s, steps, k) && NotReadmittedFrom(steps, k) {
      assert !Readmits(step) ==> RejectedAt(s, all, k) && NotReadmittedFrom(all, k);
    }
    if k: nat :| RejectedAt(s, all, k) && NotReadmittedFrom(all, k) {
      assert !Readmits(all[n]);
      assert k < n ==> RejectedAt(s, steps, k) && NotReadmittedFrom(steps, k);
    }
    assert !Readmits(step) && RejectedAt(s, all, n) ==> NotReadmittedFrom(all, n);
  }

  lemma {:induction false} TokenLostIffBarred(steps: seq<Step>)
    ensures Run(INITIAL, steps).authLost <==> Barred(INITIAL, steps)
  {
    if steps != [] {
      var init, step := steps[..|steps| - 1], steps[|steps| - 1];
      assert steps == init + [step];
      TokenLostIffBarred(init);
      RunSnoc(INITIAL, init, step);
      BarredSnoc(INITIAL, init, step);
    }
  }

  /**
   In every run, a worker at the top of its loop gets past its check iff no answer has rejected the
   token since it was last readmitted; otherwise its turn does nothing. The notes in the source
   name pairing again as the only way back; a restart or a good answer to the account check are
   two more.
   */
  lemma {:induction false} CheckPassesIff(steps: seq<Step>, w: nat)
    ensures var s := Run(INITIAL, steps);
            w in s.workers && s.workers[w].Idle? ==>
              if Barred(INITIAL, steps) then Next(s, CheckAuth(w)) == s
              else Next(s, CheckAuth(w)) == s.(workers := s.workers[w := Checked])
  {
    TokenLostIffBarred(steps);
  }

  /** Workers past their check and not back at the top of the loop. */
  function Busy(s: State): set<nat> {
    set w | w in s.workers && !s.workers[w].Idle?
  }

  ghost predicate Rejected(s: State) {
    forall w :: w in s.workers && s.workers[w].Idle? ==> Next(s, CheckAuth(w)) == s
  }

  lemma {:induction false} AfterRejection(s: State, steps: seq<Step>)
    requires s.authLost && NotReadmittedFrom(steps, 0)
    ensures var s' := Run(s, steps);
            && s'.authLost && Busy(s') <= Busy(s)
            && (Busy(s) == {} ==> s'.answered == s.answered)
    decreases |steps|
  {
    if steps != [] {
      var s1, rest := Next(s, steps[0]), steps[1..];
      assert forall i :: 0 <= i < |rest| ==> rest[i] == steps[i + 1];
      assert !Readmits(steps[0]);
      BusyShrinks(s, steps[0]);
      AfterRejection(s1, rest);
    }
  }

  lemma BusyShrinks(s: State, step: Step)
    requires s.authLost && !Readmits(step)
    ensures Next(s, step).authLost && Busy(Next(s, step)) <= Busy(s)
    ensures Busy(s) == {} ==> Next(s, step).answered == s.answered
  {
    var s' := Next(s, step);
    forall w | w in Busy(s')
      ensures w in Busy(s)
    {
      assert w in s.workers;
    }
    assert step.Respond? && step.w in s.workers && s.workers[step.w].Posting? ==> step.w in Busy(s);
  }

  /**
   From a rejection until the token is readmitted: no worker at the top of its loop gets past its check,
   so every worker still busy was busy already, at every moment in between; and once those are
   through, nothing is posted and nothing newly answered.
   */
  lemma {:induction false} NothingSentAfterRejection(s: State, w: nat, steps: seq<Step>, more: seq<Step>)
    requires w in s.workers && s.workers[w].Posting? && NotReadmittedFrom(steps + more, 0)
    ensures var s1 := Next(s, Respond(w, AuthRejected));
            var s2 := Run(s1, steps);
            var s3 := Run(s2, more);
            && Rejected(s1) && Rejected(s2) && Rejected(s3)
            && Busy(s3) <= Busy(s2) <= Busy(s1) && w !in Busy(s1)
            && s1.answered == s.answered
            && (Busy(s2) == {} ==> s3.answered == s2.answered && forall v :: v in s3.workers ==> s3.workers[v] == Idle)
  {
    var all := steps + more;
    assert forall i :: 0 <= i < |steps| ==> steps[i] == all[i];
    assert forall i :: 0 <= i < |more| ==> more[i] == all[|steps| + i];
    var s1 := Next(s, Respond(w, AuthRejected));
    AfterRejection(s1, steps);
    AfterRejection(Run(s1, steps), more);
    forall v | v in Run(Run(s1, steps), more).workers && Busy(Run(s1, steps)) == {}
      ensures Run(Run(s1, steps), more).workers[v] == Idle
    {
      assert v !in Busy(Run(Run(s1, steps), more));
    }
  }

  /** Readmission lets workers go on. */
  lemma ReadmittedWorkerGoesOn(s: State, step: Step, w: nat)
    ensures var s' := Next(s, step);
            Readmits(step) && w in s'.workers && s'.workers[w].Idle? ==> Next(s', CheckAuth(w)).workers[w] == Checked
  {
  }

  // ----- one drain without interruption -----

  /**
   A worker's turn with nothing in between does what one drain does: it sends the batch past the
   cursor, and only an accepted and parsed answer moves the cursor, only a rejection loses the
   token, and an answer that was accepted counts whether or not it could be parsed.
   */
  lemma {:induction false} UninterruptedDrain(s: State, w: nat, batchSize: nat, response: Response)
    requires w in s.workers && s.workers[w] == Idle
    ensures var batch := Batch(s.table.rows, s.cursor, batchSize);
            var s' := Run(s, [CheckAuth(w), ReadCursor(w), ReadBatch(w, batchSize), Respond(w, response), WriteCursor(w)]);
            if s.authLost || batch == [] then s' == s
            else
              && s'.table == s.table && s'.workers == s.workers
              && s'.cursor == (if response == Accepted(true) then HighestId(batch) else s.cursor)
              && s'.authLost == (response == AuthRejected)
              && s'.answered == (if response.Accepted? then s.answered + RowSet(batch) else s.answered)
  {
    var batch := Batch(s.table.rows, s.cursor, batchSize);
    var steps := [CheckAuth(w), ReadCursor(w), ReadBatch(w, batchSize), Respond(w, response), WriteCursor(w)];
    RunFive(s, steps);
    IdleTurn(s, w, batchSize, response);
    if !s.authLost {
      UpToBatch(s, w, batchSize);
      if batch != [] {
        AnsweredPost(s, w, batch, response);
      }
    }
  }

  /** An idle worker ignores every step that is not its check. */
  lemma IdleTurn(s: State, w: nat, batchSize: nat, response: Response)
    requires w in s.workers && s.workers[w] == Idle
    ensures s.authLost ==> Next(s, CheckAuth(w)) == s
    ensures Next(s, ReadCursor(w)) == s && Next(s, ReadBatch(w, batchSize)) == s
    ensures Next(s, Respond(w, response)) == s && Next(s, WriteCursor(w)) == s
  {
  }

  lemma UpToBatch(s: State, w: nat, batchSize: nat)
    requires w in s.workers && s.workers[w] == Idle && !s.authLost
    ensures var batch := Batch(s.table.rows, s.cursor, batchSize);
            Next(Next(Next(s, CheckAuth(w)), ReadCursor(w)), ReadBatch(w, batchSize))
            == if batch == [] then s else s.(workers := s.workers[w := Posting(s.cursor, batch, {})])
  {
    var s0 := s.(workers := s.workers[w := Checked]);
    var s1 := s.(workers := s.workers[w := HasCursor(s.cursor)]);
    assert Next(s, CheckAuth(w)) == s0;
    assert Next(s0, ReadCursor(w)) == s1;
    assert s.workers[w := Idle] == s.workers;
  }

  lemma AnsweredPost(s: State, w: nat, batch: seq<Row>, response: Response)
    requires w in s.workers && s.workers[w] == Idle
    ensures var s' := Next(Next(s.(workers := s.workers[w := Posting(s.cursor, batch, {})]), Respond(w, response)), WriteCursor(w));
            && s'.table == s.table && s'.workers == s.workers
            && s'.cursor == (if response == Accepted(true) then HighestId(batch) else s.cursor)
            && s'.authLost == (s.authLost || response == AuthRejected)
            && s'.answered == (if response.Accepted? then s.answered + RowSet(batch) else s.answered)
  {
    assert s.workers[w := Idle] == s.workers;
  }

  // ----- what the protocol does not promise -----

  /** One worker uploads everything past the cursor in one successful drain. */
  function Upload(w: nat, batchSize: nat): seq<Step> {
    [CheckAuth(w), ReadCursor(w), ReadBatch(w, batchSize), Respond(w, Accepted(true)), WriteCursor(w)]
  }

  lemma UploadEffect(s: State, w: nat, batchSize: nat)
    requires w in s.workers && s.workers[w] == Idle && !s.authLost
    requires Batch(s.table.rows, s.cursor, batchSize) != []
    ensures var batch := Batch(s.table.rows, s.cursor, batchSize);
            Run(s, Upload(w, batchSize))
            == s.(cursor := HighestId(batch), answered := s.answered + RowSet(batch), dirty := s.dirty - IdsOf(batch))
  {
    var steps, batch := Upload(w, batchSize), Batch(s.table.rows, s.cursor, batchSize);
    var s0 := s.(workers := s.workers[w := Checked]);
    var s1 := s.(workers := s.workers[w := HasCursor(s.cursor)]);
    var s2 := s.(workers := s.workers[w := Posting(s.cursor, batch, {})]);
    var s3 := s.(workers := s.workers[w := Acked(HighestId(batch))], answered := s.answered + RowSet(batch),
                 dirty := s.dirty - IdsOf(batch));
    var s4 := s.(cursor := HighestId(batch), answered := s.answered + RowSet(batch), dirty := s.dirty - IdsOf(batch));
    assert IdsOf(batch) - {} == IdsOf(batch);
    assert Next(s, steps[0]) == s0;
    assert Next(s0, steps[1]) == s1;
    assert Next(s1, steps[2]) == s2;
    assert Next(s2, steps[3]) == s3;
    assert s.workers[w := Idle] == s.workers;
    assert Next(s3, steps[4]) == s4;
    RunFive(s, steps);
  }

  lemma RunFive(s: State, steps: seq<Step>)
    requires |steps| == 5
    ensures Run(s, steps) == Next(Next(Next(Next(Next(s, steps[0]), steps[1]), steps[2]), steps[3]), steps[4])
  {
    var none: seq<Step> := [];
    assert steps == [steps[0]] + ([steps[1]] + ([steps[2]] + ([steps[3]] + ([steps[4]] + none))));
    RunCons(s, steps[0], [steps[1]] + ([steps[2]] + ([steps[3]] + ([steps[4]] + none))));
    var s1 := Next(s, steps[0]);
    RunCons(s1, steps[1], [steps[2]] + ([steps[3]] + ([steps[4]] + none)));
    var s2 := Next(s1, steps[1]);
    RunCons(s2, steps[2], [steps[3]] + ([steps[4]] + none));
    var s3 := Next(s2, steps[2]);
    RunCons(s3, steps[3], [steps[4]] + none);
    RunCons(Next(s3, steps[3]), steps[4], none);
  }

  /** Two stored rows, nothing sent yet, and one idle worker. */
  ghost predicate TwoUnsent(s: State, ra: Row, rb: Row) {
    && s.table.rows == [ra, rb] && ra.id == 1 && rb.id == 2
    && s.cursor == 0 && s.answered == {} && !s.authLost
    && 0 in s.workers && s.workers[0] == Idle
  }

  lemma BatchOfTwo(ra: Row, rb: Row)
    requires ra.id == 1 && rb.id == 2
    ensures Batch([ra, rb], 0, 2) == [ra, rb] && HighestId([ra, rb]) == 2
    ensures Batch([rb], 0, 2) == [rb] && HighestId([rb]) == 2
    ensures Batch([ra, rb], 0, 1) == [ra] && HighestId([ra]) == 1
  {
    assert [ra, rb][..1] == [ra];
    assert [ra, rb][..1] == [ra] && [ra][..0] == [] && [rb][..0] == [];
    assert S.Unsent([ra], 0) == [ra];
    assert S.Unsent([ra, rb], 0) == [ra, rb];
    assert S.Unsent([rb], 0) == [rb];
    assert HighestId([ra]) == 1;
  }

  /**
   A row rewritten after its upload: it lies below the cursor, the server has only its old content,
   and its new content is ever sent iff a worker is still behind it.
   */
  lemma {:induction false} RewrittenRowIsStale(s: State, ra: Row, rb: Row, event: GameEvent)
    requires TwoUnsent(s, ra, rb) && event != ra.content.payload
    ensures var s' := Next(Run(s, Upload(0, 2)), RewriteRow(1, event));
            && s'.cursor == 2 && |s'.table.rows| == 2
            && s'.table.rows[0].id == 1 && s'.table.rows[0].content.payload == event
            && (forall e :: e in s'.answered && e.id == 1 ==> e.content.payload != event)
            && (!Known(s', s'.table.rows[0]) ==>
                  ((exists steps :: s'.table.rows[0] in Run(s', steps).answered) <==> CanReturn(s', 1)))
  {
    BatchOfTwo(ra, rb);
    UploadEffect(s, 0, 2);
    var s1 := Run(s, Upload(0, 2));
    assert ra in s1.table.rows;
    var s' := Next(s1, RewriteRow(1, event));
    if !Known(s', s'.table.rows[0]) {
      SentLaterIff(s', s'.table.rows[0]);
    }
  }

  /** A row shown in the timeline and deleted before the cursor is read can be marked synced unsent. */
  lemma DeletedRowShownAsSynced(s: State, ra: Row, rb: Row)
    requires TwoUnsent(s, ra, rb)
    ensures var s' := Run(Next(s, DeleteRow(1)), Upload(0, 2));
            ra.id <= s'.cursor && forall e :: e in s'.answered ==> e.id != ra.id
  {
    FirstDeleted(ra, rb);
    BatchOfTwo(ra, rb);
    UploadEffect(Next(s, DeleteRow(1)), 0, 2);
  }

  lemma FirstDeleted(ra: Row, rb: Row)
    requires ra.id == 1 && rb.id == 2
    ensures Without([ra, rb], {1}) == [rb]
  {
    assert [ra, rb][..1] == [ra] && [ra][..0] == [];
    assert Without([ra], {1}) == [];
  }

  /**
   A worker that was respawned over but not yet gone moves the cursor backwards: it read its batch
   of one row, a second worker uploaded both rows, then the first one's answer arrives.
   */
  lemma LateWorkerMovesCursorBack(s: State, ra: Row, rb: Row)
    requires TwoUnsent(s, ra, rb) && 1 in s.workers && s.workers[1] == Idle
    ensures var early := Next(Next(Next(s, CheckAuth(1)), ReadCursor(1)), ReadBatch(1, 1));
            var ahead := Run(early, Upload(0, 2));
            var late := Next(Next(ahead, Respond(1, Accepted(true))), WriteCursor(1));
            && ahead.cursor == 2 && late.cursor == 1 && ahead.answered <= late.answered
            && CanReturn(ahead, 2)
  {
    BatchOfTwo(ra, rb);
    EarlyWorker(s, 1);
    var early := s.(workers := s.workers[1 := Posting(0, [ra], {})]);
    UploadEffect(early, 0, 2);
    assert Behind(Run(early, Upload(0, 2)).workers[1], 2);
  }

  lemma EarlyWorker(s: State, w: nat)
    requires w in s.workers && s.workers[w] == Idle && !s.authLost && Batch(s.table.rows, s.cursor, 1) != []
    ensures Next(Next(Next(s, CheckAuth(w)), ReadCursor(w)), ReadBatch(w, 1))
            == s.(workers := s.workers[w := Posting(s.cursor, Batch(s.table.rows, s.cursor, 1), {})])
  {
    var checked := Next(s, CheckAuth(w));
    assert checked == s.(workers := s.workers[w := Checked]);
    assert Next(checked, ReadCursor(w)) == s.(workers := s.workers[w := HasCursor(s.cursor)]);
  }

  /** Such a state is reachable: insert two rows and spawn two workers. */
  lemma TwoUnsentReachable(a: Step, b: Step)
    requires a.InsertRow? && b.InsertRow? && a.key != b.key
    ensures var s := Next(Next(Next(Next(INITIAL, a), b), Spawn(0)), Spawn(1));
            && |s.table.rows| == 2 && TwoUnsent(s, s.table.rows[0], s.table.rows[1])
            && 1 in s.workers && s.workers[1] == Idle
  {
    var op, op' := Op(a.key, Serialised(a.event, a.raw, a.source, a.offset)), Op(b.key, Serialised(b.event, b.raw, b.source, b.offset));
    var row := Row(1, op.key, op.content);
    FirstInsert(op);
    SecondInsert(row, op');
  }

  lemma FirstInsert(op: Op)
    ensures Insert(EMPTY_TABLE, op) == Table([Row(1, op.key, op.content)], 2)
  {
    var none: seq<Row> := [];
    assert Contents(none) == map[];
    assert none + [Row(1, op.key, op.content)] == [Row(1, op.key, op.content)];
  }

  lemma SecondInsert(row: Row, op: Op)
    requires op.key != row.key
    ensures Insert(Table([row], 2), op) == Table([row, Row(2, op.key, op.content)], 3)
  {
    KeyHasRow([row], op.key);
    assert [row] + [Row(2, op.key, op.content)] == [row, Row(2, op.key, op.content)];
  }
}
