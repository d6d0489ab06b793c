/**
 Upload of stored events: read the cursor, read a batch past it, post it, and move the cursor to
 the batch's highest id only when the server answered with success. The second half considers
 every interleaving of store changes, overlapping workers, lost answers and crashes.
 */
module Sync {
  import opened Prelude
  import opened Keys
  import opened Grammar
  import opened EventTable
  import S = Storage

  /**
   How a post ends: answered 2xx (with a body that parses or not), answered 401 or 403, or failed
   otherwise, in which case the server may still have received the batch.
   */
  datatype Response = Accepted(parsed: bool) | AuthRejected | Failed(reached: bool)

  /** `batch_size.max(1)` rows past the cursor, in id order. */
  function Batch(rows: seq<Row>, cursor: nat, batchSize: nat): seq<Row> {
    S.Prefix(S.Unsent(rows, cursor), if batchSize < 1 then 1 else batchSize)
  }

  function HighestId(batch: seq<Row>): nat {
    if batch == [] then 0
    else
      var h, last := HighestId(batch[..|batch| - 1]), batch[|batch| - 1].id;
      if h > last then h else last
  }

  lemma {:induction false} HighestIsLast(batch: seq<Row>)
    requires IdsIncrease(batch) && batch != []
    ensures HighestId(batch) == batch[|batch| - 1].id
  {
    if |batch| > 1 {
      var init := batch[..|batch| - 1];
      HighestIsLast(init);
      assert batch[|batch| - 2].id < batch[|batch| - 1].id;
    }
  }

  /** A batch is the stretch of the table that follows the cursor. */
  lemma BatchSpan(t: Table, cursor: nat, batchSize: nat) returns (k: nat)
    requires ValidTable(t)
    ensures var batch := Batch(t.rows, cursor, batchSize);
            && k + |batch| <= |t.rows| && batch == t.rows[k..k + |batch|]
            && (forall i :: 0 <= i < k ==> t.rows[i].id <= cursor)
            && (forall i :: k <= i < |t.rows| ==> t.rows[i].id > cursor)
            && S.Unsent(t.rows, cursor) == t.rows[k..]
            && (batch == [] ==> k == |t.rows|)
            && (batch != [] ==> HighestId(batch) == t.rows[k + |batch| - 1].id)
  {
    k := S.UnsentSplit(t.rows, cursor);
    var batch := Batch(t.rows, cursor, batchSize);
    S.PrefixOfSuffix(t.rows, k, if batchSize < 1 then 1 else batchSize);
    if batch != [] {
      HighestOfSlice(t.rows, k, k + |batch|);
    }
  }

  lemma HighestOfSlice(rows: seq<Row>, from: nat, to: nat)
    requires IdsIncrease(rows) && from < to <= |rows|
    ensures HighestId(rows[from..to]) == rows[to - 1].id
  {
    HighestIsLast(rows[from..to]);
  }

  // ----- one drain -----

  class SyncStats {
    var batchesSent: nat
    var failing: bool
    var authLost: bool

    constructor ()
      ensures batchesSent == 0 && !failing && !authLost
    {
      batchesSent, failing, authLost := 0, false, false;
    }
  }

  /** One turn of the worker loop against a server that answers `response`. */
  method DrainOnce(storage: S.Storage, batchSize: nat, response: Response, stats: SyncStats)
    returns (sent: seq<Row>)
    requires storage.Valid()
    modifies storage`syncCursor, stats
    ensures storage.Valid()
    ensures var cursor := S.Cursor(old(storage.State()));
            var batch := Batch(old(storage.rows), cursor, batchSize);
            if old(stats.authLost) || batch == [] then
              && sent == [] && storage.State() == old(storage.State())
              && stats.batchesSent == old(stats.batchesSent) && stats.failing == old(stats.failing)
              && stats.authLost == old(stats.authLost)
            else if response == Accepted(true) then
              && sent == batch && storage.State() == old(storage.State()).(syncCursor := Some(HighestId(batch)))
              && stats.batchesSent == old(stats.batchesSent) + 1 && !stats.failing && !stats.authLost
            else
              && sent == batch && storage.State() == old(storage.State())
              && stats.batchesSent == old(stats.batchesSent) && stats.failing
              && (stats.authLost <==> response == AuthRejected)
  {
    sent := [];
    if stats.authLost {
      return;
    }
    var cursor := storage.ReadSyncCursor();
    var pending := storage.ReadUnsent(cursor, if batchSize < 1 then 1 else batchSize);
    if pending == [] {
      return;
    }
    var highest := HighestId(pending);
    sent := pending;
    if response == AuthRejected {
      stats.authLost, stats.failing := true, true;
      return;
    }
    if response != Accepted(true) {
      stats.failing := true;
      return;
    }
    storage.WriteSyncCursor(highest);
    stats.failing := false;
    stats.batchesSent := stats.batchesSent + 1;
  }

  // ----- progress without concurrent writers -----

  /** The cursor after one more successful drain. */
  function Advance(t: Table, cursor: nat, batchSize: nat): nat {
    var batch := Batch(t.rows, cursor, batchSize);
    if batch == [] then cursor else HighestId(batch)
  }

  function CursorAfter(t: Table, cursor: nat, batchSize: nat, n: nat): nat
    decreases n
  {
    if n == 0 then cursor else CursorAfter(t, Advance(t, cursor, batchSize), batchSize, n - 1)
  }

  /** Everything `n` successful drains send, in order. */
  function SentBy(t: Table, cursor: nat, batchSize: nat, n: nat): seq<Row>
    decreases n
  {
    if n == 0 then []
    else Batch(t.rows, cursor, batchSize) + SentBy(t, Advance(t, cursor, batchSize), batchSize, n - 1)
  }

  /** Batches of `b` needed for `n` rows, one batch at a time. */
  function BatchesFor(n: nat, b: nat): nat
    requires b >= 1
  {
    if n == 0 then 0 else 1 + BatchesFor(if n <= b then 0 else n - b, b)
  }

  /** The number of batches is `n / b` rounded up. */
  lemma {:induction false} BatchesForIsCeiling(n: nat, b: nat)
    requires b >= 1
    ensures n <= BatchesFor(n, b) * b < n + b
  {
    if n > b {
      BatchesForIsCeiling(n - b, b);
      OneMoreBatch(BatchesFor(n - b, b), b);
    } else if n > 0 {
      assert BatchesFor(n, b) == 1 + BatchesFor(0, b) == 1;
    }
  }

  lemma OneMoreBatch(n: nat, b: nat)
    ensures (1 + n) * b == n * b + b
  {
  }

  lemma AdvanceDropsBatch(t: Table, cursor: nat, batchSize: nat)
    requires ValidTable(t)
    ensures var u, batch := S.Unsent(t.rows, cursor), Batch(t.rows, cursor, batchSize);
            S.Unsent(t.rows, Advance(t, cursor, batchSize)) == u[|batch|..]
  {
    var k := BatchSpan(t, cursor, batchSize);
    var batch := Batch(t.rows, cursor, batchSize);
    if batch != [] {
      S.UnsentIsSuffix(t.rows, k + |batch|);
      assert t.rows[k..][|batch|..] == t.rows[k + |batch|..];
    }
  }

  lemma BatchHeadsQueue(u: seq<Row>, b: nat)
    requires u != [] && b >= 1
    ensures var batch := S.Prefix(u, b);
            && batch != [] && u == batch + u[|batch|..]
            && |u[|batch|..]| == (if |u| <= b then 0 else |u| - b)
  {
  }

  /**
   With no concurrent writer, exactly ceil(n / b) successful drains empty a queue of n rows: they
   send each row once, in id order, and no smaller number of drains suffices.
   */
  lemma {:induction false} DrainsEmptyTheQueue(t: Table, cursor: nat, b: nat, m: nat)
    requires ValidTable(t) && b >= 1
    ensures var u := S.Unsent(t.rows, cursor);
            var n := BatchesFor(|u|, b);
            && SentBy(t, cursor, b, n) == u
            && S.Unsent(t.rows, CursorAfter(t, cursor, b, n)) == []
            && (m < n ==> S.Unsent(t.rows, CursorAfter(t, cursor, b, m)) != [])
    decreases |S.Unsent(t.rows, cursor)|
  {
    var u := S.Unsent(t.rows, cursor);
    if u != [] {
      var next := Advance(t, cursor, b);
      AdvanceDropsBatch(t, cursor, b);
      BatchHeadsQueue(u, b);
      DrainsEmptyTheQueue(t, next, b, if m == 0 then 0 else m - 1);
    }
  }
}
