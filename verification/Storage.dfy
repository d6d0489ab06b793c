/**
 The local store: one object guarding all tables. Every call is one atomic, successful step.
 */
module Storage {
  import opened Prelude
  import opened Keys
  import opened Grammar
  import opened EventTable

  /** One row of `unknown_event_samples`, without its clock columns. */
  datatype Sample = Sample(occurrences: nat, line: string, body: string)

  /** Samples are unique per log source and event name. */
  type Unknowns = map<(string, string), Sample>

  /** All tables as one value. */
  datatype Db = Db(
    events: Table,
    tailCursor: map<string, nat>,
    syncCursor: Option<nat>,
    noise: map<string, string>,
    unknowns: Unknowns)

  /** First observation inserts, later ones bump the count and refresh the sample. */
  function RecordUnknown(u: Unknowns, source: string, name: string, line: string, body: string): Unknowns {
    var seen := if (source, name) in u then u[(source, name)].occurrences else 0;
    u[(source, name) := Sample(seen + 1, line, body)]
  }

  /** The rows past `cursor`, in id order. */
  function Unsent(rows: seq<Row>, cursor: nat): seq<Row> {
    if rows == [] then []
    else
      var init, last := rows[..|rows| - 1], rows[|rows| - 1];
      Unsent(init, cursor) + if last.id > cursor then [last] else []
  }

  function Prefix<T>(s: seq<T>, limit: nat): seq<T> {
    if |s| <= limit then s else s[..limit]
  }

  function Cursor(db: Db): nat {
    if db.syncCursor.Some? then db.syncCursor.value else 0
  }

  function TailCursor(db: Db, path: string): nat {
    if path in db.tailCursor then db.tailCursor[path] else 0
  }

  function UpdateRows(rows: seq<Row>, id: nat, event: GameEvent): (r: seq<Row>)
    ensures |r| == |rows|
  {
    seq(|rows|, i requires 0 <= i < |rows| =>
      if rows[i].id == id
      then rows[i].(content := Serialised(event, rows[i].content.raw, rows[i].content.source, rows[i].content.offset))
      else rows[i])
  }

  function Reclassify(t: Table, id: nat, event: GameEvent): Table {
    t.(rows := UpdateRows(t.rows, id, event))
  }

  lemma ReclassifyValid(t: Table, id: nat, event: GameEvent)
    requires ValidTable(t)
    ensures ValidTable(Reclassify(t, id, event))
  {
    var rows := UpdateRows(t.rows, id, event);
    forall r | r in rows
      ensures 0 < r.id < t.nextId && Consistent(r.content)
    {
      var i :| 0 <= i < |rows| && rows[i] == r;
      assert t.rows[i] in t.rows;
    }
  }

  // ----- paging past an id -----

  /** Id of the last row among the first `k`. */
  ghost function LastId(rows: seq<Row>, k: nat): nat
    requires k <= |rows|
  {
    if k == 0 then 0 else rows[k - 1].id
  }

  lemma {:induction false} UnsentIsSuffix(rows: seq<Row>, k: nat)
    requires IdsIncrease(rows) && k <= |rows| && forall r :: r in rows ==> r.id > 0
    ensures Unsent(rows, LastId(rows, k)) == rows[k..]
  {
    if k == |rows| {
      UnsentNothing(rows, LastId(rows, k));
    } else {
      var init, last := rows[..|rows| - 1], rows[|rows| - 1];
      assert last in rows && LastId(init, k) == LastId(rows, k);
      assert last.id > LastId(rows, k);
      assert rows[k..] == init[k..] + [last];
      UnsentIsSuffix(init, k);
    }
  }

  lemma {:induction false} UnsentNothing(rows: seq<Row>, cursor: nat)
    requires IdsIncrease(rows) && (rows == [] || rows[|rows| - 1].id <= cursor)
    ensures Unsent(rows, cursor) == []
  {
    if |rows| > 1 {
      var init := rows[..|rows| - 1];
      assert init[|init| - 1].id < rows[|rows| - 1].id;
      UnsentNothing(init, cursor);
    }
  }

  lemma LastIsHighest(rows: seq<Row>)
    requires IdsIncrease(rows) && rows != []
    ensures forall i :: 0 <= i < |rows| ==> rows[i].id <= rows[|rows| - 1].id
  {
  }

  /** The rows past any cursor are a suffix of the table. */
  lemma {:induction false} UnsentSplit(rows: seq<Row>, cursor: nat) returns (k: nat)
    requires IdsIncrease(rows)
    ensures k <= |rows| && Unsent(rows, cursor) == rows[k..]
    ensures forall i :: 0 <= i < k ==> rows[i].id <= cursor
    ensures forall i :: k <= i < |rows| ==> rows[i].id > cursor
  {
    if rows == [] {
      k := 0;
    } else if rows[|rows| - 1].id <= cursor {
      k := |rows|;
      UnsentNothing(rows, cursor);
      LastIsHighest(rows);
    } else {
      var init, last := rows[..|rows| - 1], rows[|rows| - 1];
      k := UnsentSplit(init, cursor);
      assert rows == init + [last];
      assert rows[k..] == init[k..] + [last];
    }
  }

  lemma PrefixOfSuffix(rows: seq<Row>, k: nat, limit: nat)
    requires k <= |rows| && limit >= 1
    ensures var page := Prefix(rows[k..], limit);
            k + |page| <= |rows| && page == rows[k..k + |page|] && (page == [] ==> k == |rows|)
  {
  }

  /** `pending` are the `limit` lowest rows past `afterId`, or all of them if there are fewer. */
  ghost predicate FirstPast(rows: seq<Row>, afterId: nat, limit: nat, pending: seq<Row>) {
    && IdsIncrease(pending) && |pending| <= limit
    && (forall r :: r in pending ==> r in rows && r.id > afterId)
    && (forall r :: r in rows && r.id > afterId && r !in pending ==>
          |pending| == limit && forall p :: p in pending ==> p.id < r.id)
  }

  lemma PrefixIsFirst(rows: seq<Row>, afterId: nat, limit: nat)
    requires IdsIncrease(rows)
    ensures FirstPast(rows, afterId, limit, Prefix(Unsent(rows, afterId), limit))
  {
    var k := UnsentSplit(rows, afterId);
    var page := Prefix(rows[k..], limit);
    assert page == rows[k..k + |page|];
    SliceIsPast(rows, k, page, afterId);
    forall r | r in rows && r.id > afterId && r !in page
      ensures |page| == limit && forall p :: p in page ==> p.id < r.id
    {
      InSuffix(rows, k, afterId, r);
      InPageOrPast(rows, k, page, r);
    }
  }

  lemma SliceIsPast(rows: seq<Row>, k: nat, page: seq<Row>, afterId: nat)
    requires IdsIncrease(rows) && k + |page| <= |rows| && page == rows[k..k + |page|]
    requires forall i :: k <= i < |rows| ==> rows[i].id > afterId
    ensures IdsIncrease(page) && forall r :: r in page ==> r in rows && r.id > afterId
  {
    forall r | r in page
      ensures r in rows && r.id > afterId
    {
      var i :| 0 <= i < |page| && page[i] == r;
      assert rows[k + i] == r;
    }
  }

  lemma InSuffix(rows: seq<Row>, k: nat, afterId: nat, r: Row)
    requires k <= |rows| && r in rows && r.id > afterId && forall i :: 0 <= i < k ==> rows[i].id <= afterId
    ensures r in rows[k..]
  {
    var i :| 0 <= i < |rows| && rows[i] == r;
    assert rows[k..][i - k] == r;
  }

  lemma InPageOrPast(rows: seq<Row>, k: nat, page: seq<Row>, r: Row)
    requires IdsIncrease(rows) && k + |page| <= |rows| && page == rows[k..k + |page|] && r in rows[k..]
    ensures r in page || (k + |page| < |rows| && forall p :: p in page ==> p.id < r.id)
  {
    var j :| 0 <= j < |rows[k..]| && rows[k..][j] == r;
    if j < |page| {
      assert page[j] == r;
    } else {
      forall p | p in page
        ensures p.id < r.id
      {
        var i :| 0 <= i < |page| && page[i] == p;
        assert rows[k + i] == p && rows[k + j] == r;
      }
    }
  }

  // ----- saved cursors -----

  /** One cursor write. */
  datatype Save = SaveTail(path: string, offset: nat) | SaveSync(lastEventId: nat)

  function AfterSaves(db: Db, saves: seq<Save>): Db {
    if saves == [] then db
    else
      var before, last := AfterSaves(db, saves[..|saves| - 1]), saves[|saves| - 1];
      match last
      case SaveTail(path, offset) => before.(tailCursor := before.tailCursor[path := offset])
      case SaveSync(id) => before.(syncCursor := Some(id))
  }

  ghost predicate LastTailSave(saves: seq<Save>, path: string, i: nat) {
    && i < |saves| && saves[i].SaveTail? && saves[i].path == path
    && forall j :: i < j < |saves| ==> !(saves[j].SaveTail? && saves[j].path == path)
  }

  ghost predicate LastSyncSave(saves: seq<Save>, i: nat) {
    && i < |saves| && saves[i].SaveSync? && forall j :: i < j < |saves| ==> !saves[j].SaveSync?
  }

  /**
   Reading a cursor gives the last value saved for it, whatever other cursors were saved in
   between; a cursor not saved since keeps what it was, which is zero in a new store.
   */
  lemma {:induction false} CursorIsLastSaved(db: Db, saves: seq<Save>, path: string)
    ensures forall i: nat :: LastTailSave(saves, path, i) ==> TailCursor(AfterSaves(db, saves), path) == saves[i].offset
    ensures (forall i: nat :: !LastTailSave(saves, path, i)) ==> TailCursor(AfterSaves(db, saves), path) == TailCursor(db, path)
    ensures forall i: nat :: LastSyncSave(saves, i) ==> Cursor(AfterSaves(db, saves)) == saves[i].lastEventId
    ensures (forall i: nat :: !LastSyncSave(saves, i)) ==> Cursor(AfterSaves(db, saves)) == Cursor(db)
    ensures AfterSaves(db, saves).events == db.events
  {
    if saves != [] {
      var init, n := saves[..|saves| - 1], |saves| - 1;
      CursorIsLastSaved(db, init, path);
      assert saves[n].SaveTail? && saves[n].path == path ==> LastTailSave(saves, path, n);
      assert saves[n].SaveSync? ==> LastSyncSave(saves, n);
      forall i: nat | i < n && !(saves[n].SaveTail? && saves[n].path == path)
        ensures LastTailSave(saves, path, i) <==> LastTailSave(init, path, i)
      {
        assert saves[i] == init[i];
      }
      forall i: nat | i < n && !saves[n].SaveSync?
        ensures LastSyncSave(saves, i) <==> LastSyncSave(init, i)
      {
        assert saves[i] == init[i];
      }
    }
  }

  class Storage {
    var rows: seq<Row>
    var nextId: nat
    var tailCursor: map<string, nat>
    var syncCursor: Option<nat>
    var noise: map<string, string>
    var unknowns: Unknowns

    function State(): Db
      reads this
    {
      Db(Table(rows, nextId), tailCursor, syncCursor, noise, unknowns)
    }

    ghost predicate Valid()
      reads this
    {
      ValidTable(Table(rows, nextId))
    }

    constructor (saved: Db)
      requires ValidTable(saved.events)
      ensures Valid() && State() == saved
    {
      rows, nextId := saved.events.rows, saved.events.nextId;
      tailCursor, syncCursor := saved.tailCursor, saved.syncCursor;
      noise, unknowns := saved.noise, saved.unknowns;
    }

    method InsertEvent(op: Op)
      requires Valid() && Consistent(op.content)
      modifies this`rows, this`nextId
      ensures Valid() && State() == old(State()).(events := Insert(old(State()).events, op))
    {
      InsertValid(Table(rows, nextId), op);
      if op.key !in Contents(rows) {
        rows := rows + [Row(nextId, op.key, op.content)];
        nextId := nextId + 1;
      }
    }

    /** The first `limit` rows past the id, in id order, and none left out before the last of them. */
    method ReadUnsent(afterId: nat, limit: nat) returns (pending: seq<Row>)
      requires Valid()
      ensures pending == Prefix(Unsent(rows, afterId), limit)
      ensures FirstPast(rows, afterId, limit, pending)
    {
      PrefixIsFirst(rows, afterId, limit);
      pending := Prefix(Unsent(rows, afterId), limit);
    }

    method ReadSyncCursor() returns (cursor: nat)
      ensures cursor == Cursor(State())
    {
      cursor := if syncCursor.Some? then syncCursor.value else 0;
    }

    method WriteSyncCursor(lastEventId: nat)
      requires Valid()
      modifies this`syncCursor
      ensures Valid() && State() == old(State()).(syncCursor := Some(lastEventId))
    {
      syncCursor := Some(lastEventId);
    }

    method ReadCursor(path: string) returns (offset: nat)
      ensures offset == TailCursor(State(), path)
    {
      offset := if path in tailCursor then tailCursor[path] else 0;
    }

    method WriteCursor(path: string, offset: nat)
      requires Valid()
      modifies this`tailCursor
      ensures Valid() && State() == old(State()).(tailCursor := old(tailCursor)[path := offset])
    {
      tailCursor := tailCursor[path := offset];
    }

    method IsNoise(name: string) returns (yes: bool)
      ensures yes <==> name in noise
    {
      yes := name in noise;
    }

    method RecordUnknownSample(source: string, name: string, line: string, body: string)
      requires Valid()
      modifies this`unknowns
      ensures Valid()
      ensures State() == old(State()).(unknowns := RecordUnknown(old(unknowns), source, name, line, body))
    {
      unknowns := RecordUnknown(unknowns, source, name, line, body);
    }

    method DeleteUnknown(source: string, name: string)
      requires Valid()
      modifies this`unknowns
      ensures Valid() && State() == old(State()).(unknowns := old(unknowns) - {(source, name)})
    {
      unknowns := unknowns - {(source, name)};
    }

    method UpdateEventClassification(id: nat, event: GameEvent)
      modifies this`rows
      ensures State() == old(State()).(events := Reclassify(old(State()).events, id, event))
    {
      rows := UpdateRows(rows, id, event);
    }

    method DeleteEventById(id: nat) returns (deleted: nat)
      requires Valid()
      modifies this`rows
      ensures Valid() && State() == old(State()).(events := Delete(old(State()).events, {id}))
      ensures deleted == |old(rows)| - |rows|
    {
      DeleteValid(Table(rows, nextId), {id});
      var before := |rows|;
      rows := Without(rows, {id});
      deleted := before - |rows|;
    }
  }
}
