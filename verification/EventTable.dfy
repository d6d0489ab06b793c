/**
 The `events` table as a value: rows in id order, a unique idempotency key per row, ids handed out
 in increasing order and never reused. Inserting under a key that is already present does nothing.
 */
module EventTable {
  import opened Prelude
  import opened Keys
  import opened Grammar

  /** Everything a row holds besides its id and key. */
  datatype Content = Content(
    etype: EventType,
    timestamp: string,
    raw: string,
    payload: GameEvent,
    source: string,
    offset: nat)

  datatype Row = Row(id: nat, key: Key, content: Content)

  datatype Table = Table(rows: seq<Row>, nextId: nat)

  /** One `insert_event` call. */
  datatype Op = Op(key: Key, content: Content)

  const EMPTY_TABLE := Table([], 1)

  function Serialised(event: GameEvent, raw: string, source: string, offset: nat): Content {
    Content(TypeOf(event), TimestampOf(event), raw, event, source, offset)
  }

  ghost predicate IdsIncrease(rows: seq<Row>) {
    forall i, j :: 0 <= i < j < |rows| ==> rows[i].id < rows[j].id
  }

  ghost predicate KeysDiffer(rows: seq<Row>) {
    forall i, j :: 0 <= i < j < |rows| ==> rows[i].key != rows[j].key
  }

  /** The type and timestamp columns always agree with the payload. */
  ghost predicate Consistent(c: Content) {
    c.etype == TypeOf(c.payload) && c.timestamp == TimestampOf(c.payload)
  }

  ghost predicate ValidTable(t: Table) {
    && t.nextId > 0
    && IdsIncrease(t.rows) && KeysDiffer(t.rows)
    && forall r :: r in t.rows ==> 0 < r.id < t.nextId && Consistent(r.content)
  }

  /** The table seen as a map from key to content. */
  function Contents(rows: seq<Row>): map<Key, Content> {
    if rows == [] then map[]
    else Contents(rows[..|rows| - 1])[rows[|rows| - 1].key := rows[|rows| - 1].content]
  }

  function Insert(t: Table, op: Op): Table {
    if op.key in Contents(t.rows) then t
    else Table(t.rows + [Row(t.nextId, op.key, op.content)], t.nextId + 1)
  }

  function InsertAll(t: Table, ops: seq<Op>): Table {
    if ops == [] then t else Insert(InsertAll(t, ops[..|ops| - 1]), ops[|ops| - 1])
  }

  /** The rows whose id is not in `ids`. */
  function Without(rows: seq<Row>, ids: set<nat>): (kept: seq<Row>)
    ensures |kept| <= |rows|
  {
    if rows == [] then []
    else
      var init, last := rows[..|rows| - 1], rows[|rows| - 1];
      Without(init, ids) + if last.id in ids then [] else [last]
  }

  function IdsOf(rows: seq<Row>): set<nat> {
    set r | r in rows :: r.id
  }

  function Delete(t: Table, ids: set<nat>): Table {
    t.(rows := Without(t.rows, ids))
  }

  // ----- keys and rows -----

  lemma {:induction false} KeyHasRow(rows: seq<Row>, key: Key)
    ensures key in Contents(rows) <==> exists r :: r in rows && r.key == key
  {
    if rows != [] {
      var init, last := rows[..|rows| - 1], rows[|rows| - 1];
      KeyHasRow(init, key);
      assert rows == init + [last];
    }
  }

  lemma {:induction false} RowIsContent(rows: seq<Row>, r: Row)
    requires KeysDiffer(rows) && r in rows
    ensures r.key in Contents(rows) && Contents(rows)[r.key] == r.content
  {
    var init, last := rows[..|rows| - 1], rows[|rows| - 1];
    assert rows == init + [last];
    if r != last {
      RowIsContent(init, r);
    }
  }

  /** With unique keys the map holds exactly the rows. */
  lemma ContentIsRow(rows: seq<Row>, key: Key)
    requires KeysDiffer(rows) && key in Contents(rows)
    ensures exists r :: r in rows && r.key == key && r.content == Contents(rows)[key]
  {
    KeyHasRow(rows, key);
    var r :| r in rows && r.key == key;
    RowIsContent(rows, r);
  }

  // ----- insertion -----

  lemma InsertValid(t: Table, op: Op)
    requires ValidTable(t) && Consistent(op.content)
    ensures ValidTable(Insert(t, op))
  {
    if op.key !in Contents(t.rows) {
      forall r | r in t.rows
        ensures r.key != op.key
      {
        KeyHasRow(t.rows, op.key);
      }
      assert forall i :: 0 <= i < |t.rows| ==> t.rows[i] in t.rows;
    }
  }

  lemma {:induction false} InsertAllValid(t: Table, ops: seq<Op>)
    requires ValidTable(t) && forall op :: op in ops ==> Consistent(op.content)
    ensures ValidTable(InsertAll(t, ops))
  {
    if ops != [] {
      assert ops[|ops| - 1] in ops;
      InsertAllValid(t, ops[..|ops| - 1]);
      InsertValid(InsertAll(t, ops[..|ops| - 1]), ops[|ops| - 1]);
    }
  }

  lemma InsertAllStep(t: Table, ops: seq<Op>, i: nat)
    requires i < |ops|
    ensures InsertAll(t, ops[..i + 1]) == Insert(InsertAll(t, ops[..i]), ops[i])
  {
    assert ops[..i + 1][..i] == ops[..i];
  }

  lemma {:induction false} InsertAllConcat(t: Table, a: seq<Op>, b: seq<Op>)
    ensures InsertAll(t, a + b) == InsertAll(InsertAll(t, a), b)
  {
    if b == [] {
      assert a + b == a;
    } else {
      assert (a + b)[..|a + b| - 1] == a + b[..|b| - 1];
      InsertAllConcat(t, a, b[..|b| - 1]);
    }
  }

  /** First-writer-wins insertion on maps. */
  function Put(m: map<Key, Content>, op: Op): map<Key, Content> {
    if op.key in m then m else m[op.key := op.content]
  }

  function PutAll(m: map<Key, Content>, ops: seq<Op>): map<Key, Content> {
    if ops == [] then m else Put(PutAll(m, ops[..|ops| - 1]), ops[|ops| - 1])
  }

  lemma InsertIsPut(t: Table, op: Op)
    ensures Contents(Insert(t, op).rows) == Put(Contents(t.rows), op)
  {
    if op.key !in Contents(t.rows) {
      var rows := Insert(t, op).rows;
      assert rows[..|rows| - 1] == t.rows;
    }
  }

  lemma {:induction false} InsertAllIsPutAll(t: Table, ops: seq<Op>)
    ensures Contents(InsertAll(t, ops).rows) == PutAll(Contents(t.rows), ops)
  {
    if ops != [] {
      InsertAllIsPutAll(t, ops[..|ops| - 1]);
      InsertIsPut(InsertAll(t, ops[..|ops| - 1]), ops[|ops| - 1]);
    }
  }

  lemma {:induction false} PutAllKeeps(m: map<Key, Content>, ops: seq<Op>)
    ensures forall k :: k in m ==> k in PutAll(m, ops) && PutAll(m, ops)[k] == m[k]
    ensures forall op :: op in ops ==> op.key in PutAll(m, ops)
    ensures forall k :: k in PutAll(m, ops) ==> k in m || exists op :: op in ops && op.key == k && op.content == PutAll(m, ops)[k]
  {
    if ops != [] {
      var init, last := ops[..|ops| - 1], ops[|ops| - 1];
      assert ops == init + [last];
      PutAllKeeps(m, init);
    }
  }

  lemma InsertAllGrows(t: Table, ops: seq<Op>)
    ensures forall k :: k in Contents(t.rows) ==>
              k in Contents(InsertAll(t, ops).rows) && Contents(InsertAll(t, ops).rows)[k] == Contents(t.rows)[k]
    ensures forall op :: op in ops ==> op.key in Contents(InsertAll(t, ops).rows)
  {
    InsertAllIsPutAll(t, ops);
    PutAllKeeps(Contents(t.rows), ops);
  }

  /** Operations on the same key carry the same content. */
  ghost predicate Agree(ops: seq<Op>) {
    forall a, b :: a in ops && b in ops && a.key == b.key ==> a.content == b.content
  }

  /** The order and the repetitions of agreeing insertions do not matter. */
  lemma PutAllOrderInsensitive(m: map<Key, Content>, a: seq<Op>, b: seq<Op>)
    requires Agree(a) && forall op :: op in a <==> op in b
    ensures PutAll(m, a) == PutAll(m, b)
  {
    PutAllKeeps(m, a);
    PutAllKeeps(m, b);
    PutAllSubset(m, a, b);
    PutAllSubset(m, b, a);
  }

  /** More agreeing insertions only add entries. */
  lemma PutAllSubset(m: map<Key, Content>, a: seq<Op>, b: seq<Op>)
    requires Agree(b) && forall op :: op in a ==> op in b
    ensures forall k :: k in PutAll(m, a) ==> k in PutAll(m, b) && PutAll(m, b)[k] == PutAll(m, a)[k]
  {
    PutAllKeeps(m, a);
    PutAllKeeps(m, b);
    forall k | k in PutAll(m, a)
      ensures k in PutAll(m, b) && PutAll(m, b)[k] == PutAll(m, a)[k]
    {
      if k !in m {
        var x :| x in a && x.key == k && x.content == PutAll(m, a)[k];
        assert x in b;
        var y :| y in b && y.key == k && y.content == PutAll(m, b)[k];
      }
    }
  }

  // ----- replay -----

  lemma {:induction false} InsertAllAbsorbed(t: Table, ops: seq<Op>)
    requires forall op :: op in ops ==> op.key in Contents(t.rows)
    ensures InsertAll(t, ops) == t
  {
    if ops != [] {
      assert ops[|ops| - 1] in ops;
      InsertAllAbsorbed(t, ops[..|ops| - 1]);
    }
  }

  /** Running a list of insertions again after any prefix of it was already run changes nothing. */
  lemma ReplayAfterPrefix(t: Table, ops: seq<Op>, done: nat)
    requires done <= |ops|
    ensures InsertAll(InsertAll(t, ops[..done]), ops) == InsertAll(t, ops)
  {
    var partial := InsertAll(t, ops[..done]);
    assert ops == ops[..done] + ops[done..];
    InsertAllConcat(partial, ops[..done], ops[done..]);
    InsertAllGrows(t, ops[..done]);
    InsertAllAbsorbed(partial, ops[..done]);
    InsertAllConcat(t, ops[..done], ops[done..]);
  }

  /** Some insertion of the list uses the key. */
  ghost predicate Inserts(ops: seq<Op>, key: Key) {
    exists op :: op in ops && op.key == key
  }

  lemma KeysPut(m: map<Key, Content>, ops: seq<Op>, key: Key)
    ensures key in PutAll(m, ops) <==> key in m || Inserts(ops, key)
  {
    PutAllKeeps(m, ops);
  }

  /** A replay with other insertions adds no key iff each early key was there before or is inserted again. */
  lemma ReplayWithOtherOps(m: map<Key, Content>, early: seq<Op>, ops: seq<Op>)
    ensures PutAll(PutAll(m, early), ops).Keys == PutAll(m, ops).Keys
            <==> forall op :: op in early ==> op.key in m || Inserts(ops, op.key)
  {
    var replayed, clean := PutAll(PutAll(m, early), ops), PutAll(m, ops);
    forall key
      ensures key in replayed <==> key in m || Inserts(early, key) || Inserts(ops, key)
      ensures key in clean <==> key in m || Inserts(ops, key)
    {
      KeysPut(m, early, key);
      KeysPut(PutAll(m, early), ops, key);
      KeysPut(m, ops, key);
    }
    if exists op :: op in early && op.key !in m && !Inserts(ops, op.key) {
      var op :| op in early && op.key !in m && !Inserts(ops, op.key);
      assert op.key in replayed && op.key !in clean;
    } else {
      assert forall key :: key in replayed <==> key in clean;
    }
  }

  /** The entry a list of agreeing insertions makes under a new key is that of any of them. */
  lemma NewEntry(m: map<Key, Content>, ops: seq<Op>, op: Op)
    requires Agree(ops) && op in ops && op.key !in m
    ensures op.key in PutAll(m, ops) && PutAll(m, ops)[op.key] == op.content
  {
    PutAllKeeps(m, ops);
    var x :| x in ops && x.key == op.key && x.content == PutAll(m, ops)[op.key];
  }

  /** It changes no entry either iff each early insertion was void or is made again as it was. */
  lemma ReplayOfSameRows(m: map<Key, Content>, early: seq<Op>, ops: seq<Op>)
    requires Agree(early) && Agree(ops)
    ensures PutAll(PutAll(m, early), ops) == PutAll(m, ops)
            <==> forall op :: op in early ==> op.key in m || op in ops
  {
    var half, replayed, clean := PutAll(m, early), PutAll(PutAll(m, early), ops), PutAll(m, ops);
    PutAllKeeps(half, ops);
    PutAllKeeps(m, ops);
    forall op | op in early && op.key !in m
      ensures op.key in replayed && replayed[op.key] == op.content
    {
      NewEntry(m, early, op);
    }
    if replayed == clean {
      forall op | op in early
        ensures op.key in m || op in ops
      {
        if op.key !in m {
          var x :| x in ops && x.key == op.key && x.content == clean[op.key];
          assert x == op;
        }
      }
    } else if forall op :: op in early ==> op.key in m || op in ops {
      ReplayWithOtherOps(m, early, ops);
      forall key | key in clean
        ensures replayed[key] == clean[key]
      {
        SameEntry(m, early, ops, key);
      }
      assert false;
    }
  }

  lemma SameEntry(m: map<Key, Content>, early: seq<Op>, ops: seq<Op>, key: Key)
    requires Agree(early) && Agree(ops) && key in PutAll(m, ops)
    requires forall op :: op in early ==> op.key in m || op in ops
    ensures key in PutAll(PutAll(m, early), ops) && PutAll(PutAll(m, early), ops)[key] == PutAll(m, ops)[key]
  {
    var half := PutAll(m, early);
    PutAllKeeps(m, early);
    PutAllKeeps(half, ops);
    PutAllKeeps(m, ops);
    if key !in m {
      var x :| x in ops && x.key == key && x.content == PutAll(m, ops)[key];
      if key in half {
        var y :| y in early && y.key == key && y.content == half[key];
        assert y in ops;
      } else {
        NewEntry(half, ops, x);
      }
    }
  }

  // ----- deletion -----

  lemma {:induction false} WithoutRows(rows: seq<Row>, ids: set<nat>)
    ensures forall r :: r in Without(rows, ids) <==> r in rows && r.id !in ids
  {
    if rows != [] {
      var init, last := rows[..|rows| - 1], rows[|rows| - 1];
      assert rows == init + [last];
      WithoutRows(init, ids);
    }
  }

  lemma {:induction false} WithoutOrdered(rows: seq<Row>, ids: set<nat>)
    requires IdsIncrease(rows) && KeysDiffer(rows)
    ensures IdsIncrease(Without(rows, ids)) && KeysDiffer(Without(rows, ids))
  {
    if rows != [] {
      var init, last := rows[..|rows| - 1], rows[|rows| - 1];
      WithoutOrdered(init, ids);
      forall r | r in Without(init, ids)
        ensures r.id < last.id && r.key != last.key
      {
        WithoutRows(init, ids);
        var j :| 0 <= j < |init| && init[j] == r;
        assert rows[j] == r;
      }
      SnocOrdered(Without(init, ids), last);
    }
  }

  lemma SnocOrdered(rows: seq<Row>, last: Row)
    requires IdsIncrease(rows) && KeysDiffer(rows) && forall r :: r in rows ==> r.id < last.id && r.key != last.key
    ensures IdsIncrease(rows + [last]) && KeysDiffer(rows + [last])
  {
  }

  lemma DeleteValid(t: Table, ids: set<nat>)
    requires ValidTable(t)
    ensures ValidTable(Delete(t, ids))
  {
    WithoutRows(t.rows, ids);
    WithoutOrdered(t.rows, ids);
  }
}
