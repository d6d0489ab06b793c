/**
 Phase 1 of a re-parse: every stored row is classified again in id order, and deaths and
 incapacitations are given the zone last signalled on the way.
 */
module Reclassify {
  import opened Prelude
  import opened Keys
  import opened Grammar
  import opened EventTable
  import S = Storage

  /** The zone an event signals, if any. */
  function ZoneSignal(event: GameEvent): Option<string> {
    match event
    case Classified(PlanetTerrainLoad(_, planet)) => Some(planet)
    case Classified(LocationInventoryRequested(_, _, location)) =>
      if location == "INVALID_LOCATION_ID" then None else Some(location)
    case _ => None
  }

  /** A death or incapacitation without a zone takes the given one. */
  function Enrich(event: GameEvent, zone: Option<string>): GameEvent {
    match event
    case Classified(PlayerDeath(timestamp, bodyClass, bodyId, None)) =>
      Classified(PlayerDeath(timestamp, bodyClass, bodyId, zone))
    case Classified(PlayerIncapacitated(timestamp, queueId, None)) =>
      Classified(PlayerIncapacitated(timestamp, queueId, zone))
    case _ => event
  }

  // ----- the declarative form -----

  function SignalAt(g: Grammar, remote: seq<RemoteRule>, rows: seq<Row>, i: nat): Option<string>
    requires i < |rows|
  {
    var event := RecogniseText(g, remote, rows[i].content.raw);
    if event.Some? then ZoneSignal(event.value) else None
  }

  /** The zone last signalled by the first `n` rows. */
  function ZoneAfter(g: Grammar, remote: seq<RemoteRule>, rows: seq<Row>, n: nat): Option<string>
    requires n <= |rows|
  {
    if n == 0 then None
    else if SignalAt(g, remote, rows, n - 1).Some? then SignalAt(g, remote, rows, n - 1)
    else ZoneAfter(g, remote, rows, n - 1)
  }

  /** `j` is the last row at or before `i` that signals a zone. */
  ghost predicate LatestSignal(g: Grammar, remote: seq<RemoteRule>, rows: seq<Row>, i: nat, j: nat)
    requires i < |rows|
  {
    && j <= i && SignalAt(g, remote, rows, j).Some?
    && forall k :: j < k <= i ==> SignalAt(g, remote, rows, k).None?
  }

  lemma {:induction false} ZoneAfterIsLatestSignal(g: Grammar, remote: seq<RemoteRule>, rows: seq<Row>, i: nat)
    requires i < |rows|
    ensures forall j :: 0 <= j <= i && LatestSignal(g, remote, rows, i, j) ==>
              ZoneAfter(g, remote, rows, i + 1) == SignalAt(g, remote, rows, j)
    ensures ZoneAfter(g, remote, rows, i + 1).None?
            <==> forall k :: 0 <= k <= i ==> SignalAt(g, remote, rows, k).None?
  {
    if i > 0 {
      ZoneAfterIsLatestSignal(g, remote, rows, i - 1);
      forall j | 0 <= j < i && LatestSignal(g, remote, rows, i, j)
        ensures LatestSignal(g, remote, rows, i - 1, j)
      {
      }
    }
  }

  /** What row `i` becomes. */
  function RowAfter(g: Grammar, remote: seq<RemoteRule>, rows: seq<Row>, i: nat): Row
    requires i < |rows|
  {
    var c := rows[i].content;
    match RecogniseText(g, remote, c.raw)
    case None => rows[i]
    case Some(event) =>
      rows[i].(content := Serialised(Enrich(event, ZoneAfter(g, remote, rows, i + 1)), c.raw, c.source, c.offset))
  }

  function RowsAfter(g: Grammar, remote: seq<RemoteRule>, rows: seq<Row>): (after: seq<Row>)
    ensures |after| == |rows|
  {
    seq(|rows|, i requires 0 <= i < |rows| => RowAfter(g, remote, rows, i))
  }

  /** How many of the first `n` rows change. */
  function Changed(g: Grammar, remote: seq<RemoteRule>, rows: seq<Row>, n: nat): nat
    requires n <= |rows|
  {
    if n == 0 then 0
    else Changed(g, remote, rows, n - 1) + if RowAfter(g, remote, rows, n - 1) != rows[n - 1] then 1 else 0
  }

  /** How many of the first `n` rows no longer classify. */
  function Unmatched(g: Grammar, remote: seq<RemoteRule>, rows: seq<Row>, n: nat): nat
    requires n <= |rows|
  {
    if n == 0 then 0
    else Unmatched(g, remote, rows, n - 1) + if RecogniseText(g, remote, rows[n - 1].content.raw).None? then 1 else 0
  }

  // ----- the walk -----

  /** Rows `[..k]` already rewritten, the rest as they were. */
  ghost function Partial(g: Grammar, remote: seq<RemoteRule>, rows: seq<Row>, k: nat): (r: seq<Row>)
    requires k <= |rows|
    ensures |r| == |rows|
  {
    RowsAfter(g, remote, rows)[..k] + rows[k..]
  }

  lemma PartialStep(g: Grammar, remote: seq<RemoteRule>, rows: seq<Row>, k: nat)
    requires k < |rows|
    ensures Partial(g, remote, rows, k)[k] == rows[k]
    ensures Partial(g, remote, rows, k + 1) == Partial(g, remote, rows, k)[k := RowAfter(g, remote, rows, k)]
  {
  }

  lemma UpdateAt(rows: seq<Row>, k: nat, event: GameEvent)
    requires IdsIncrease(rows) && k < |rows|
    ensures var c := rows[k].content;
            S.UpdateRows(rows, rows[k].id, event)
            == rows[k := rows[k].(content := Serialised(event, c.raw, c.source, c.offset))]
  {
    var updated := S.UpdateRows(rows, rows[k].id, event);
    forall i | 0 <= i < |rows| && i != k
      ensures updated[i] == rows[i]
    {
      assert i < k ==> rows[i].id < rows[k].id;
      assert k < i ==> rows[k].id < rows[i].id;
    }
  }

  lemma PartialKeepsIds(g: Grammar, remote: seq<RemoteRule>, rows: seq<Row>, k: nat)
    requires k <= |rows|
    ensures forall i :: 0 <= i < |rows| ==> Partial(g, remote, rows, k)[i].id == rows[i].id
  {
  }

  lemma UnsentOfPartial(g: Grammar, remote: seq<RemoteRule>, rows: seq<Row>, k: nat)
    requires IdsIncrease(rows) && k <= |rows| && forall r :: r in rows ==> r.id > 0
    ensures S.Unsent(Partial(g, remote, rows, k), S.LastId(rows, k)) == rows[k..]
  {
    var now := Partial(g, remote, rows, k);
    PartialKeepsIds(g, remote, rows, k);
    assert IdsIncrease(now);
    forall r | r in now
      ensures r.id > 0
    {
      var i :| 0 <= i < |now| && now[i] == r;
      assert rows[i] in rows;
    }
    S.UnsentIsSuffix(now, k);
    assert S.LastId(now, k) == S.LastId(rows, k);
    assert now[k..] == rows[k..];
  }

  /** What the walk relies on about the rows it started from. */
  ghost predicate Stored(rows: seq<Row>) {
    IdsIncrease(rows) && forall r :: r in rows ==> r.id > 0 && Consistent(r.content)
  }

  /** `page` is the stretch of `rows` that follows the first `k`. */
  ghost predicate PageAt(rows: seq<Row>, k: nat, page: seq<Row>) {
    && k + |page| <= |rows| && page == rows[k..k + |page|]
    && forall r :: r in page ==> Consistent(r.content)
  }

  lemma SliceIsPage(rows: seq<Row>, k: nat, page: seq<Row>)
    requires Stored(rows) && k + |page| <= |rows| && page == rows[k..k + |page|]
    ensures PageAt(rows, k, page) && (page != [] ==> page[|page| - 1].id == S.LastId(rows, k + |page|))
  {
    forall r | r in page
      ensures r in rows
    {
      var i :| 0 <= i < |page| && page[i] == r;
      assert rows[k + i] == r;
    }
  }

  /** The next page after the first `k` rows, whatever the page size. */
  lemma NextPage(g: Grammar, remote: seq<RemoteRule>, rows: seq<Row>, k: nat, batchSize: nat)
    requires Stored(rows) && k <= |rows| && batchSize >= 1
    ensures var page := S.Prefix(S.Unsent(Partial(g, remote, rows, k), S.LastId(rows, k)), batchSize);
            && PageAt(rows, k, page)
            && (page == [] ==> k == |rows|)
            && (page != [] ==> page[|page| - 1].id == S.LastId(rows, k + |page|))
  {
    UnsentOfPartial(g, remote, rows, k);
    S.PrefixOfSuffix(rows, k, batchSize);
    SliceIsPage(rows, k, S.Prefix(rows[k..], batchSize));
  }

  /** The walk has rewritten the first `n` rows of `before` and counted what it did. */
  ghost predicate Walked(g: Grammar, remote: seq<RemoteRule>, before: seq<Row>, now: seq<Row>, n: nat, w: Walk) {
    && n <= |before|
    && now == Partial(g, remote, before, n)
    && w == Walk(ZoneAfter(g, remote, before, n), Changed(g, remote, before, n), Unmatched(g, remote, before, n))
  }

  /** The running zone and the two counters. */
  datatype Walk = Walk(zone: Option<string>, updated: nat, unmatched: nat)

  ghost predicate RowReady(before: seq<Row>, k: nat, row: Row) {
    k < |before| && before[k] == row && IdsIncrease(before) && Consistent(row.content)
  }

  ghost predicate PageReady(before: seq<Row>, start: nat, page: seq<Row>) {
    IdsIncrease(before) && PageAt(before, start, page)
  }

  /** Reclassify one row. */
  method ReclassifyRow(g: Grammar, remote: seq<RemoteRule>, storage: S.Storage, row: Row, w: Walk,
                       ghost before: seq<Row>, ghost k: nat)
    returns (w': Walk)
    requires RowReady(before, k, row)
    requires Walked(g, remote, before, storage.rows, k, w)
    modifies storage`rows
    ensures Walked(g, remote, before, storage.rows, k + 1, w')
  {
    PartialStep(g, remote, before, k);
    w' := w;
    var parsed := g.parse(row.content.raw);
    if parsed.None? {
      return w.(unmatched := w.unmatched + 1);
    }
    var event := RecogniseLine(g, remote, parsed.value);
    if event.None? {
      return w.(unmatched := w.unmatched + 1);
    }
    match event.value {
      case Classified(PlanetTerrainLoad(_, planet)) => w' := w'.(zone := Some(planet));
      case Classified(LocationInventoryRequested(_, _, location)) =>
        if location != "INVALID_LOCATION_ID" {
          w' := w'.(zone := Some(location));
        }
      case _ =>
    }
    var enriched := Enrich(event.value, w'.zone);
    if TypeOf(enriched) != row.content.etype || TimestampOf(enriched) != row.content.timestamp
       || enriched != row.content.payload {
      PartialKeepsIds(g, remote, before, k);
      UpdateAt(storage.rows, k, enriched);
      storage.UpdateEventClassification(row.id, enriched);
      w' := w'.(updated := w'.updated + 1);
    }
  }

  lemma PageRow(before: seq<Row>, start: nat, page: seq<Row>, i: nat)
    requires PageReady(before, start, page) && i < |page|
    ensures RowReady(before, start + i, page[i])
  {
    assert page[i] in page;
  }

  method ReclassifyPage(g: Grammar, remote: seq<RemoteRule>, storage: S.Storage, page: seq<Row>, w: Walk,
                        ghost before: seq<Row>, ghost start: nat)
    returns (w': Walk)
    requires PageReady(before, start, page)
    requires Walked(g, remote, before, storage.rows, start, w)
    modifies storage`rows
    ensures Walked(g, remote, before, storage.rows, start + |page|, w')
  {
    w' := w;
    for i := 0 to |page|
      invariant Walked(g, remote, before, storage.rows, start + i, w')
    {
      PageRow(before, start, page, i);
      w' := ReclassifyRow(g, remote, storage, page[i], w', before, start + i);
    }
  }

  /** The paged walk over the whole table. */
  method ReclassifyAll(g: Grammar, remote: seq<RemoteRule>, storage: S.Storage, batchSize: nat)
    returns (examined: nat, updated: nat, unmatched: nat)
    requires storage.Valid() && batchSize >= 1
    modifies storage`rows
    ensures storage.Valid()
    ensures storage.rows == RowsAfter(g, remote, old(storage.rows))
    ensures examined == |old(storage.rows)|
    ensures updated == Changed(g, remote, old(storage.rows), |old(storage.rows)|)
    ensures unmatched == Unmatched(g, remote, old(storage.rows), |old(storage.rows)|)
  {
    ghost var before := storage.rows;
    var w;
    examined, w := WalkPages(g, remote, storage, batchSize);
    updated, unmatched := w.updated, w.unmatched;
    assert Partial(g, remote, before, |before|) == RowsAfter(g, remote, before);
    RowsAfterValid(g, remote, Table(before, storage.nextId));
  }

  method WalkPages(g: Grammar, remote: seq<RemoteRule>, storage: S.Storage, batchSize: nat) returns (examined: nat, w: Walk)
    requires Stored(storage.rows) && batchSize >= 1
    modifies storage`rows
    ensures examined == |old(storage.rows)|
    ensures Walked(g, remote, old(storage.rows), storage.rows, examined, w)
  {
    ghost var before := storage.rows;
    w, examined := Walk(None, 0, 0), 0;
    var lastId, more := 0, true;
    assert before[0..] == before;
    while more
      invariant examined <= |before| && (!more ==> examined == |before|)
      invariant lastId == S.LastId(before, examined)
      invariant Walked(g, remote, before, storage.rows, examined, w)
      decreases |before| - examined, more
    {
      more, examined, lastId, w := WalkPage(g, remote, storage, batchSize, examined, lastId, w, before);
    }
  }

  /** One turn of the paging loop: read a page, stop if it is empty, otherwise rewrite it. */
  method WalkPage(g: Grammar, remote: seq<RemoteRule>, storage: S.Storage, batchSize: nat, examined: nat, lastId: nat, w: Walk,
                  ghost before: seq<Row>)
    returns (more: bool, examined': nat, lastId': nat, w': Walk)
    requires Stored(before) && batchSize >= 1 && examined <= |before| && lastId == S.LastId(before, examined)
    requires Walked(g, remote, before, storage.rows, examined, w)
    modifies storage`rows
    ensures examined <= examined' <= |before| && (if more then examined < examined' else examined' == |before|)
    ensures lastId' == S.LastId(before, examined')
    ensures Walked(g, remote, before, storage.rows, examined', w')
  {
    var page := ReadPage(g, remote, storage, lastId, batchSize, before, examined, w);
    if page == [] {
      return false, examined, lastId, w;
    }
    w' := ReclassifyPage(g, remote, storage, page, w, before, examined);
    more, examined', lastId' := true, examined + |page|, page[|page| - 1].id;
  }

  /** Fetch the next page, with the lock held only for the read. */
  method ReadPage(g: Grammar, remote: seq<RemoteRule>, storage: S.Storage, lastId: nat, batchSize: nat,
                  ghost before: seq<Row>, ghost k: nat, ghost w: Walk)
    returns (page: seq<Row>)
    requires Stored(before) && Walked(g, remote, before, storage.rows, k, w) && lastId == S.LastId(before, k) && batchSize >= 1
    ensures PageAt(before, k, page)
    ensures page == [] ==> k == |before|
    ensures page != [] ==> page[|page| - 1].id == S.LastId(before, k + |page|)
  {
    NextPage(g, remote, before, k, batchSize);
    page := S.Prefix(S.Unsent(storage.rows, lastId), batchSize);
  }

  lemma RowsAfterValid(g: Grammar, remote: seq<RemoteRule>, t: Table)
    requires ValidTable(t)
    ensures ValidTable(t.(rows := RowsAfter(g, remote, t.rows)))
  {
    var after := RowsAfter(g, remote, t.rows);
    forall r | r in after
      ensures 0 < r.id < t.nextId && Consistent(r.content)
    {
      var i :| 0 <= i < |after| && after[i] == r;
      assert t.rows[i] in t.rows;
    }
  }

  // ----- what the walk amounts to -----

  lemma SameRaws(g: Grammar, remote: seq<RemoteRule>, rows: seq<Row>, i: nat)
    requires i < |rows|
    ensures var after := RowsAfter(g, remote, rows);
            && after[i].id == rows[i].id && after[i].key == rows[i].key
            && after[i].content.raw == rows[i].content.raw
            && after[i].content.source == rows[i].content.source && after[i].content.offset == rows[i].content.offset
  {
  }

  lemma {:induction false} SameZones(g: Grammar, remote: seq<RemoteRule>, rows: seq<Row>, n: nat)
    requires n <= |rows|
    ensures ZoneAfter(g, remote, RowsAfter(g, remote, rows), n) == ZoneAfter(g, remote, rows, n)
  {
    if n > 0 {
      SameRaws(g, remote, rows, n - 1);
      SameZones(g, remote, rows, n - 1);
    }
  }

  /** A second walk with the same rules changes no row and reports no update. */
  lemma SecondWalkIsIdle(g: Grammar, remote: seq<RemoteRule>, rows: seq<Row>)
    ensures var after := RowsAfter(g, remote, rows);
            RowsAfter(g, remote, after) == after && Changed(g, remote, after, |after|) == 0
  {
    var after := RowsAfter(g, remote, rows);
    forall i | 0 <= i < |rows|
      ensures RowAfter(g, remote, after, i) == after[i]
    {
      SameRaws(g, remote, rows, i);
      SameZones(g, remote, rows, i + 1);
    }
    NothingChanged(g, remote, after, |after|);
  }

  lemma {:induction false} NothingChanged(g: Grammar, remote: seq<RemoteRule>, rows: seq<Row>, n: nat)
    requires n <= |rows| && forall i :: 0 <= i < n ==> RowAfter(g, remote, rows, i) == rows[i]
    ensures Changed(g, remote, rows, n) == 0
  {
    if n > 0 {
      NothingChanged(g, remote, rows, n - 1);
    }
  }

  /**
   Row by row: an unmatched row is untouched; a matched death or incapacitation without a zone of
   its own carries the zone of the latest signal at or before it, and every other matched row is
   simply what it classifies to.
   */
  lemma WalkIsDeclarative(g: Grammar, remote: seq<RemoteRule>, rows: seq<Row>, i: nat, j: nat)
    requires i < |rows|
    ensures var after, event := RowsAfter(g, remote, rows)[i], RecogniseText(g, remote, rows[i].content.raw);
            && (event.None? ==> after == rows[i])
            && (event.Some? && j <= i && LatestSignal(g, remote, rows, i, j) ==>
                  after.content.payload == Enrich(event.value, SignalAt(g, remote, rows, j)))
            && (event.Some? && (forall k :: 0 <= k <= i ==> SignalAt(g, remote, rows, k).None?) ==>
                  after.content.payload == Enrich(event.value, None))
  {
    ZoneAfterIsLatestSignal(g, remote, rows, i);
  }

  /** The event says which zone the player is in. */
  predicate Places(event: GameEvent, zone: string) {
    && event.Classified?
    && ((event.event.PlanetTerrainLoad? && event.event.planet == zone)
        || (event.event.LocationInventoryRequested? && event.event.location == zone && zone != "INVALID_LOCATION_ID"))
  }

  /** Row `i` reads as the event. */
  ghost predicate Reads(g: Grammar, remote: seq<RemoteRule>, rows: seq<Row>, i: nat, event: GameEvent) {
    i < |rows| && RecogniseText(g, remote, rows[i].content.raw) == Some(event)
  }

  ghost predicate PlacesAt(g: Grammar, remote: seq<RemoteRule>, rows: seq<Row>, k: nat, zone: string) {
    exists event :: Reads(g, remote, rows, k, event) && Places(event, zone)
  }

  /** Row `j` is the last up to row `i` that says where the player is, and it says `zone`. */
  ghost predicate LastPlaced(g: Grammar, remote: seq<RemoteRule>, rows: seq<Row>, i: nat, j: nat, zone: string) {
    && j <= i && PlacesAt(g, remote, rows, j, zone)
    && forall k: nat, z :: j < k <= i ==> !PlacesAt(g, remote, rows, k, z)
  }

  ghost predicate NeverPlaced(g: Grammar, remote: seq<RemoteRule>, rows: seq<Row>, i: nat) {
    forall k: nat, z :: k <= i ==> !PlacesAt(g, remote, rows, k, z)
  }

  lemma SignalPlaces(g: Grammar, remote: seq<RemoteRule>, rows: seq<Row>, k: nat)
    requires k < |rows|
    ensures SignalAt(g, remote, rows, k).None? <==> forall z :: !PlacesAt(g, remote, rows, k, z)
    ensures forall z :: SignalAt(g, remote, rows, k) == Some(z) <==> PlacesAt(g, remote, rows, k, z)
  {
    var read := RecogniseText(g, remote, rows[k].content.raw);
    forall z
      ensures SignalAt(g, remote, rows, k) == Some(z) <==> PlacesAt(g, remote, rows, k, z)
    {
      if read.Some? {
        assert Reads(g, remote, rows, k, read.value);
      }
    }
    if SignalAt(g, remote, rows, k).Some? {
      assert PlacesAt(g, remote, rows, k, SignalAt(g, remote, rows, k).value);
    }
  }

  lemma ZoneIsLastPlaced(g: Grammar, remote: seq<RemoteRule>, rows: seq<Row>, i: nat)
    requires i < |rows|
    ensures forall j: nat, zone :: LastPlaced(g, remote, rows, i, j, zone) ==> ZoneAfter(g, remote, rows, i + 1) == Some(zone)
    ensures NeverPlaced(g, remote, rows, i) ==> ZoneAfter(g, remote, rows, i + 1) == None
  {
    ZoneAfterIsLatestSignal(g, remote, rows, i);
    forall k: nat | k <= i
      ensures SignalAt(g, remote, rows, k).None? <==> forall z :: !PlacesAt(g, remote, rows, k, z)
      ensures forall z :: SignalAt(g, remote, rows, k) == Some(z) <==> PlacesAt(g, remote, rows, k, z)
    {
      SignalPlaces(g, remote, rows, k);
    }
    forall j: nat, zone | LastPlaced(g, remote, rows, i, j, zone)
      ensures ZoneAfter(g, remote, rows, i + 1) == Some(zone)
    {
      assert LatestSignal(g, remote, rows, i, j);
    }
  }

  /** What row `i` holds after the walk, whatever it reads as. */
  ghost predicate EndsAs(g: Grammar, remote: seq<RemoteRule>, rows: seq<Row>, i: nat, event: GameEvent)
    requires i < |rows|
  {
    var c, was := RowsAfter(g, remote, rows)[i].content, rows[i].content;
    && c.payload == event && c.etype == TypeOf(event) && c.timestamp == TimestampOf(event)
    && c.raw == was.raw && c.source == was.source && c.offset == was.offset
  }

  /**
   The walk in terms of events alone: a death or incapacitation that reads without a zone gets the
   one named by the last planet load or valid inventory location up to it, or stays without if
   there is none; one that reads with a zone keeps it; every other event is stored as it reads.
   */
  lemma {:induction false} DeathsGetTheirZone(g: Grammar, remote: seq<RemoteRule>, rows: seq<Row>, i: nat, j: nat, zone: string,
                                              t: string, c: string, b: string, q: nat, known: string)
    requires i < |rows|
    ensures LastPlaced(g, remote, rows, i, j, zone) ==>
              && (Reads(g, remote, rows, i, Classified(PlayerDeath(t, c, b, None))) ==>
                    EndsAs(g, remote, rows, i, Classified(PlayerDeath(t, c, b, Some(zone)))))
              && (Reads(g, remote, rows, i, Classified(PlayerIncapacitated(t, q, None))) ==>
                    EndsAs(g, remote, rows, i, Classified(PlayerIncapacitated(t, q, Some(zone)))))
    ensures NeverPlaced(g, remote, rows, i) ==>
              && (Reads(g, remote, rows, i, Classified(PlayerDeath(t, c, b, None))) ==>
                    EndsAs(g, remote, rows, i, Classified(PlayerDeath(t, c, b, None))))
              && (Reads(g, remote, rows, i, Classified(PlayerIncapacitated(t, q, None))) ==>
                    EndsAs(g, remote, rows, i, Classified(PlayerIncapacitated(t, q, None))))
    ensures Reads(g, remote, rows, i, Classified(PlayerDeath(t, c, b, Some(known)))) ==>
              EndsAs(g, remote, rows, i, Classified(PlayerDeath(t, c, b, Some(known))))
    ensures Reads(g, remote, rows, i, Classified(PlayerIncapacitated(t, q, Some(known)))) ==>
              EndsAs(g, remote, rows, i, Classified(PlayerIncapacitated(t, q, Some(known))))
  {
    ZoneIsLastPlaced(g, remote, rows, i);
  }

  lemma OtherEventsAsRead(g: Grammar, remote: seq<RemoteRule>, rows: seq<Row>, i: nat, event: GameEvent)
    requires i < |rows|
    ensures Reads(g, remote, rows, i, event)
            && (event.Classified? ==> !event.event.PlayerDeath? && !event.event.PlayerIncapacitated?) ==>
              EndsAs(g, remote, rows, i, event)
    ensures (forall e :: !Reads(g, remote, rows, i, e)) ==> RowsAfter(g, remote, rows)[i] == rows[i]
  {
    if RecogniseText(g, remote, rows[i].content.raw).Some? {
      assert Reads(g, remote, rows, i, RecogniseText(g, remote, rows[i].content.raw).value);
    }
  }

  ghost predicate Differs(g: Grammar, remote: seq<RemoteRule>, rows: seq<Row>, i: nat) {
    i < |rows| && RowsAfter(g, remote, rows)[i] != rows[i]
  }

  ghost function ChangedRows(g: Grammar, remote: seq<RemoteRule>, rows: seq<Row>, n: nat): set<nat> {
    set i | 0 <= i < n && Differs(g, remote, rows, i)
  }

  ghost function UnreadRows(g: Grammar, remote: seq<RemoteRule>, rows: seq<Row>, n: nat): set<nat>
    requires n <= |rows|
  {
    set i | 0 <= i < n && RecogniseText(g, remote, rows[i].content.raw).None?
  }

  lemma DiffersIs(g: Grammar, remote: seq<RemoteRule>, rows: seq<Row>, i: nat)
    requires i < |rows|
    ensures Differs(g, remote, rows, i) <==> RowAfter(g, remote, rows, i) != rows[i]
  {
  }

  /** The first counter counts the rows whose content differs afterwards. */
  lemma {:induction false} ChangedIsCount(g: Grammar, remote: seq<RemoteRule>, rows: seq<Row>, n: nat)
    requires n <= |rows|
    ensures Changed(g, remote, rows, n) == |ChangedRows(g, remote, rows, n)|
  {
    if n > 0 {
      ChangedIsCount(g, remote, rows, n - 1);
      DiffersIs(g, remote, rows, n - 1);
      OneMore(ChangedRows(g, remote, rows, n - 1), ChangedRows(g, remote, rows, n), n - 1, Differs(g, remote, rows, n - 1));
    }
  }

  /** The second counts the rows that read as nothing. */
  lemma {:induction false} UnmatchedIsCount(g: Grammar, remote: seq<RemoteRule>, rows: seq<Row>, n: nat)
    requires n <= |rows|
    ensures Unmatched(g, remote, rows, n) == |UnreadRows(g, remote, rows, n)|
  {
    if n > 0 {
      UnmatchedIsCount(g, remote, rows, n - 1);
      OneMore(UnreadRows(g, remote, rows, n - 1), UnreadRows(g, remote, rows, n), n - 1,
              RecogniseText(g, remote, rows[n - 1].content.raw).None?);
    }
  }

  /**
   The walk also visits burst summaries, whose raw line is the anchor line. A summary is kept
   exactly when its anchor line does not classify; otherwise it is overwritten by that one line.
   */
  lemma SummaryKeptIffAnchorUnmatched(g: Grammar, remote: seq<RemoteRule>, rows: seq<Row>, i: nat)
    requires i < |rows| && rows[i].content.etype == TBurstSummary
    ensures RowsAfter(g, remote, rows)[i] == rows[i] <==> RecogniseText(g, remote, rows[i].content.raw).None?
    ensures RowsAfter(g, remote, rows)[i].content.etype == TBurstSummary
            <==> RecogniseText(g, remote, rows[i].content.raw).None?
  {
  }
}
