/**
 The noise list, the samples of unknown events, and phase 2 of a re-parse, which promotes samples
 that classify by now.
 */
module Unknowns {
  import opened Prelude
  import opened Keys
  import opened Grammar
  import opened EventTable
  import opened Ingest
  import S = Storage

  // ----- opening the store -----

  const DEFAULT_NOISE := [
    "StatObjLoad 0x800 Format",
    "CContextEstablisherStepStart",
    "ContextEstablisherTaskFinished",
    "Context Establisher Blocked",
    "Context Establisher Unblocked",
    "Context Establisher Done",
    "ContextEstablisher Model Change State",
    "ContextEstablisher State Change Delivery Result",
    "ContextEstablisher Send State Change",
    "ContextEstablisher Remote Change State Success",
    "CSCLoadingPlatformManager::TransitionLightGroupState",
    "CSCLoadingPlatformManager::LoadEntitiesReference",
    "CSCLoadingPlatformManager::LoadEntitiesReference::<lambda_1>::operator ()",
    "CSCLoadingPlatformManager::OnLoadingPlatformStateChanged",
    "CSCLoadingPlatformManager::StopEffectForAllTags",
    "CSCLoadingPlatformManager::loadEntityFromXML::<lambda_1>::operator ()",
    "LoadingPlatformUtilities::LoadFromXmlNode",
    "Update group cache",
    "SerializedOverwrite",
    "RegisterUniverseHierarchy_End",
    "ReuseChannel",
    "Stream started",
    "[BuildingBlocks] Invalid Url",
    "ProximitySensorMakingLocalHelper" ]

  /** SQL `LIKE` ignores the case of ASCII letters. */
  predicate Like(name: string, part: string) {
    Contains(Upper(name), Upper(part))
  }

  /** Shipped entries whose captured form is obsolete. */
  predicate ObsoleteBuiltin(name: string) {
    Like(name, "::<lambda") && !Like(name, "operator ()")
  }

  /** Samples an older parser truncated. */
  predicate Malformed(name: string) {
    Like(name, "::<lambda") && !(name != "" && name[|name| - 1] == '>')
  }

  /** `part` occurs in `name`, in any case of letters. */
  ghost predicate OccursInAnyCase(name: string, part: string) {
    exists before, middle, after :: name == before + middle + after && SameButForCase(middle, part)
  }

  lemma LikeIff(name: string, part: string)
    ensures Like(name, part) <==> OccursInAnyCase(name, part)
  {
    ContainsIff(Upper(name), Upper(part));
    if before, after :| Upper(name) == before + Upper(part) + after {
      UpperParts(name, |before|, |before| + |part|);
      UpperIff(name[|before|..|before| + |part|], part);
    }
    if before, middle, after :| name == before + middle + after && SameButForCase(middle, part) {
      UpperIff(middle, part);
      assert Upper(name) == Upper(before) + Upper(part) + Upper(after);
    }
  }

  lemma UpperParts(name: string, i: nat, j: nat)
    requires i <= j <= |name|
    ensures name == name[..i] + name[i..j] + name[j..]
    ensures Upper(name[i..j]) == Upper(name)[i..j]
  {
  }

  function AddIfAbsent(noise: map<string, string>, name: string, source: string): map<string, string> {
    if name in noise then noise else noise[name := source]
  }

  function SeedAll(noise: map<string, string>, names: seq<string>): map<string, string> {
    if names == [] then noise else AddIfAbsent(SeedAll(noise, names[..|names| - 1]), names[|names| - 1], "builtin")
  }

  function Seeded(noise: map<string, string>, names: seq<string>): map<string, string> {
    SeedAll(map n | n in noise && !(noise[n] == "builtin" && ObsoleteBuiltin(n)) :: noise[n], names)
  }

  function Purged(u: S.Unknowns, noise: map<string, string>): S.Unknowns {
    map k | k in u && k.1 !in noise && !Malformed(k.1) :: u[k]
  }

  function Opened(db: S.Db, names: seq<string>): S.Db {
    var noise := Seeded(db.noise, names);
    db.(noise := noise, unknowns := Purged(db.unknowns, noise))
  }

  /** Opening with the entries this version ships. */
  method Open(storage: S.Storage)
    requires storage.Valid()
    modifies storage
    ensures storage.Valid() && storage.State() == Opened(old(storage.State()), DEFAULT_NOISE)
  {
    OpenWith(storage, DEFAULT_NOISE);
  }

  /** An entry stays unless an earlier version shipped it with a lambda's name but not its operator. */
  ghost predicate KeptOnOpen(noise: map<string, string>, name: string) {
    && name in noise
    && !(noise[name] == "builtin" && OccursInAnyCase(name, "::<lambda") && !OccursInAnyCase(name, "operator ()"))
  }

  /** A lambda's name that was cut off. */
  ghost predicate CutOff(name: string) {
    OccursInAnyCase(name, "::<lambda") && (name == "" || name[|name| - 1] != '>')
  }

  lemma {:induction false} SeedAllIs(noise: map<string, string>, names: seq<string>, name: string)
    ensures name in SeedAll(noise, names) <==> name in noise || name in names
    ensures name in SeedAll(noise, names) ==> SeedAll(noise, names)[name] == if name in noise then noise[name] else "builtin"
  {
    if names != [] {
      assert names == names[..|names| - 1] + [names[|names| - 1]];
      SeedAllIs(noise, names[..|names| - 1], name);
    }
  }

  /**
   After opening, the noise list holds the shipped names and every older entry that is not an
   obsolete built-in one; what a user added keeps its source.
   */
  lemma NoiseAfterOpen(db: S.Db, names: seq<string>, name: string)
    ensures name in Opened(db, names).noise <==> name in names || KeptOnOpen(db.noise, name)
    ensures name in Opened(db, names).noise ==>
              Opened(db, names).noise[name] == if KeptOnOpen(db.noise, name) then db.noise[name] else "builtin"
  {
    LikeIff(name, "::<lambda");
    LikeIff(name, "operator ()");
    SeedAllIs(map n | n in db.noise && !(db.noise[n] == "builtin" && ObsoleteBuiltin(n)) :: db.noise[n], names, name);
  }

  method OpenWith(storage: S.Storage, names: seq<string>)
    requires storage.Valid()
    modifies storage
    ensures storage.Valid() && storage.State() == Opened(old(storage.State()), names)
  {
    ghost var kept := map n | n in storage.noise && !(storage.noise[n] == "builtin" && ObsoleteBuiltin(n)) :: storage.noise[n];
    storage.noise := map n | n in storage.noise && !(storage.noise[n] == "builtin" && ObsoleteBuiltin(n)) :: storage.noise[n];
    for i := 0 to |names|
      invariant storage.noise == SeedAll(kept, names[..i])
      invariant storage.Valid()
      invariant storage.State() == old(storage.State()).(noise := storage.noise)
    {
      assert names[..i + 1][..i] == names[..i];
      if names[i] !in storage.noise {
        storage.noise := storage.noise[names[i] := "builtin"];
      }
    }
    assert names[..|names|] == names;
    storage.unknowns := map k | k in storage.unknowns && k.1 !in storage.noise && !Malformed(k.1) :: storage.unknowns[k];
  }

  function WithNoise(db: S.Db, name: string, source: string): S.Db {
    db.(noise := AddIfAbsent(db.noise, name, source),
        unknowns := map k | k in db.unknowns && k.1 != name :: db.unknowns[k])
  }

  method AddNoise(storage: S.Storage, name: string, source: string)
    requires storage.Valid()
    modifies storage
    ensures storage.Valid() && storage.State() == WithNoise(old(storage.State()), name, source)
  {
    if name !in storage.noise {
      storage.noise := storage.noise[name := source];
    }
    storage.unknowns := map k | k in storage.unknowns && k.1 != name :: storage.unknowns[k];
  }

  // ----- phase 2 -----

  type SampleId = (string, string)

  /** The list phase 2 walks: every sample once, in whatever order the query returns them. */
  ghost predicate Enumerates(order: seq<SampleId>, u: S.Unknowns) {
    && (forall k :: k in order <==> k in u)
    && forall i, j :: 0 <= i < j < |order| ==> order[i] != order[j]
  }

  function PromotionOp(id: SampleId, line: string, event: GameEvent): Op {
    Op(ReparseKey(id.0, line), Serialised(event, line, id.0, 0))
  }

  /** Does the sample's line classify by now? */
  predicate Promotable(g: Grammar, remote: seq<RemoteRule>, u: S.Unknowns, id: SampleId) {
    id in u && RecogniseText(g, remote, u[id].line).Some?
  }

  /** The insertions phase 2 makes for the first samples of the list. */
  function PromotionOps(g: Grammar, remote: seq<RemoteRule>, u: S.Unknowns, order: seq<SampleId>): seq<Op> {
    if order == [] then []
    else
      var init, last := order[..|order| - 1], order[|order| - 1];
      PromotionOps(g, remote, u, init) +
        if Promotable(g, remote, u, last) then [PromotionOp(last, u[last].line, RecogniseText(g, remote, u[last].line).value)] else []
  }

  /** The samples left after those of `order` that classify were promoted. */
  function Remaining(g: Grammar, remote: seq<RemoteRule>, u: S.Unknowns, order: seq<SampleId>): S.Unknowns {
    map k | k in u && !(k in order && Promotable(g, remote, u, k)) :: u[k]
  }

  function Promoted(g: Grammar, remote: seq<RemoteRule>, db: S.Db, order: seq<SampleId>): S.Db {
    db.(events := InsertAll(db.events, PromotionOps(g, remote, db.unknowns, order)),
        unknowns := Remaining(g, remote, db.unknowns, order))
  }

  lemma PromotedStep(g: Grammar, remote: seq<RemoteRule>, db: S.Db, order: seq<SampleId>, i: nat)
    requires i < |order|
    ensures var before, after := Promoted(g, remote, db, order[..i]), Promoted(g, remote, db, order[..i + 1]);
            if Promotable(g, remote, db.unknowns, order[i]) then
              var line := db.unknowns[order[i]].line;
              after == before.(
                events := Insert(before.events, PromotionOp(order[i], line, RecogniseText(g, remote, line).value)),
                unknowns := before.unknowns - {order[i]})
            else after == before
  {
    var u, shorter, longer := db.unknowns, order[..i], order[..i + 1];
    assert longer[..i] == shorter && longer == shorter + [order[i]];
    if Promotable(g, remote, u, order[i]) {
      var ops := PromotionOps(g, remote, u, shorter);
      var op := PromotionOp(order[i], u[order[i]].line, RecogniseText(g, remote, u[order[i]].line).value);
      assert (ops + [op])[..|ops|] == ops;
      assert Remaining(g, remote, u, longer) == Remaining(g, remote, u, shorter) - {order[i]};
    } else {
      assert PromotionOps(g, remote, u, longer) == PromotionOps(g, remote, u, shorter);
      assert Remaining(g, remote, u, longer) == Remaining(g, remote, u, shorter);
    }
  }

  lemma PromotedCount(g: Grammar, remote: seq<RemoteRule>, u: S.Unknowns, order: seq<SampleId>, i: nat)
    requires i < |order|
    ensures |PromotionOps(g, remote, u, order[..i + 1])|
            == |PromotionOps(g, remote, u, order[..i])| + if Promotable(g, remote, u, order[i]) then 1 else 0
  {
    assert order[..i + 1][..i] == order[..i];
  }

  ghost function PromotableAt(g: Grammar, remote: seq<RemoteRule>, u: S.Unknowns, order: seq<SampleId>): set<nat> {
    set i | 0 <= i < |order| && Promotable(g, remote, u, order[i])
  }

  /** The report counts the samples whose line classifies by now. */
  lemma {:induction false} PromotedIsCount(g: Grammar, remote: seq<RemoteRule>, u: S.Unknowns, order: seq<SampleId>)
    ensures |PromotionOps(g, remote, u, order)| == |PromotableAt(g, remote, u, order)|
  {
    if order != [] {
      var n := |order| - 1;
      PromotedIsCount(g, remote, u, order[..n]);
      OneMore(PromotableAt(g, remote, u, order[..n]), PromotableAt(g, remote, u, order), n, Promotable(g, remote, u, order[n]));
    }
  }

  /** Promote one sample if its line classifies. */
  method PromoteOne(g: Grammar, remote: seq<RemoteRule>, storage: S.Storage, id: SampleId, line: string) returns (promoted: bool)
    requires storage.Valid()
    modifies storage
    ensures storage.Valid() && promoted == RecogniseText(g, remote, line).Some?
    ensures storage.State() ==
            if promoted then
              old(storage.State()).(
                events := Insert(old(storage.State()).events, PromotionOp(id, line, RecogniseText(g, remote, line).value)),
                unknowns := old(storage.unknowns) - {id})
            else old(storage.State())
  {
    var parsed := g.parse(line);
    if parsed.None? {
      return false;
    }
    var event := RecogniseLine(g, remote, parsed.value);
    if event.None? {
      return false;
    }
    storage.InsertEvent(PromotionOp(id, line, event.value));
    storage.DeleteUnknown(id.0, id.1);
    return true;
  }

  method PromoteUnknowns(g: Grammar, remote: seq<RemoteRule>, storage: S.Storage, order: seq<SampleId>) returns (promoted: nat)
    requires storage.Valid() && Enumerates(order, storage.unknowns)
    modifies storage
    ensures storage.Valid() && storage.State() == Promoted(g, remote, old(storage.State()), order)
    ensures promoted == |PromotionOps(g, remote, old(storage.unknowns), order)|
  {
    ghost var saved := storage.State();
    var samples := storage.unknowns;
    promoted := 0;
    assert Remaining(g, remote, samples, order[..0]) == samples;
    for i := 0 to |order|
      invariant storage.Valid()
      invariant storage.State() == Promoted(g, remote, saved, order[..i])
      invariant promoted == |PromotionOps(g, remote, samples, order[..i])|
    {
      assert order[i] in samples;
      PromotedStep(g, remote, saved, order, i);
      PromotedCount(g, remote, samples, order, i);
      var yes := PromoteOne(g, remote, storage, order[i], samples[order[i]].line);
      promoted := promoted + if yes then 1 else 0;
    }
    assert order[..|order|] == order;
  }

  /** After phase 2 exactly the samples whose line does not classify are left. */
  lemma PromotionIsComplete(g: Grammar, remote: seq<RemoteRule>, db: S.Db, order: seq<SampleId>)
    requires Enumerates(order, db.unknowns)
    ensures var after := Promoted(g, remote, db, order);
            && (forall id :: id in after.unknowns <==> id in db.unknowns && RecogniseText(g, remote, db.unknowns[id].line).None?)
            && (forall id :: id in after.unknowns ==> after.unknowns[id] == db.unknowns[id])
            && (forall id :: id in db.unknowns && id !in after.unknowns ==>
                  ReparseKey(id.0, db.unknowns[id].line) in Contents(after.events.rows))
  {
    InsertAllGrows(db.events, PromotionOps(g, remote, db.unknowns, order));
    forall id | Promotable(g, remote, db.unknowns, id)
      ensures ReparseKey(id.0, db.unknowns[id].line) in Contents(Promoted(g, remote, db, order).events.rows)
    {
      PromotableHasOp(g, remote, db.unknowns, order, id);
    }
  }

  lemma {:induction false} PromotableHasOp(g: Grammar, remote: seq<RemoteRule>, u: S.Unknowns, order: seq<SampleId>, id: SampleId)
    requires id in order && Promotable(g, remote, u, id)
    ensures PromotionOp(id, u[id].line, RecogniseText(g, remote, u[id].line).value) in PromotionOps(g, remote, u, order)
  {
    var init, last := order[..|order| - 1], order[|order| - 1];
    assert order == init + [last];
    if id != last {
      PromotableHasOp(g, remote, u, init, id);
    }
  }

  lemma {:induction false} NothingToPromote(g: Grammar, remote: seq<RemoteRule>, u: S.Unknowns, order: seq<SampleId>)
    requires forall id :: id in u ==> !Promotable(g, remote, u, id)
    ensures PromotionOps(g, remote, u, order) == []
  {
    if order != [] {
      NothingToPromote(g, remote, u, order[..|order| - 1]);
    }
  }

  /** A second phase 2 with the same rules, in any order, changes nothing and promotes nothing. */
  lemma SecondPromotionIsIdle(g: Grammar, remote: seq<RemoteRule>, db: S.Db, order: seq<SampleId>, order': seq<SampleId>)
    requires Enumerates(order, db.unknowns) && Enumerates(order', Promoted(g, remote, db, order).unknowns)
    ensures var after := Promoted(g, remote, db, order);
            Promoted(g, remote, after, order') == after && PromotionOps(g, remote, after.unknowns, order') == []
  {
    var after := Promoted(g, remote, db, order);
    PromotionIsComplete(g, remote, db, order);
    NothingToPromote(g, remote, after.unknowns, order');
    assert Remaining(g, remote, after.unknowns, order') == after.unknowns;
  }

  // ----- noise and unknowns never overlap -----

  ghost predicate Quiet(db: S.Db) {
    forall k :: k in db.unknowns ==> k.1 !in db.noise
  }

  datatype Step =
    | OpenStore(names: seq<string>)
    | AddNoiseEntry(name: string, source: string)
    | IngestEntry(remote: seq<RemoteRule>, entry: LogEntry)
    | Promote(remote: seq<RemoteRule>, order: seq<SampleId>)

  function Next(g: Grammar, db: S.Db, step: Step): S.Db {
    match step
    case OpenStore(names) => Opened(db, names)
    case AddNoiseEntry(name, source) => WithNoise(db, name, source)
    case IngestEntry(remote, entry) => IngestLine(g, remote, db, entry)
    case Promote(remote, order) => Promoted(g, remote, db, order)
  }

  function Run(g: Grammar, db: S.Db, steps: seq<Step>): S.Db {
    if steps == [] then db else Next(g, Run(g, db, steps[..|steps| - 1]), steps[|steps| - 1])
  }

  lemma {:induction false} QuietRun(g: Grammar, db: S.Db, steps: seq<Step>)
    requires Quiet(db)
    ensures Quiet(Run(g, db, steps))
  {
    if steps != [] {
      QuietRun(g, db, steps[..|steps| - 1]);
    }
  }

  /** Once the store was opened, in every run no sample's name is on the noise list. */
  lemma {:induction false} NoNoisySamples(g: Grammar, db: S.Db, names: seq<string>, steps: seq<Step>)
    ensures var now := Run(g, Opened(db, names), steps);
            forall k :: k in now.unknowns ==> k.1 !in now.noise
  {
    assert Quiet(Opened(db, names));
    QuietRun(g, Opened(db, names), steps);
  }

  /**
   Ingest asks about noise and records the sample in two separate store calls. Recording keeps
   the invariant exactly when the name is not noise at that very moment; an entry added between
   the two calls therefore leaves a noisy sample behind.
   */
  lemma RecordingKeepsQuietIff(db: S.Db, source: string, name: string, line: string, body: string)
    requires Quiet(db)
    ensures Quiet(db.(unknowns := S.RecordUnknown(db.unknowns, source, name, line, body))) <==> name !in db.noise
    ensures var noisy := WithNoise(db, name, "user");
            !Quiet(noisy.(unknowns := S.RecordUnknown(noisy.unknowns, source, name, line, body)))
  {
    var u := S.RecordUnknown(db.unknowns, source, name, line, body);
    assert (source, name) in u;
    var noisy := WithNoise(db, name, "user");
    assert (source, name) in S.RecordUnknown(noisy.unknowns, source, name, line, body);
  }

  // ----- which samples there are -----

  /** Reading the entry with these rules and this noise list is a sighting of an unknown event. */
  ghost predicate Sighted(g: Grammar, remote: seq<RemoteRule>, noise: map<string, string>, e: LogEntry, id: SampleId) {
    && e.source == id.0 && id.1 !in noise
    && g.parse(e.text).Some? && g.parse(e.text).value.eventName == Some(id.1)
    && RecogniseText(g, remote, e.text).None?
  }

  /** Step `k` of the run reads such a line. */
  ghost predicate SightedAt(g: Grammar, db: S.Db, steps: seq<Step>, id: SampleId, k: nat) {
    && k < |steps| && steps[k].IngestEntry?
    && Sighted(g, steps[k].remote, Run(g, db, steps[..k]).noise, steps[k].entry, id)
  }

  /** The step takes the sample away: its name is noise from then on or malformed, or its line classifies. */
  ghost predicate Clears(g: Grammar, db: S.Db, step: Step, id: SampleId) {
    match step
    case OpenStore(names) => id.1 in names || KeptOnOpen(db.noise, id.1) || CutOff(id.1)
    case AddNoiseEntry(name, _) => name == id.1
    case IngestEntry(_, _) => false
    case Promote(remote, order) =>
      id in db.unknowns && id in order && RecogniseText(g, remote, db.unknowns[id].line).Some?
  }

  ghost predicate ClearedAt(g: Grammar, db: S.Db, steps: seq<Step>, id: SampleId, k: nat) {
    k < |steps| && Clears(g, Run(g, db, steps[..k]), steps[k], id)
  }

  /** From step `c` on, no step takes the sample away. */
  ghost predicate NeverCleared(g: Grammar, db: S.Db, steps: seq<Step>, id: SampleId, c: nat) {
    forall k: nat :: c <= k ==> !ClearedAt(g, db, steps, id, k)
  }

  ghost function Sightings(g: Grammar, db: S.Db, steps: seq<Step>, id: SampleId, c: nat): set<nat> {
    set k | c <= k < |steps| && SightedAt(g, db, steps, id, k)
  }

  ghost predicate LastSighting(g: Grammar, db: S.Db, steps: seq<Step>, id: SampleId, k: nat) {
    SightedAt(g, db, steps, id, k) && forall j :: k < j < |steps| ==> !SightedAt(g, db, steps, id, j)
  }

  /** What one step does to one sample. */
  lemma OneStep(g: Grammar, db: S.Db, step: Step, id: SampleId)
    ensures var before, after := db.unknowns, Next(g, db, step).unknowns;
            if step.IngestEntry? && Sighted(g, step.remote, db.noise, step.entry, id) then
              id in after && SampleOf(g, step.entry.text, (if id in before then before[id].occurrences else 0) + 1, after[id])
            else if Clears(g, db, step, id) then id !in after
            else (id in after <==> id in before) && (id in after ==> after[id] == before[id])
  {
    match step {
      case OpenStore(names) =>
        NoiseAfterOpen(db, names, id.1);
        LikeIff(id.1, "::<lambda");
      case AddNoiseEntry(name, _) =>
      case IngestEntry(remote, entry) =>
      case Promote(remote, order) =>
    }
  }

  lemma SamePrefix(g: Grammar, db: S.Db, steps: seq<Step>, id: SampleId)
    requires steps != []
    ensures var init := steps[..|steps| - 1];
            forall k: nat :: k < |init| ==>
              && (SightedAt(g, db, steps, id, k) <==> SightedAt(g, db, init, id, k))
              && (ClearedAt(g, db, steps, id, k) <==> ClearedAt(g, db, init, id, k))
  {
    var init := steps[..|steps| - 1];
    assert forall k: nat :: k < |init| ==> steps[..k] == init[..k] && steps[k] == init[k];
  }

  /** The sample holds this whole line, the body the line parses to, and a count of `n`. */
  ghost predicate SampleOf(g: Grammar, text: string, n: nat, sample: S.Sample) {
    && sample.line == text && sample.occurrences == n
    && g.parse(text).Some? && sample.body == g.parse(text).value.body
  }

  /** The sample is that of the last sighting, step `k`, and counts `n` of them. */
  ghost predicate Shows(g: Grammar, db: S.Db, steps: seq<Step>, id: SampleId, n: nat, k: nat) {
    && LastSighting(g, db, steps, id, k)
    && id in Run(g, db, steps).unknowns
    && SampleOf(g, steps[k].entry.text, n, Run(g, db, steps).unknowns[id])
  }

  /** A sample is there exactly when its event was sighted, and shows the last sighting and how many. */
  ghost predicate SampleShows(g: Grammar, db: S.Db, steps: seq<Step>, id: SampleId, seen: set<nat>) {
    && (id in Run(g, db, steps).unknowns <==> seen != {})
    && (seen != {} ==> exists k :: k in seen && Shows(g, db, steps, id, |seen|, k))
  }

  ghost predicate SampleIs(g: Grammar, db: S.Db, steps: seq<Step>, id: SampleId, c: nat) {
    SampleShows(g, db, steps, id, Sightings(g, db, steps, id, c))
  }

  /**
   In any run of opening, noise entries, ingest and promotion: from a point where there is no
   sample of an event, and until a step takes it away, its sample carries the text and the body of
   the last line that was neither recognised nor noise when it was read, and the number of them.
   */
  lemma {:induction false} SampleIsLastSighting(g: Grammar, db: S.Db, steps: seq<Step>, id: SampleId, c: nat)
    requires c <= |steps| && id !in Run(g, db, steps[..c]).unknowns
    requires NeverCleared(g, db, steps, id, c)
    ensures SampleIs(g, db, steps, id, c)
  {
    if c == |steps| {
      assert steps[..c] == steps;
      assert Sightings(g, db, steps, id, c) == {};
    } else {
      assert steps[..|steps| - 1][..c] == steps[..c];
      NotClearedBefore(g, db, steps, id, c);
      SampleIsLastSighting(g, db, steps[..|steps| - 1], id, c);
      SampleStep(g, db, steps, id, c);
    }
  }

  lemma NotClearedBefore(g: Grammar, db: S.Db, steps: seq<Step>, id: SampleId, c: nat)
    requires steps != [] && NeverCleared(g, db, steps, id, c)
    ensures NeverCleared(g, db, steps[..|steps| - 1], id, c)
  {
    var init := steps[..|steps| - 1];
    SamePrefix(g, db, steps, id);
    forall k: nat | c <= k
      ensures !ClearedAt(g, db, init, id, k)
    {
      assert !ClearedAt(g, db, steps, id, k);
    }
  }

  lemma SampleStep(g: Grammar, db: S.Db, steps: seq<Step>, id: SampleId, c: nat)
    requires c < |steps| && SampleIs(g, db, steps[..|steps| - 1], id, c) && !ClearedAt(g, db, steps, id, |steps| - 1)
    ensures SampleIs(g, db, steps, id, c)
  {
    var n := |steps| - 1;
    MoreSightings(g, db, steps, id, c);
    if SightedAt(g, db, steps, id, n) {
      SampleSeen(g, db, steps, id, Sightings(g, db, steps[..n], id, c), Sightings(g, db, steps, id, c));
    } else {
      SampleNotSeen(g, db, steps, id, Sightings(g, db, steps, id, c));
    }
  }

  lemma MoreSightings(g: Grammar, db: S.Db, steps: seq<Step>, id: SampleId, c: nat)
    requires c < |steps|
    ensures var fewer, more := Sightings(g, db, steps[..|steps| - 1], id, c), Sightings(g, db, steps, id, c);
            if SightedAt(g, db, steps, id, |steps| - 1) then |more| == |fewer| + 1 && |steps| - 1 in more else more == fewer
  {
    var n := |steps| - 1;
    SamePrefix(g, db, steps, id);
    OneMore(Sightings(g, db, steps[..n], id, c), Sightings(g, db, steps, id, c), n, SightedAt(g, db, steps, id, n));
  }

  lemma SampleNotSeen(g: Grammar, db: S.Db, steps: seq<Step>, id: SampleId, seen: set<nat>)
    requires steps != [] && SampleShows(g, db, steps[..|steps| - 1], id, seen)
    requires !SightedAt(g, db, steps, id, |steps| - 1) && !ClearedAt(g, db, steps, id, |steps| - 1)
    ensures SampleShows(g, db, steps, id, seen)
  {
    StaysOrNot(g, db, steps, id);
    if seen != {} {
      var k :| k in seen && Shows(g, db, steps[..|steps| - 1], id, |seen|, k);
      StillShows(g, db, steps, id, |seen|, k);
    }
  }

  lemma StaysOrNot(g: Grammar, db: S.Db, steps: seq<Step>, id: SampleId)
    requires steps != [] && !SightedAt(g, db, steps, id, |steps| - 1) && !ClearedAt(g, db, steps, id, |steps| - 1)
    ensures id in Run(g, db, steps).unknowns <==> id in Run(g, db, steps[..|steps| - 1]).unknowns
  {
    OneStep(g, Run(g, db, steps[..|steps| - 1]), steps[|steps| - 1], id);
  }

  lemma SampleSeen(g: Grammar, db: S.Db, steps: seq<Step>, id: SampleId, fewer: set<nat>, more: set<nat>)
    requires steps != [] && SampleShows(g, db, steps[..|steps| - 1], id, fewer) && SightedAt(g, db, steps, id, |steps| - 1)
    requires |more| == |fewer| + 1 && |steps| - 1 in more
    ensures SampleShows(g, db, steps, id, more)
  {
    var n := |steps| - 1;
    OneStep(g, Run(g, db, steps[..n]), steps[n], id);
    assert Shows(g, db, steps, id, |more|, n);
  }

  lemma StillShows(g: Grammar, db: S.Db, steps: seq<Step>, id: SampleId, count: nat, k: nat)
    requires steps != [] && Shows(g, db, steps[..|steps| - 1], id, count, k)
    requires !SightedAt(g, db, steps, id, |steps| - 1) && !ClearedAt(g, db, steps, id, |steps| - 1)
    ensures Shows(g, db, steps, id, count, k)
  {
    var n := |steps| - 1;
    var init := steps[..n];
    SamePrefix(g, db, steps, id);
    OneStep(g, Run(g, db, init), steps[n], id);
    assert init[k] == steps[k];
  }

  /** A step that takes a sample away leaves none, which is where counting starts again. */
  lemma ClearedIsGone(g: Grammar, db: S.Db, steps: seq<Step>, id: SampleId, k: nat)
    requires ClearedAt(g, db, steps, id, k)
    ensures id !in Run(g, db, steps[..k + 1]).unknowns
  {
    assert steps[..k + 1][..k] == steps[..k];
    OneStep(g, Run(g, db, steps[..k]), steps[k], id);
  }

  function IngestSteps(remote: seq<RemoteRule>, entries: seq<LogEntry>): (steps: seq<Step>)
    ensures |steps| == |entries|
  {
    seq(|entries|, i requires 0 <= i < |entries| => IngestEntry(remote, entries[i]))
  }

  lemma {:induction false} IngestIsRun(g: Grammar, remote: seq<RemoteRule>, db: S.Db, entries: seq<LogEntry>)
    ensures Run(g, db, IngestSteps(remote, entries)) == IngestAll(g, remote, db, entries)
  {
    if entries != [] {
      var init, steps := entries[..|entries| - 1], IngestSteps(remote, entries);
      assert steps[..|steps| - 1] == IngestSteps(remote, init);
      IngestIsRun(g, remote, db, init);
    }
  }

  ghost function Unrecognised(g: Grammar, remote: seq<RemoteRule>, noise: map<string, string>, entries: seq<LogEntry>, id: SampleId): set<nat> {
    set i | 0 <= i < |entries| && Sighted(g, remote, noise, entries[i], id)
  }

  lemma SightingsOfIngest(g: Grammar, remote: seq<RemoteRule>, db: S.Db, entries: seq<LogEntry>, id: SampleId)
    ensures Sightings(g, db, IngestSteps(remote, entries), id, 0) == Unrecognised(g, remote, db.noise, entries, id)
    ensures forall k: nat :: !ClearedAt(g, db, IngestSteps(remote, entries), id, k)
  {
    var steps := IngestSteps(remote, entries);
    forall k: nat | k < |steps|
      ensures SightedAt(g, db, steps, id, k) <==> Sighted(g, remote, db.noise, entries[k], id)
    {
      assert steps[..k] == IngestSteps(remote, entries[..k]);
      IngestIsRun(g, remote, db, entries[..k]);
      IngestAllEvents(g, remote, db, entries[..k]);
    }
  }

  /** Ingest into a store without samples leaves, per source and name, the last unrecognised line and their number. */
  lemma SamplesOfIngest(g: Grammar, remote: seq<RemoteRule>, db: S.Db, entries: seq<LogEntry>, id: SampleId)
    requires id !in db.unknowns
    ensures var after, seen := IngestAll(g, remote, db, entries).unknowns, Unrecognised(g, remote, db.noise, entries, id);
            && (id in after <==> seen != {})
            && (id in after ==>
                  exists i :: i in seen && (forall j :: j in seen ==> j <= i) && SampleOf(g, entries[i].text, |seen|, after[id]))
  {
    var steps := IngestSteps(remote, entries);
    IngestIsRun(g, remote, db, entries);
    SightingsOfIngest(g, remote, db, entries, id);
    SampleIsLastSighting(g, db, steps, id, 0);
    var seen := Sightings(g, db, steps, id, 0);
    if seen != {} {
      var i :| i in seen && Shows(g, db, steps, id, |seen|, i);
      assert steps[i].entry == entries[i];
      assert forall j :: j in seen ==> SightedAt(g, db, steps, id, j) && j <= i;
    }
  }

  // ----- from a sample to its row -----

  /** A row for the sampled line: keyed on it, holding it, and read by these rules. */
  ghost predicate RowOfSample(g: Grammar, remote: seq<RemoteRule>, source: string, line: string, r: Row) {
    && r.key == UuidV5("reparse:" + source + ":" + line)
    && r.content.raw == line && r.content.source == source && r.content.offset == 0
    && Some(r.content.payload) == RecogniseText(g, remote, line)
    && r.content.etype == TypeOf(r.content.payload) && r.content.timestamp == TimestampOf(r.content.payload)
  }

  ghost predicate SourcesColonFree(u: S.Unknowns) {
    forall id :: id in u ==> ColonFree(id.0)
  }

  lemma {:induction false} PromotionOpHasSample(g: Grammar, remote: seq<RemoteRule>, u: S.Unknowns, order: seq<SampleId>, op: Op)
    requires op in PromotionOps(g, remote, u, order)
    ensures exists id :: Promotable(g, remote, u, id) && op == PromotionOp(id, u[id].line, RecogniseText(g, remote, u[id].line).value)
  {
    var init, last := order[..|order| - 1], order[|order| - 1];
    if op in PromotionOps(g, remote, u, init) {
      PromotionOpHasSample(g, remote, u, init, op);
    } else {
      assert Promotable(g, remote, u, last);
    }
  }

  lemma PromotionOpsAgree(g: Grammar, remote: seq<RemoteRule>, u: S.Unknowns, order: seq<SampleId>)
    requires SourcesColonFree(u)
    ensures Agree(PromotionOps(g, remote, u, order))
  {
    var ops := PromotionOps(g, remote, u, order);
    forall a, b | a in ops && b in ops && a.key == b.key
      ensures a.content == b.content
    {
      PromotionOpHasSample(g, remote, u, order, a);
      PromotionOpHasSample(g, remote, u, order, b);
      var x :| Promotable(g, remote, u, x) && a == PromotionOp(x, u[x].line, RecogniseText(g, remote, u[x].line).value);
      var y :| Promotable(g, remote, u, y) && b == PromotionOp(y, u[y].line, RecogniseText(g, remote, u[y].line).value);
      ReparseKeyInjective(x.0, u[x].line, y.0, u[y].line);
    }
  }

  ghost predicate Promotes(g: Grammar, remote: seq<RemoteRule>, before: S.Db, after: S.Db, id: SampleId, line: string) {
    && id !in after.unknowns
    && (ReparseKey(id.0, line) !in Contents(before.events.rows) ==>
          exists r :: r in after.events.rows && RowOfSample(g, remote, id.0, line, r))
  }

  /** A sample whose line classifies by now goes, and unless its key is taken its line gets its own row. */
  lemma SampleBecomesRow(g: Grammar, remote: seq<RemoteRule>, db: S.Db, order: seq<SampleId>, id: SampleId)
    requires ValidTable(db.events) && SourcesColonFree(db.unknowns) && Enumerates(order, db.unknowns)
    requires Promotable(g, remote, db.unknowns, id)
    ensures Promotes(g, remote, db, Promoted(g, remote, db, order), id, db.unknowns[id].line)
  {
    var u, after := db.unknowns, Promoted(g, remote, db, order);
    var ops, op := PromotionOps(g, remote, u, order), PromotionOp(id, u[id].line, RecogniseText(g, remote, u[id].line).value);
    PromotableHasOp(g, remote, u, order, id);
    PromotionOpsAgree(g, remote, u, order);
    InsertAllIsPutAll(db.events, ops);
    if op.key !in Contents(db.events.rows) {
      NewEntry(Contents(db.events.rows), ops, op);
      PromotedValid(g, remote, db, order);
      ContentIsRow(after.events.rows, op.key);
      var r :| r in after.events.rows && r.key == op.key && r.content == op.content;
      assert RowOfSample(g, remote, id.0, u[id].line, r);
    }
  }

  lemma PromotedValid(g: Grammar, remote: seq<RemoteRule>, db: S.Db, order: seq<SampleId>)
    requires ValidTable(db.events)
    ensures ValidTable(Promoted(g, remote, db, order).events)
  {
    var ops := PromotionOps(g, remote, db.unknowns, order);
    forall op | op in ops
      ensures Consistent(op.content)
    {
      PromotionOpHasSample(g, remote, db.unknowns, order, op);
    }
    InsertAllValid(db.events, ops);
  }

  /** Sources are channel names, which hold no colon. */
  ghost predicate Sound(db: S.Db) {
    ValidTable(db.events) && SourcesColonFree(db.unknowns)
  }

  ghost predicate StepsSourced(steps: seq<Step>) {
    forall step :: step in steps && step.IngestEntry? ==> ColonFree(step.entry.source)
  }

  lemma {:induction false} RunIsSound(g: Grammar, db: S.Db, steps: seq<Step>)
    requires Sound(db) && StepsSourced(steps)
    ensures Sound(Run(g, db, steps))
  {
    if steps != [] {
      var init, last := steps[..|steps| - 1], steps[|steps| - 1];
      assert last in steps;
      RunIsSound(g, db, init);
      NextIsSound(g, Run(g, db, init), last);
    }
  }

  lemma NextIsSound(g: Grammar, db: S.Db, step: Step)
    requires Sound(db) && (step.IngestEntry? ==> ColonFree(step.entry.source))
    ensures Sound(Next(g, db, step))
  {
    match step {
      case OpenStore(_) =>
      case AddNoiseEntry(_, _) =>
      case IngestEntry(remote, e) =>
        var event := RecogniseText(g, remote, e.text);
        if event.Some? {
          InsertValid(db.events, LineOp(e, event.value));
        }
      case Promote(remote, order) => PromotedValid(g, remote, db, order);
    }
  }

  /**
   The life of an unknown line: if it was the last of its event to be read unrecognised and later
   rules recognise it, promotion stores that very line, as those rules read it.
   */
  lemma LastSightingIsPromoted(g: Grammar, db: S.Db, steps: seq<Step>, id: SampleId, c: nat, k: nat,
                               remote: seq<RemoteRule>, order: seq<SampleId>)
    requires Sound(db) && StepsSourced(steps)
    requires c <= |steps| && id !in Run(g, db, steps[..c]).unknowns
    requires NeverCleared(g, db, steps, id, c)
    requires c <= k && LastSighting(g, db, steps, id, k)
    requires Enumerates(order, Run(g, db, steps).unknowns) && RecogniseText(g, remote, steps[k].entry.text).Some?
    ensures var before := Run(g, db, steps);
            Promotes(g, remote, before, Promoted(g, remote, before, order), id, steps[k].entry.text)
  {
    var before := Run(g, db, steps);
    RunIsSound(g, db, steps);
    SampleIsLastSighting(g, db, steps, id, c);
    var seen := Sightings(g, db, steps, id, c);
    assert k in seen;
    var j :| j in seen && Shows(g, db, steps, id, |seen|, j);
    assert j == k;
    SampleBecomesRow(g, remote, before, order, id);
  }
}
