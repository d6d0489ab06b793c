# The tray client's event pipeline, verified

A Dafny model of what the StarStats tray client does with a game log between the file on disk and
the ingest server: the resumable tailer, the event store, burst collapsing (live and retroactive),
the re-parse command, the upload worker, the health surface and the cache of unknown line shapes.
`dafny verify dfyconfig.toml` checks all of it.

## How to read it

Operations that change things in place are methods and classes (`Storage.Storage`,
`ProcessBuffer.TailStats`, `Sync.SyncStats`, `Health.Config`, `UnknownShapes.UnknownLineStore`),
each proved against a function of the old state; the theorems are lemmas about those functions.
Protocols that interleave (`TailRuns`, `SyncRuns`) are state machines over atomic steps, and their
theorems speak about every run.

| module | what it holds |
|---|---|
| `Keys`, `Grammar`, `Bursts`, `Detection` | idempotency keys, recognition of lines, burst detection and what characterises its result |
| `EventTable`, `Storage` | the events table as a value, the store as an object |
| `Ingest`, `ProcessBuffer`, `IngestLaws`, `CrashReplays`, `UniformBuffers` | one line, one drained buffer, laws about them, replay after a crash, buffers that are one burst |
| `Tail`, `TailRuns`, `Backfill` | cutting a growing file into lines, whole runs, archived logs |
| `Reclassify`, `Unknowns`, `Collapse`, `CollapseRun`, `CollapseLaws`, `Reparse` | the three phases of a re-parse and the whole |
| `CollapseEquivalence`, `SecondPass` | collapsing before storing equals storing before collapsing; why one pass is not enough |
| `PassEvents`, `Representation`, `Vanishing` | what a pass does to keys, which lines the store stands for over whole runs, how a re-parse can empty it |
| `Sync`, `SyncRuns`, `SyncFate` | one upload, every interleaving of uploads, the fate of deleted and rewritten rows |
| `Health`, `UnknownShapes` | the health surface, the shape cache |

## Hypotheses

- Every store call is one atomic, successful step, as all calls share one mutex
  (`crates/starstats-client/src/storage.rs:27`). Row ids only increase and are never reused, as
  `AUTOINCREMENT` promises (`crates/starstats-client/sql/schema.sql:5`).
- UUIDv5 (section 5.5 of RFC 9562) is injective: `Key` is a free constructor over the hashed text.
  That the hashed texts differ is proved.
- The structural parser, the built-in classifier, the clipping of an anchor body and the regular
  expressions of remote rules are arbitrary total functions. By its type the classifier yields
  neither a remote match nor a burst summary.
- Serialisation is total and lossless: the payload column holds the event itself, the `type` tag is
  one constructor per kind of event, and a health fingerprint is the parameters it encodes.
- Text is a sequence of UTF-8 code units, one per byte, so lengths are byte offsets. Offsets, ids
  and counters are unbounded, so saturating additions are plain ones.
- Between drains a tailed file only grows, and reads inside a drain succeed.
- `CollapseBeforeEqualsAfter` speaks of one source, increasing offsets, rules of size two or more
  and buffers in which every line that parses also classifies.

## Where code and documentation disagree

The model follows the code; each point has a lemma.

- Remote rules: "the first match" is really the first rule whose anchor matches, even if its
  expression then fails (`Grammar.DocumentedReadingHolds`, `Grammar.AnchoredMissHidesLaterRule`).
- A second retroactive pass is called a strict no-op. It is one exactly when no source holds a
  burst any more, which one pass does not ensure (`CollapseLaws.PassIsNoOpIffSettled`,
  `SecondPass.SecondPassFindsMore`); repeated passes get there (`CollapseLaws.PassesSettle`).
- A crash while flushing is said to re-emit the same summary. That holds when the same bytes are
  drained again (`IngestLaws.CrashReplay`). When the log grew meanwhile it holds exactly if the
  grown log still shows the same bursts (`CrashReplays.CrashReplayOfGrownLog`), and a burst that
  itself grew leaves two summaries (`UniformBuffers.GrowthDuplicatesSummary`).
- Skipping burst summaries is attended to in phase 3 only; phase 1 rewrites a summary whose anchor
  line classifies (`Reclassify.SummaryKeptIffAnchorUnmatched`).
- A timeline row marked synced need not have been sent: it may be deleted between the two reads
  (`SyncFate.SyncedRowAnsweredIff` says exactly when it was sent). What a re-parse rewrites below
  the cursor is sent again only if a worker from before the cursor passed it is still at large
  (`SyncFate.RewrittenRowSentIff`).
- Deleting members is said never to delete the summary, whose key is called different from any
  member's. It need not be: a live burst's summary that phase 1 has overwritten is an ordinary row
  under a burst key, and phase 3 can take it for a member of a burst with that very key. The
  summary is then not inserted and the members go all the same (`PassEvents.KeyAfterHit`). Five
  notifications can leave an empty store (`Vanishing.FiveNotificationsVanish`). Phase 1 loses the
  lines behind every summary it overwrites, phase 3 loses rows exactly when a burst is blocked in
  this way (`Representation.ReparseKeepsRowsIff`), and `Representation.AllStandIffAllSafe` says for
  whole runs exactly when every recognised line stays represented.
- A lost token is said to stop uploads until the user pairs again. The flag is kept in memory only
  and the account check sets it either way, so a restart or a good answer to that check lets
  workers go on too (`SyncFate.CheckPassesIff`).
- The schema's notes say a submitted shape stops collecting samples; it does not
  (`UnknownShapes.SubmittedStillCollects`).

## Model

| member | source | states |
|---|---|---|
| `Keys.DecimalInjective` | `crates/starstats-client/src/gamelog.rs:472-477` | two offsets print alike only if they are equal |
| `Keys.LineKeyInjective` | `crates/starstats-client/src/gamelog.rs:472-477` | two line keys agree iff source, offset and line all agree, for all lines, including lines with colons |
| `Keys.ReparseKeyInjective` | `crates/starstats-client/src/commands.rs:1134-1138` | two promotion keys agree iff source and sample line agree |
| `Keys.ReparseKeyDisjoint` | `crates/starstats-client/src/commands.rs:1134-1138` | the promotion key space and the tail key space never meet |
| `Keys.BurstLineInjective` | `crates/starstats-client/src/gamelog.rs:288-289` | anchor line, rule id and size can be read back from the synthetic burst line unless one rule id ends in the burst marker followed by the other |
| `Keys.NestedIdsCollide` | `crates/starstats-client/src/gamelog.rs:288-289` | every such pair of nested ids does collide, on any anchor line and at any size, so the condition is exact |
| `Keys.BarFreeNeverNests` | `crates/starstats-client/src/burst_rules.rs:41-96` | an id without a bar, as all shipped ids are, never ends in the burst marker and another id, so shipped rules never collide |
| `Keys.SameAnchorBurstLine` | `crates/starstats-client/src/gamelog.rs:283-289` | on one anchor line rule id and size can always be read back, whatever the ids contain |
| `Keys.BurstKeyInjective` | `crates/starstats-client/src/commands.rs:970-974` | two burst keys agree iff source, offset, anchor line, rule and size agree, for equal anchor lines or ids that do not nest |
| `Keys.BurstKeyVersusLineKey` | `crates/starstats-client/src/gamelog.rs:288-289` | a burst key meets a line key iff the line at the anchor's own offset literally reads like the synthetic line; never the anchor line's own key |
| `Keys.SourceName` | `crates/starstats-client/src/sync.rs:353-362` | every source name is free of colons and is not `reparse`, which is what the key lemmas need |
| `Keys.ParseSource` | `crates/starstats-client/src/sync.rs:353-362` | parsing a printed source gives the source back |
| `Keys.ReplayKeepsKeyIff` | `crates/starstats-client/src/gamelog.rs:442-477` | a line of a log moved into another directory keeps its key, and so deduplicates on replay, iff that directory is called `Logs` or names the same channel |
| `Keys.KeyTexts` | `crates/starstats-client/src/gamelog.rs:472-477` | the hashed texts, literally: source, offset in decimal without leading zeros, line; the burst marker with rule and size behind the anchor line; and the promotion form |
| `Keys.SourceIsChannel` | `crates/starstats-client/src/gamelog.rs:440-465` | a log's source is the channel its directory names in any case of letters, or the one above when it lies in `Logs`, and `other` when there is none |
| `Grammar.ApplyRemoteRules` | `crates/starstats-core/src/parser_defs.rs:130-155` | the loop over rules, with its early return and its field loop, computes `RemoteEvent` |
| `Grammar.RemoteEventOfFirstAnchored` | `crates/starstats-core/src/parser_defs.rs:130-155` | the outcome depends only on the first rule whose anchor matches; without one there is none |
| `Grammar.RemoteEventIs` | `crates/starstats-core/src/parser_defs.rs:130-155` | in terms of line and rules: the first rule whose event name equals the line's or occurs in its body decides; its event carries the line's timestamp, the rule's id and name, and exactly the listed fields that were captured; without a capture, or without such a rule, there is none |
| `Grammar.DocumentedReadingHolds` | `crates/starstats-core/src/parser_defs.rs:123-155` | "the first match" as documented is what the code returns iff the first anchored rule matches or no later anchored rule does |
| `Grammar.AnchoredMissHidesLaterRule` | `crates/starstats-core/src/parser_defs.rs:140` | a concrete pair of rules, narrow first as the documentation advises, where the second is never tried |
| `Grammar.RecogniseLine` | `crates/starstats-client/src/gamelog.rs:384-387` | built-in classifier first, remote rules only when it is silent |
| `Grammar.RecognisedAs` | `crates/starstats-client/src/gamelog.rs:384-387` | an unparsed line is nothing, a classified one is what the classifier says, any other what the remote rules say |
| `Grammar.TagsTellKindsApart` | `crates/starstats-client/src/gamelog.rs:479-489` | two events carry the same type tag iff they are of the same kind |
| `Bursts.DetectBursts` | `crates/starstats-core/src/templates.rs:273-348` | the array-based scan over all rules computes `BurstsOf` |
| `Bursts.ScanOneRule` | `crates/starstats-core/src/templates.rs:280-341` | one rule's scan, with its skip past each burst, computes `ScanRule` and leaves exactly those slots claimed |
| `Bursts.Claim` | `crates/starstats-core/src/templates.rs:326-328` | exactly the members' slots become claimed |
| `Bursts.WalkRun` | `crates/starstats-core/src/templates.rs:297-323` | the inner walk with its gap budget computes `RunMembers` and where it stopped |
| `Bursts.RunIsGreedy` | `crates/starstats-core/src/templates.rs:294-323` | the run holds every eligible line up to its last member, no gap inside exceeds the budget, and past its end an over-long gap or the end of the window follows |
| `Bursts.RunIsTheGreedyRun` | `crates/starstats-core/src/templates.rs:294-323` | that description has exactly one solution, the run the walk collects |
| `Bursts.BurstsAreGood` | `crates/starstats-core/src/templates.rs:268-271` | all hits lie in range, members strictly increase from start to end, hits are pairwise disjoint and in strictly increasing order, and none is below the minimum size of its rule |
| `Detection.BurstsAreTheDetection` | `crates/starstats-core/src/templates.rs:268-348` | a list of hits is the result iff its starts strictly increase and it holds exactly what the rules find taking turns, each among the slots no earlier rule claimed: first rule wins, no run is split or cut short, none is missed |
| `Detection.ScanIsTheFind` | `crates/starstats-core/src/templates.rs:280-341` | what one rule finds is exactly characterised: whole runs of sufficient size, each starting behind the stretch of the one before, with no such run left outside the stretches |
| `Detection.RunStopIs` | `crates/starstats-core/src/templates.rs:297-323` | the walk stops one over-long gap past its last member or at the end of the window |
| `Bursts.SizesAtLeast` | `crates/starstats-core/src/templates.rs:325` | no hit is smaller than the smallest minimum size |
| `Bursts.ScanRuleComplete` | `crates/starstats-core/src/templates.rs:281-341` | no burst is missed: an anchor still unclaimed after a rule's scan starts a run that is too short or lies inside the stretch of a burst found |
| `Bursts.UniformBurst` | `crates/starstats-core/src/templates.rs:268-271` | a long enough window all of whose lines one rule takes, and on which no earlier rule anchors, is exactly one burst of that rule, whatever rules follow |
| `Bursts.LineMatchesIff` | `crates/starstats-core/src/templates.rs:63-79` | a line meets a step iff its event name equals, its body starts with or contains the text asked for, and it carries every tag of the rule |
| `Bursts.BurstLinesMatch` | `crates/starstats-core/src/templates.rs:268-348` | every burst comes from a rule of the list: at least its minimum size, all members carry all its tags, the first meets the anchor step and every later one the member step, spelled out |
| `Bursts.UntaggedLineInNoBurst` | `crates/starstats-core/src/templates.rs:73-77` | a line that lacks a tag of every rule is in no burst |
| `Bursts.MatchingLinesAreABurst` | `crates/starstats-core/src/templates.rs:268-348` | the converse: a long enough window whose lines have the event name and the tags one rule asks for, and on which no earlier rule anchors, is exactly one burst of it |
| `Bursts.ShippedRules` | `crates/starstats-client/src/burst_rules.rs:41-96` | the four shipped rules: event names, tags, least sizes and gaps |
| `Bursts.UntaggedAttachmentsStay` | `crates/starstats-client/src/burst_rules.rs:41-56` | attachment lines without the inventory tag are collapsed by no shipped rule, however many |
| `Bursts.BuiltinRulesAreSafe` | `crates/starstats-client/src/burst_rules.rs:41-96` | the shipped rules have minimum size three or more and ids that cannot nest |
| `SecondPass.SecondPassFindsMore` | `crates/starstats-client/src/commands.rs:846-960` | with the shipped rules and six lines ingested singly, the first pass collapses one burst and the second pass over the table it leaves collapses another: the second is not the strict no-op the comment promises |
| `EventTable.InsertValid` | `crates/starstats-client/src/storage.rs:234-264` | insertion keeps ids increasing, keys unique and type and timestamp columns in step with the payload |
| `EventTable.RowIsContent` | `crates/starstats-client/sql/schema.sql:4-14` | with unique keys every row is the map entry of its key |
| `EventTable.InsertAllIsPutAll` | `crates/starstats-client/src/storage.rs:243-250` | the table behaves as a first-writer-wins map under any list of insertions |
| `EventTable.PutAllOrderInsensitive` | `crates/starstats-client/src/storage.rs:243-250` | agreeing insertions in any order and with any repetitions give one and the same map |
| `EventTable.PutAllSubset` | `crates/starstats-client/src/storage.rs:243-250` | more agreeing insertions keep every entry of fewer |
| `EventTable.ReplayAfterPrefix` | `crates/starstats-client/src/storage.rs:241-250` | running a list of insertions again after any prefix of it was run gives the very table, ids included, of running it once |
| `EventTable.ReplayWithOtherOps` | `crates/starstats-client/src/storage.rs:241-250` | a replay with other insertions adds no key iff each early key was stored before or is inserted again |
| `EventTable.ReplayOfSameRows` | `crates/starstats-client/src/storage.rs:241-250` | it changes no row either iff each early insertion was void or is made again as it was |
| `EventTable.WithoutRows` | `crates/starstats-client/src/storage.rs:584-588` | deletion removes exactly the rows with the given ids |
| `EventTable.DeleteValid` | `crates/starstats-client/src/storage.rs:584-588` | deletion keeps order, uniqueness and column agreement |
| `Storage.UnsentSplit` | `crates/starstats-client/src/storage.rs:268-276` | the rows past any cursor are a suffix of the table, cut exactly at the cursor |
| `Storage.Storage.InsertEvent` | `crates/starstats-client/src/storage.rs:235-264` | the first writer of a key wins and gets a fresh id; nothing else changes |
| `Storage.Storage.ReadUnsent` | `crates/starstats-client/src/storage.rs:268-288` | the `limit` lowest rows past the id, in id order: a row past the id is left out only when the batch is full, and then lies behind all of it |
| `Storage.CursorIsLastSaved` | `crates/starstats-client/src/storage.rs:290-343` | after any sequence of cursor writes, reading a tail cursor or the sync cursor gives the last value saved for it, or what it was before if none was |
| `Storage.Storage.WriteSyncCursor` | `crates/starstats-client/src/storage.rs:303-317` | the singleton cursor is replaced, whatever its old value |
| `Storage.Storage.WriteCursor` | `crates/starstats-client/src/storage.rs:333-343` | upsert of one path's offset |
| `Storage.Storage.RecordUnknownSample` | `crates/starstats-client/src/storage.rs:368-387` | the first observation inserts, later ones count up and refresh the sample |
| `Storage.Storage.UpdateEventClassification` | `crates/starstats-client/src/storage.rs:529-542` | type, timestamp and payload of one row change; key, line, source and offset stay |
| `Storage.Storage.DeleteEventById` | `crates/starstats-client/src/storage.rs:584-588` | one id goes and the number of rows removed is returned |
| `Storage.Storage.DeleteUnknown` | `crates/starstats-client/src/storage.rs:594-602` | exactly the sample of that source and name goes |
| `Ingest.IngestOneLine` | `crates/starstats-client/src/gamelog.rs:377-438` | store and outcome of one line on every path: unparsed, noise, unknown, recognised |
| `Ingest.ProcessedEvents` | `crates/starstats-client/src/gamelog.rs:217-319` | on the events table a buffer is one list of insertions: summaries, then lines left over |
| `IngestLaws.BufferBecomesRows` | `crates/starstats-client/src/gamelog.rs:217-319` | each recognised line of a buffer that is in no burst becomes a row under its key with its text, place, event, type and timestamp, and each burst becomes a row describing it, unless the key was taken |
| `Unknowns.SampleIsLastSighting` | `crates/starstats-client/src/gamelog.rs:388-415` | in every run of opening, noise entries, ingest and promotion, from a point without a sample and until a step takes it away: a sample is there iff a line of that source and name was read, neither recognised nor noise then; it holds the whole text and the parsed body of the last such line and counts them |
| `Unknowns.ClearedIsGone` | `crates/starstats-client/src/storage.rs:190-232` | the steps that take a sample away, by name: its name is on the noise list after opening, is a cut-off lambda or is added as noise, or its line classifies at a promotion |
| `Unknowns.SamplesOfIngest` | `crates/starstats-client/src/storage.rs:364-387` | the same for plain ingest: into a store without a sample of the event, the last unrecognised line and their number |
| `ProcessBuffer.Process` | `crates/starstats-client/src/gamelog.rs:217-319` | the three passes leave the specified store and counters |
| `ProcessBuffer.CollectSuppressed` | `crates/starstats-client/src/gamelog.rs:249-254` | the suppressed set is exactly the buffer positions of burst members |
| `ProcessBuffer.EmitSummaries` | `crates/starstats-client/src/gamelog.rs:257-310` | one insertion and one recognised count per burst, in order |
| `ProcessBuffer.IngestLines` | `crates/starstats-client/src/gamelog.rs:312-318` | exactly the lines outside every burst are ingested, in order |
| `ProcessBuffer.SummaryDescribesItsBurst` | `crates/starstats-client/src/gamelog.rs:257-289` | a summary is keyed and placed at its burst's first line, spans first to last timestamp and counts exactly the member lines |
| `ProcessBuffer.CountersConserveLines` | `crates/starstats-client/src/gamelog.rs:321-349` | every line of a buffer lands in exactly one counter, except that a burst of `size` lines counts once |
| `ProcessBuffer.CountersOfBuffer` | `crates/starstats-client/src/gamelog.rs:321-349` | each counter on its own: the bursts and the lines in no burst that are read, noise, parsed only or not parsed; the last event named is that of the last such line read, else of the last burst |
| `IngestLaws.IngestOrderInsensitive` | `crates/starstats-client/src/gamelog.rs:377-438` | any reordering or repetition of the same (source, offset, line) triples gives the same key-to-content map |
| `IngestLaws.BufferOpsAgree` | `crates/starstats-client/src/gamelog.rs:217-319` | no two insertions of one buffer disagree about the content under a key |
| `IngestLaws.SummaryKeysDiffer` | `crates/starstats-client/src/gamelog.rs:283-289` | the summaries of one buffer have different keys even when rule ids contain colons |
| `IngestLaws.RemoteRulesOnlyAddRows` | `crates/starstats-client/src/gamelog.rs:384-387` | over a whole log drained in any chunks, the rows built without remote rules are there unchanged with them |
| `IngestLaws.BufferLineRepresented` | `crates/starstats-client/src/gamelog.rs:217-319` | a recognised line of a processed buffer has its own row or is a member of a burst whose summary is stored |
| `IngestLaws.CrashReplay` | `crates/starstats-client/src/gamelog.rs:187-201` | after a crash behind any prefix of a buffer's insertions, draining the same bytes again ends with the very table of a crash-free drain |
| `IngestLaws.CrashReplayOfOtherBytes` | `crates/starstats-client/src/gamelog.rs:187-201` | when the second drain reads any other bytes, its keys are the crash-free ones iff each early key was stored before or is inserted again |
| `CrashReplays.CrashReplayOfGrownLog` | `crates/starstats-client/src/gamelog.rs:213-216` | when the log has grown by the second drain, its keys are the crash-free ones iff detection on the grown log still finds each early burst with its anchor, rule and size and claims no early line, stored rows apart; its rows are iff those bursts also end at the same time |
| `UniformBuffers.UniformBufferOps` | `crates/starstats-client/src/gamelog.rs:217-319` | a buffer of lines one rule takes, on which no earlier rule anchors, becomes exactly one insertion, its summary, keyed at its first line |
| `UniformBuffers.GrowthDuplicatesSummary` | `crates/starstats-client/src/gamelog.rs:213-216` | whatever the rules and remote rules: a burst that grew on disk between crash and restart leaves two summaries, while a crash-free drain writes only the longer |
| `Tail.ReadCompleteLines` | `crates/starstats-client/src/gamelog.rs:171-185` | the read loop returns the complete lines with their byte offsets and stops past the last newline |
| `Tail.LinesAreTheFile` | `crates/starstats-client/src/gamelog.rs:171-185` | in terms of the bytes: the lines are the stretches between newlines, one after the other without a gap from the start offset to the end reported, each at the byte it starts at and with its text less all carriage returns and newlines at its end; no newline follows |
| `Prelude.TrimmedUnique` | `crates/starstats-client/src/gamelog.rs:183` | that a text and a tail of dropped characters make up the line, and the text ends in none of them, determines the text |
| `Tail.CarriageReturnGoes` | `crates/starstats-client/src/gamelog.rs:183` | a line with a Windows line end loses both bytes and nothing else |
| `Tail.DrainCases` | `crates/starstats-client/src/gamelog.rs:136-169` | a missing file or nothing new leaves everything, a file shorter than the offset is read from its first byte, otherwise reading goes on at the offset |
| `Tail.Drain` | `crates/starstats-client/src/gamelog.rs:122-203` | missing file, detected truncation, nothing new, partial last line: store, offset and counters in each case |
| `Tail.EndIsLastBoundary` | `crates/starstats-client/src/gamelog.rs:178-181` | a drain ends at a line boundary with no newline left behind it |
| `Tail.LinesResume` | `crates/starstats-client/src/gamelog.rs:171-185` | reading an older version of a file to its end and the newer one from there yields every line of the newer one once, with the same offsets |
| `TailRuns.RunInvariant` | `crates/starstats-client/src/gamelog.rs:122-203` | the three run invariants hold in every run of appends, drains, crashes mid-drain and restarts |
| `TailRuns.ScheduleIndependence` | `crates/starstats-client/src/gamelog.rs:122-203` | for any growth and schedule the buffers drained so far are the complete lines up to the saved offset, which is zero or just past a newline; a drain that sees the whole file completes them |
| `TailRuns.NoRecognisedLineVanishes` | `crates/starstats-client/src/gamelog.rs:217-319` | in every run each recognised line of a finished drain stays represented in the store |
| `TailRuns.CountersConserve` | `crates/starstats-client/src/gamelog.rs:187-199` | in every run lines processed = skipped + noise + structural-only + recognised + the sum of (size - 1) over emitted bursts |
| `TailRuns.FileIsWhatWasAppended` | `crates/starstats-client/src/gamelog.rs:122-203` | the file of a run is what was appended, whatever is drained, crashes or restarts |
| `TailRuns.LinesSinceRestart` | `crates/starstats-client/src/gamelog.rs:187-199` | in every run, the count of lines is that of the lines in the buffers drained since the program last started |
| `TailRuns.CrashLeavesPrefix` | `crates/starstats-client/src/gamelog.rs:187-203` | a crash mid-drain adds exactly the keys of the first insertions of the buffer the drain would have finished, up to where it died, and leaves the saved offset, from which the next start reads on |
| `TailRuns.BuffersWellFormed` | `crates/starstats-client/src/gamelog.rs:171-185` | in every run the drained buffers, put together, are lines of one source with strictly increasing offsets |
| `TailRuns.CrashFreeRunIsItsLog` | `crates/starstats-client/src/gamelog.rs:122-203` | a run without crashes, on any schedule, leaves the events of processing its buffers one after the other |
| `TailRuns.RemoteRulesOnlyAddOverRuns` | `crates/starstats-client/src/gamelog.rs:384-391` | over any run without crashes, every row stored without remote rules is stored unchanged with them |
| `Backfill.IngestFrom` | `crates/starstats-client/src/backfill.rs:166-198` | the per-line read loop shared by backfill and reingest: store, end offset, line and event counts |
| `Backfill.RecognisedIsCount` | `crates/starstats-client/src/backfill.rs:185-198` | the event count is the number of lines that read as an event |
| `Backfill.BackfillFile` | `crates/starstats-client/src/backfill.rs:135-216` | missing or already drained files only count as done; otherwise store, cursor and counters are those of ingesting from the cursor |
| `Backfill.ReingestFile` | `crates/starstats-client/src/commands.rs:1058-1110` | the whole file is ingested from offset zero and the cursor parked at its last line boundary |
| `Backfill.ResumeEqualsReingest` | `crates/starstats-client/src/backfill.rs:148-200` | a backfill resumed at a line boundary whose earlier lines are stored leaves the events and cursor of a reingest from zero |
| `Backfill.BackfillCanBeResumed` | `crates/starstats-client/src/backfill.rs:148-200` | a backfill resumed at a line boundary with its earlier lines stored leaves that very condition for the next one, also when the file has grown, so resumption stays right along any chain |
| `Backfill.BackfillsEqualOneIngest` | `crates/starstats-client/src/backfill.rs:135-216` | backfilling a file again and again while it grows, each time from the saved cursor, leaves the very events, ids included, of ingesting its final contents once |
| `Collapse.ScanIsTheQuery` | `crates/starstats-client/src/storage.rs:560-582` | a list is the scan of a source iff it holds exactly its rows by offset and, among equal offsets, by id |
| `Collapse.SourcesListed` | `crates/starstats-client/src/storage.rs:548-554` | the source list names exactly the sources that have a row, in strictly increasing order |
| `CollapseRun.DeleteEach` | `crates/starstats-client/src/commands.rs:946-954` | the members' rows go one by one and their number is counted |
| `CollapseRun.RunCollapse` | `crates/starstats-client/src/commands.rs:855-960` | the pass over all sources leaves the specified table and reports its true counters |
| `CollapseLaws.PassAccounts` | `crates/starstats-client/src/commands.rs:863-960` | only members are deleted, no summary is, non-members are untouched, only summaries are added, and rows after = rows before + new summaries - members suppressed |
| `CollapseLaws.WeightNeverGrows` | `crates/starstats-client/src/commands.rs:916-957` | the number of lines stood for never grows and is preserved iff every summary key was new |
| `CollapseLaws.PassIsNoOpIffNoHits` | `crates/starstats-client/src/commands.rs:855-960` | a pass leaves the table alone iff it reports no burst |
| `CollapseLaws.PassIsNoOpIffSettled` | `crates/starstats-client/src/commands.rs:846-854` | a pass leaves the table alone iff no stored source holds a burst when it starts |
| `CollapseLaws.PassShrinks` | `crates/starstats-client/src/commands.rs:946-957` | a pass that collapses anything removes at least the smallest minimum size of ordinary rows and adds none |
| `CollapseLaws.PassesSettle` | `crates/starstats-client/src/commands.rs:855-960` | repeated passes reach one that finds nothing within n / (smallest minimum size) passes |
| `CollapseEquivalence.CollapseBeforeEqualsAfter` | `crates/starstats-client/src/commands.rs:855-960` | collapsing a buffer before storing it and storing its lines singly before one retroactive pass give the same key-to-content map |
| `CollapseEquivalence.SameHits` | `crates/starstats-client/src/commands.rs:876-896` | the retroactive scan of the singly stored lines sees the live view and finds the live bursts |
| `CollapseEquivalence.SurvivesIffKept` | `crates/starstats-client/src/commands.rs:946-954` | a singly stored line is deleted iff live collapsing would have suppressed it |
| `Reclassify.ReclassifyAll` | `crates/starstats-client/src/commands.rs:737-802` | for every page size of at least one, the paged in-place walk leaves `RowsAfter` and reports true counts |
| `Reclassify.WalkPage` | `crates/starstats-client/src/storage.rs:477-520` | one page of the walk, read past the last id while earlier rows are already rewritten |
| `Reclassify.ReclassifyRow` | `crates/starstats-client/src/commands.rs:738-796` | one row: unmatched rows are counted and left, zone tracked before enrichment, rewritten only when something differs |
| `Reclassify.ZoneAfterIsLatestSignal` | `crates/starstats-client/src/commands.rs:757-766` | the running zone is the latest signal at or before the row, and absent iff there was none |
| `Reclassify.WalkIsDeclarative` | `crates/starstats-client/src/commands.rs:737-802` | row by row: unmatched untouched, a death or incapacitation gets the latest zone, every other row is what it classifies to |
| `Reclassify.DeathsGetTheirZone` | `crates/starstats-client/src/commands.rs:757-788` | in event constructors only: a death or incapacitation read without a zone is stored with the planet or valid location of the last row at or before it that reads as a terrain load or inventory request, and without one if there is none; a zone it reads with stays |
| `Reclassify.OtherEventsAsRead` | `crates/starstats-client/src/commands.rs:737-802` | any event that is neither a death nor an incapacitation is stored as read; a row that reads as nothing stays as it was |
| `Reclassify.ChangedIsCount` | `crates/starstats-client/src/commands.rs:790-796` | the update count is the number of rows that differ afterwards |
| `Reclassify.UnmatchedIsCount` | `crates/starstats-client/src/commands.rs:738-745` | the unmatched count is the number of rows that read as nothing |
| `Reclassify.SecondWalkIsIdle` | `crates/starstats-client/src/commands.rs:790-796` | a second walk changes nothing and reports no update |
| `Reclassify.SummaryKeptIffAnchorUnmatched` | `crates/starstats-client/src/commands.rs:738-796` | phase 1 also visits burst summaries and keeps one iff its anchor line does not classify; otherwise it overwrites it with that single line |
| `Unknowns.PromoteUnknowns` | `crates/starstats-client/src/commands.rs:805-844` | every sample that classifies becomes an insertion and leaves the samples, for any order of the list; the count is true |
| `Unknowns.PromotionIsComplete` | `crates/starstats-client/src/commands.rs:805-844` | exactly the samples that do not classify remain, unchanged, and each one gone has its row |
| `Unknowns.SampleBecomesRow` | `crates/starstats-client/src/commands.rs:805-844` | a sample whose line is recognised by now goes, and unless its key was taken there is a row under the promotion key with that line as raw text, its source, offset zero and its event as these rules read it |
| `Unknowns.LastSightingIsPromoted` | `crates/starstats-client/src/gamelog.rs:399-413` | from ingest to promotion: the last line of an event read unrecognised is the very line promotion stores once rules recognise it |
| `Unknowns.PromotedIsCount` | `crates/starstats-client/src/commands.rs:843` | the promotion count is the number of samples whose line is recognised by now |
| `Unknowns.SecondPromotionIsIdle` | `crates/starstats-client/src/commands.rs:805-844` | a second promotion changes nothing |
| `Unknowns.Open` | `crates/starstats-client/src/storage.rs:142-203` | opening seeds the shipped list, then purges noisy and malformed samples |
| `Unknowns.NoiseAfterOpen` | `crates/starstats-client/src/storage.rs:155-181` | afterwards the noise list holds the shipped names and every older entry that is not an obsolete built-in one, and what a user added keeps its source |
| `Unknowns.AddNoise` | `crates/starstats-client/src/storage.rs:219-232` | an existing entry keeps its source and the name's samples go |
| `Unknowns.NoNoisySamples` | `crates/starstats-client/src/storage.rs:190-232` | in every run of open, add-noise, ingest and promotion no sample's name is on the noise list |
| `Unknowns.RecordingKeepsQuietIff` | `crates/starstats-client/src/gamelog.rs:399-413` | the two-call test and record keeps that invariant iff the name is not noise at the moment of recording; an entry added in between breaks it |
| `Reparse.RunReparse` | `crates/starstats-client/src/commands.rs:711-960` | the three phases in order leave the specified store and report |
| `Reparse.ReparseIsIdleIff` | `crates/starstats-client/src/commands.rs:711-960` | a re-parse leaves the store exactly as it was iff every row carries what it classifies to, no sample classifies and no source holds a burst |
| `Reparse.ReportIsHonest` | `crates/starstats-client/src/commands.rs:715-723` | the report shows no update, promotion or collapse iff the store is unchanged |
| `Reparse.WeightOfReparse` | `crates/starstats-client/src/commands.rs:711-960` | an account of weight only, which counts a line twice where a summary and its members are both stored: it changes by the samples newly promoted, less what overwritten summaries counted for beyond one line, less the members deleted for summaries already there |
| `PassEvents.KeyAfterHit` | `crates/starstats-client/src/commands.rs:933-954` | after one burst a key is stored iff it was before or is the summary's and no member carries it; the summary's own key iff no member has it, contrary to the comment that deleting members can never delete it |
| `PassEvents.PassIsItsEvents` | `crates/starstats-client/src/commands.rs:863-960` | which keys, which summaries and which old rows are there after a pass over all sources follows from what detection finds before it |
| `PassEvents.SummaryAfterIff` | `crates/starstats-client/src/commands.rs:933-954` | in closed form: a summary ends up under a key iff one was there, or a burst adds it while the key is free from the start or freed by an earlier burst |
| `PassEvents.PassKeepsRowsIff` | `crates/starstats-client/src/commands.rs:863-960` | a pass deletes rows only as members, and every row it deletes is represented by a stored summary of its burst iff no burst's summary key is held by an ordinary row that no earlier burst removes in time |
| `Representation.ReparseKeepsRowsIff` | `crates/starstats-client/src/commands.rs:711-960` | lifted to the re-parse: a stored summary stays iff its anchor line does not classify, and every row there before phase 3 is kept, itself or behind a stored summary, iff no burst is blocked in that way |
| `Representation.UnblockedIff` | `crates/starstats-client/src/commands.rs:711-960` | the condition read off the store before the re-parse |
| `Representation.DrainedLineStandsIff` | `crates/starstats-client/src/gamelog.rs:217-319` | a recognised line of a drained buffer has its own row or a stored summary covering it afterwards iff no burst claims it, or it was stored, or a burst it lies in has its summary stored or its key free |
| `Representation.ReparsedLineStandsIff` | `crates/starstats-client/src/commands.rs:711-960` | the same for a re-parse: a line stands afterwards iff its row stays, or a summary covering it is there under the closed condition |
| `Representation.StepKeepsIff` | `crates/starstats-client/src/gamelog.rs:187-201` | every step of a run, a drain, a crash mid-drain, lines ingested singly or a re-parse, leaves every recognised line standing iff it is safe; only drains and re-parses can be unsafe |
| `Representation.AllStandIffAllSafe` | `crates/starstats-client/src/commands.rs:711-960` | over every run of such steps: all recognised lines stand at every moment iff every step is safe where it is taken |
| `Vanishing.LiveSummaryIsOverwritten` | `crates/starstats-client/src/commands.rs:738-796` | for every drained burst of recognised lines, the summary it stores is one phase 1 will overwrite |
| `Vanishing.DrainStoresNothing` | `crates/starstats-client/src/gamelog.rs:288-305` | a drain of a burst whose summary key is taken stores nothing, neither the summary nor a line |
| `Vanishing.ReparseEmptiesStore` | `crates/starstats-client/src/commands.rs:943-954` | a drain of a smallest burst, a drain of one line less and a re-parse leave no row at all, for every burst rule and all such lines |
| `Vanishing.FiveNotificationsVanish` | `crates/starstats-client/src/burst_rules.rs:69-82` | with the shipped rules, five recognised notifications in drains of three and two are gone after a re-parse |
| `Vanishing.NoLineStands` | `crates/starstats-client/src/commands.rs:943-954` | in terms of the run: every line was read, and none stands afterwards |
| `Sync.BatchSpan` | `crates/starstats-client/src/storage.rs:268-276` | a batch is the stretch of the table right behind the cursor, and its highest id is its last row's |
| `Sync.DrainOnce` | `crates/starstats-client/src/sync.rs:186-257` | cursor and counters for every answer; only an accepted and parsed answer moves the cursor, a rejected token stops further drains |
| `Sync.BatchesForIsCeiling` | `crates/starstats-client/src/sync.rs:143` | the number of batches is n / b rounded up |
| `Sync.DrainsEmptyTheQueue` | `crates/starstats-client/src/sync.rs:150-257` | without concurrent writers exactly ceil(n / b) successful drains send every unsent row once, in id order, and fewer do not suffice |
| `SyncRuns.SyncNeverSkips` | `crates/starstats-client/src/sync.rs:74-118` | in every interleaving of inserts, deletes, rewrites, lost answers, rejections, crashes and overlapping workers, a stored row at or below the cursor was in a batch answered 2xx, and with its very content unless rewritten since it was last read for such a batch |
| `SyncRuns.StepKeeps` | `crates/starstats-client/src/sync.rs:186-257` | each single step keeps the invariant that carries that claim |
| `SyncFate.SyncedRowAnsweredIff` | `crates/starstats-client/src/commands.rs:384-407` | a row the timeline marks synced was answered iff, if it was deleted before the cursor was read, it had been answered by then or was in flight on a request whose next event is a 2xx answer |
| `SyncFate.GoneFate` | `crates/starstats-client/src/sync.rs:186-257` | once a row is gone it is answered iff it was before or a request in flight delivers it; nothing later can send it |
| `SyncFate.SyncedTimelineRow` | `crates/starstats-client/src/commands.rs:388-407` | the usual case: a row still stored when the cursor is read was answered |
| `SyncFate.DeletedRowShownAsSynced` | `crates/starstats-client/src/commands.rs:384-407` | the failing case occurs: a row read for the timeline and deleted before the cursor is read shows as synced although it was never sent |
| `SyncFate.SentLaterIff` | `crates/starstats-client/src/sync.rs:186-257` | a version of a stored row at or below the cursor that was neither answered nor posted can still be sent iff some live worker holds a place before the row |
| `SyncFate.RewrittenRowSentIff` | `crates/starstats-client/src/storage.rs:529-542` | a row rewritten at or below the cursor is sent again with its new content in some continuation iff such a worker is alive |
| `SyncFate.RewrittenRowIsStale` | `crates/starstats-client/src/storage.rs:529-542` | the situation occurs: after an upload and a rewrite the row lies below the cursor while the server has only its old content |
| `SyncFate.LateWorkerMovesCursorBack` | `crates/starstats-client/src/sync.rs:81-87` | such a worker exists: one respawned over but still in flight moves the cursor backwards past a row already uploaded |
| `SyncFate.CursorNeverDecreases` | `crates/starstats-client/src/sync.rs:74-118` | as long as workers do not overlap, the cursor never moves back, through every interleaving with writers, crashes and respawns |
| `SyncFate.TwoUnsentReachable` | `crates/starstats-client/src/sync.rs:74-118` | the situation of the two examples is reachable |
| `SyncFate.CheckPassesIff` | `crates/starstats-client/src/sync.rs:150-160` | in every run, a worker at the top of its loop gets past its check iff no 401 or 403 has reached a request since the user last paired again, the account check last succeeded or the program last restarted |
| `SyncFate.NothingSentAfterRejection` | `crates/starstats-client/src/sync.rs:219-236` | from a rejected answer until then: no worker gets past its check, so at every moment only workers already past it are busy, and once those are through every worker is idle and nothing more is posted or newly answered |
| `SyncFate.ReadmittedWorkerGoesOn` | `crates/starstats-client/src/commands.rs:1431-1439` | after each of those three a worker at the top of its loop gets past its check again |
| `SyncFate.UninterruptedDrain` | `crates/starstats-client/src/sync.rs:186-257` | a worker's turn with nothing in between does what one drain does, for every answer: only an accepted and parsed one moves the cursor, only a rejection loses the token, and an accepted one counts as answered whether or not it parses |
| `Health.CurrentHealth` | `crates/starstats-client/src/health.rs:133-281` | the sequence of checks with retain and sort computes `HealthOf` |
| `Health.ShownIff` | `crates/starstats-client/src/health.rs:133-281` | an item is shown iff its condition holds and that very item was not dismissed |
| `Health.SetupConditions` | `crates/starstats-client/src/health.rs:136-194` | condition, severity, parameters and action of the missing log, missing address, missing pairing and missing cookie items, each as an iff on the inputs |
| `Health.SyncConditions` | `crates/starstats-client/src/health.rs:163-207` | a lost token is an error that leads to pairing; a failing sync is one with its last error and attempts, and is never shown beside a lost token |
| `Health.HangarCondition` | `crates/starstats-client/src/health.rs:209-224` | a skipped hangar is shown only when it never succeeded, since its last attempt or else since now |
| `Health.EmailCondition` | `crates/starstats-client/src/health.rs:226-240` | shown iff the address is known unverified and the origin is http or https; the link is the origin less its trailing slashes and the path |
| `Health.LimitConditions` | `crates/starstats-client/src/health.rs:242-277` | thirty minutes without a line while the game runs, less than a gibibyte free, an update waiting |
| `Health.DismissalsOnlyHide` | `crates/starstats-client/src/health.rs:314-318` | an item is shown iff it would be without dismissals and none names its id with its present parameters, so it comes back when they change |
| `Health.ShownInOrder` | `crates/starstats-client/src/health.rs:320-342` | the order on screen as one list of ids: the two errors, the eight warnings, the update |
| `Health.DismissalIs` | `crates/starstats-client/src/commands.rs:1783-1807` | a request appends one dismissal of the shown item with its parameters, and appends nothing for an error or an id not shown |
| `Health.ShownSorted` | `crates/starstats-client/src/health.rs:320-342` | output is strictly sorted by severity and id, so no id repeats |
| `Health.SortedUnique` | `crates/starstats-client/src/health.rs:279` | strict order and contents determine the list, so the output is the only one possible |
| `Health.Config.DismissHealth` | `crates/starstats-client/src/commands.rs:1783-1807` | accepted iff a dismissible item of that id is live; only then one dismissal is recorded |
| `Health.ErrorsAlwaysShown` | `crates/starstats-client/src/health.rs:300-318` | starting without dismissals, after any requests an error whose condition holds is shown |
| `Health.DismissRemovesExactlyOne` | `crates/starstats-client/src/health.rs:314-318` | dismissing a shown item under the same inputs removes that item and keeps the rest in order |
| `UnknownShapes.UnknownLineStore.CacheUnknownLine` | `crates/starstats-client/src/storage.rs:627-701` | a known shape counts up and appends to its trimmed buffer, a new one is inserted verbatim |
| `UnknownShapes.CappedIsLastN` | `crates/starstats-client/src/storage.rs:641-644` | dropping from the front until the cap fits keeps exactly the last five |
| `UnknownShapes.CacheRefinesHistory` | `crates/starstats-client/src/storage.rs:627-701` | after any run each shape's record is what its history says: last min(5, n) raw lines in order, first capture's count plus later captures, first capture's other fields, dismissal kept |
| `UnknownShapes.DismissedNeverSurfaces` | `crates/starstats-client/src/storage.rs:742-752` | a dismissed shape never surfaces again, however often it is captured |
| `UnknownShapes.SubmittedStillCollects` | `crates/starstats-client/sql/schema.sql:100-104` | a submitted shape goes on collecting samples and counts, contrary to the schema's note |
| `UnknownShapes.UnknownLineStore.ListUnknownLines` | `crates/starstats-client/src/storage.rs:708-725` | the list holds exactly the surfacing records, ranked by interest, count and recency |
| `UnknownShapes.UnknownLineStore.CountUnknownLines` | `crates/starstats-client/src/storage.rs:731-740` | the badge is always the length of the list the review pane shows |
| `UnknownShapes.ReviewListIsWhole` | `crates/starstats-client/src/storage.rs:708-740` | the review list is ranked and neither drops nor repeats a surfacing record |
| `UnknownShapes.ReviewListIs` | `crates/starstats-client/src/storage.rs:703-725` | the list holds each record that is not dismissed and interesting enough, once, by interest, then by occurrences, then by recency |

## Left out

- Backfill.BackfillFile: the loop over discovered files and `completed` are not modelled; each file is one call, and `files_total` is plain data from discovery.
- Backfill.ReingestFile: per file only; files that cannot be opened merely bump a counter, and a read error that stops a file early is not modelled.
- Tail.Drain: an undetected rotation (a replaced file at least as long as the old offset) and read errors inside a drain are outside the append-only hypothesis.
- TailRuns.RunInvariant: detected truncation is in `Tail.Drain` but not in the runs, which speak of append-only files.
- Representation.AllStandIffAllSafe: the rules stay the same during a run; which lines a summary covers is remembered by the run, as the store does not record it.
- Reclassify.ReclassifyAll: rows inserted by others while the walk is under way are not modelled.
- Unknowns.PromoteUnknowns: the order of the sample list is arbitrary rather than by count and recency.
- Health.Config.DismissHealth: snapshot, lock, load and save are one step, so two concurrent dismissals are not modelled; nor is the time of dismissal.
- SyncRuns.SyncNeverSkips: a row rewritten since it was last read for an answered batch is covered only in key, line, source and offset, because the code does not send rewritten rows again.
- IngestLaws.CrashReplay: the table of events only; counts of unknown samples grow when lines are replayed, as the code itself notes.
- `compile_rules`, regular expressions, JSON and the line grammar: library code or plain filtering.
- 64-bit wrap-around of offsets and counters, and the casts of sizes and offsets on their way into rows.
- `build_batch`, HTTP, TLS, the token file, respawn scheduling and the wake-up channel; a worker's next step is a free choice instead.
- Clock columns, RFC 3339 formatting and the text of summaries for display.
- `launcher.rs` and `crashes.rs`: the same tail and insert-if-absent pattern, simpler.
- Tauri commands that only forward, the updater, the tray, telemetry, hangar scraping, process detection, configuration files and the user interface.
