/**
 The cache of unknown line shapes: one record per shape, a bounded buffer of raw examples, a count
 of captures, and a dismissal that outlives recapture.
 */
module UnknownShapes {
  import opened Prelude

  const RAW_EXAMPLES_CAP := 5

  /** A captured line; the fields the cache never looks into are bundled in `details`. */
  datatype UnknownLine = UnknownLine(
    shape: string,
    rawLine: string,
    details: string,
    interest: nat,
    occurrences: nat,
    lastSeen: int,
    dismissed: bool)

  /** One row of `unknown_lines`. */
  datatype Record = Record(
    shape: string,
    examples: seq<string>,
    details: string,
    interest: nat,
    occurrences: nat,
    lastSeen: int,
    dismissed: bool,
    submittedAt: Option<string>)

  /** Rows in insertion order; a shape occurs at most once. */
  type Cache = seq<Record>

  ghost predicate ShapesDiffer(cache: Cache) {
    forall i, j :: 0 <= i < j < |cache| ==> cache[i].shape != cache[j].shape
  }

  /** Drop the oldest examples until at most the cap is left. */
  function Capped(examples: seq<string>): (kept: seq<string>) {
    if |examples| <= RAW_EXAMPLES_CAP then examples else Capped(examples[1..])
  }

  /** The last `n` elements. */
  function LastN(s: seq<string>, n: nat): seq<string> {
    if |s| <= n then s else s[|s| - n..]
  }

  lemma {:induction false} CappedIsLastN(examples: seq<string>)
    ensures Capped(examples) == LastN(examples, RAW_EXAMPLES_CAP)
  {
    if |examples| > RAW_EXAMPLES_CAP {
      CappedIsLastN(examples[1..]);
    }
  }

  function FirstCapture(line: UnknownLine): Record {
    Record(line.shape, [line.rawLine], line.details, line.interest, line.occurrences, line.lastSeen, line.dismissed, None)
  }

  function Recapture(r: Record, line: UnknownLine): Record {
    r.(occurrences := r.occurrences + 1, lastSeen := line.lastSeen, examples := Capped(r.examples + [line.rawLine]))
  }

  function IndexOf(cache: Cache, shape: string): (i: nat)
    ensures i <= |cache|
    ensures i < |cache| ==> cache[i].shape == shape
    ensures forall j :: 0 <= j < i ==> cache[j].shape != shape
  {
    if cache == [] then 0
    else if cache[0].shape == shape then 0
    else
      var k := IndexOf(cache[1..], shape);
      assert forall j :: 1 <= j < k + 1 ==> cache[j] == cache[1..][j - 1];
      k + 1
  }

  function Captured(cache: Cache, line: UnknownLine): Cache {
    var i := IndexOf(cache, line.shape);
    if i < |cache| then cache[i := Recapture(cache[i], line)] else cache + [FirstCapture(line)]
  }

  function Dismissed(cache: Cache, shape: string): Cache {
    var i := IndexOf(cache, shape);
    if i < |cache| then cache[i := cache[i].(dismissed := true)] else cache
  }

  function Submitted(cache: Cache, shape: string, at: string): Cache {
    var i := IndexOf(cache, shape);
    if i < |cache| then cache[i := cache[i].(submittedAt := Some(at))] else cache
  }

  // ----- the review list -----

  predicate Surfaces(r: Record, minInterest: nat) {
    !r.dismissed && r.interest >= minInterest
  }

  function Surfacing(cache: Cache, minInterest: nat): (list: seq<Record>)
    ensures forall r :: r in list <==> r in cache && Surfaces(r, minInterest)
  {
    if cache == [] then []
    else
      var init, last := cache[..|cache| - 1], cache[|cache| - 1];
      assert cache == init + [last];
      Surfacing(init, minInterest) + if Surfaces(last, minInterest) then [last] else []
  }

  /** Most interesting first, then most seen, then most recent. */
  predicate Ahead(a: Record, b: Record) {
    || a.interest > b.interest
    || (a.interest == b.interest && a.occurrences > b.occurrences)
    || (a.interest == b.interest && a.occurrences == b.occurrences && a.lastSeen > b.lastSeen)
  }

  ghost predicate Ranked(list: seq<Record>) {
    forall i, j :: 0 <= i < j < |list| ==> !Ahead(list[j], list[i])
  }

  function Place(list: seq<Record>, r: Record): seq<Record> {
    if list == [] || !Ahead(r, list[|list| - 1]) then list + [r]
    else Place(list[..|list| - 1], r) + [list[|list| - 1]]
  }

  function Rank(records: seq<Record>): seq<Record> {
    if records == [] then [] else Place(Rank(records[..|records| - 1]), records[|records| - 1])
  }

  lemma {:induction false} PlaceKeeps(list: seq<Record>, r: Record)
    requires Ranked(list)
    ensures Ranked(Place(list, r)) && multiset(Place(list, r)) == multiset(list) + multiset{r}
  {
    if list != [] {
      var init, last := list[..|list| - 1], list[|list| - 1];
      assert list == init + [last];
      if Ahead(r, last) {
        PlaceKeeps(init, r);
        forall x | x in Place(init, r)
          ensures !Ahead(last, x)
        {
          assert x in multiset(Place(init, r));
          if x != r {
            assert x in multiset(init);
            var m :| 0 <= m < |init| && init[m] == x;
            assert !Ahead(list[|list| - 1], list[m]);
          }
        }
        RankedSnoc(Place(init, r), last);
      } else {
        forall k | 0 <= k < |list|
          ensures !Ahead(r, list[k])
        {
          assert k < |list| - 1 ==> !Ahead(list[|list| - 1], list[k]);
        }
        RankedSnoc(list, r);
      }
    }
  }

  lemma RankedSnoc(list: seq<Record>, r: Record)
    requires Ranked(list) && forall x :: x in list ==> !Ahead(r, x)
    ensures Ranked(list + [r]) && multiset(list + [r]) == multiset(list) + multiset{r}
  {
  }

  lemma {:induction false} RankKeeps(records: seq<Record>)
    ensures Ranked(Rank(records)) && multiset(Rank(records)) == multiset(records)
  {
    if records != [] {
      var init, last := records[..|records| - 1], records[|records| - 1];
      assert records == init + [last];
      RankKeeps(init);
      PlaceKeeps(Rank(init), last);
    }
  }

  /** What the review pane shows. */
  function ReviewList(cache: Cache, minInterest: nat): seq<Record> {
    Rank(Surfacing(cache, minInterest))
  }

  /** Ranking neither drops nor repeats a record, so the list is as long as there are records to show. */
  lemma ReviewListIsWhole(cache: Cache, minInterest: nat)
    ensures Ranked(ReviewList(cache, minInterest))
    ensures multiset(ReviewList(cache, minInterest)) == multiset(Surfacing(cache, minInterest))
    ensures |ReviewList(cache, minInterest)| == |Surfacing(cache, minInterest)|
  {
    RankKeeps(Surfacing(cache, minInterest));
    assert |multiset(ReviewList(cache, minInterest))| == |ReviewList(cache, minInterest)|;
    assert |multiset(Surfacing(cache, minInterest))| == |Surfacing(cache, minInterest)|;
  }

  /**
   The review pane: it holds each record that is not dismissed and interesting enough, once; of two
   neighbours the earlier is more interesting, or as interesting and seen more often, or both and
   not older.
   */
  lemma ReviewListIs(cache: Cache, minInterest: nat)
    ensures var list := ReviewList(cache, minInterest);
            && (forall r :: r in list <==> r in cache && !r.dismissed && minInterest <= r.interest)
            && (ShapesDiffer(cache) ==> forall i, j :: 0 <= i < j < |list| ==> list[i].shape != list[j].shape)
            && forall i, j :: 0 <= i < j < |list| ==> InReviewOrder(list[i], list[j])
  {
    var list, shown := ReviewList(cache, minInterest), Surfacing(cache, minInterest);
    ReviewListIsWhole(cache, minInterest);
    forall r
      ensures r in list <==> r in shown
    {
      assert r in multiset(list) <==> r in multiset(shown);
    }
    forall i, j | 0 <= i < j < |list|
      ensures InReviewOrder(list[i], list[j])
    {
      assert !Ahead(list[j], list[i]);
    }
    if ShapesDiffer(cache) {
      SurfacingDiffers(cache, minInterest);
      DistinctByMultiset(shown, list);
    }
  }

  ghost predicate InReviewOrder(a: Record, b: Record) {
    if a.interest != b.interest then a.interest > b.interest
    else if a.occurrences != b.occurrences then a.occurrences > b.occurrences
    else a.lastSeen >= b.lastSeen
  }

  lemma {:induction false} SurfacingDiffers(cache: Cache, minInterest: nat)
    requires ShapesDiffer(cache)
    ensures ShapesDiffer(Surfacing(cache, minInterest))
  {
    if cache != [] {
      var init, last := cache[..|cache| - 1], cache[|cache| - 1];
      SurfacingDiffers(init, minInterest);
      var before := Surfacing(init, minInterest);
      forall k | 0 <= k < |before|
        ensures before[k].shape != last.shape
      {
        assert before[k] in before;
        var m :| 0 <= m < |init| && init[m] == before[k];
        assert cache[m].shape != cache[|cache| - 1].shape;
      }
    }
  }

  lemma DistinctByMultiset(a: seq<Record>, b: seq<Record>)
    requires ShapesDiffer(a) && multiset(a) == multiset(b)
    ensures ShapesDiffer(b)
  {
    forall i, j | 0 <= i < j < |b|
      ensures b[i].shape != b[j].shape
    {
      if b[i].shape == b[j].shape {
        assert b[i] in multiset(b) && b[j] in multiset(b);
        SameShapeSameRecord(a, b[i], b[j]);
        assert b == b[..i] + [b[i]] + b[i + 1..j] + [b[j]] + b[j + 1..];
        assert multiset(b)[b[i]] >= 2;
        OncePerShape(a, b[i]);
        assert false;
      }
    }
  }

  lemma SameShapeSameRecord(a: seq<Record>, x: Record, y: Record)
    requires ShapesDiffer(a) && x in a && y in a && x.shape == y.shape
    ensures x == y
  {
    var i :| 0 <= i < |a| && a[i] == x;
    var j :| 0 <= j < |a| && a[j] == y;
  }

  lemma {:induction false} OncePerShape(a: seq<Record>, x: Record)
    requires ShapesDiffer(a)
    ensures multiset(a)[x] <= 1
  {
    if a != [] {
      var init, last := a[..|a| - 1], a[|a| - 1];
      OncePerShape(init, x);
      assert a == init + [last];
      if x == last {
        assert forall k :: 0 <= k < |init| ==> a[k].shape != a[|a| - 1].shape;
        assert x !in init;
        assert x !in multiset(init);
      }
    }
  }

  class UnknownLineStore {
    var cache: Cache

    ghost predicate Valid()
      reads this
    {
      ShapesDiffer(cache)
    }

    constructor ()
      ensures Valid() && cache == []
    {
      cache := [];
    }

    method CacheUnknownLine(line: UnknownLine)
      requires Valid()
      modifies this
      ensures Valid() && cache == Captured(old(cache), line)
    {
      CapturedValid(cache, line);
      var i := IndexOf(cache, line.shape);
      if i < |cache| {
        var existing := cache[i];
        var samples := existing.examples + [line.rawLine];
        ghost var all := samples;
        while |samples| > RAW_EXAMPLES_CAP
          invariant Capped(samples) == Capped(all)
        {
          samples := samples[1..];
        }
        cache := cache[i := existing.(occurrences := existing.occurrences + 1, lastSeen := line.lastSeen, examples := samples)];
      } else {
        cache := cache + [FirstCapture(line)];
      }
    }

    method ListUnknownLines(minInterest: nat) returns (list: seq<Record>)
      ensures list == ReviewList(cache, minInterest)
      ensures Ranked(list) && multiset(list) == multiset(Surfacing(cache, minInterest))
    {
      list := Rank(Surfacing(cache, minInterest));
      ReviewListIsWhole(cache, minInterest);
    }

    method CountUnknownLines(minInterest: nat) returns (n: nat)
      ensures n == |ReviewList(cache, minInterest)|
    {
      n := 0;
      for i := 0 to |cache|
        invariant n == |Surfacing(cache[..i], minInterest)|
      {
        assert cache[..i + 1][..i] == cache[..i];
        if Surfaces(cache[i], minInterest) {
          n := n + 1;
        }
      }
      assert cache[..|cache|] == cache;
      ReviewListIsWhole(cache, minInterest);
    }

    method DismissUnknownLine(shape: string)
      requires Valid()
      modifies this
      ensures Valid() && cache == Dismissed(old(cache), shape)
    {
      var i := IndexOf(cache, shape);
      if i < |cache| {
        cache := cache[i := cache[i].(dismissed := true)];
      }
    }

    method MarkSubmitted(shape: string, at: string)
      requires Valid()
      modifies this
      ensures Valid() && cache == Submitted(old(cache), shape, at)
    {
      var i := IndexOf(cache, shape);
      if i < |cache| {
        cache := cache[i := cache[i].(submittedAt := Some(at))];
      }
    }
  }

  lemma CapturedValid(cache: Cache, line: UnknownLine)
    requires ShapesDiffer(cache)
    ensures ShapesDiffer(Captured(cache, line))
  {
  }

  // ----- histories -----

  datatype Step = Capture(line: UnknownLine) | Dismiss(shape: string) | Submit(shape: string, at: string)

  function Next(cache: Cache, step: Step): Cache {
    match step
    case Capture(line) => Captured(cache, line)
    case Dismiss(shape) => Dismissed(cache, shape)
    case Submit(shape, at) => Submitted(cache, shape, at)
  }

  function Run(steps: seq<Step>): Cache {
    if steps == [] then [] else Next(Run(steps[..|steps| - 1]), steps[|steps| - 1])
  }

  /** The captures of one shape, in order. */
  function CapturesOf(steps: seq<Step>, shape: string): seq<UnknownLine> {
    if steps == [] then []
    else
      var before, step := CapturesOf(steps[..|steps| - 1], shape), steps[|steps| - 1];
      if step.Capture? && step.line.shape == shape then before + [step.line] else before
  }

  function RawLines(captures: seq<UnknownLine>): (raws: seq<string>)
    ensures |raws| == |captures|
  {
    seq(|captures|, i requires 0 <= i < |captures| => captures[i].rawLine)
  }

  /** Was the shape dismissed after its first capture, or captured as dismissed to begin with? */
  function EverDismissed(steps: seq<Step>, shape: string): bool {
    if steps == [] then false
    else
      var init, step := steps[..|steps| - 1], steps[|steps| - 1];
      || EverDismissed(init, shape)
      || (step.Dismiss? && step.shape == shape && CapturesOf(init, shape) != [])
      || (step.Capture? && step.line.shape == shape && CapturesOf(init, shape) == [] && step.line.dismissed)
  }

  /** The record a history of captures should have left for a shape. */
  ghost predicate Reflects(r: Record, captures: seq<UnknownLine>, dismissed: bool) {
    && captures != []
    && r.examples == LastN(RawLines(captures), RAW_EXAMPLES_CAP)
    && r.occurrences == captures[0].occurrences + |captures| - 1
    && r.lastSeen == captures[|captures| - 1].lastSeen
    && r.interest == captures[0].interest && r.details == captures[0].details
    && r.dismissed == dismissed
  }

  lemma LastNStep(s: seq<string>, x: string)
    ensures LastN(LastN(s, RAW_EXAMPLES_CAP) + [x], RAW_EXAMPLES_CAP) == LastN(s + [x], RAW_EXAMPLES_CAP)
  {
  }

  lemma RecaptureReflects(r: Record, captures: seq<UnknownLine>, dismissed: bool, line: UnknownLine)
    requires Reflects(r, captures, dismissed)
    ensures Reflects(Recapture(r, line), captures + [line], dismissed)
  {
    var raws := RawLines(captures);
    assert RawLines(captures + [line]) == raws + [line.rawLine];
    CappedIsLastN(r.examples + [line.rawLine]);
    LastNStep(raws, line.rawLine);
  }

  lemma FirstCaptureReflects(line: UnknownLine)
    ensures Reflects(FirstCapture(line), [line], line.dismissed)
  {
    assert RawLines([line]) == [line.rawLine];
  }

  /** A shape is cached exactly when it was captured, and its record reflects its history. */
  ghost predicate HistoryHolds(steps: seq<Step>, shape: string) {
    var cache := Run(steps);
    var i := IndexOf(cache, shape);
    && (i < |cache| <==> CapturesOf(steps, shape) != [])
    && (i < |cache| ==> Reflects(cache[i], CapturesOf(steps, shape), EverDismissed(steps, shape)))
    && (CapturesOf(steps, shape) == [] ==> !EverDismissed(steps, shape))
  }

  lemma IndexAfterUpdate(cache: Cache, i: nat, r: Record, shape: string)
    requires i < |cache| && r.shape == cache[i].shape
    ensures IndexOf(cache[i := r], shape) == IndexOf(cache, shape)
  {
    var updated := cache[i := r];
    assert forall k :: 0 <= k < |cache| ==> updated[k].shape == cache[k].shape;
    var a, b := IndexOf(cache, shape), IndexOf(updated, shape);
    assert a < |cache| ==> updated[a].shape == shape;
    assert b < |cache| ==> cache[b].shape == shape;
  }

  lemma IndexAfterAppend(cache: Cache, r: Record, shape: string)
    requires IndexOf(cache, r.shape) == |cache|
    ensures var i := IndexOf(cache, shape);
            IndexOf(cache + [r], shape) == if i < |cache| || r.shape == shape then i else |cache| + 1
  {
    var bigger := cache + [r];
    var i, j := IndexOf(cache, shape), IndexOf(bigger, shape);
    assert forall k :: 0 <= k < |cache| ==> bigger[k] == cache[k];
    assert bigger[|cache|] == r;
    assert i < |cache| ==> bigger[i].shape == shape;
    assert j < |cache| ==> cache[j].shape == shape;
  }

  /** After any run, every shape's record is exactly what its history of captures says. */
  lemma {:induction false} CacheRefinesHistory(steps: seq<Step>, shape: string)
    ensures HistoryHolds(steps, shape)
  {
    if steps != [] {
      var init, step := steps[..|steps| - 1], steps[|steps| - 1];
      CacheRefinesHistory(init, shape);
      assert steps == init + [step];
      match step
      case Capture(line) => CaptureKeepsHistory(init, line, shape);
      case Dismiss(s) => DismissKeepsHistory(init, s, shape);
      case Submit(s, at) => SubmitKeepsHistory(init, s, at, shape);
    }
  }

  lemma {:induction false} RunIsValid(steps: seq<Step>)
    ensures ShapesDiffer(Run(steps))
  {
    if steps != [] {
      RunIsValid(steps[..|steps| - 1]);
    }
  }

  /** A captured shape that was dismissed stays dismissed, whatever follows. */
  lemma {:induction false} DismissalLasts(steps: seq<Step>, shape: string, later: seq<Step>)
    requires CapturesOf(steps, shape) != []
    ensures EverDismissed(steps + [Dismiss(shape)] + later, shape)
  {
    var all := steps + [Dismiss(shape)] + later;
    if later == [] {
      assert all[..|all| - 1] == steps && all[|all| - 1] == Dismiss(shape);
    } else {
      assert all[..|all| - 1] == steps + [Dismiss(shape)] + later[..|later| - 1];
      DismissalLasts(steps, shape, later[..|later| - 1]);
    }
  }

  /** Once dismissed, a shape never surfaces again, however often it is captured afterwards. */
  lemma DismissedNeverSurfaces(steps: seq<Step>, shape: string, later: seq<Step>, minInterest: nat)
    requires CapturesOf(steps, shape) != []
    ensures forall r :: r in Surfacing(Run(steps + [Dismiss(shape)] + later), minInterest) ==> r.shape != shape
  {
    var all := steps + [Dismiss(shape)] + later;
    var cache := Run(all);
    DismissalLasts(steps, shape, later);
    CacheRefinesHistory(all, shape);
    RunIsValid(all);
    forall r | r in cache && r.shape == shape
      ensures r.dismissed
    {
      var j :| 0 <= j < |cache| && cache[j] == r;
      assert IndexOf(cache, shape) == j;
    }
  }

  /** The schema's notes say a submitted shape stops collecting samples; in fact it goes on. */
  lemma SubmittedStillCollects(steps: seq<Step>, shape: string, at: string, line: UnknownLine)
    requires line.shape == shape && CapturesOf(steps, shape) != []
    ensures var before := Run(steps + [Submit(shape, at)]);
            var after := Run(steps + [Submit(shape, at)] + [Capture(line)]);
            var i := IndexOf(before, shape);
            && i < |before| == |after| && before[i].submittedAt == after[i].submittedAt == Some(at)
            && after[i].occurrences == before[i].occurrences + 1
            && after[i].examples == LastN(before[i].examples + [line.rawLine], RAW_EXAMPLES_CAP)
  {
    var submitted := steps + [Submit(shape, at)];
    var more := submitted + [Capture(line)];
    assert submitted[..|submitted| - 1] == steps && more[..|more| - 1] == submitted;
    CacheRefinesHistory(steps, shape);
    var cache := Run(steps);
    var i := IndexOf(cache, shape);
    IndexAfterUpdate(cache, i, cache[i].(submittedAt := Some(at)), shape);
    CappedIsLastN(cache[i].examples + [line.rawLine]);
  }

  lemma DismissKeepsHistory(init: seq<Step>, s: string, shape: string)
    requires HistoryHolds(init, shape)
    ensures HistoryHolds(init + [Dismiss(s)], shape)
  {
    var steps, cache := init + [Dismiss(s)], Run(init);
    assert steps[..|steps| - 1] == init;
    var k := IndexOf(cache, s);
    if k < |cache| {
      IndexAfterUpdate(cache, k, cache[k].(dismissed := true), shape);
    }
  }

  lemma SubmitKeepsHistory(init: seq<Step>, s: string, at: string, shape: string)
    requires HistoryHolds(init, shape)
    ensures HistoryHolds(init + [Submit(s, at)], shape)
  {
    var steps, cache := init + [Submit(s, at)], Run(init);
    assert steps[..|steps| - 1] == init;
    var k := IndexOf(cache, s);
    if k < |cache| {
      IndexAfterUpdate(cache, k, cache[k].(submittedAt := Some(at)), shape);
    }
  }

  lemma CaptureKeepsHistory(init: seq<Step>, line: UnknownLine, shape: string)
    requires HistoryHolds(init, shape)
    ensures HistoryHolds(init + [Capture(line)], shape)
  {
    var steps, cache := init + [Capture(line)], Run(init);
    assert steps[..|steps| - 1] == init;
    var k := IndexOf(cache, line.shape);
    var captures, dismissed := CapturesOf(init, shape), EverDismissed(init, shape);
    if k < |cache| {
      IndexAfterUpdate(cache, k, Recapture(cache[k], line), shape);
      if line.shape == shape {
        RecaptureReflects(cache[k], captures, dismissed, line);
      }
    } else {
      IndexAfterAppend(cache, FirstCapture(line), shape);
      FirstCaptureReflects(line);
    }
  }
}
