/**
 What burst detection finds, said without its loops: the rules take turns, each finds every run of
 sufficient size among the slots no earlier rule claimed, and there is only one such outcome.
 */
module Detection {
  import opened Prelude
  import opened Grammar
  import opened Bursts

  // ----- where a run ends -----

  function Min(a: nat, b: nat): nat {
    if a < b then a else b
  }

  lemma {:induction false} GrowStop(window: Window, rule: BurstRule, consumed: seq<bool>, last: nat, j: nat)
    requires |consumed| == |window| && last < j <= |window| && j - last - 1 <= rule.maxMemberGap
    ensures var (members, stop) := Grow(window, rule, consumed, j, j - last - 1);
            stop == Min(|window|, (if members == [] then last else members[|members| - 1]) + rule.maxMemberGap + 1)
    decreases |window| - j
  {
    if j < |window| && Eligible(window, rule, consumed, j) {
      GrowStop(window, rule, consumed, j, j + 1);
    } else if j < |window| && j - last <= rule.maxMemberGap {
      GrowStop(window, rule, consumed, last, j + 1);
    }
  }

  /** The walk stops one over-long gap past its last member, or at the end of the window. */
  lemma RunStopIs(window: Window, rule: BurstRule, consumed: seq<bool>, i: nat)
    requires |consumed| == |window| && i < |window|
    ensures var run := RunMembers(window, rule, consumed, i);
            RunStop(window, rule, consumed, i) == Min(|window|, run[|run| - 1] + rule.maxMemberGap + 1)
  {
    GrowStop(window, rule, consumed, i, i + 1);
  }

  // ----- picking starts -----

  /**
   `starts` are picked among the candidates from index `from` on: each candidate picked begins a
   stretch up to its `stop`, all later picks come after it, and every candidate lies in the
   stretch of some pick.
   */
  ghost predicate Picks(candidate: seq<bool>, stop: seq<nat>, from: nat, starts: seq<nat>)
    requires |stop| == |candidate|
  {
    && (forall x :: x in starts ==> from <= x < |candidate| && candidate[x])
    && Spaced(stop, starts)
    && (forall k :: from <= k < |candidate| && candidate[k] ==> InStretchOf(stop, starts, k))
  }

  ghost predicate Spaced(stop: seq<nat>, starts: seq<nat>) {
    starts == [] || (AllAfter(stop, starts[0], starts[1..]) && Spaced(stop, starts[1..]))
  }

  ghost predicate AllAfter(stop: seq<nat>, x: nat, later: seq<nat>) {
    x < |stop| && forall y :: y in later ==> stop[x] <= y
  }

  ghost predicate InStretch(stop: seq<nat>, x: nat, k: nat) {
    x < |stop| && x <= k < stop[x]
  }

  ghost predicate InStretchOf(stop: seq<nat>, starts: seq<nat>, k: nat) {
    exists x :: x in starts && InStretch(stop, x, k)
  }

  ghost predicate StopsLater(stop: seq<nat>) {
    forall k :: 0 <= k < |stop| ==> k < stop[k]
  }

  lemma FirstPick(candidate: seq<bool>, stop: seq<nat>, i: nat, starts: seq<nat>)
    requires |stop| == |candidate| && StopsLater(stop) && i < |candidate| && candidate[i]
    requires Picks(candidate, stop, i, starts)
    ensures starts != [] && starts[0] == i
  {
    assert InStretchOf(stop, starts, i);
    var x :| x in starts && InStretch(stop, x, i);
    var first, later := starts[0], starts[1..];
    assert starts == [first] + later && first in starts;
    assert AllAfter(stop, first, later);
  }

  lemma InStretchCons(stop: seq<nat>, i: nat, rest: seq<nat>, k: nat)
    ensures InStretchOf(stop, [i] + rest, k) <==> InStretch(stop, i, k) || InStretchOf(stop, rest, k)
  {
    assert i in [i] + rest;
    if InStretchOf(stop, rest, k) {
      var x :| x in rest && InStretch(stop, x, k);
      assert x in [i] + rest;
    }
  }

  lemma SpacedCons(stop: seq<nat>, i: nat, rest: seq<nat>)
    ensures Spaced(stop, [i] + rest) <==> AllAfter(stop, i, rest) && Spaced(stop, rest)
  {
    assert ([i] + rest)[1..] == rest;
  }

  lemma TailInRange(candidate: seq<bool>, stop: seq<nat>, i: nat, rest: seq<nat>)
    requires AllAfter(stop, i, rest) && forall x :: x in [i] + rest ==> i <= x < |candidate| && candidate[x]
    ensures forall x :: x in rest ==> stop[i] <= x < |candidate| && candidate[x]
  {
    forall x | x in rest
      ensures stop[i] <= x < |candidate| && candidate[x]
    {
      assert x in [i] + rest;
    }
  }

  lemma PicksTail(candidate: seq<bool>, stop: seq<nat>, i: nat, rest: seq<nat>)
    requires |stop| == |candidate| && StopsLater(stop) && i < |candidate| && candidate[i]
    requires Picks(candidate, stop, i, [i] + rest)
    ensures Picks(candidate, stop, stop[i], rest)
  {
    SpacedCons(stop, i, rest);
    TailInRange(candidate, stop, i, rest);
    forall k | stop[i] <= k < |candidate| && candidate[k]
      ensures InStretchOf(stop, rest, k)
    {
      InStretchCons(stop, i, rest, k);
    }
  }

  lemma PicksCons(candidate: seq<bool>, stop: seq<nat>, i: nat, rest: seq<nat>)
    requires |stop| == |candidate| && StopsLater(stop) && i < |candidate| && candidate[i]
    requires Picks(candidate, stop, stop[i], rest)
    ensures Picks(candidate, stop, i, [i] + rest)
  {
    var starts := [i] + rest;
    SpacedCons(stop, i, rest);
    forall k | i <= k < |candidate| && candidate[k]
      ensures InStretchOf(stop, starts, k)
    {
      InStretchCons(stop, i, rest, k);
    }
  }

  lemma PicksSkip(candidate: seq<bool>, stop: seq<nat>, i: nat, starts: seq<nat>)
    requires |stop| == |candidate| && i < |candidate| && !candidate[i]
    ensures Picks(candidate, stop, i, starts) <==> Picks(candidate, stop, i + 1, starts)
  {
  }

  lemma SameSuffix<T>(a: seq<T>, b: seq<T>, from: nat)
    requires |a| == |b| && from <= |a| && a[from..] == b[from..]
    ensures forall k :: from <= k < |a| ==> a[k] == b[k]
  {
    forall k | from <= k < |a|
      ensures a[k] == b[k]
    {
      assert a[k] == a[from..][k - from] && b[k] == b[from..][k - from];
    }
  }

  /** Candidates and stretches before `from` play no part. */
  lemma PicksSuffix(candidate: seq<bool>, stop: seq<nat>, candidate': seq<bool>, stop': seq<nat>, from: nat, starts: seq<nat>)
    requires |stop| == |candidate| == |stop'| == |candidate'| && from <= |stop|
    requires candidate[from..] == candidate'[from..] && stop[from..] == stop'[from..]
    requires Picks(candidate, stop, from, starts)
    ensures Picks(candidate', stop', from, starts)
  {
    SameSuffix(candidate, candidate', from);
    SameSuffix(stop, stop', from);
    SameSpacing(stop, stop', from, starts);
    forall k | from <= k < |candidate'| && candidate'[k]
      ensures InStretchOf(stop', starts, k)
    {
      assert InStretchOf(stop, starts, k);
      var x :| x in starts && InStretch(stop, x, k);
      assert InStretch(stop', x, k);
    }
  }

  lemma {:induction false} SameSpacing(stop: seq<nat>, stop': seq<nat>, from: nat, starts: seq<nat>)
    requires |stop| == |stop'| && forall k :: from <= k < |stop| ==> stop[k] == stop'[k]
    requires Spaced(stop, starts) && forall x :: x in starts ==> from <= x
    ensures Spaced(stop', starts)
  {
    if starts != [] {
      assert starts[0] in starts && forall x :: x in starts[1..] ==> x in starts;
      SameSpacing(stop, stop', from, starts[1..]);
    }
  }

  // ----- one rule -----

  /** Which slots are anchors of a run that is large enough. */
  ghost function LongRuns(window: Window, rule: BurstRule, consumed: seq<bool>): (long: seq<bool>)
    requires |consumed| == |window|
    ensures |long| == |window|
  {
    seq(|window|, k requires 0 <= k < |window| =>
      IsAnchor(window, rule, consumed, k) && |RunMembers(window, rule, consumed, k)| >= rule.minBurstSize)
  }

  /** Where the walk from each slot stops. */
  ghost function Stops(window: Window, rule: BurstRule, consumed: seq<bool>): (stops: seq<nat>)
    requires |consumed| == |window|
    ensures |stops| == |window| && StopsLater(stops)
  {
    seq(|window|, k requires 0 <= k < |window| => RunStop(window, rule, consumed, k))
  }

  function Starts(hits: seq<BurstHit>): (starts: seq<nat>)
    ensures |starts| == |hits|
  {
    seq(|hits|, i requires 0 <= i < |hits| => hits[i].startIndex)
  }

  ghost predicate WholeRuns(window: Window, rule: BurstRule, consumed: seq<bool>, hits: seq<BurstHit>)
    requires |consumed| == |window|
  {
    forall h :: h in hits ==> h.startIndex < |window| && h == HitOf(rule, RunMembers(window, rule, consumed, h.startIndex))
  }

  /**
   What one rule finds from index `from` on: whole runs, picked among the long ones so that each
   starts only after the stretch of the one before and no long run outside the stretches is left.
   */
  ghost predicate RuleFinds(window: Window, rule: BurstRule, consumed: seq<bool>, from: nat, hits: seq<BurstHit>)
    requires |consumed| == |window|
  {
    && WholeRuns(window, rule, consumed, hits)
    && Picks(LongRuns(window, rule, consumed), Stops(window, rule, consumed), from, Starts(hits))
  }

  /** Slots claimed before a stretch do not matter behind it. */
  lemma MarksBehind(window: Window, rule: BurstRule, consumed: seq<bool>, members: seq<nat>, from: nat)
    requires |consumed| == |window| && from <= |window| && forall m :: m in members ==> m < from
    ensures LongRuns(window, rule, Mark(consumed, members))[from..] == LongRuns(window, rule, consumed)[from..]
    ensures Stops(window, rule, Mark(consumed, members))[from..] == Stops(window, rule, consumed)[from..]
    ensures forall k :: from <= k < |window| ==>
              RunMembers(window, rule, Mark(consumed, members), k) == RunMembers(window, rule, consumed, k)
  {
    forall k | from <= k < |window|
      ensures RunMembers(window, rule, Mark(consumed, members), k) == RunMembers(window, rule, consumed, k)
      ensures RunStop(window, rule, Mark(consumed, members), k) == RunStop(window, rule, consumed, k)
      ensures IsAnchor(window, rule, Mark(consumed, members), k) <==> IsAnchor(window, rule, consumed, k)
    {
      RunUnaffectedByEarlierMarks(window, rule, consumed, members, from, k);
      assert k !in members;
    }
  }

  lemma MarksBehindFinds(window: Window, rule: BurstRule, consumed: seq<bool>, members: seq<nat>, from: nat, hits: seq<BurstHit>)
    requires |consumed| == |window| && from <= |window| && forall m :: m in members ==> m < from
    ensures RuleFinds(window, rule, Mark(consumed, members), from, hits) <==> RuleFinds(window, rule, consumed, from, hits)
  {
    var marked, starts := Mark(consumed, members), Starts(hits);
    MarksBehind(window, rule, consumed, members, from);
    var long, stops := LongRuns(window, rule, consumed), Stops(window, rule, consumed);
    var long', stops' := LongRuns(window, rule, marked), Stops(window, rule, marked);
    if Picks(long, stops, from, starts) {
      PicksSuffix(long, stops, long', stops', from, starts);
      SameWholeRuns(window, rule, consumed, marked, from, hits);
    }
    if Picks(long', stops', from, starts) {
      PicksSuffix(long', stops', long, stops, from, starts);
      SameWholeRuns(window, rule, consumed, marked, from, hits);
    }
  }

  lemma SameWholeRuns(window: Window, rule: BurstRule, consumed: seq<bool>, marked: seq<bool>, from: nat, hits: seq<BurstHit>)
    requires |consumed| == |marked| == |window|
    requires forall k :: from <= k < |window| ==> RunMembers(window, rule, marked, k) == RunMembers(window, rule, consumed, k)
    requires forall x :: x in Starts(hits) ==> from <= x < |window|
    ensures WholeRuns(window, rule, marked, hits) <==> WholeRuns(window, rule, consumed, hits)
  {
    forall h | h in hits
      ensures from <= h.startIndex < |window|
    {
      var i :| 0 <= i < |hits| && hits[i] == h;
      assert Starts(hits)[i] in Starts(hits);
    }
  }

  /** A first hit at `i` and what is found behind its stretch make up what is found from `i` on. */
  lemma FindsCons(window: Window, rule: BurstRule, consumed: seq<bool>, i: nat, hits: seq<BurstHit>)
    requires |consumed| == |window| && i < |window| && LongRuns(window, rule, consumed)[i]
    ensures RuleFinds(window, rule, consumed, i, hits)
            <==> hits != [] && hits[0] == HitOf(rule, RunMembers(window, rule, consumed, i))
                 && RuleFinds(window, rule, consumed, RunStop(window, rule, consumed, i), hits[1..])
  {
    var long, stops := LongRuns(window, rule, consumed), Stops(window, rule, consumed);
    if hits != [] {
      assert hits == [hits[0]] + hits[1..] && hits[0] in hits;
      assert Starts(hits) == [hits[0].startIndex] + Starts(hits[1..]);
    }
    if RuleFinds(window, rule, consumed, i, hits) {
      FirstPick(long, stops, i, Starts(hits));
      PicksTail(long, stops, i, Starts(hits[1..]));
    } else if hits != [] && hits[0] == HitOf(rule, RunMembers(window, rule, consumed, i))
              && RuleFinds(window, rule, consumed, RunStop(window, rule, consumed, i), hits[1..]) {
      PicksCons(long, stops, i, Starts(hits[1..]));
    }
  }

  /** The scan finds what the rule is to find, and nothing else fits that description. */
  lemma {:induction false} ScanIsTheFind(window: Window, rule: BurstRule, consumed: seq<bool>, i: nat, hits: seq<BurstHit>)
    requires |consumed| == |window| && i <= |window|
    ensures RuleFinds(window, rule, consumed, i, hits) <==> hits == ScanRule(window, rule, consumed, i).1
    decreases |window| - i
  {
    if i == |window| {
      if hits != [] {
        assert Starts(hits)[0] in Starts(hits);
      }
    } else if LongRuns(window, rule, consumed)[i] {
      var members, stop := RunMembers(window, rule, consumed, i), RunStop(window, rule, consumed, i);
      var marked := Mark(consumed, members);
      FindsCons(window, rule, consumed, i, hits);
      if hits != [] {
        assert hits == [hits[0]] + hits[1..];
        MarksBehindFinds(window, rule, consumed, members, stop, hits[1..]);
        ScanIsTheFind(window, rule, marked, stop, hits[1..]);
      }
    } else {
      PicksSkip(LongRuns(window, rule, consumed), Stops(window, rule, consumed), i, Starts(hits));
      ScanIsTheFind(window, rule, consumed, i + 1, hits);
    }
  }

  // ----- all rules -----

  /** Slots claimed before, together with those of the hits. */
  ghost function Claimed(consumed: seq<bool>, hits: seq<BurstHit>): (claimed: seq<bool>)
    ensures |claimed| == |consumed|
  {
    seq(|consumed|, k requires 0 <= k < |consumed| => consumed[k] || exists h :: h in hits && k in h.memberIndices)
  }

  lemma {:induction false} ScanClaims(window: Window, rule: BurstRule, consumed: seq<bool>, i: nat)
    requires |consumed| == |window| && i <= |window|
    ensures ScanRule(window, rule, consumed, i).0 == Claimed(consumed, ScanRule(window, rule, consumed, i).1)
    decreases |window| - i
  {
    if i == |window| {
      assert Claimed(consumed, []) == consumed;
    } else if LongRuns(window, rule, consumed)[i] {
      var members, stop := RunMembers(window, rule, consumed, i), RunStop(window, rule, consumed, i);
      var marked := Mark(consumed, members);
      var later := ScanRule(window, rule, marked, stop).1;
      ScanClaims(window, rule, marked, stop);
      ClaimedCons(consumed, HitOf(rule, members), later);
    } else {
      ScanClaims(window, rule, consumed, i + 1);
    }
  }

  lemma ClaimedCons(consumed: seq<bool>, hit: BurstHit, later: seq<BurstHit>)
    ensures Claimed(Mark(consumed, hit.memberIndices), later) == Claimed(consumed, [hit] + later)
  {
    forall k | 0 <= k < |consumed|
      ensures (exists h :: h in [hit] + later && k in h.memberIndices)
              <==> k in hit.memberIndices || exists h :: h in later && k in h.memberIndices
    {
      assert hit in [hit] + later;
    }
  }

  /** The rules in order, each looking only at the slots left by the ones before it. */
  ghost predicate Detects(window: Window, rules: seq<BurstRule>, consumed: seq<bool>, per: seq<seq<BurstHit>>)
    requires |consumed| == |window|
    decreases |rules|
  {
    if rules == [] then per == []
    else
      && per != [] && RuleFinds(window, rules[0], consumed, 0, per[0])
      && Detects(window, rules[1..], Claimed(consumed, per[0]), per[1..])
  }

  function Flat(per: seq<seq<BurstHit>>): seq<BurstHit> {
    if per == [] then [] else per[0] + Flat(per[1..])
  }

  lemma {:induction false} DetectsIsScan(window: Window, rules: seq<BurstRule>, consumed: seq<bool>, per: seq<seq<BurstHit>>)
    requires |consumed| == |window| && Detects(window, rules, consumed, per)
    ensures Flat(per) == ScanRules(window, rules, consumed)
    decreases |rules|
  {
    if rules != [] {
      ScanIsTheFind(window, rules[0], consumed, 0, per[0]);
      ScanClaims(window, rules[0], consumed, 0);
      DetectsIsScan(window, rules[1..], Claimed(consumed, per[0]), per[1..]);
    }
  }

  lemma {:induction false} ScanDetects(window: Window, rules: seq<BurstRule>, consumed: seq<bool>) returns (per: seq<seq<BurstHit>>)
    requires |consumed| == |window|
    ensures Detects(window, rules, consumed, per)
    decreases |rules|
  {
    per := [];
    if rules != [] {
      var (claimed, hits) := ScanRule(window, rules[0], consumed, 0);
      ScanIsTheFind(window, rules[0], consumed, 0, hits);
      ScanClaims(window, rules[0], consumed, 0);
      var rest := ScanDetects(window, rules[1..], claimed);
      per := [hits] + rest;
      assert per[1..] == rest;
    }
  }

  ghost predicate DetectedHits(window: Window, rules: seq<BurstRule>, hits: seq<BurstHit>) {
    exists per :: Detects(window, rules, Unclaimed(|window|), per) && forall h :: h in hits <==> h in Flat(per)
  }

  /**
   Detection is exact: a list of hits is its result iff it is in order of strictly increasing
   starts and holds exactly what the rules, taking turns, are to find. First rule wins, no run is
   split or cut short, and none is missed.
   */
  lemma BurstsAreTheDetection(window: Window, rules: seq<BurstRule>, hits: seq<BurstHit>)
    ensures hits == BurstsOf(window, rules) <==> StartsIncrease(hits) && DetectedHits(window, rules, hits)
  {
    var free := Unclaimed(|window|);
    var per := ScanDetects(window, rules, free);
    DetectsIsScan(window, rules, free, per);
    BurstsAreGood(window, rules);
    var _ := ScanRulesSound(window, rules, rules, free);
    SortKeeps(|window|, ScanRules(window, rules, free));
    if StartsIncrease(hits) && DetectedHits(window, rules, hits) {
      var other :| Detects(window, rules, free, other) && forall h :: h in hits <==> h in Flat(other);
      DetectsIsScan(window, rules, free, other);
      OrderedUnique(hits, BurstsOf(window, rules), (x: BurstHit, y: BurstHit) => x.startIndex < y.startIndex);
    }
  }
}
