/**
 Burst detection: runs of similar lines found greedily, rule by rule, without overlap.
 */
module Bursts {
  import opened Prelude
  import opened Grammar

  datatype StepMatch =
    | EventNameIs(name: string)
    | BodyStartsWith(prefix: string)
    | BodyContains(needle: string)
    | Any

  datatype BurstRule = BurstRule(
    id: string,
    anchor: StepMatch,
    member: StepMatch,
    tags: seq<string>,
    minBurstSize: nat,
    maxMemberGap: nat)

  datatype BurstHit = BurstHit(
    ruleId: string,
    startIndex: nat,
    endIndex: nat,
    size: nat,
    memberIndices: seq<nat>)

  type Window = seq<LogLine>

  predicate LineMatches(line: LogLine, step: StepMatch, tags: seq<string>) {
    && (match step
        case EventNameIs(name) => line.eventName == Some(name)
        case BodyStartsWith(prefix) => prefix <= line.body
        case BodyContains(needle) => Contains(line.body, needle)
        case Any => true)
    && forall tag :: tag in tags ==> tag in line.tags
  }

  // ----- one run -----

  predicate IsAnchor(window: Window, rule: BurstRule, consumed: seq<bool>, i: nat)
    requires |consumed| == |window|
  {
    i < |window| && !consumed[i] && LineMatches(window[i], rule.anchor, rule.tags)
  }

  predicate Eligible(window: Window, rule: BurstRule, consumed: seq<bool>, i: nat)
    requires |consumed| == |window|
  {
    i < |window| && !consumed[i] && LineMatches(window[i], rule.member, rule.tags)
  }

  /** Members collected from index `j` on with `gap` misses since the last member, and where the walk stopped. */
  function Grow(window: Window, rule: BurstRule, consumed: seq<bool>, j: nat, gap: nat)
    : (r: (seq<nat>, nat))
    requires |consumed| == |window| && j <= |window|
    ensures j <= r.1 <= |window| && forall m :: m in r.0 ==> j <= m < r.1
    decreases |window| - j
  {
    if j == |window| then ([], j)
    else if Eligible(window, rule, consumed, j) then
      var (members, stop) := Grow(window, rule, consumed, j + 1, 0);
      ([j] + members, stop)
    else if gap + 1 > rule.maxMemberGap then ([], j)
    else Grow(window, rule, consumed, j + 1, gap + 1)
  }

  function RunMembers(window: Window, rule: BurstRule, consumed: seq<bool>, i: nat): seq<nat>
    requires |consumed| == |window| && i < |window|
  {
    [i] + Grow(window, rule, consumed, i + 1, 0).0
  }

  function RunStop(window: Window, rule: BurstRule, consumed: seq<bool>, i: nat): nat
    requires |consumed| == |window| && i < |window|
  {
    Grow(window, rule, consumed, i + 1, 0).1
  }

  /**
   What a run from anchor `i` is, without reference to the walk: after the anchor it holds every
   eligible line up to its last member, misses between neighbours stay within the tolerated gap,
   and beyond the last member a full over-long gap (or the end of the window) holds none.
   */
  ghost predicate GreedyRun(window: Window, rule: BurstRule, consumed: seq<bool>, i: nat, run: seq<nat>)
    requires |consumed| == |window|
  {
    && run != [] && run[0] == i && Increasing(run) && run[|run| - 1] < |window|
    && (forall k :: i < k <= run[|run| - 1] ==> (k in run <==> Eligible(window, rule, consumed, k)))
    && (forall m :: 0 <= m < |run| - 1 ==> run[m + 1] - run[m] - 1 <= rule.maxMemberGap)
    && (forall k :: run[|run| - 1] < k <= run[|run| - 1] + rule.maxMemberGap + 1
                    ==> !Eligible(window, rule, consumed, k))
  }

  lemma GreedyCons(window: Window, rule: BurstRule, consumed: seq<bool>, last: nat, j: nat, run: seq<nat>)
    requires |consumed| == |window| && last < j
    requires j - last - 1 <= rule.maxMemberGap
    requires forall k :: last < k < j ==> !Eligible(window, rule, consumed, k)
    requires Eligible(window, rule, consumed, j) && GreedyRun(window, rule, consumed, j, run)
    ensures GreedyRun(window, rule, consumed, last, [last] + run)
  {
    var whole := [last] + run;
    forall k | last < k <= whole[|whole| - 1]
      ensures k in whole <==> Eligible(window, rule, consumed, k)
    {
      assert k in whole <==> k in run;
      assert k < j ==> k !in run;
    }
  }

  lemma {:induction false} GrowIsGreedy(window: Window, rule: BurstRule, consumed: seq<bool>, last: nat, j: nat)
    requires |consumed| == |window| && last < j <= |window|
    requires j - last - 1 <= rule.maxMemberGap
    requires forall k :: last < k < j ==> !Eligible(window, rule, consumed, k)
    ensures GreedyRun(window, rule, consumed, last, [last] + Grow(window, rule, consumed, j, j - last - 1).0)
    decreases |window| - j
  {
    if j < |window| && Eligible(window, rule, consumed, j) {
      GrowIsGreedy(window, rule, consumed, j, j + 1);
      GreedyCons(window, rule, consumed, last, j, [j] + Grow(window, rule, consumed, j + 1, 0).0);
    } else if j < |window| && j - last <= rule.maxMemberGap {
      GrowIsGreedy(window, rule, consumed, last, j + 1);
    }
  }

  /** A run is the greedy run from its anchor. */
  lemma RunIsGreedy(window: Window, rule: BurstRule, consumed: seq<bool>, i: nat)
    requires |consumed| == |window| && i < |window|
    ensures GreedyRun(window, rule, consumed, i, RunMembers(window, rule, consumed, i))
  {
    GrowIsGreedy(window, rule, consumed, i, i + 1);
  }

  /** No greedy run from the same anchor reaches further than another. */
  lemma SameReach(window: Window, rule: BurstRule, consumed: seq<bool>, i: nat, a: seq<nat>, b: seq<nat>)
    requires |consumed| == |window|
    requires GreedyRun(window, rule, consumed, i, a) && GreedyRun(window, rule, consumed, i, b)
    ensures b[|b| - 1] <= a[|a| - 1]
  {
    var m := 0;
    while m < |b| - 1
      invariant m < |b| && b[m] <= a[|a| - 1]
    {
      var next := b[m + 1];
      assert b[0] < next && next in b;
      assert next - b[m] - 1 <= rule.maxMemberGap;
      assert Eligible(window, rule, consumed, next);
      m := m + 1;
    }
  }

  /** The walk collects the one and only greedy run from its anchor. */
  lemma RunIsTheGreedyRun(window: Window, rule: BurstRule, consumed: seq<bool>, i: nat, run: seq<nat>)
    requires |consumed| == |window| && i < |window|
    ensures GreedyRun(window, rule, consumed, i, run) <==> run == RunMembers(window, rule, consumed, i)
  {
    var found := RunMembers(window, rule, consumed, i);
    RunIsGreedy(window, rule, consumed, i);
    if GreedyRun(window, rule, consumed, i, run) {
      SameReach(window, rule, consumed, i, run, found);
      SameReach(window, rule, consumed, i, found, run);
      forall k
        ensures k in run <==> k in found
      {
        InRun(window, rule, consumed, i, run, k);
        InRun(window, rule, consumed, i, found, k);
      }
      OrderedUnique(run, found, (x: nat, y: nat) => x < y);
    }
  }

  lemma InRun(window: Window, rule: BurstRule, consumed: seq<bool>, i: nat, run: seq<nat>, k: nat)
    requires |consumed| == |window| && GreedyRun(window, rule, consumed, i, run)
    ensures k in run <==> k == i || (i < k <= run[|run| - 1] && Eligible(window, rule, consumed, k))
  {
  }

  // ----- one rule, then all rules -----

  function Mark(consumed: seq<bool>, members: seq<nat>): (marked: seq<bool>)
    ensures |marked| == |consumed|
  {
    seq(|consumed|, k requires 0 <= k < |consumed| => consumed[k] || k in members)
  }

  function HitOf(rule: BurstRule, members: seq<nat>): BurstHit
    requires members != []
  {
    BurstHit(rule.id, members[0], members[|members| - 1], |members|, members)
  }

  /** Slots claimed and hits found by one rule scanning from index `i`. */
  function ScanRule(window: Window, rule: BurstRule, consumed: seq<bool>, i: nat): (r: (seq<bool>, seq<BurstHit>))
    requires |consumed| == |window| && i <= |window|
    ensures |r.0| == |window|
    decreases |window| - i
  {
    if i == |window| then (consumed, [])
    else if !IsAnchor(window, rule, consumed, i) then ScanRule(window, rule, consumed, i + 1)
    else
      var members := RunMembers(window, rule, consumed, i);
      if |members| >= rule.minBurstSize then
        var (claimed, later) := ScanRule(window, rule, Mark(consumed, members), RunStop(window, rule, consumed, i));
        (claimed, [HitOf(rule, members)] + later)
      else
        ScanRule(window, rule, consumed, i + 1)
  }

  function ScanRules(window: Window, rules: seq<BurstRule>, consumed: seq<bool>): seq<BurstHit>
    requires |consumed| == |window|
  {
    if rules == [] then []
    else
      var (claimed, hits) := ScanRule(window, rules[0], consumed, 0);
      hits + ScanRules(window, rules[1..], claimed)
  }

  function InsertHit(sorted: seq<BurstHit>, hit: BurstHit): seq<BurstHit> {
    if sorted == [] || sorted[|sorted| - 1].startIndex <= hit.startIndex then sorted + [hit]
    else InsertHit(sorted[..|sorted| - 1], hit) + [sorted[|sorted| - 1]]
  }

  /** Stable sort by start index. */
  function SortByStart(hits: seq<BurstHit>): seq<BurstHit> {
    if hits == [] then [] else InsertHit(SortByStart(hits[..|hits| - 1]), hits[|hits| - 1])
  }

  function Unclaimed(n: nat): (consumed: seq<bool>)
    ensures |consumed| == n
  {
    seq(n, _ => false)
  }

  /** Specification of burst detection. */
  function BurstsOf(window: Window, rules: seq<BurstRule>): seq<BurstHit> {
    SortByStart(ScanRules(window, rules, Unclaimed(|window|)))
  }

  method DetectBursts(window: Window, rules: seq<BurstRule>) returns (hits: seq<BurstHit>)
    ensures hits == BurstsOf(window, rules)
  {
    if window == [] {
      NothingInEmptyWindow(rules);
      return [];
    }
    var consumed := new bool[|window|](_ => false);
    hits := [];
    assert consumed[..] == Unclaimed(|window|);
    for r := 0 to |rules|
      invariant hits + ScanRules(window, rules[r..], consumed[..]) == ScanRules(window, rules, Unclaimed(|window|))
    {
      assert rules[r..][0] == rules[r] && rules[r..][1..] == rules[r + 1..];
      var found := ScanOneRule(window, rules[r], consumed);
      hits := hits + found;
    }
    assert rules[|rules|..] == [];
    assert hits + [] == hits;
    hits := SortByStart(hits);
  }

  /** One pass of one rule over the window, claiming the slots of the runs it finds. */
  method ScanOneRule(window: Window, rule: BurstRule, consumed: array<bool>) returns (hits: seq<BurstHit>)
    requires consumed.Length == |window|
    modifies consumed
    ensures consumed[..] == ScanRule(window, rule, old(consumed[..]), 0).0
    ensures hits == ScanRule(window, rule, old(consumed[..]), 0).1
  {
    hits := [];
    var i := 0;
    while i < |window|
      invariant 0 <= i <= |window|
      invariant ScanRule(window, rule, consumed[..], i).0 == ScanRule(window, rule, old(consumed[..]), 0).0
      invariant hits + ScanRule(window, rule, consumed[..], i).1 == ScanRule(window, rule, old(consumed[..]), 0).1
    {
      if consumed[i] || !LineMatches(window[i], rule.anchor, rule.tags) {
        assert !IsAnchor(window, rule, consumed[..], i);
        i := i + 1;
        continue;
      }
      assert IsAnchor(window, rule, consumed[..], i);
      var members, j := WalkRun(window, rule, consumed, i);
      if |members| >= rule.minBurstSize {
        Claim(consumed, members);
        hits := hits + [HitOf(rule, members)];
        i := j;
      } else {
        i := i + 1;
      }
    }
  }

  method Claim(consumed: array<bool>, members: seq<nat>)
    requires forall m :: m in members ==> m < consumed.Length
    modifies consumed
    ensures consumed[..] == Mark(old(consumed[..]), members)
  {
    for m := 0 to |members|
      invariant consumed[..] == Mark(old(consumed[..]), members[..m])
    {
      assert members[..m + 1] == members[..m] + [members[m]] && members[m] in members;
      consumed[members[m]] := true;
    }
    assert members[..|members|] == members;
  }

  /** The inner walk: collect members until the gap budget is exceeded or the window ends. */
  method WalkRun(window: Window, rule: BurstRule, consumed: array<bool>, i: nat) returns (members: seq<nat>, j: nat)
    requires consumed.Length == |window| && i < |window|
    ensures members == RunMembers(window, rule, consumed[..], i)
    ensures j == RunStop(window, rule, consumed[..], i)
    ensures forall m :: m in members ==> m < |window|
  {
    members := [i];
    var gap := 0;
    j := i + 1;
    while j < |window|
      invariant i < j <= |window|
      invariant members + Grow(window, rule, consumed[..], j, gap).0 == RunMembers(window, rule, consumed[..], i)
      invariant Grow(window, rule, consumed[..], j, gap).1 == RunStop(window, rule, consumed[..], i)
      invariant forall m :: m in members ==> m < |window|
    {
      if consumed[j] {
        gap := gap + 1;
        if gap > rule.maxMemberGap {
          break;
        }
        j := j + 1;
        continue;
      }
      if LineMatches(window[j], rule.member, rule.tags) {
        members := members + [j];
        gap := 0;
        j := j + 1;
      } else {
        gap := gap + 1;
        if gap > rule.maxMemberGap {
          break;
        }
        j := j + 1;
      }
    }
  }

  lemma {:induction false} NothingInEmptyWindow(rules: seq<BurstRule>)
    ensures ScanRules([], rules, []) == [] && BurstsOf([], rules) == []
  {
    if rules != [] {
      NothingInEmptyWindow(rules[1..]);
    }
    assert Unclaimed(0) == [];
  }

  // ----- what the hits guarantee -----

  /** A hit over `n` lines: its members are an increasing sequence of positions, counted by `size`. */
  ghost predicate HitFits(n: nat, hit: BurstHit) {
    && hit.memberIndices != [] && Increasing(hit.memberIndices)
    && (forall m :: m in hit.memberIndices ==> m < n)
    && hit.startIndex == hit.memberIndices[0] && hit.startIndex < n && hit.endIndex < n
    && hit.endIndex == hit.memberIndices[|hit.memberIndices| - 1]
    && hit.size == |hit.memberIndices|
  }

  ghost predicate Disjoint(a: BurstHit, b: BurstHit) {
    forall m :: m in a.memberIndices ==> m !in b.memberIndices
  }

  ghost predicate PairwiseDisjoint(hits: seq<BurstHit>) {
    forall i, j :: 0 <= i < j < |hits| ==> Disjoint(hits[i], hits[j])
  }

  ghost predicate StartsIncrease(hits: seq<BurstHit>) {
    forall i, j :: 0 <= i < j < |hits| ==> hits[i].startIndex < hits[j].startIndex
  }

  /** The contract the ingest and collapse passes rely on. */
  ghost predicate GoodHits(n: nat, hits: seq<BurstHit>) {
    && (forall h :: h in hits ==> HitFits(n, h))
    && PairwiseDisjoint(hits)
    && StartsIncrease(hits)
  }

  /** `hit` is what `rule` finds at an anchor among the lines left unclaimed by `consumed`. */
  ghost predicate FoundBy(window: Window, rule: BurstRule, consumed: seq<bool>, hit: BurstHit) {
    && |consumed| == |window|
    && hit.ruleId == rule.id && hit.size >= rule.minBurstSize
    && IsAnchor(window, rule, consumed, hit.startIndex)
    && GreedyRun(window, rule, consumed, hit.startIndex, hit.memberIndices)
  }

  ghost predicate AllSlots(members: seq<nat>, consumed: seq<bool>, claimed: bool) {
    forall m :: m in members ==> m < |consumed| && consumed[m] == claimed
  }

  /** Hits of one scan: every member was unclaimed before and is claimed after. */
  ghost predicate ClaimedBy(hits: seq<BurstHit>, before: seq<bool>, after: seq<bool>) {
    && |before| == |after|
    && (forall k :: 0 <= k < |before| && before[k] ==> after[k])
    && (forall h :: h in hits ==> AllSlots(h.memberIndices, before, false) && AllSlots(h.memberIndices, after, true))
  }

  lemma RunFits(window: Window, rule: BurstRule, consumed: seq<bool>, i: nat)
    requires |consumed| == |window| && IsAnchor(window, rule, consumed, i)
    requires |RunMembers(window, rule, consumed, i)| >= rule.minBurstSize
    ensures var hit := HitOf(rule, RunMembers(window, rule, consumed, i));
            && HitFits(|window|, hit) && FoundBy(window, rule, consumed, hit)
            && ClaimedBy([hit], consumed, Mark(consumed, hit.memberIndices))
  {
    RunIsGreedy(window, rule, consumed, i);
    var run := RunMembers(window, rule, consumed, i);
    forall m | m in run
      ensures m < |window| && !consumed[m]
    {
      assert m != i ==> Eligible(window, rule, consumed, m);
    }
  }

  lemma PairwiseConcat(a: seq<BurstHit>, b: seq<BurstHit>)
    requires PairwiseDisjoint(a) && PairwiseDisjoint(b)
    requires forall x, y :: x in a && y in b ==> Disjoint(x, y)
    ensures PairwiseDisjoint(a + b)
  {
    var c := a + b;
    forall i, j | 0 <= i < j < |c|
      ensures Disjoint(c[i], c[j])
    {
      if i < |a| <= j {
        assert c[i] in a && c[j] in b;
      }
    }
  }

  ghost predicate Sound(window: Window, rules: seq<BurstRule>, hits: seq<BurstHit>) {
    && PairwiseDisjoint(hits)
    && forall h :: h in hits ==> HitFits(|window|, h) && exists r, c :: r in rules && FoundBy(window, r, c, h)
  }

  lemma SoundConcat(window: Window, rules: seq<BurstRule>, a: seq<BurstHit>, b: seq<BurstHit>,
                    before: seq<bool>, between: seq<bool>, after: seq<bool>)
    requires Sound(window, rules, a) && Sound(window, rules, b)
    requires ClaimedBy(a, before, between) && ClaimedBy(b, between, after)
    ensures Sound(window, rules, a + b) && ClaimedBy(a + b, before, after)
  {
    forall x, y | x in a && y in b
      ensures Disjoint(x, y)
    {
      assert AllSlots(x.memberIndices, between, true) && AllSlots(y.memberIndices, between, false);
    }
    PairwiseConcat(a, b);
  }

  lemma {:induction false} ScanRuleSound(window: Window, rules: seq<BurstRule>, rule: BurstRule, consumed: seq<bool>, i: nat)
    requires |consumed| == |window| && i <= |window| && rule in rules
    ensures var (claimed, hits) := ScanRule(window, rule, consumed, i);
            ClaimedBy(hits, consumed, claimed) && Sound(window, rules, hits)
    decreases |window| - i
  {
    if i == |window| {
    } else if IsAnchor(window, rule, consumed, i)
              && |RunMembers(window, rule, consumed, i)| >= rule.minBurstSize {
      var members := RunMembers(window, rule, consumed, i);
      var marked := Mark(consumed, members);
      RunFits(window, rule, consumed, i);
      var (claimed, later) := ScanRule(window, rule, marked, RunStop(window, rule, consumed, i));
      ScanRuleSound(window, rules, rule, marked, RunStop(window, rule, consumed, i));
      SoundConcat(window, rules, [HitOf(rule, members)], later, consumed, marked, claimed);
    } else {
      ScanRuleSound(window, rules, rule, consumed, i + 1);
    }
  }

  lemma {:induction false} ScanRulesSound(window: Window, all: seq<BurstRule>, rules: seq<BurstRule>, consumed: seq<bool>)
    returns (after: seq<bool>)
    requires |consumed| == |window| && forall r :: r in rules ==> r in all
    ensures ClaimedBy(ScanRules(window, rules, consumed), consumed, after)
    ensures Sound(window, all, ScanRules(window, rules, consumed))
  {
    after := consumed;
    if rules != [] {
      var (claimed, first) := ScanRule(window, rules[0], consumed, 0);
      ScanRuleSound(window, all, rules[0], consumed, 0);
      after := ScanRulesSound(window, all, rules[1..], claimed);
      SoundConcat(window, all, first, ScanRules(window, rules[1..], claimed), consumed, claimed, after);
    }
  }

  lemma GoodSnoc(n: nat, hits: seq<BurstHit>, hit: BurstHit)
    requires GoodHits(n, hits) && HitFits(n, hit)
    requires forall h :: h in hits ==> Disjoint(h, hit) && h.startIndex < hit.startIndex
    ensures GoodHits(n, hits + [hit])
  {
    PairwiseConcat(hits, [hit]);
    assert forall i :: 0 <= i < |hits| ==> hits[i] in hits;
  }

  lemma {:induction false} InsertHitKeeps(n: nat, sorted: seq<BurstHit>, hit: BurstHit)
    requires GoodHits(n, sorted) && HitFits(n, hit)
    requires forall h :: h in sorted ==> Disjoint(h, hit) && Disjoint(hit, h)
    ensures GoodHits(n, InsertHit(sorted, hit))
    ensures forall h :: h in InsertHit(sorted, hit) <==> h in sorted || h == hit
  {
    if sorted == [] {
      GoodSnoc(n, sorted, hit);
    } else {
      var init, last := sorted[..|sorted| - 1], sorted[|sorted| - 1];
      assert sorted == init + [last];
      assert last in sorted && last.memberIndices[0] in last.memberIndices;
      if last.startIndex <= hit.startIndex {
        GoodSnoc(n, sorted, hit);
      } else {
        InsertHitKeeps(n, init, hit);
        assert forall i :: 0 <= i < |init| ==> Disjoint(sorted[i], last);
        GoodSnoc(n, InsertHit(init, hit), last);
      }
    }
  }

  lemma {:induction false} SortKeeps(n: nat, hits: seq<BurstHit>)
    requires PairwiseDisjoint(hits) && forall h :: h in hits ==> HitFits(n, h)
    ensures GoodHits(n, SortByStart(hits))
    ensures forall h :: h in SortByStart(hits) <==> h in hits
  {
    if hits != [] {
      var init, last := hits[..|hits| - 1], hits[|hits| - 1];
      assert hits == init + [last] && last in hits;
      SortKeeps(n, init);
      forall h | h in init
        ensures Disjoint(h, last) && Disjoint(last, h)
      {
        var i :| 0 <= i < |init| && init[i] == h;
        assert Disjoint(hits[i], hits[|hits| - 1]);
      }
      InsertHitKeeps(n, SortByStart(init), last);
    }
  }

  /** Detection meets its contract, and every hit is a greedy run of one of the rules. */
  lemma BurstsAreGood(window: Window, rules: seq<BurstRule>)
    ensures GoodHits(|window|, BurstsOf(window, rules))
    ensures forall h :: h in BurstsOf(window, rules) ==>
              exists r, c :: r in rules && FoundBy(window, r, c, h)
  {
    var _ := ScanRulesSound(window, rules, rules, Unclaimed(|window|));
    SortKeeps(|window|, ScanRules(window, rules, Unclaimed(|window|)));
  }

  lemma SizesAtLeast(window: Window, rules: seq<BurstRule>, least: nat)
    requires forall r :: r in rules ==> r.minBurstSize >= least
    ensures forall h :: h in BurstsOf(window, rules) ==> h.size >= least
  {
    BurstsAreGood(window, rules);
  }

  // ----- nothing is missed -----

  lemma {:induction false} GrowIgnoresEarlierSlots(window: Window, rule: BurstRule, c1: seq<bool>, c2: seq<bool>, j: nat, gap: nat)
    requires |c1| == |c2| == |window| && j <= |window|
    requires c1[j..] == c2[j..]
    ensures Grow(window, rule, c1, j, gap) == Grow(window, rule, c2, j, gap)
    decreases |window| - j
  {
    if j < |window| {
      assert c1[j] == c1[j..][0] == c2[j..][0] == c2[j];
      assert c1[j + 1..] == c1[j..][1..] == c2[j + 1..];
      GrowIgnoresEarlierSlots(window, rule, c1, c2, j + 1, 0);
      GrowIgnoresEarlierSlots(window, rule, c1, c2, j + 1, gap + 1);
    }
  }

  /** `k` lies strictly inside the stretch one of the hits walked over. */
  ghost predicate Spanned(window: Window, rule: BurstRule, consumed: seq<bool>, hits: seq<BurstHit>, k: nat)
    requires |consumed| == |window|
  {
    exists h :: h in hits && h.startIndex < k && h.startIndex < |window|
                && k < RunStop(window, rule, consumed, h.startIndex)
  }

  lemma RunUnaffectedByEarlierMarks(window: Window, rule: BurstRule, consumed: seq<bool>, members: seq<nat>, stop: nat, x: nat)
    requires |consumed| == |window| && stop <= x < |window|
    requires forall m :: m in members ==> m < stop
    ensures RunMembers(window, rule, Mark(consumed, members), x) == RunMembers(window, rule, consumed, x)
    ensures RunStop(window, rule, Mark(consumed, members), x) == RunStop(window, rule, consumed, x)
  {
    assert Mark(consumed, members)[x + 1..] == consumed[x + 1..];
    GrowIgnoresEarlierSlots(window, rule, Mark(consumed, members), consumed, x + 1, 0);
  }

  /**
   A rule leaves no burst behind: an anchor still unclaimed after its scan either lies inside the
   stretch of a burst the scan found, or starts a run that is too short.
   */
  lemma {:induction false} ScanRuleComplete(window: Window, rule: BurstRule, consumed: seq<bool>, i: nat, k: nat)
    requires |consumed| == |window| && i <= k < |window|
    requires IsAnchor(window, rule, ScanRule(window, rule, consumed, i).0, k)
    ensures |RunMembers(window, rule, consumed, k)| < rule.minBurstSize
            || Spanned(window, rule, consumed, ScanRule(window, rule, consumed, i).1, k)
    decreases |window| - i
  {
    if IsAnchor(window, rule, consumed, i) && |RunMembers(window, rule, consumed, i)| >= rule.minBurstSize {
      var members, stop := RunMembers(window, rule, consumed, i), RunStop(window, rule, consumed, i);
      var marked := Mark(consumed, members);
      var later := ScanRule(window, rule, marked, stop).1;
      var hits := [HitOf(rule, members)] + later;
      ScanRuleSound(window, [rule], rule, marked, stop);
      if k < stop {
        assert hits[0] in hits && marked[i];
      } else {
        RunUnaffectedByEarlierMarks(window, rule, consumed, members, stop, k);
        ScanRuleComplete(window, rule, marked, stop, k);
        if Spanned(window, rule, marked, later, k) {
          var h :| h in later && h.startIndex < k && h.startIndex < |window|
                   && k < RunStop(window, rule, marked, h.startIndex);
          ScanStartsFrom(window, rule, marked, stop, h);
          RunUnaffectedByEarlierMarks(window, rule, consumed, members, stop, h.startIndex);
          assert h in hits;
        }
      }
    } else if i < k {
      ScanRuleComplete(window, rule, consumed, i + 1, k);
    } else {
      ScanRuleSound(window, [rule], rule, consumed, i + 1);
    }
  }

  lemma {:induction false} ScanStartsFrom(window: Window, rule: BurstRule, consumed: seq<bool>, i: nat, hit: BurstHit)
    requires |consumed| == |window| && i <= |window|
    requires hit in ScanRule(window, rule, consumed, i).1
    ensures i <= hit.startIndex
    decreases |window| - i
  {
    if IsAnchor(window, rule, consumed, i) && |RunMembers(window, rule, consumed, i)| >= rule.minBurstSize {
      var members := RunMembers(window, rule, consumed, i);
      if hit != HitOf(rule, members) {
        ScanStartsFrom(window, rule, Mark(consumed, members), RunStop(window, rule, consumed, i), hit);
      }
    } else {
      ScanStartsFrom(window, rule, consumed, i + 1, hit);
    }
  }

  // ----- a window of nothing but members -----

  ghost predicate Uniform(window: Window, rule: BurstRule) {
    forall i :: 0 <= i < |window| ==>
      LineMatches(window[i], rule.anchor, rule.tags) && LineMatches(window[i], rule.member, rule.tags)
  }

  function Range(from: nat, to: nat): (r: seq<nat>)
    requires from <= to
    ensures |r| == to - from
  {
    seq(to - from, i requires i >= 0 => from + i)
  }

  lemma {:induction false} UniformGrow(window: Window, rule: BurstRule, j: nat, gap: nat)
    requires Uniform(window, rule) && j <= |window|
    ensures Grow(window, rule, Unclaimed(|window|), j, gap) == (Range(j, |window|), |window|)
    decreases |window| - j
  {
    if j < |window| {
      UniformGrow(window, rule, j + 1, 0);
      assert Range(j, |window|) == [j] + Range(j + 1, |window|);
    } else {
      assert Range(j, |window|) == [];
    }
  }

  /** No line of the window is an anchor of the rule. */
  ghost predicate Silent(window: Window, rule: BurstRule) {
    forall i :: 0 <= i < |window| ==> !LineMatches(window[i], rule.anchor, rule.tags)
  }

  lemma {:induction false} SilentScan(window: Window, rule: BurstRule, consumed: seq<bool>, i: nat)
    requires |consumed| == |window| && i <= |window|
    requires forall k :: i <= k < |window| ==> !IsAnchor(window, rule, consumed, k)
    ensures ScanRule(window, rule, consumed, i) == (consumed, [])
    decreases |window| - i
  {
    if i < |window| {
      SilentScan(window, rule, consumed, i + 1);
    }
  }

  /** Rules without an anchor in the window, or without a slot left, find nothing. */
  lemma {:induction false} SilentRules(window: Window, rules: seq<BurstRule>, consumed: seq<bool>)
    requires |consumed| == |window|
    requires (forall r :: r in rules ==> Silent(window, r)) || forall k :: 0 <= k < |window| ==> consumed[k]
    ensures ScanRules(window, rules, consumed) == []
  {
    if rules != [] {
      assert rules[0] in rules && forall r :: r in rules[1..] ==> r in rules;
      SilentScan(window, rules[0], consumed, 0);
      SilentRules(window, rules[1..], consumed);
    }
  }

  lemma {:induction false} SilentFirst(window: Window, rules: seq<BurstRule>, consumed: seq<bool>, n: nat)
    requires |consumed| == |window| && n <= |rules| && forall q :: 0 <= q < n ==> Silent(window, rules[q])
    ensures ScanRules(window, rules, consumed) == ScanRules(window, rules[n..], consumed)
    decreases n
  {
    if n > 0 {
      SilentScan(window, rules[0], consumed, 0);
      SilentFirst(window, rules[1..], consumed, n - 1);
      assert rules[1..][n - 1..] == rules[n..];
    }
  }

  lemma UniformScan(window: Window, rule: BurstRule)
    requires Uniform(window, rule) && window != [] && |window| >= rule.minBurstSize
    ensures ScanRule(window, rule, Unclaimed(|window|), 0)
            == (Mark(Unclaimed(|window|), Range(0, |window|)), [HitOf(rule, Range(0, |window|))])
  {
    var n := |window|;
    UniformGrow(window, rule, 1, 0);
    assert IsAnchor(window, rule, Unclaimed(n), 0);
    assert RunMembers(window, rule, Unclaimed(n), 0) == Range(0, n);
    var marked := Mark(Unclaimed(n), Range(0, n));
    assert ScanRule(window, rule, marked, n) == (marked, []);
    assert RunStop(window, rule, Unclaimed(n), 0) == n;
    assert [HitOf(rule, Range(0, n))] + [] == [HitOf(rule, Range(0, n))];
  }

  /**
   A long enough window all of whose lines a rule takes, and none of which an earlier rule
   anchors on, is exactly one burst of that rule, whatever rules follow.
   */
  lemma UniformBurst(window: Window, rules: seq<BurstRule>, r: nat)
    requires r < |rules| && Uniform(window, rules[r]) && window != [] && |window| >= rules[r].minBurstSize
    requires forall q :: 0 <= q < r ==> Silent(window, rules[q])
    ensures BurstsOf(window, rules) == [HitOf(rules[r], Range(0, |window|))]
  {
    var n, hit := |window|, HitOf(rules[r], Range(0, |window|));
    var marked := Mark(Unclaimed(n), Range(0, n));
    SilentFirst(window, rules, Unclaimed(n), r);
    UniformScan(window, rules[r]);
    forall k | 0 <= k < n
      ensures marked[k]
    {
      assert Range(0, n)[k] == k;
    }
    SilentRules(window, rules[r..][1..], marked);
    assert [hit] + [] == [hit] && [hit][..0] == [];
    assert SortByStart([hit]) == [hit];
  }

  // ----- the shipped rules -----

  function Homogeneous(id: string, name: string, tags: seq<string>, least: nat, gap: nat): BurstRule {
    BurstRule(id, EventNameIs(name), EventNameIs(name), tags, least, gap)
  }

  function BuiltinBurstRules(): seq<BurstRule> {
    [ Homogeneous("loadout_restore_burst", "AttachmentReceived", ["Inventory"], 3, 1),
      Homogeneous("terrain_load_burst", "StatObjLoad 0x800 Format", ["CoreTech"], 5, 0),
      Homogeneous("hud_notification_burst", "SHUDEvent_OnNotification", [], 3, 0),
      Homogeneous("vehicle_stowed_burst", "VehicleStowed", [], 3, 0) ]
  }

  lemma BuiltinIdsAreBarFree()
    ensures '|' !in "loadout_restore_burst"
    ensures '|' !in "terrain_load_burst"
    ensures '|' !in "hud_notification_burst"
    ensures '|' !in "vehicle_stowed_burst"
  {
  }

  /** The shipped rules meet every condition the pipeline puts on burst rules. */
  lemma BuiltinRulesAreSafe()
    ensures forall r :: r in BuiltinBurstRules() ==> r.minBurstSize >= 3 && '|' !in r.id
  {
    BuiltinIdsAreBarFree();
    forall r | r in BuiltinBurstRules()
      ensures r.minBurstSize >= 3 && '|' !in r.id
    {
      var i :| 0 <= i < 4 && r == BuiltinBurstRules()[i];
      assert i == 0 || i == 1 || i == 2 || i == 3;
    }
  }

  // ----- what a burst demands of its lines -----

  /** A step pattern, spelled out. */
  ghost predicate StepHolds(line: LogLine, step: StepMatch) {
    match step
    case EventNameIs(name) => line.eventName == Some(name)
    case BodyStartsWith(prefix) => exists rest :: line.body == prefix + rest
    case BodyContains(needle) => exists before, after :: line.body == before + needle + after
    case Any => true
  }

  ghost predicate CarriesAll(line: LogLine, tags: seq<string>) {
    forall tag :: tag in tags ==> tag in line.tags
  }

  lemma StartsWithIff(body: string, prefix: string)
    ensures prefix <= body <==> exists rest :: body == prefix + rest
  {
    if prefix <= body {
      assert body == prefix + body[|prefix|..];
    }
  }

  /** A line matches iff it meets the step and carries every tag asked for. */
  lemma LineMatchesIff(line: LogLine, step: StepMatch, tags: seq<string>)
    ensures LineMatches(line, step, tags) <==> StepHolds(line, step) && CarriesAll(line, tags)
  {
    match step
    case EventNameIs(_) =>
    case BodyStartsWith(prefix) => StartsWithIff(line.body, prefix);
    case BodyContains(needle) => ContainsIff(line.body, needle);
    case Any =>
  }

  /** The hit comes from the rule: enough lines, all tagged, the first meeting the anchor step and the rest the member step. */
  ghost predicate ComesFrom(window: Window, rule: BurstRule, hit: BurstHit) {
    && hit.ruleId == rule.id && hit.size == |hit.memberIndices| >= rule.minBurstSize && hit.size > 0
    && forall m :: 0 <= m < hit.size ==>
         && hit.memberIndices[m] < |window|
         && CarriesAll(window[hit.memberIndices[m]], rule.tags)
         && StepHolds(window[hit.memberIndices[m]], if m == 0 then rule.anchor else rule.member)
  }

  lemma FoundComesFrom(window: Window, rule: BurstRule, consumed: seq<bool>, hit: BurstHit)
    requires FoundBy(window, rule, consumed, hit) && HitFits(|window|, hit)
    ensures ComesFrom(window, rule, hit)
  {
    forall m | 0 <= m < hit.size
      ensures var line := window[hit.memberIndices[m]];
              CarriesAll(line, rule.tags) && StepHolds(line, if m == 0 then rule.anchor else rule.member)
    {
      var k := hit.memberIndices[m];
      assert k in hit.memberIndices;
      assert m > 0 ==> Eligible(window, rule, consumed, k);
      LineMatchesIff(window[k], if m == 0 then rule.anchor else rule.member, rule.tags);
    }
  }

  /** Every burst comes from one of the rules, line by line. */
  lemma BurstLinesMatch(window: Window, rules: seq<BurstRule>)
    ensures forall h :: h in BurstsOf(window, rules) ==> exists rule :: rule in rules && ComesFrom(window, rule, h)
  {
    BurstsAreGood(window, rules);
    forall h | h in BurstsOf(window, rules)
      ensures exists rule :: rule in rules && ComesFrom(window, rule, h)
    {
      var rule, c :| rule in rules && FoundBy(window, rule, c, h);
      FoundComesFrom(window, rule, c, h);
    }
  }

  /** A line that lacks a tag of every rule is in no burst. */
  lemma UntaggedLineInNoBurst(window: Window, rules: seq<BurstRule>, k: nat)
    ensures k < |window| && (forall rule :: rule in rules ==> !CarriesAll(window[k], rule.tags)) ==>
              forall h :: h in BurstsOf(window, rules) ==> k !in h.memberIndices
  {
    BurstLinesMatch(window, rules);
  }

  /** The converse: lines that all meet a rule and carry its tags, and no earlier rule's anchor, are one burst. */
  lemma MatchingLinesAreABurst(window: Window, rules: seq<BurstRule>, r: nat)
    requires r < |rules| && window != [] && |window| >= rules[r].minBurstSize
    requires forall i :: 0 <= i < |window| ==>
               StepHolds(window[i], rules[r].anchor) && StepHolds(window[i], rules[r].member) && CarriesAll(window[i], rules[r].tags)
    requires forall q, i :: 0 <= q < r && 0 <= i < |window| ==>
               !StepHolds(window[i], rules[q].anchor) || !CarriesAll(window[i], rules[q].tags)
    ensures var hits := BurstsOf(window, rules);
            && |hits| == 1 && hits[0].ruleId == rules[r].id && hits[0].size == |hits[0].memberIndices| == |window|
            && forall i :: 0 <= i < |window| ==> hits[0].memberIndices[i] == i
  {
    forall i | 0 <= i < |window|
      ensures LineMatches(window[i], rules[r].anchor, rules[r].tags) && LineMatches(window[i], rules[r].member, rules[r].tags)
    {
      LineMatchesIff(window[i], rules[r].anchor, rules[r].tags);
      LineMatchesIff(window[i], rules[r].member, rules[r].tags);
    }
    forall q, i | 0 <= q < r && 0 <= i < |window|
      ensures !LineMatches(window[i], rules[q].anchor, rules[q].tags)
    {
      LineMatchesIff(window[i], rules[q].anchor, rules[q].tags);
    }
    UniformBurst(window, rules, r);
  }

  /** What the shipped rules collapse: the event name, the tag if any, the least number of lines, the gap. */
  lemma ShippedRules()
    ensures var rules := BuiltinBurstRules();
            && |rules| == 4
            && rules[0].anchor == rules[0].member == EventNameIs("AttachmentReceived") && rules[0].tags == ["Inventory"]
            && rules[1].anchor == rules[1].member == EventNameIs("StatObjLoad 0x800 Format") && rules[1].tags == ["CoreTech"]
            && rules[2].anchor == rules[2].member == EventNameIs("SHUDEvent_OnNotification") && rules[2].tags == []
            && rules[3].anchor == rules[3].member == EventNameIs("VehicleStowed") && rules[3].tags == []
            && rules[0].minBurstSize == 3 && rules[1].minBurstSize == 5 && rules[2].minBurstSize == 3 && rules[3].minBurstSize == 3
            && rules[0].maxMemberGap == 1 && rules[1].maxMemberGap == rules[2].maxMemberGap == rules[3].maxMemberGap == 0
  {
  }

  /** Attachments without the inventory tag are never collapsed, however many. */
  lemma UntaggedAttachmentsStay(window: Window)
    requires forall i :: 0 <= i < |window| ==> window[i].eventName == Some("AttachmentReceived") && "Inventory" !in window[i].tags
    ensures BurstsOf(window, BuiltinBurstRules()) == []
  {
    var rules, hits := BuiltinBurstRules(), BurstsOf(window, BuiltinBurstRules());
    BurstLinesMatch(window, rules);
    OtherNames();
    DifferentNames();
    if hits != [] {
      assert hits[0] in hits;
      var rule :| rule in rules && ComesFrom(window, rule, hits[0]);
      var line := window[hits[0].memberIndices[0]];
      AttachmentRule(line, rule);
    }
  }

  lemma AttachmentRule(line: LogLine, rule: BurstRule)
    requires rule in BuiltinBurstRules() && line.eventName == Some("AttachmentReceived")
    ensures StepHolds(line, rule.anchor) && CarriesAll(line, rule.tags) ==> "Inventory" in line.tags
  {
    var rules := BuiltinBurstRules();
    AttachmentIsNotTerrain();
    OtherNames();
    var i :| 0 <= i < 4 && rules[i] == rule;
    assert i == 0 || i == 1 || i == 2 || i == 3;
    assert "Inventory" in rules[0].tags;
  }

  lemma AttachmentIsNotTerrain()
    ensures "AttachmentReceived" != "StatObjLoad 0x800 Format"
  {
    assert "AttachmentReceived"[0] == 'A' && "StatObjLoad 0x800 Format"[0] == 'S';
  }

  // ----- a burst inside another -----

  /** Two notifications, three stowed vehicles, one notification. */
  ghost function Interrupted(hud: LogLine, stowed: LogLine): Window {
    [hud, hud, stowed, stowed, stowed, hud]
  }

  lemma HudScanFindsNothing(hud: LogLine, stowed: LogLine)
    requires hud.eventName == Some("SHUDEvent_OnNotification") && stowed.eventName == Some("VehicleStowed")
    ensures ScanRule(Interrupted(hud, stowed), BuiltinBurstRules()[2], Unclaimed(6), 0) == (Unclaimed(6), [])
  {
    var w, rule, free := Interrupted(hud, stowed), BuiltinBurstRules()[2], Unclaimed(6);
    DifferentNames();
    assert forall i :: 0 <= i < 6 ==> (Eligible(w, rule, free, i) <==> i < 2 || i == 5);
    assert forall i :: 0 <= i < 6 ==> (IsAnchor(w, rule, free, i) <==> i < 2 || i == 5);
    assert Grow(w, rule, free, 2, 0) == ([], 2);
    assert [1] + [] == [1];
    assert Grow(w, rule, free, 1, 0) == ([1], 2);
    assert Grow(w, rule, free, 6, 0) == ([], 6);
    assert ScanRule(w, rule, free, 6) == (free, []);
    assert ScanRule(w, rule, free, 5) == (free, []);
    assert ScanRule(w, rule, free, 4) == (free, []);
    assert ScanRule(w, rule, free, 3) == (free, []);
    assert ScanRule(w, rule, free, 2) == (free, []);
    assert ScanRule(w, rule, free, 1) == (free, []);
  }

  lemma DifferentNames()
    ensures "SHUDEvent_OnNotification" != "VehicleStowed"
  {
    assert "SHUDEvent_OnNotification"[0] == 'S' && "VehicleStowed"[0] == 'V';
  }

  lemma StowedScanFindsTheRun(hud: LogLine, stowed: LogLine)
    requires hud.eventName == Some("SHUDEvent_OnNotification") && stowed.eventName == Some("VehicleStowed")
    ensures ScanRule(Interrupted(hud, stowed), BuiltinBurstRules()[3], Unclaimed(6), 0).1
            == [BurstHit("vehicle_stowed_burst", 2, 4, 3, [2, 3, 4])]
  {
    var w, rule, free := Interrupted(hud, stowed), BuiltinBurstRules()[3], Unclaimed(6);
    DifferentNames();
    assert forall i :: 0 <= i < 6 ==> (Eligible(w, rule, free, i) <==> 2 <= i < 5);
    assert forall i :: 0 <= i < 6 ==> (IsAnchor(w, rule, free, i) <==> 2 <= i < 5);
    assert Grow(w, rule, free, 5, 0) == ([], 5);
    assert [4] + [] == [4] && [3] + [4] == [3, 4];
    assert Grow(w, rule, free, 4, 0) == ([4], 5);
    assert Grow(w, rule, free, 3, 0) == ([3, 4], 5);
    assert RunMembers(w, rule, free, 2) == [2, 3, 4];
    var marked := Mark(free, [2, 3, 4]);
    assert !IsAnchor(w, rule, marked, 5);
    assert ScanRule(w, rule, marked, 6) == (marked, []);
    assert ScanRule(w, rule, marked, 5) == (marked, []);
    var hit := BurstHit("vehicle_stowed_burst", 2, 4, 3, [2, 3, 4]);
    assert [hit] + [] == [hit];
    assert ScanRule(w, rule, free, 2) == (marked, [hit]);
    assert ScanRule(w, rule, free, 1) == (marked, [hit]);
  }

  ghost predicate HudAndStowed(hud: LogLine, stowed: LogLine) {
    hud.eventName == Some("SHUDEvent_OnNotification") && stowed.eventName == Some("VehicleStowed")
  }

  lemma OtherNames()
    ensures "AttachmentReceived" !in {"SHUDEvent_OnNotification", "VehicleStowed"}
    ensures "StatObjLoad 0x800 Format" !in {"SHUDEvent_OnNotification", "VehicleStowed"}
  {
    assert "AttachmentReceived"[0] == 'A' && "SHUDEvent_OnNotification"[0] == 'S' && "VehicleStowed"[0] == 'V';
    assert "StatObjLoad 0x800 Format"[1] == 't' && "SHUDEvent_OnNotification"[1] == 'H';
  }

  /** The first two shipped rules have no anchor among notifications and stowed vehicles. */
  lemma FirstTwoSilent(window: Window, hud: LogLine, stowed: LogLine)
    requires HudAndStowed(hud, stowed) && forall i :: 0 <= i < |window| ==> window[i] in {hud, stowed}
    ensures Silent(window, BuiltinBurstRules()[0]) && Silent(window, BuiltinBurstRules()[1])
  {
    OtherNames();
  }

  /** With the shipped rules the stowed vehicles are a burst and the notifications are not. */
  lemma StowedIsTheBurst(hud: LogLine, stowed: LogLine)
    requires HudAndStowed(hud, stowed)
    ensures BurstsOf(Interrupted(hud, stowed), BuiltinBurstRules()) == [BurstHit("vehicle_stowed_burst", 2, 4, 3, [2, 3, 4])]
  {
    var w, rules := Interrupted(hud, stowed), BuiltinBurstRules();
    var hit := BurstHit("vehicle_stowed_burst", 2, 4, 3, [2, 3, 4]);
    FirstTwoSilent(w, hud, stowed);
    SilentFirst(w, rules, Unclaimed(6), 2);
    HudScanFindsNothing(hud, stowed);
    StowedScanFindsTheRun(hud, stowed);
    assert rules[2..] == [rules[2], rules[3]] && rules[2..][1..] == [rules[3]] && [rules[3]][1..] == [];
    var claimed := ScanRule(w, rules[3], Unclaimed(6), 0).0;
    assert ScanRules(w, [], claimed) == [] && [hit] + [] == [hit];
    assert ScanRules(w, [rules[3]], Unclaimed(6)) == [hit];
    assert [] + ScanRules(w, [rules[3]], Unclaimed(6)) == [hit];
    assert [hit][..0] == [];
    assert SortByStart([hit]) == InsertHit(SortByStart([]), hit) == [hit];
  }

  /** Three notifications in a row are a burst. */
  lemma ThreeHudsAreABurst(hud: LogLine, stowed: LogLine)
    requires HudAndStowed(hud, stowed)
    ensures BurstsOf([hud, hud, hud], BuiltinBurstRules()) != []
  {
    FirstTwoSilent([hud, hud, hud], hud, stowed);
    UniformBurst([hud, hud, hud], BuiltinBurstRules(), 2);
  }
}
