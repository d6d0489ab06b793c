/** Small vocabulary shared by every module: optional values and facts about ordered sequences. */
module Prelude {

  datatype Option<+T> = None | Some(value: T)

  /** The elements of `s` are strictly increasing. */
  ghost predicate Increasing(s: seq<nat>) {
    forall i, j :: 0 <= i < j < |s| ==> s[i] < s[j]
  }

  /** Every element comes before every later one. */
  ghost predicate Ordered<T>(s: seq<T>, before: (T, T) -> bool) {
    forall i, j :: 0 <= i < j < |s| ==> before(s[i], s[j])
  }

  lemma OrderedLast<T>(s: seq<T>, before: (T, T) -> bool)
    requires s != [] && Ordered(s, before) && forall x, y :: before(x, y) ==> !before(y, x)
    ensures var init, last := s[..|s| - 1], s[|s| - 1];
            && s == init + [last] && Ordered(init, before)
            && (forall x :: x in init ==> before(x, last))
            && (forall x :: x in init <==> x in s && x != last)
  {
    var init, last := s[..|s| - 1], s[|s| - 1];
    forall x | x in init
      ensures before(x, last) && x != last
    {
      var i :| 0 <= i < |init| && init[i] == x;
      assert s[i] == x;
      assert before(s[i], s[|s| - 1]);
    }
    assert s == init + [last];
  }

  /** A strict order and the elements determine the sequence. */
  lemma {:induction false} OrderedUnique<T>(a: seq<T>, b: seq<T>, before: (T, T) -> bool)
    requires Ordered(a, before) && Ordered(b, before) && forall x, y :: before(x, y) ==> !before(y, x)
    requires forall x :: x in a <==> x in b
    ensures a == b
  {
    assert a != [] ==> a[0] in a;
    assert b != [] ==> b[0] in b;
    if a != [] {
      OrderedLast(a, before);
      OrderedLast(b, before);
      assert a[|a| - 1] in b && b[|b| - 1] in a;
      OrderedUnique(a[..|a| - 1], b[..|b| - 1], before);
    }
  }

  /** Counting one more number, or not. */
  lemma OneMore(fewer: set<nat>, more: set<nat>, n: nat, yes: bool)
    requires n !in fewer && forall i :: i in more <==> i in fewer || (yes && i == n)
    ensures |more| == |fewer| + if yes then 1 else 0
  {
    assert more == fewer + if yes then {n} else {};
  }

  /** `kept` is what is left of `s` when every trailing character of the given kind is dropped. */
  ghost predicate Trimmed(s: string, kept: string, drop: char -> bool) {
    && (kept != "" ==> !drop(kept[|kept| - 1]))
    && exists tail :: s == kept + tail && forall c :: c in tail ==> drop(c)
  }

  /** That determines what is left. */
  lemma TrimmedUnique(s: string, a: string, b: string, drop: char -> bool)
    requires Trimmed(s, a, drop) && Trimmed(s, b, drop)
    ensures a == b
  {
    TrimmedNotLonger(s, a, b, drop);
    TrimmedNotLonger(s, b, a, drop);
    assert a == s[..|a|] && b == s[..|b|];
  }

  lemma TrimmedNotLonger(s: string, a: string, b: string, drop: char -> bool)
    requires Trimmed(s, a, drop) && Trimmed(s, b, drop)
    ensures |a| <= |b|
  {
    var tail :| s == b + tail && forall c :: c in tail ==> drop(c);
    assert a != "" ==> s[|a| - 1] == a[|a| - 1];
    assert forall k :: |b| <= k < |s| ==> s[k] in tail;
  }

  lemma TrimmedMore(s: string, kept: string, c: char, drop: char -> bool)
    requires Trimmed(s, kept, drop) && drop(c)
    ensures Trimmed(s + [c], kept, drop)
  {
    var tail :| s == kept + tail && forall d :: d in tail ==> drop(d);
    assert s + [c] == kept + (tail + [c]);
  }

  lemma TrimmedNothing(s: string, drop: char -> bool)
    requires s != "" ==> !drop(s[|s| - 1])
    ensures Trimmed(s, s, drop)
  {
    assert s == s + "";
  }
}
