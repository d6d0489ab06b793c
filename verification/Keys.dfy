/**
 Idempotency keys. Every stored event is keyed by a UUIDv5 (section 5.5 of RFC 9562) over a text
 preimage. UUIDv5 is taken to be injective, which is what the constructor `UuidV5` says; that the
 preimages themselves are pairwise different is proved below.
 */
module Keys {
  import opened Prelude

  datatype Key = UuidV5(name: string)

  predicate ColonFree(s: string) {
    ':' !in s
  }

  function Digit(d: nat): (c: char)
    requires d < 10
    ensures '0' <= c <= '9' && c as int == '0' as int + d
  {
    ('0' as int + d) as char
  }

  /** Decimal rendering of an unsigned number. */
  function Decimal(n: nat): (s: string)
    ensures s != [] && forall i :: 0 <= i < |s| ==> '0' <= s[i] <= '9'
  {
    if n < 10 then [Digit(n)] else Decimal(n / 10) + [Digit(n % 10)]
  }

  lemma {:induction false} DecimalInjective(m: nat, n: nat)
    requires Decimal(m) == Decimal(n)
    ensures m == n
  {
    var s := Decimal(m);
    assert s[|s| - 1] == Digit(m % 10) && s[|s| - 1] == Digit(n % 10);
    if m < 10 || n < 10 {
      assert |s| == 1;
    } else {
      assert Decimal(m / 10) == s[..|s| - 1] == Decimal(n / 10);
      DecimalInjective(m / 10, n / 10);
    }
  }

  /** The number a string of digits stands for. */
  function Reading(s: string): int {
    if s == "" then 0 else Reading(s[..|s| - 1]) * 10 + (s[|s| - 1] as int - '0' as int)
  }

  /** Digits that stand for the number, without leading zeros. */
  ghost predicate Numeral(s: string, n: nat) {
    && s != "" && (forall c :: c in s ==> '0' <= c <= '9')
    && Reading(s) == n && (|s| > 1 ==> s[0] != '0')
  }

  lemma {:induction false} DecimalIsNumeral(n: nat)
    ensures Numeral(Decimal(n), n)
  {
    if n < 10 {
      assert Reading([]) == 0;
      assert [Digit(n)][..0] == [];
    } else {
      DecimalIsNumeral(n / 10);
      var front := Decimal(n / 10);
      assert (front + [Digit(n % 10)])[..|front|] == front;
      assert |front| == 1 ==> front[..0] == "" && Reading(front) == front[0] as int - '0' as int;
    }
  }

  /** The text hashed for a line key and for a burst-summary key. */
  function Preimage(source: string, offset: nat, line: string): string {
    source + ":" + Decimal(offset) + ":" + line
  }

  function LineKey(source: string, offset: nat, line: string): Key {
    UuidV5(Preimage(source, offset, line))
  }

  /** The synthetic line that stands for a burst in its key. */
  function BurstLine(anchorLine: string, ruleId: string, size: nat): string {
    anchorLine + "|burst:" + ruleId + ":" + Decimal(size)
  }

  function BurstKey(source: string, offset: nat, anchorLine: string, ruleId: string, size: nat): Key {
    LineKey(source, offset, BurstLine(anchorLine, ruleId, size))
  }

  function ReparseKey(source: string, line: string): Key {
    UuidV5("reparse:" + source + ":" + line)
  }

  /** What the keys hash, literally. */
  lemma KeyTexts(source: string, offset: nat, line: string, ruleId: string, size: nat)
    ensures exists digits :: Numeral(digits, offset) && LineKey(source, offset, line).name == source + ":" + digits + ":" + line
    ensures exists digits, count :: Numeral(digits, offset) && Numeral(count, size)
              && BurstKey(source, offset, line, ruleId, size).name
                 == source + ":" + digits + ":" + (line + "|burst:" + ruleId + ":" + count)
    ensures ReparseKey(source, line).name == "reparse:" + source + ":" + line
  {
    DecimalIsNumeral(offset);
    DecimalIsNumeral(size);
  }

  // ----- splitting at a colon -----

  lemma SplitAtFirstColon(a: string, x: string, b: string, y: string)
    requires ColonFree(a) && ColonFree(b)
    requires a + ":" + x == b + ":" + y
    ensures a == b && x == y
  {
    var s := a + ":" + x;
    assert s[|a|] == ':' && s[|b|] == ':';
    assert forall i :: 0 <= i < |a| ==> s[i] == a[i] != ':';
    assert forall i :: 0 <= i < |b| ==> s[i] == b[i] != ':';
    assert a == s[..|a|] && b == s[..|b|];
    assert x == s[|a| + 1..] && y == s[|b| + 1..];
  }

  lemma SplitAtLastColon(x: string, a: string, y: string, b: string)
    requires ColonFree(a) && ColonFree(b)
    requires x + ":" + a == y + ":" + b
    ensures a == b && x == y
  {
    var s := x + ":" + a;
    assert s[|x|] == ':' && s[|y|] == ':';
    assert forall i :: |x| < i < |s| ==> s[i] == a[i - |x| - 1] != ':';
    assert forall i :: |y| < i < |s| ==> s[i] == b[i - |y| - 1] != ':';
    assert x == s[..|x|] && y == s[..|y|];
    assert a == s[|x| + 1..] && b == s[|y| + 1..];
  }

  lemma DecimalIsColonFree(n: nat)
    ensures ColonFree(Decimal(n))
  {
  }

  // ----- the key space -----

  lemma LineKeyInjective(s1: string, o1: nat, l1: string, s2: string, o2: nat, l2: string)
    requires ColonFree(s1) && ColonFree(s2)
    ensures LineKey(s1, o1, l1) == LineKey(s2, o2, l2) <==> s1 == s2 && o1 == o2 && l1 == l2
  {
    if LineKey(s1, o1, l1) == LineKey(s2, o2, l2) {
      var t1, t2 := Decimal(o1) + ":" + l1, Decimal(o2) + ":" + l2;
      assert Preimage(s1, o1, l1) == s1 + ":" + t1;
      assert Preimage(s2, o2, l2) == s2 + ":" + t2;
      SplitAtFirstColon(s1, t1, s2, t2);
      DecimalIsColonFree(o1);
      DecimalIsColonFree(o2);
      SplitAtFirstColon(Decimal(o1), l1, Decimal(o2), l2);
      DecimalInjective(o1, o2);
    }
  }

  lemma ReparseKeyInjective(s1: string, l1: string, s2: string, l2: string)
    requires ColonFree(s1) && ColonFree(s2)
    ensures ReparseKey(s1, l1) == ReparseKey(s2, l2) <==> s1 == s2 && l1 == l2
  {
    if ReparseKey(s1, l1) == ReparseKey(s2, l2) {
      var t1, t2 := s1 + ":" + l1, s2 + ":" + l2;
      assert "reparse:" + s1 + ":" + l1 == "reparse" + ":" + t1;
      assert "reparse:" + s2 + ":" + l2 == "reparse" + ":" + t2;
      SplitAtFirstColon("reparse", t1, "reparse", t2);
      SplitAtFirstColon(s1, l1, s2, l2);
    }
  }

  /** The promotion key space and the tail key space never meet. */
  lemma ReparseKeyDisjoint(s1: string, o1: nat, l1: string, s2: string, l2: string)
    requires ColonFree(s1) && s1 != "reparse"
    ensures LineKey(s1, o1, l1) != ReparseKey(s2, l2)
  {
    if LineKey(s1, o1, l1) == ReparseKey(s2, l2) {
      var t1, t2 := Decimal(o1) + ":" + l1, s2 + ":" + l2;
      assert Preimage(s1, o1, l1) == s1 + ":" + t1;
      assert "reparse:" + s2 + ":" + l2 == "reparse" + ":" + t2;
      SplitAtFirstColon(s1, t1, "reparse", t2);
      assert false;
    }
  }

  /** One rule id ends in the burst marker followed by the other. */
  predicate Nests(outer: string, inner: string) {
    |outer| >= 7 + |inner| && outer[|outer| - |inner| - 7..] == "|burst:" + inner
  }

  lemma BarFreeNeverNests(outer: string, inner: string)
    requires '|' !in outer
    ensures !Nests(outer, inner)
  {
    if |outer| >= 7 + |inner| {
      var n := |outer| - |inner| - 7;
      assert outer[n..][0] == outer[n] && outer[n] in outer;
      assert ("|burst:" + inner)[0] == '|';
    }
  }

  /** Peel the size off two equal burst lines. */
  lemma SameSize(l1: string, r1: string, n1: nat, l2: string, r2: string, n2: nat)
    requires BurstLine(l1, r1, n1) == BurstLine(l2, r2, n2)
    ensures n1 == n2 && l1 + "|burst:" + r1 == l2 + "|burst:" + r2
  {
    DecimalIsColonFree(n1);
    DecimalIsColonFree(n2);
    SplitAtLastColon(l1 + "|burst:" + r1, Decimal(n1), l2 + "|burst:" + r2, Decimal(n2));
    DecimalInjective(n1, n2);
  }

  lemma MarkerHasOneBar()
    ensures forall d :: 0 < d < 7 ==> "|burst:"[d] != '|'
  {
  }

  lemma LongerAnchorNests(l1: string, r1: string, l2: string, r2: string)
    requires l1 + "|burst:" + r1 == l2 + "|burst:" + r2 && |l1| < |l2|
    ensures Nests(r1, r2)
  {
    var s, m, d := l1 + "|burst:" + r1, "|burst:", |l2| - |l1|;
    assert d < 7 ==> s[|l2|] == m[d];
    MarkerHasOneBar();
    assert s[|l2|] == '|';
    assert |r1| == d + |r2|;
    assert r1[d - 7..] == s[|l2|..] == m + r2;
  }

  /** A burst line gives back anchor line, rule id and size, unless one id nests in the other. */
  lemma BurstLineInjective(l1: string, r1: string, n1: nat, l2: string, r2: string, n2: nat)
    requires !Nests(r1, r2) && !Nests(r2, r1)
    requires BurstLine(l1, r1, n1) == BurstLine(l2, r2, n2)
    ensures l1 == l2 && r1 == r2 && n1 == n2
  {
    SameSize(l1, r1, n1, l2, r2, n2);
    var s := l1 + "|burst:" + r1;
    if |l1| < |l2| {
      LongerAnchorNests(l1, r1, l2, r2);
    } else if |l2| < |l1| {
      LongerAnchorNests(l2, r2, l1, r1);
    } else {
      assert l1 == s[..|l1|] && l2 == s[..|l1|];
      assert r1 == s[|l1| + 7..] && r2 == s[|l1| + 7..];
    }
  }

  /** Every pair of nested ids collides: bursts with two different anchor lines share a burst line. */
  lemma NestedIdsCollide(outer: string, inner: string, line: string, size: nat) returns (longer: string)
    requires Nests(outer, inner)
    ensures longer != line && outer != inner
    ensures BurstLine(line, outer, size) == BurstLine(longer, inner, size)
  {
    var n := |outer| - |inner| - 7;
    longer := line + "|burst:" + outer[..n];
    assert |longer| > |line|;
    assert outer == outer[..n] + ("|burst:" + inner);
    assert line + "|burst:" + outer == longer + "|burst:" + inner;
  }

  /** On one anchor line rule id and size can always be read back. */
  lemma SameAnchorBurstLine(line: string, r1: string, n1: nat, r2: string, n2: nat)
    requires BurstLine(line, r1, n1) == BurstLine(line, r2, n2)
    ensures r1 == r2 && n1 == n2
  {
    SameSize(line, r1, n1, line, r2, n2);
    var s := line + "|burst:" + r1;
    assert r1 == s[|line| + 7..] && r2 == s[|line| + 7..];
  }

  /** Two burst keys agree exactly when source, offset, anchor line, rule and size all agree. */
  lemma BurstKeyInjective(s1: string, o1: nat, l1: string, r1: string, n1: nat,
                          s2: string, o2: nat, l2: string, r2: string, n2: nat)
    requires ColonFree(s1) && ColonFree(s2) && (l1 == l2 || (!Nests(r1, r2) && !Nests(r2, r1)))
    ensures BurstKey(s1, o1, l1, r1, n1) == BurstKey(s2, o2, l2, r2, n2)
            <==> s1 == s2 && o1 == o2 && l1 == l2 && r1 == r2 && n1 == n2
  {
    LineKeyInjective(s1, o1, BurstLine(l1, r1, n1), s2, o2, BurstLine(l2, r2, n2));
    if BurstLine(l1, r1, n1) == BurstLine(l2, r2, n2) {
      if l1 == l2 {
        SameAnchorBurstLine(l1, r1, n1, r2, n2);
      } else {
        BurstLineInjective(l1, r1, n1, l2, r2, n2);
      }
    }
  }

  /**
   A burst key meets a line key only when a line at the anchor's own offset literally reads like
   the synthetic burst line; in particular it never meets the anchor line's own key.
   */
  lemma BurstKeyVersusLineKey(s1: string, o1: nat, l1: string, r: string, n: nat,
                              s2: string, o2: nat, l2: string)
    requires ColonFree(s1) && ColonFree(s2)
    ensures BurstKey(s1, o1, l1, r, n) == LineKey(s2, o2, l2)
            <==> s1 == s2 && o1 == o2 && l2 == BurstLine(l1, r, n)
    ensures BurstLine(l1, r, n) != l1
  {
    LineKeyInjective(s1, o1, BurstLine(l1, r, n), s2, o2, l2);
    assert |BurstLine(l1, r, n)| > |l1|;
  }

  // ----- log sources -----

  datatype LogSource = Live | Ptu | Eptu | Hotfix | Tech | Other

  function SourceName(source: LogSource): (s: string)
    ensures ColonFree(s) && s != "reparse"
  {
    match source
    case Live => "live"
    case Ptu => "ptu"
    case Eptu => "eptu"
    case Hotfix => "hotfix"
    case Tech => "tech"
    case Other => "other"
  }

  function ParseSource(s: string): (source: LogSource)
    ensures forall known: LogSource :: s == SourceName(known) ==> source == known
  {
    match s
    case "live" => Live
    case "ptu" => Ptu
    case "eptu" => Eptu
    case "hotfix" => Hotfix
    case "tech" => Tech
    case _ => Other
  }

  function UpperChar(c: char): char {
    if 'a' <= c <= 'z' then (c as int - 32) as char else c
  }

  function Upper(s: string): string {
    seq(|s|, i requires 0 <= i < |s| => UpperChar(s[i]))
  }

  /**
   Channel of a log file from the names of its parent and grandparent directories (`None` where
   the path has no such directory). Archived logs live one level deeper, under `Logs`.
   */
  function LogSourceFromPath(parent: Option<string>, grandparent: Option<string>): LogSource {
    var segment := if parent == Some("Logs") then grandparent else parent;
    var upper := Upper(if segment.Some? then segment.value else "OTHER");
    match upper
    case "LIVE" => Live
    case "PTU" => Ptu
    case "EPTU" => Eptu
    case "HOTFIX" => Hotfix
    case "TECH-PREVIEW" => Tech
    case _ => Other
  }

  /** Equal up to the case of ASCII letters. */
  predicate SameButForCase(a: string, b: string) {
    |a| == |b| && forall k :: 0 <= k < |a| ==> SameLetter(a[k], b[k])
  }

  predicate SameLetter(a: char, b: char) {
    || a == b
    || ('a' <= a <= 'z' && a as int - b as int == 'a' as int - 'A' as int)
    || ('a' <= b <= 'z' && b as int - a as int == 'a' as int - 'A' as int)
  }

  lemma UpperIff(a: string, b: string)
    ensures Upper(a) == Upper(b) <==> SameButForCase(a, b)
  {
    if Upper(a) == Upper(b) {
      forall k | 0 <= k < |a|
        ensures SameLetter(a[k], b[k])
      {
        assert Upper(a)[k] == Upper(b)[k];
      }
    }
  }

  /** The channel a directory of that name stands for. */
  ghost function ChannelOf(dir: string): string {
    if SameButForCase(dir, "LIVE") then "live"
    else if SameButForCase(dir, "PTU") then "ptu"
    else if SameButForCase(dir, "EPTU") then "eptu"
    else if SameButForCase(dir, "HOTFIX") then "hotfix"
    else if SameButForCase(dir, "TECH-PREVIEW") then "tech"
    else "other"
  }

  /** A log's source is named by its directory, or by the one above when that is `Logs`, in any case of letters. */
  lemma SourceIsChannel(parent: Option<string>, grandparent: Option<string>)
    ensures var source := SourceName(LogSourceFromPath(parent, grandparent));
            && (parent.None? ==> source == "other")
            && (forall dir :: parent == Some(dir) && dir != "Logs" ==> source == ChannelOf(dir))
            && (parent == Some("Logs") && grandparent.None? ==> source == "other")
            && (forall dir :: parent == Some("Logs") && grandparent == Some(dir) ==> source == ChannelOf(dir))
  {
    forall dir: string
      ensures Upper(dir) == "LIVE" <==> SameButForCase(dir, "LIVE")
      ensures Upper(dir) == "PTU" <==> SameButForCase(dir, "PTU")
      ensures Upper(dir) == "EPTU" <==> SameButForCase(dir, "EPTU")
      ensures Upper(dir) == "HOTFIX" <==> SameButForCase(dir, "HOTFIX")
      ensures Upper(dir) == "TECH-PREVIEW" <==> SameButForCase(dir, "TECH-PREVIEW")
    {
      UpperOfUpper(dir, "LIVE");
      UpperOfUpper(dir, "PTU");
      UpperOfUpper(dir, "EPTU");
      UpperOfUpper(dir, "HOTFIX");
      UpperOfUpper(dir, "TECH-PREVIEW");
    }
    assert Upper("OTHER") == "OTHER";
  }

  lemma UpperOfUpper(dir: string, name: string)
    requires forall k :: 0 <= k < |name| ==> !('a' <= name[k] <= 'z')
    ensures Upper(dir) == name <==> SameButForCase(dir, name)
  {
    assert Upper(name) == name;
    UpperIff(dir, name);
  }

  lemma SourceNameInjective(a: LogSource, b: LogSource)
    ensures SourceName(a) == SourceName(b) <==> a == b
  {
  }

  /** A log archived under `Logs` keeps the channel of the live log it was rotated from. */
  lemma ArchivedLogKeepsItsSource(channelDir: string, above: Option<string>)
    requires channelDir != "Logs"
    ensures LogSourceFromPath(Some("Logs"), Some(channelDir)) == LogSourceFromPath(Some(channelDir), above)
  {
  }

  /**
   A line of a log moved into directory `archive` keeps its key iff that directory is looked
   through or happens to name the same channel; otherwise a replay stores it a second time.
   */
  lemma ReplayKeepsKeyIff(archive: string, channelDir: string, above: Option<string>, offset: nat, line: string)
    requires channelDir != "Logs"
    ensures LineKey(SourceName(LogSourceFromPath(Some(archive), Some(channelDir))), offset, line)
            == LineKey(SourceName(LogSourceFromPath(Some(channelDir), above)), offset, line)
            <==> archive == "Logs" || LogSourceFromPath(Some(archive), None) == LogSourceFromPath(Some(channelDir), None)
  {
    var moved, live := LogSourceFromPath(Some(archive), Some(channelDir)), LogSourceFromPath(Some(channelDir), above);
    LineKeyInjective(SourceName(moved), offset, line, SourceName(live), offset, line);
    SourceNameInjective(moved, live);
    ArchivedLogKeepsItsSource(channelDir, above);
  }
}
