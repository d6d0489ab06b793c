/**
 Log lines, the events they classify to, and the two recognisers: the built-in classifier (kept
 abstract) and the remote rules fetched at run time.

 Text is a sequence of UTF-8 code units, one `char` per byte, so lengths and offsets count bytes.
 */
module Grammar {
  import opened Prelude

  /** One log line decomposed by the structural parser. */
  datatype LogLine = LogLine(
    timestamp: string,
    level: Option<string>,
    eventName: Option<string>,
    body: string,
    tags: seq<string>)

  /** Events the built-in classifier can produce; the ones the pipeline looks into are named. */
  datatype LineEvent =
    | PlanetTerrainLoad(timestamp: string, planet: string)
    | LocationInventoryRequested(timestamp: string, player: string, location: string)
    | PlayerDeath(timestamp: string, bodyClass: string, bodyId: string, zone: Option<string>)
    | PlayerIncapacitated(timestamp: string, queueId: nat, zone: Option<string>)
    | OtherEvent(timestamp: string, name: string, fields: map<string, string>)

  datatype GameEvent =
    | Classified(event: LineEvent)
    | RemoteMatch(timestamp: string, ruleId: string, eventName: string, fields: map<string, string>)
    | BurstSummary(timestamp: string, ruleId: string, size: nat, endTimestamp: string,
                   anchorBodySample: Option<string>)

  /** The serialised `type` tag of an event: one tag per variant. */
  datatype EventType =
    | TPlanetTerrainLoad | TLocationInventoryRequested | TPlayerDeath | TPlayerIncapacitated
    | TOther(name: string) | TRemoteMatch | TBurstSummary

  function TypeOf(event: GameEvent): (tag: EventType)
    ensures tag == TBurstSummary <==> event.BurstSummary?
  {
    match event
    case Classified(PlanetTerrainLoad(_, _)) => TPlanetTerrainLoad
    case Classified(LocationInventoryRequested(_, _, _)) => TLocationInventoryRequested
    case Classified(PlayerDeath(_, _, _, _)) => TPlayerDeath
    case Classified(PlayerIncapacitated(_, _, _)) => TPlayerIncapacitated
    case Classified(OtherEvent(_, name, _)) => TOther(name)
    case RemoteMatch(_, _, _, _) => TRemoteMatch
    case BurstSummary(_, _, _, _, _) => TBurstSummary
  }

  function TimestampOf(event: GameEvent): string {
    match event
    case Classified(e) => e.timestamp
    case RemoteMatch(timestamp, _, _, _) => timestamp
    case BurstSummary(timestamp, _, _, _, _) => timestamp
  }

  /**
   The parts of the grammar the pipeline does not look into: the structural parser, the built-in
   classifier (which cannot produce a remote match or a burst summary) and the clipping of an
   anchor body to its first 200 characters.
   */
  datatype Grammar = Grammar(
    parse: string -> Option<LogLine>,
    classify: LogLine -> Option<LineEvent>,
    clip: string -> string)

  // ----- remote rules -----

  datatype MatchKind = EventName | BodyKeyword

  /** A compiled rule; `captures` is its regular expression, `None` where it does not match. */
  datatype RemoteRule = RemoteRule(
    id: string,
    eventName: string,
    kind: MatchKind,
    captures: string -> Option<map<string, string>>,
    fields: seq<string>)

  predicate OccursAt(s: string, needle: string, i: nat) {
    i + |needle| <= |s| && s[i..i + |needle|] == needle
  }

  predicate Contains(s: string, needle: string) {
    exists i :: 0 <= i <= |s| && OccursAt(s, needle, i)
  }

  lemma ContainsIff(body: string, needle: string)
    ensures Contains(body, needle) <==> exists before, after :: body == before + needle + after
  {
    if Contains(body, needle) {
      var i :| 0 <= i <= |body| && OccursAt(body, needle, i);
      assert body == body[..i] + needle + body[i + |needle|..];
    }
    if before, after :| body == before + needle + after {
      assert OccursAt(body, needle, |before|);
    }
  }

  predicate Anchors(rule: RemoteRule, line: LogLine) {
    match rule.kind
    case EventName => line.eventName == Some(rule.eventName)
    case BodyKeyword => Contains(line.body, rule.eventName)
  }

  function Fields(names: seq<string>, captures: map<string, string>): (fields: map<string, string>) {
    map f | f in names && f in captures :: captures[f]
  }

  /** What one anchored rule yields. */
  function RuleResult(rule: RemoteRule, line: LogLine): Option<GameEvent> {
    match rule.captures(line.body)
    case None => None
    case Some(captures) =>
      Some(RemoteMatch(line.timestamp, rule.id, rule.eventName, Fields(rule.fields, captures)))
  }

  /** Specification of the rule walk: the first anchored rule decides, whether or not it matches. */
  function RemoteEvent(line: LogLine, rules: seq<RemoteRule>): Option<GameEvent> {
    if rules == [] then None
    else if Anchors(rules[0], line) then RuleResult(rules[0], line)
    else RemoteEvent(line, rules[1..])
  }

  /** The documented reading: the first rule that is anchored and whose expression matches. */
  function FirstFullMatch(line: LogLine, rules: seq<RemoteRule>): Option<GameEvent> {
    if rules == [] then None
    else if Anchors(rules[0], line) && RuleResult(rules[0], line).Some? then RuleResult(rules[0], line)
    else FirstFullMatch(line, rules[1..])
  }

  method ApplyRemoteRules(line: LogLine, rules: seq<RemoteRule>) returns (event: Option<GameEvent>)
    ensures event == RemoteEvent(line, rules)
  {
    for i := 0 to |rules|
      invariant RemoteEvent(line, rules) == RemoteEvent(line, rules[i..])
    {
      var rule := rules[i];
      assert rules[i..][0] == rule && rules[i..][1..] == rules[i + 1..];
      if !Anchors(rule, line) {
        continue;
      }
      var captured := rule.captures(line.body);
      if captured.None? {
        return None;
      }
      var fields: map<string, string> := map[];
      for k := 0 to |rule.fields|
        invariant fields == Fields(rule.fields[..k], captured.value)
      {
        assert rule.fields[..k + 1] == rule.fields[..k] + [rule.fields[k]];
        if rule.fields[k] in captured.value {
          fields := fields[rule.fields[k] := captured.value[rule.fields[k]]];
        }
      }
      assert rule.fields[..|rule.fields|] == rule.fields;
      return Some(RemoteMatch(line.timestamp, rule.id, rule.eventName, fields));
    }
    return None;
  }

  ghost predicate FirstAnchored(line: LogLine, rules: seq<RemoteRule>, i: nat) {
    i < |rules| && Anchors(rules[i], line) && forall j :: 0 <= j < i ==> !Anchors(rules[j], line)
  }

  /** The outcome is a function of the first anchored rule alone; without one there is none. */
  lemma {:induction false} RemoteEventOfFirstAnchored(line: LogLine, rules: seq<RemoteRule>, i: nat)
    requires i == |rules| || FirstAnchored(line, rules, i)
    requires forall j :: 0 <= j < i ==> !Anchors(rules[j], line)
    ensures RemoteEvent(line, rules) == if i == |rules| then None else RuleResult(rules[i], line)
  {
    if i > 0 {
      RemoteEventOfFirstAnchored(line, rules[1..], i - 1);
    }
  }

  /** The rule is meant for lines like this one. */
  ghost predicate Reaches(rule: RemoteRule, line: LogLine) {
    match rule.kind
    case EventName => line.eventName.Some? && line.eventName.value == rule.eventName
    case BodyKeyword => exists before, after :: line.body == before + rule.eventName + after
  }

  ghost predicate FirstReaching(line: LogLine, rules: seq<RemoteRule>, i: nat) {
    i < |rules| && Reaches(rules[i], line) && forall j :: 0 <= j < i ==> !Reaches(rules[j], line)
  }

  /** The event names line and rule, and carries exactly the listed fields that were captured. */
  ghost predicate MatchOf(rule: RemoteRule, line: LogLine, captures: map<string, string>, event: GameEvent) {
    && event.RemoteMatch? && TypeOf(event) == TRemoteMatch && TimestampOf(event) == line.timestamp
    && event.ruleId == rule.id && event.eventName == rule.eventName
    && (forall f :: f in event.fields <==> f in rule.fields && f in captures)
    && forall f :: f in event.fields ==> event.fields[f] == captures[f]
  }

  lemma ReachesIff(rule: RemoteRule, line: LogLine)
    ensures Reaches(rule, line) <==> Anchors(rule, line)
  {
    ContainsIff(line.body, rule.eventName);
  }

  /**
   What remote rules make of a line, in terms of the line and the rules: the first rule that
   reaches it decides; if its expression captures, the event names that rule and holds exactly
   the captured fields it lists, and otherwise there is none.
   */
  lemma {:induction false} RemoteEventIs(line: LogLine, rules: seq<RemoteRule>)
    ensures RemoteEvent(line, rules).Some? <==> exists i: nat :: FirstReaching(line, rules, i) && rules[i].captures(line.body).Some?
    ensures forall i: nat :: FirstReaching(line, rules, i) && rules[i].captures(line.body).Some? ==>
              MatchOf(rules[i], line, rules[i].captures(line.body).value, RemoteEvent(line, rules).value)
  {
    forall rule
      ensures Reaches(rule, line) <==> Anchors(rule, line)
    {
      ReachesIff(rule, line);
    }
    if i: nat :| FirstReaching(line, rules, i) {
      RemoteEventOfFirstAnchored(line, rules, i);
    } else {
      NoneReaches(line, rules, |rules|);
      RemoteEventOfFirstAnchored(line, rules, |rules|);
    }
  }

  lemma {:induction false} NoneReaches(line: LogLine, rules: seq<RemoteRule>, n: nat)
    requires n <= |rules| && forall i: nat :: !FirstReaching(line, rules, i)
    ensures forall j :: 0 <= j < n ==> !Reaches(rules[j], line)
  {
    if n > 0 {
      NoneReaches(line, rules, n - 1);
      assert Reaches(rules[n - 1], line) ==> FirstReaching(line, rules, n - 1);
    }
  }

  lemma {:induction false} FullMatchExists(line: LogLine, rules: seq<RemoteRule>)
    ensures FirstFullMatch(line, rules).Some?
            <==> exists j :: 0 <= j < |rules| && Anchors(rules[j], line) && RuleResult(rules[j], line).Some?
  {
    if rules != [] {
      var rest := rules[1..];
      FullMatchExists(line, rest);
      if FirstFullMatch(line, rest).Some? {
        var j :| 0 <= j < |rest| && Anchors(rest[j], line) && RuleResult(rest[j], line).Some?;
        assert rules[j + 1] == rest[j];
      }
      forall j | 1 <= j < |rules| && Anchors(rules[j], line) && RuleResult(rules[j], line).Some?
        ensures FirstFullMatch(line, rest).Some?
      {
        assert rest[j - 1] == rules[j];
      }
    }
  }

  /**
   The walk agrees with the documented reading exactly when the first anchored rule matches or no
   anchored rule does: an anchored rule whose expression fails hides every rule after it.
   */
  lemma {:induction false} DocumentedReadingHolds(line: LogLine, rules: seq<RemoteRule>, i: nat)
    requires i == |rules| || FirstAnchored(line, rules, i)
    requires forall j :: 0 <= j < i ==> !Anchors(rules[j], line)
    ensures RemoteEvent(line, rules) == FirstFullMatch(line, rules)
            <==> i == |rules| || RuleResult(rules[i], line).Some?
                 || forall j :: i < j < |rules| && Anchors(rules[j], line) ==> RuleResult(rules[j], line).None?
  {
    RemoteEventOfFirstAnchored(line, rules, i);
    FullMatchExists(line, rules);
    if i < |rules| && RuleResult(rules[i], line).Some? {
      FirstFullMatchAt(line, rules, i);
    }
  }

  lemma {:induction false} FirstFullMatchAt(line: LogLine, rules: seq<RemoteRule>, i: nat)
    requires FirstAnchored(line, rules, i) && RuleResult(rules[i], line).Some?
    ensures FirstFullMatch(line, rules) == RuleResult(rules[i], line)
  {
    if i > 0 {
      FirstFullMatchAt(line, rules[1..], i - 1);
    }
  }

  /** A concrete pair of rules on which the second, matching rule is never tried. */
  lemma AnchoredMissHidesLaterRule(line: LogLine, name: string)
    requires line.eventName == Some(name)
    ensures var narrow := RemoteRule("narrow", name, EventName, _ => None, []);
            var broad := RemoteRule("broad", name, EventName, _ => Some(map[]), []);
            RemoteEvent(line, [narrow, broad]).None? && RemoteEvent(line, [broad]).Some?
            && FirstFullMatch(line, [narrow, broad]).Some?
  {
    var narrow := RemoteRule("narrow", name, EventName, _ => None, []);
    var broad := RemoteRule("broad", name, EventName, _ => Some(map[]), []);
    assert [narrow, broad][1..] == [broad];
  }

  // ----- recognition -----

  /** Built-in classifier first, remote rules only where it has nothing to say. */
  function Recognise(g: Grammar, remote: seq<RemoteRule>, line: LogLine): (event: Option<GameEvent>)
    ensures event.Some? ==> !event.value.BurstSummary?
  {
    match g.classify(line)
    case Some(e) => Some(Classified(e))
    case None => RemoteIsNeverBurst(line, remote); RemoteEvent(line, remote)
  }

  lemma {:induction false} RemoteIsNeverBurst(line: LogLine, remote: seq<RemoteRule>)
    ensures RemoteEvent(line, remote).Some? ==> RemoteEvent(line, remote).value.RemoteMatch?
  {
    if remote != [] {
      RemoteIsNeverBurst(line, remote[1..]);
    }
  }

  /** Recognition straight from the raw text of a line. */
  function RecogniseText(g: Grammar, remote: seq<RemoteRule>, text: string): (event: Option<GameEvent>)
    ensures event.Some? ==> !event.value.BurstSummary? && g.parse(text).Some?
  {
    match g.parse(text)
    case None => None
    case Some(line) => Recognise(g, remote, line)
  }

  method RecogniseLine(g: Grammar, remote: seq<RemoteRule>, line: LogLine) returns (event: Option<GameEvent>)
    ensures event == Recognise(g, remote, line)
  {
    match g.classify(line)
    case Some(e) => event := Some(Classified(e));
    case None => event := ApplyRemoteRules(line, remote);
  }

  /** A line that does not parse is nothing; the classifier has the first word, remote rules the last. */
  lemma RecognisedAs(g: Grammar, remote: seq<RemoteRule>, text: string)
    ensures g.parse(text).None? ==> RecogniseText(g, remote, text).None?
    ensures forall line :: g.parse(text) == Some(line) ==>
              && (forall e :: g.classify(line) == Some(e) ==> RecogniseText(g, remote, text) == Some(Classified(e)))
              && (g.classify(line).None? ==> RecogniseText(g, remote, text) == RemoteEvent(line, remote))
  {
  }

  /** Different kinds of events have different type tags; only unnamed ones are told apart by name. */
  lemma TagsTellKindsApart(a: GameEvent, b: GameEvent)
    ensures TypeOf(a) == TypeOf(b) <==>
            || (a.RemoteMatch? && b.RemoteMatch?) || (a.BurstSummary? && b.BurstSummary?)
            || (a.Classified? && b.Classified? && SameKind(a.event, b.event))
  {
  }

  predicate SameKind(a: LineEvent, b: LineEvent) {
    || (a.PlanetTerrainLoad? && b.PlanetTerrainLoad?)
    || (a.LocationInventoryRequested? && b.LocationInventoryRequested?)
    || (a.PlayerDeath? && b.PlayerDeath?)
    || (a.PlayerIncapacitated? && b.PlayerIncapacitated?)
    || (a.OtherEvent? && b.OtherEvent? && a.name == b.name)
  }

  /** Remote rules only add recognition: they never change or remove a built-in classification. */
  lemma RemoteRulesOnlyAdd(g: Grammar, remote: seq<RemoteRule>, text: string)
    ensures RecogniseText(g, [], text).Some? ==> RecogniseText(g, remote, text) == RecogniseText(g, [], text)
  {
  }
}
