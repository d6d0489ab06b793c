/**
 The health surface: conditions derived from a snapshot, filtered by the user's dismissals, and
 ordered by severity and id.
 */
module Health {
  import opened Prelude

  datatype Severity = Error | Warn | Info

  datatype HealthId =
    | GamelogMissing | ApiUrlMissing | PairMissing | AuthLost | CookieMissing | SyncFailing
    | HangarSkip | EmailUnverified | GameLogStale | UpdateAvailable | DiskFreeLow

  datatype SettingsField = GamelogPath | ApiUrl | PairingCode | RsiCookie | Updates

  datatype HealthAction = GoToSettings(field: SettingsField) | RetrySync | RefreshHangar | OpenUrl(url: string)

  datatype HealthParams =
    | Plain(id: HealthId)
    | SyncFailingParams(lastError: string, attemptsSinceSuccess: nat)
    | HangarSkipParams(reason: string, since: int)
    | GameLogStaleParams(lastEventAt: int)
    | UpdateAvailableParams(version: string)
    | DiskFreeLowParams(freeBytes: nat)

  /** Canonical JSON of the params, a lossless encoding. */
  datatype Fingerprint = Json(params: HealthParams)

  datatype HealthItem = HealthItem(
    id: HealthId,
    severity: Severity,
    params: HealthParams,
    action: Option<HealthAction>,
    dismissible: bool,
    fingerprint: Fingerprint)

  datatype Dismissed = Dismissed(id: HealthId, fingerprint: Fingerprint)

  /** Clock values are milliseconds. */
  datatype HealthInputs = HealthInputs(
    now: int,
    gamelogDiscoveredCount: nat,
    gamelogOverrideSet: bool,
    remoteSyncEnabled: bool,
    apiUrl: Option<string>,
    accessToken: Option<string>,
    webOrigin: Option<string>,
    authLost: bool,
    emailVerified: Option<bool>,
    cookieConfigured: bool,
    syncLastError: Option<string>,
    syncAttemptsSinceSuccess: nat,
    hangarLastAttemptAt: Option<int>,
    hangarLastSuccessAt: Option<int>,
    hangarLastSkipReason: Option<string>,
    tailCurrentPath: Option<string>,
    tailLastEventAt: Option<int>,
    scProcessRunning: bool,
    diskFreeBytes: Option<nat>,
    updateAvailableVersion: Option<string>,
    dismissed: seq<Dismissed>)

  const GAME_LOG_STALE_MIN := 30
  const DISK_FREE_LOW_THRESHOLD := 1_073_741_824

  function DismissibleFor(severity: Severity): bool {
    severity != Error
  }

  function Item(id: HealthId, severity: Severity, params: HealthParams, action: Option<HealthAction>): HealthItem {
    HealthItem(id, severity, params, action, DismissibleFor(severity), Json(params))
  }

  function TrimSlashes(s: string): string {
    if s != "" && s[|s| - 1] == '/' then TrimSlashes(s[..|s| - 1]) else s
  }

  predicate IsHttpOrigin(origin: string) {
    "http://" <= origin || "https://" <= origin
  }

  /** Whole minutes between two instants, truncated toward zero. */
  function WholeMinutes(ms: int): int {
    if ms >= 0 then ms / 60_000 else -((-ms) / 60_000)
  }

  // ----- what each condition means -----

  predicate Paired(i: HealthInputs) {
    i.apiUrl.Some? && i.accessToken.Some?
  }

  predicate Holds(i: HealthInputs, id: HealthId) {
    match id
    case GamelogMissing => i.gamelogDiscoveredCount == 0 && !i.gamelogOverrideSet
    case ApiUrlMissing => i.remoteSyncEnabled && i.apiUrl.None?
    case PairMissing => i.remoteSyncEnabled && i.apiUrl.Some? && i.accessToken.None?
    case AuthLost => i.authLost
    case CookieMissing => Paired(i) && !i.cookieConfigured && i.hangarLastAttemptAt.Some?
    case SyncFailing => i.syncLastError.Some? && !i.authLost
    case HangarSkip => i.hangarLastSkipReason.Some? && i.hangarLastSuccessAt.None?
    case EmailUnverified => i.emailVerified == Some(false) && i.webOrigin.Some? && IsHttpOrigin(i.webOrigin.value)
    case GameLogStale =>
      i.scProcessRunning && i.tailCurrentPath.Some? && i.tailLastEventAt.Some?
      && WholeMinutes(i.now - i.tailLastEventAt.value) >= GAME_LOG_STALE_MIN
    case UpdateAvailable => i.updateAvailableVersion.Some?
    case DiskFreeLow => i.diskFreeBytes.Some? && i.diskFreeBytes.value < DISK_FREE_LOW_THRESHOLD
  }

  function SeverityOf(id: HealthId): Severity {
    match id
    case AuthLost => Error
    case SyncFailing => Error
    case UpdateAvailable => Info
    case _ => Warn
  }

  function ParamsOf(i: HealthInputs, id: HealthId): HealthParams
    requires Holds(i, id)
  {
    match id
    case SyncFailing => SyncFailingParams(i.syncLastError.value, i.syncAttemptsSinceSuccess)
    case HangarSkip =>
      HangarSkipParams(i.hangarLastSkipReason.value, if i.hangarLastAttemptAt.Some? then i.hangarLastAttemptAt.value else i.now)
    case GameLogStale => GameLogStaleParams(i.tailLastEventAt.value)
    case UpdateAvailable => UpdateAvailableParams(i.updateAvailableVersion.value)
    case DiskFreeLow => DiskFreeLowParams(i.diskFreeBytes.value)
    case _ => Plain(id)
  }

  function ActionOf(i: HealthInputs, id: HealthId): Option<HealthAction>
    requires Holds(i, id)
  {
    match id
    case GamelogMissing => Some(GoToSettings(GamelogPath))
    case ApiUrlMissing => Some(GoToSettings(ApiUrl))
    case PairMissing => Some(GoToSettings(PairingCode))
    case AuthLost => Some(GoToSettings(PairingCode))
    case CookieMissing => Some(GoToSettings(RsiCookie))
    case SyncFailing => Some(RetrySync)
    case HangarSkip => Some(RefreshHangar)
    case EmailUnverified => Some(OpenUrl(TrimSlashes(i.webOrigin.value) + "/verify-email"))
    case GameLogStale => None
    case UpdateAvailable => Some(GoToSettings(Updates))
    case DiskFreeLow => None
  }

  /** The item of a condition that holds. */
  function ItemOf(i: HealthInputs, id: HealthId): (item: HealthItem)
    requires Holds(i, id)
    ensures item.id == id && item.severity == SeverityOf(id) && item.fingerprint == Json(item.params)
    ensures item.dismissible <==> item.severity != Error
  {
    Item(id, SeverityOf(id), ParamsOf(i, id), ActionOf(i, id))
  }

  predicate IsDismissed(item: HealthItem, dismissed: seq<Dismissed>) {
    exists d :: d in dismissed && d.id == item.id && d.fingerprint == item.fingerprint
  }

  // ----- order -----

  function SeverityOrder(s: Severity): nat {
    match s
    case Error => 0
    case Warn => 1
    case Info => 2
  }

  function IdOrder(id: HealthId): (n: nat)
    ensures n < 11
  {
    match id
    case GamelogMissing => 0
    case ApiUrlMissing => 1
    case PairMissing => 2
    case AuthLost => 3
    case CookieMissing => 4
    case SyncFailing => 5
    case HangarSkip => 6
    case EmailUnverified => 7
    case GameLogStale => 8
    case UpdateAvailable => 9
    case DiskFreeLow => 10
  }

  /** Order by severity, then by id. */
  predicate Before(a: HealthItem, b: HealthItem) {
    || SeverityOrder(a.severity) < SeverityOrder(b.severity)
    || (SeverityOrder(a.severity) == SeverityOrder(b.severity) && IdOrder(a.id) < IdOrder(b.id))
  }

  ghost predicate StrictlySorted(items: seq<HealthItem>) {
    forall i, j :: 0 <= i < j < |items| ==> Before(items[i], items[j])
  }

  function Place(sorted: seq<HealthItem>, item: HealthItem): seq<HealthItem> {
    if sorted == [] || !Before(item, sorted[|sorted| - 1]) then sorted + [item]
    else Place(sorted[..|sorted| - 1], item) + [sorted[|sorted| - 1]]
  }

  /** Stable sort by key. */
  function Sorted(items: seq<HealthItem>): seq<HealthItem> {
    if items == [] then [] else Place(Sorted(items[..|items| - 1]), items[|items| - 1])
  }

  function Retained(items: seq<HealthItem>, dismissed: seq<Dismissed>): seq<HealthItem> {
    if items == [] then []
    else
      var init, last := items[..|items| - 1], items[|items| - 1];
      Retained(init, dismissed) + if IsDismissed(last, dismissed) then [] else [last]
  }

  const ALL_IDS := [
    GamelogMissing, ApiUrlMissing, PairMissing, AuthLost, CookieMissing, SyncFailing,
    HangarSkip, EmailUnverified, GameLogStale, UpdateAvailable, DiskFreeLow ]

  /** The items of the first `n` conditions. */
  function Derived(i: HealthInputs, n: nat): seq<HealthItem>
    requires n <= 11
  {
    if n == 0 then []
    else Derived(i, n - 1) + if Holds(i, ALL_IDS[n - 1]) then [ItemOf(i, ALL_IDS[n - 1])] else []
  }

  /** Specification of the whole derivation. */
  function HealthOf(i: HealthInputs): seq<HealthItem> {
    Sorted(Retained(Derived(i, 11), i.dismissed))
  }

  method CurrentHealth(inputs: HealthInputs) returns (items: seq<HealthItem>)
    ensures items == HealthOf(inputs)
  {
    items := CheckSetup(inputs);
    items := CheckSync(inputs, items);
    items := CheckAccountAndLog(inputs, items);
    items := CheckSystem(inputs, items);
    items := Sorted(Retained(items, inputs.dismissed));
  }

  method CheckSetup(inputs: HealthInputs) returns (items: seq<HealthItem>)
    ensures items == Derived(inputs, 3)
  {
    items := [];
    if inputs.gamelogDiscoveredCount == 0 && !inputs.gamelogOverrideSet {
      items := items + [Item(GamelogMissing, Warn, Plain(GamelogMissing), Some(GoToSettings(GamelogPath)))];
    }
    assert items == Derived(inputs, 1);
    if inputs.remoteSyncEnabled && inputs.apiUrl.None? {
      items := items + [Item(ApiUrlMissing, Warn, Plain(ApiUrlMissing), Some(GoToSettings(ApiUrl)))];
    }
    assert items == Derived(inputs, 2);
    if inputs.remoteSyncEnabled && inputs.apiUrl.Some? && inputs.accessToken.None? {
      items := items + [Item(PairMissing, Warn, Plain(PairMissing), Some(GoToSettings(PairingCode)))];
    }
  }

  method CheckSync(inputs: HealthInputs, before: seq<HealthItem>) returns (items: seq<HealthItem>)
    requires before == Derived(inputs, 3)
    ensures items == Derived(inputs, 6)
  {
    items := before;
    if inputs.authLost {
      items := items + [Item(AuthLost, Error, Plain(AuthLost), Some(GoToSettings(PairingCode)))];
    }
    assert items == Derived(inputs, 4);
    var paired := inputs.apiUrl.Some? && inputs.accessToken.Some?;
    var hangarEngaged := inputs.hangarLastAttemptAt.Some?;
    if paired && !inputs.cookieConfigured && hangarEngaged {
      items := items + [Item(CookieMissing, Warn, Plain(CookieMissing), Some(GoToSettings(RsiCookie)))];
    }
    assert items == Derived(inputs, 5);
    if inputs.syncLastError.Some? && !inputs.authLost {
      var params := SyncFailingParams(inputs.syncLastError.value, inputs.syncAttemptsSinceSuccess);
      items := items + [Item(SyncFailing, Error, params, Some(RetrySync))];
    }
  }

  method CheckAccountAndLog(inputs: HealthInputs, before: seq<HealthItem>) returns (items: seq<HealthItem>)
    requires before == Derived(inputs, 6)
    ensures items == Derived(inputs, 9)
  {
    items := before;
    if inputs.hangarLastSkipReason.Some? && inputs.hangarLastSuccessAt.None? {
      var since := if inputs.hangarLastAttemptAt.Some? then inputs.hangarLastAttemptAt.value else inputs.now;
      items := items + [Item(HangarSkip, Warn, HangarSkipParams(inputs.hangarLastSkipReason.value, since), Some(RefreshHangar))];
    }
    assert items == Derived(inputs, 7);
    if inputs.emailVerified == Some(false) {
      if inputs.webOrigin.Some? {
        var origin := inputs.webOrigin.value;
        if "http://" <= origin || "https://" <= origin {
          var url := TrimSlashes(origin) + "/verify-email";
          items := items + [Item(EmailUnverified, Warn, Plain(EmailUnverified), Some(OpenUrl(url)))];
        }
      }
    }
    assert items == Derived(inputs, 8);
    if inputs.scProcessRunning && inputs.tailCurrentPath.Some? {
      if inputs.tailLastEventAt.Some? {
        var ageMin := WholeMinutes(inputs.now - inputs.tailLastEventAt.value);
        if ageMin >= GAME_LOG_STALE_MIN {
          items := items + [Item(GameLogStale, Warn, GameLogStaleParams(inputs.tailLastEventAt.value), None)];
        }
      }
    }
  }

  method CheckSystem(inputs: HealthInputs, before: seq<HealthItem>) returns (items: seq<HealthItem>)
    requires before == Derived(inputs, 9)
    ensures items == Derived(inputs, 11)
  {
    items := before;
    if inputs.updateAvailableVersion.Some? {
      var params := UpdateAvailableParams(inputs.updateAvailableVersion.value);
      items := items + [Item(UpdateAvailable, Info, params, Some(GoToSettings(Updates)))];
    }
    assert items == Derived(inputs, 10);
    if inputs.diskFreeBytes.Some? {
      if inputs.diskFreeBytes.value < DISK_FREE_LOW_THRESHOLD {
        items := items + [Item(DiskFreeLow, Warn, DiskFreeLowParams(inputs.diskFreeBytes.value), None)];
      }
    }
  }

  // ----- what is shown -----

  lemma {:induction false} DerivedItems(i: HealthInputs, n: nat)
    requires n <= 11
    ensures forall item :: item in Derived(i, n) <==> Holds(i, item.id) && IdOrder(item.id) < n && item == ItemOf(i, item.id)
  {
    if n > 0 {
      DerivedItems(i, n - 1);
      IdAt(n - 1);
    }
  }

  lemma IdAt(k: nat)
    requires k < 11
    ensures forall id: HealthId :: IdOrder(id) == k <==> id == ALL_IDS[k]
  {
    forall id: HealthId
      ensures ALL_IDS[IdOrder(id)] == id
    {
    }
  }

  lemma {:induction false} RetainedItems(items: seq<HealthItem>, dismissed: seq<Dismissed>)
    ensures forall x :: x in Retained(items, dismissed) <==> x in items && !IsDismissed(x, dismissed)
  {
    if items != [] {
      var init, last := items[..|items| - 1], items[|items| - 1];
      assert items == init + [last];
      RetainedItems(init, dismissed);
    }
  }

  lemma {:induction false} PlaceItems(sorted: seq<HealthItem>, item: HealthItem)
    ensures forall x :: x in Place(sorted, item) <==> x in sorted || x == item
  {
    if sorted != [] {
      assert sorted == sorted[..|sorted| - 1] + [sorted[|sorted| - 1]];
      PlaceItems(sorted[..|sorted| - 1], item);
    }
  }

  lemma {:induction false} SortedItems(items: seq<HealthItem>)
    ensures forall x :: x in Sorted(items) <==> x in items
  {
    if items != [] {
      assert items == items[..|items| - 1] + [items[|items| - 1]];
      SortedItems(items[..|items| - 1]);
      PlaceItems(Sorted(items[..|items| - 1]), items[|items| - 1]);
    }
  }

  /** The surface shows exactly the items whose condition holds and that were not dismissed. */
  lemma ShownIff(i: HealthInputs, item: HealthItem)
    ensures item in HealthOf(i) <==> Holds(i, item.id) && item == ItemOf(i, item.id) && !IsDismissed(item, i.dismissed)
  {
    DerivedItems(i, 11);
    RetainedItems(Derived(i, 11), i.dismissed);
    SortedItems(Retained(Derived(i, 11), i.dismissed));
  }

  // ----- every condition, spelled out -----

  ghost predicate Hidden(i: HealthInputs, id: HealthId) {
    forall x :: x in HealthOf(i) ==> x.id != id
  }

  /** With nothing dismissed: under the condition exactly this item is shown for the id, otherwise none. */
  ghost predicate ShownWhen(i: HealthInputs, condition: bool, id: HealthId, severity: Severity, params: HealthParams,
                            action: Option<HealthAction>) {
    if condition then HealthItem(id, severity, params, action, severity != Error, Json(params)) in HealthOf(i.(dismissed := []))
    else Hidden(i, id)
  }

  lemma ShownWhenHolds(i: HealthInputs, condition: bool, id: HealthId, severity: Severity, params: HealthParams,
                       action: Option<HealthAction>)
    requires condition <==> Holds(i, id)
    requires condition ==> ItemOf(i, id) == HealthItem(id, severity, params, action, severity != Error, Json(params))
    ensures ShownWhen(i, condition, id, severity, params, action)
  {
    var all := i.(dismissed := []);
    if condition {
      assert Holds(all, id) && ItemOf(all, id) == ItemOf(i, id);
      ShownIff(all, ItemOf(i, id));
    } else {
      forall x | x in HealthOf(i)
        ensures x.id != id
      {
        ShownIff(i, x);
      }
    }
  }

  lemma SetupConditions(i: HealthInputs)
    ensures ShownWhen(i, i.gamelogDiscoveredCount == 0 && !i.gamelogOverrideSet,
                      GamelogMissing, Warn, Plain(GamelogMissing), Some(GoToSettings(GamelogPath)))
    ensures ShownWhen(i, i.remoteSyncEnabled && i.apiUrl == None,
                      ApiUrlMissing, Warn, Plain(ApiUrlMissing), Some(GoToSettings(ApiUrl)))
    ensures ShownWhen(i, i.remoteSyncEnabled && i.apiUrl != None && i.accessToken == None,
                      PairMissing, Warn, Plain(PairMissing), Some(GoToSettings(PairingCode)))
    ensures ShownWhen(i, i.apiUrl != None && i.accessToken != None && !i.cookieConfigured && i.hangarLastAttemptAt != None,
                      CookieMissing, Warn, Plain(CookieMissing), Some(GoToSettings(RsiCookie)))
  {
    ShownWhenHolds(i, Holds(i, GamelogMissing), GamelogMissing, Warn, Plain(GamelogMissing), Some(GoToSettings(GamelogPath)));
    ShownWhenHolds(i, Holds(i, ApiUrlMissing), ApiUrlMissing, Warn, Plain(ApiUrlMissing), Some(GoToSettings(ApiUrl)));
    ShownWhenHolds(i, Holds(i, PairMissing), PairMissing, Warn, Plain(PairMissing), Some(GoToSettings(PairingCode)));
    ShownWhenHolds(i, Holds(i, CookieMissing), CookieMissing, Warn, Plain(CookieMissing), Some(GoToSettings(RsiCookie)));
  }

  /** A lost token is reported as such and never also as failing sync. */
  lemma SyncConditions(i: HealthInputs)
    ensures ShownWhen(i, i.authLost, AuthLost, Error, Plain(AuthLost), Some(GoToSettings(PairingCode)))
    ensures match i.syncLastError
            case None => Hidden(i, SyncFailing)
            case Some(error) =>
              ShownWhen(i, !i.authLost, SyncFailing, Error, SyncFailingParams(error, i.syncAttemptsSinceSuccess), Some(RetrySync))
  {
    ShownWhenHolds(i, Holds(i, AuthLost), AuthLost, Error, Plain(AuthLost), Some(GoToSettings(PairingCode)));
    var params := SyncFailingParams(if i.syncLastError.Some? then i.syncLastError.value else "", i.syncAttemptsSinceSuccess);
    ShownWhenHolds(i, Holds(i, SyncFailing), SyncFailing, Error, params, Some(RetrySync));
  }

  /** The hangar was last attempted, or is first missed, at this time. */
  ghost predicate HangarSince(i: HealthInputs, since: int) {
    i.hangarLastAttemptAt == Some(since) || (i.hangarLastAttemptAt == None && since == i.now)
  }

  lemma HangarCondition(i: HealthInputs)
    ensures match i.hangarLastSkipReason
            case None => Hidden(i, HangarSkip)
            case Some(reason) =>
              forall since :: HangarSince(i, since) ==>
                ShownWhen(i, i.hangarLastSuccessAt == None, HangarSkip, Warn, HangarSkipParams(reason, since), Some(RefreshHangar))
  {
    var reason := if i.hangarLastSkipReason.Some? then i.hangarLastSkipReason.value else "";
    var since := if i.hangarLastAttemptAt.Some? then i.hangarLastAttemptAt.value else i.now;
    ShownWhenHolds(i, Holds(i, HangarSkip), HangarSkip, Warn, HangarSkipParams(reason, since), Some(RefreshHangar));
  }

  lemma {:induction false} TrimmedHasNoSlash(s: string)
    ensures Trimmed(s, TrimSlashes(s), c => c == '/')
  {
    if s != "" && s[|s| - 1] == '/' {
      var init := s[..|s| - 1];
      TrimmedHasNoSlash(init);
      TrimmedMore(init, TrimSlashes(init), '/', c => c == '/');
      assert s == init + ['/'];
    } else {
      TrimmedNothing(s, c => c == '/');
    }
  }

  /** The link to verify an address is the web origin, less its trailing slashes, and the path. */
  lemma EmailCondition(i: HealthInputs)
    ensures match i.webOrigin
            case None => Hidden(i, EmailUnverified)
            case Some(origin) =>
              exists base :: Trimmed(origin, base, c => c == '/')
                && ShownWhen(i, i.emailVerified == Some(false) && ("http://" <= origin || "https://" <= origin),
                             EmailUnverified, Warn, Plain(EmailUnverified), Some(OpenUrl(base + "/verify-email")))
  {
    var origin := if i.webOrigin.Some? then i.webOrigin.value else "";
    TrimmedHasNoSlash(origin);
    ShownWhenHolds(i, Holds(i, EmailUnverified), EmailUnverified, Warn, Plain(EmailUnverified),
                   Some(OpenUrl(TrimSlashes(origin) + "/verify-email")));
  }

  /** Quiet for half an hour, less than a gibibyte left. */
  lemma LimitConditions(i: HealthInputs)
    ensures match i.tailLastEventAt
            case None => Hidden(i, GameLogStale)
            case Some(last) =>
              ShownWhen(i, i.scProcessRunning && i.tailCurrentPath != None && i.now - last >= 30 * 60 * 1000,
                        GameLogStale, Warn, GameLogStaleParams(last), None)
    ensures match i.diskFreeBytes
            case None => Hidden(i, DiskFreeLow)
            case Some(free) => ShownWhen(i, free < 1024 * 1024 * 1024, DiskFreeLow, Warn, DiskFreeLowParams(free), None)
    ensures match i.updateAvailableVersion
            case None => Hidden(i, UpdateAvailable)
            case Some(version) =>
              ShownWhen(i, true, UpdateAvailable, Info, UpdateAvailableParams(version), Some(GoToSettings(Updates)))
  {
    var last := if i.tailLastEventAt.Some? then i.tailLastEventAt.value else 0;
    var free := if i.diskFreeBytes.Some? then i.diskFreeBytes.value else 0;
    var version := if i.updateAvailableVersion.Some? then i.updateAvailableVersion.value else "";
    ShownWhenHolds(i, Holds(i, GameLogStale), GameLogStale, Warn, GameLogStaleParams(last), None);
    ShownWhenHolds(i, Holds(i, DiskFreeLow), DiskFreeLow, Warn, DiskFreeLowParams(free), None);
    ShownWhenHolds(i, Holds(i, UpdateAvailable), UpdateAvailable, Info, UpdateAvailableParams(version), Some(GoToSettings(Updates)));
  }

  /** A dismissal hides the item of its id while its parameters are the same, and nothing else. */
  lemma DismissalsOnlyHide(i: HealthInputs, item: HealthItem)
    ensures item in HealthOf(i) <==>
            item in HealthOf(i.(dismissed := [])) && Dismissed(item.id, Json(item.params)) !in i.dismissed
  {
    var all := i.(dismissed := []);
    ShownIff(i, item);
    ShownIff(all, item);
    assert Holds(i, item.id) ==> Holds(all, item.id) && ItemOf(all, item.id) == ItemOf(i, item.id);
    assert IsDismissed(item, i.dismissed) <==> Dismissed(item.id, item.fingerprint) in i.dismissed;
  }

  /** The order on screen: errors, then warnings, then notices. */
  const SHOWN_ORDER := [
    AuthLost, SyncFailing,
    GamelogMissing, ApiUrlMissing, PairMissing, CookieMissing, HangarSkip, EmailUnverified, GameLogStale, DiskFreeLow,
    UpdateAvailable ]

  lemma PlaceOnScreen(a: HealthId) returns (x: nat)
    ensures x < 11 && SHOWN_ORDER[x] == a
    ensures SeverityOrder(SeverityOf(a)) == if x < 2 then 0 else if x < 10 then 1 else 2
    ensures forall y :: 0 <= y < 11 && SeverityOrder(SeverityOf(SHOWN_ORDER[y])) == SeverityOrder(SeverityOf(a)) ==>
              (x < y <==> IdOrder(a) < IdOrder(SHOWN_ORDER[y]))
  {
    match a
    case AuthLost => x := 0;
    case SyncFailing => x := 1;
    case GamelogMissing => x := 2;
    case ApiUrlMissing => x := 3;
    case PairMissing => x := 4;
    case CookieMissing => x := 5;
    case HangarSkip => x := 6;
    case EmailUnverified => x := 7;
    case GameLogStale => x := 8;
    case DiskFreeLow => x := 9;
    case UpdateAvailable => x := 10;
  }

  /** Items are shown in that order. */
  lemma ShownInOrder(i: HealthInputs, j: nat, k: nat)
    requires j < k < |HealthOf(i)|
    ensures exists x, y :: 0 <= x < y < |SHOWN_ORDER| && SHOWN_ORDER[x] == HealthOf(i)[j].id && SHOWN_ORDER[y] == HealthOf(i)[k].id
  {
    var a, b := HealthOf(i)[j], HealthOf(i)[k];
    ShownSorted(i);
    assert a in HealthOf(i) && b in HealthOf(i);
    ShownIff(i, a);
    ShownIff(i, b);
    assert Before(a, b);
    var x := PlaceOnScreen(a.id);
    var y := PlaceOnScreen(b.id);
  }

  lemma {:induction false} PlaceSorted(sorted: seq<HealthItem>, item: HealthItem)
    requires StrictlySorted(sorted) && forall x :: x in sorted ==> Before(x, item) || Before(item, x)
    ensures StrictlySorted(Place(sorted, item))
  {
    if sorted != [] {
      var init, last := sorted[..|sorted| - 1], sorted[|sorted| - 1];
      assert sorted == init + [last] && last in sorted;
      assert forall k :: 0 <= k < |init| ==> sorted[k] == init[k];
      if Before(item, last) {
        PlaceSorted(init, item);
        PlaceItems(init, item);
        var placed := Place(init, item);
        forall k | 0 <= k < |placed|
          ensures Before(placed[k], last)
        {
          assert placed[k] in placed;
          if placed[k] != item {
            var m :| 0 <= m < |init| && init[m] == placed[k];
            assert Before(sorted[m], sorted[|sorted| - 1]);
          }
        }
      }
    }
  }

  ghost predicate IdsDistinct(items: seq<HealthItem>) {
    forall i, j :: 0 <= i < j < |items| ==> items[i].id != items[j].id
  }

  lemma ComparableByIds(a: HealthItem, b: HealthItem)
    requires a.id != b.id
    ensures Before(a, b) || Before(b, a)
  {
    assert ALL_IDS[IdOrder(a.id)] == a.id && ALL_IDS[IdOrder(b.id)] == b.id;
  }

  lemma {:induction false} SortedIsSorted(items: seq<HealthItem>)
    requires IdsDistinct(items)
    ensures StrictlySorted(Sorted(items))
  {
    if items != [] {
      var init, last := items[..|items| - 1], items[|items| - 1];
      SortedIsSorted(init);
      SortedItems(init);
      forall x | x in Sorted(init)
        ensures Before(x, last) || Before(last, x)
      {
        var k :| 0 <= k < |init| && init[k] == x;
        assert items[k].id != items[|items| - 1].id;
        ComparableByIds(x, last);
      }
      PlaceSorted(Sorted(init), last);
    }
  }

  lemma {:induction false} RetainedDistinct(items: seq<HealthItem>, dismissed: seq<Dismissed>)
    requires IdsDistinct(items)
    ensures IdsDistinct(Retained(items, dismissed))
  {
    if items != [] {
      var init, last := items[..|items| - 1], items[|items| - 1];
      RetainedDistinct(init, dismissed);
      RetainedItems(init, dismissed);
      var kept := Retained(init, dismissed);
      forall k | 0 <= k < |kept|
        ensures kept[k].id != last.id
      {
        assert kept[k] in kept;
        var m :| 0 <= m < |init| && init[m] == kept[k];
        assert items[m].id != items[|items| - 1].id;
      }
    }
  }

  lemma {:induction false} DerivedDistinct(i: HealthInputs, n: nat)
    requires n <= 11
    ensures IdsDistinct(Derived(i, n))
  {
    if n > 0 {
      DerivedDistinct(i, n - 1);
      DerivedItems(i, n - 1);
      IdAt(n - 1);
      var before := Derived(i, n - 1);
      assert forall k :: 0 <= k < |before| ==> before[k] in before;
    }
  }

  /** The output is strictly sorted by severity and id, so no id appears twice. */
  lemma ShownSorted(i: HealthInputs)
    ensures StrictlySorted(HealthOf(i)) && IdsDistinct(HealthOf(i))
  {
    DerivedDistinct(i, 11);
    RetainedDistinct(Derived(i, 11), i.dismissed);
    SortedIsSorted(Retained(Derived(i, 11), i.dismissed));
    var items := HealthOf(i);
    forall a, b | 0 <= a < b < |items|
      ensures items[a].id != items[b].id
    {
      assert items[a] in items && items[b] in items;
      ShownIff(i, items[a]);
      ShownIff(i, items[b]);
    }
  }

  /** Strict order and contents determine the list. */
  lemma SortedUnique(a: seq<HealthItem>, b: seq<HealthItem>)
    requires StrictlySorted(a) && StrictlySorted(b) && forall x :: x in a <==> x in b
    ensures a == b
  {
    OrderedUnique(a, b, Before);
  }

  // ----- dismissal -----

  datatype DismissResult = Ok | NotLive | NotDismissible

  function Find(items: seq<HealthItem>, id: HealthId): (found: Option<HealthItem>)
    ensures found.Some? ==> found.value in items && found.value.id == id
    ensures found.None? ==> forall x :: x in items ==> x.id != id
  {
    if items == [] then None
    else if items[0].id == id then Some(items[0])
    else Find(items[1..], id)
  }

  /** The dismissals after a request to dismiss `id`. */
  function AfterDismiss(i: HealthInputs, id: HealthId): seq<Dismissed> {
    var target := Find(HealthOf(i), id);
    if target.None? || !target.value.dismissible then i.dismissed
    else i.dismissed + [Dismissed(id, target.value.fingerprint)]
  }

  class Config {
    var dismissed: seq<Dismissed>

    constructor ()
      ensures dismissed == []
    {
      dismissed := [];
    }

    method DismissHealth(snapshot: HealthInputs, id: HealthId) returns (result: DismissResult)
      modifies this
      ensures var i := snapshot.(dismissed := old(dismissed));
              && dismissed == AfterDismiss(i, id)
              && (result == Ok <==> exists x :: x in HealthOf(i) && x.id == id && x.dismissible)
              && (result == NotLive <==> forall x :: x in HealthOf(i) ==> x.id != id)
    {
      var i := snapshot.(dismissed := dismissed);
      var live := CurrentHealth(i);
      var target := Find(live, id);
      if target.None? {
        return NotLive;
      }
      ShownSorted(i);
      if !target.value.dismissible {
        assert forall x :: x in live && x.id == id ==> x == target.value by {
          SameIdSameItem(live, target.value);
        }
        return NotDismissible;
      }
      dismissed := dismissed + [Dismissed(target.value.id, target.value.fingerprint)];
      return Ok;
    }
  }

  lemma SameIdSameItem(items: seq<HealthItem>, item: HealthItem)
    requires IdsDistinct(items) && item in items
    ensures forall x :: x in items && x.id == item.id ==> x == item
  {
    forall x | x in items && x.id == item.id
      ensures x == item
    {
      var i :| 0 <= i < |items| && items[i] == x;
      var j :| 0 <= j < |items| && items[j] == item;
    }
  }

  /** A request is recorded for the item shown with that id, unless it is an error; otherwise nothing is. */
  lemma DismissalIs(i: HealthInputs, id: HealthId)
    ensures forall x :: x in HealthOf(i) && x.id == id && x.severity != Error ==>
              AfterDismiss(i, id) == i.dismissed + [Dismissed(id, Json(x.params))]
    ensures (forall x :: x in HealthOf(i) && x.id == id ==> x.severity == Error) ==> AfterDismiss(i, id) == i.dismissed
  {
    ShownSorted(i);
    var target := Find(HealthOf(i), id);
    if target.Some? {
      SameIdSameItem(HealthOf(i), target.value);
      ShownIff(i, target.value);
    }
  }

  /** Dismissals made through the command never name an error. */
  ghost predicate NoErrorDismissed(dismissed: seq<Dismissed>) {
    forall d :: d in dismissed ==> SeverityOf(d.id) != Error
  }

  lemma DismissKeepsErrors(i: HealthInputs, id: HealthId)
    requires NoErrorDismissed(i.dismissed)
    ensures NoErrorDismissed(AfterDismiss(i, id))
  {
    var target := Find(HealthOf(i), id);
    if target.Some? {
      ShownIff(i, target.value);
    }
  }

  /** A run: any sequence of dismissal requests, each against its own snapshot. */
  function RunDismissals(requests: seq<(HealthInputs, HealthId)>): seq<Dismissed> {
    if requests == [] then []
    else
      var (snapshot, id) := requests[|requests| - 1];
      AfterDismiss(snapshot.(dismissed := RunDismissals(requests[..|requests| - 1])), id)
  }

  lemma {:induction false} RunKeepsErrors(requests: seq<(HealthInputs, HealthId)>)
    ensures NoErrorDismissed(RunDismissals(requests))
  {
    if requests != [] {
      var (snapshot, id) := requests[|requests| - 1];
      RunKeepsErrors(requests[..|requests| - 1]);
      DismissKeepsErrors(snapshot.(dismissed := RunDismissals(requests[..|requests| - 1])), id);
    }
  }

  /** Starting with no dismissals, after any run an error whose condition holds is shown. */
  lemma ErrorsAlwaysShown(requests: seq<(HealthInputs, HealthId)>, snapshot: HealthInputs, id: HealthId)
    requires Holds(snapshot, id) && SeverityOf(id) == Error
    ensures var i := snapshot.(dismissed := RunDismissals(requests)); Holds(i, id) && ItemOf(i, id) in HealthOf(i)
  {
    var i := snapshot.(dismissed := RunDismissals(requests));
    RunKeepsErrors(requests);
    ShownIff(i, ItemOf(i, id));
  }

  /** Dismissing a shown, dismissible item under the same inputs removes that item and nothing else. */
  lemma DismissRemovesExactlyOne(i: HealthInputs, k: nat)
    requires k < |HealthOf(i)| && HealthOf(i)[k].dismissible
    ensures var shown := HealthOf(i);
            HealthOf(i.(dismissed := AfterDismiss(i, shown[k].id))) == shown[..k] + shown[k + 1..]
  {
    var shown := HealthOf(i);
    var target := shown[k];
    assert target in shown;
    ShownSorted(i);
    SameIdSameItem(shown, target);
    var found := Find(shown, target.id);
    assert found == Some(target);
    var i' := i.(dismissed := i.dismissed + [Dismissed(target.id, target.fingerprint)]);
    ShownSorted(i');
    var rest := shown[..k] + shown[k + 1..];
    forall x
      ensures x in HealthOf(i') <==> x in rest
    {
      ShownAfterDismissing(i, x, target);
      InRest(shown, k, x);
    }
    RestSorted(shown, k);
    SortedUnique(HealthOf(i'), rest);
  }

  lemma RestSorted(shown: seq<HealthItem>, k: nat)
    requires k < |shown| && StrictlySorted(shown)
    ensures StrictlySorted(shown[..k] + shown[k + 1..])
  {
  }

  /** One more dismissal hides the item of that id and fingerprint and no other. */
  lemma ShownAfterDismissing(i: HealthInputs, x: HealthItem, target: HealthItem)
    requires target in HealthOf(i) && target.dismissible
    ensures var i' := i.(dismissed := i.dismissed + [Dismissed(target.id, target.fingerprint)]);
            x in HealthOf(i') <==> x in HealthOf(i) && x.id != target.id
  {
    var i' := i.(dismissed := i.dismissed + [Dismissed(target.id, target.fingerprint)]);
    ShownIff(i, x);
    ShownIff(i', x);
    ShownIff(i, target);
    assert IsDismissed(x, i'.dismissed) <==> IsDismissed(x, i.dismissed) || (x.id == target.id && x.fingerprint == target.fingerprint);
  }

  lemma InRest(shown: seq<HealthItem>, k: nat, x: HealthItem)
    requires k < |shown| && IdsDistinct(shown)
    ensures x in shown[..k] + shown[k + 1..] <==> x in shown && x.id != shown[k].id
  {
    var rest := shown[..k] + shown[k + 1..];
    if x in rest {
      var j :| 0 <= j < |rest| && rest[j] == x;
      assert shown[if j < k then j else j + 1] == x;
    }
    if x in shown && x.id != shown[k].id {
      var j :| 0 <= j < |shown| && shown[j] == x;
      assert rest[if j < k then j else j - 1] == x;
    }
  }
}
