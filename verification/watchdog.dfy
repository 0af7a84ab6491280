/**
 * One page load of the watchdog: scan earlier checkpoints, settle this tab's
 * identity, link its trace, and write its first checkpoint. Clock readings,
 * the random suffix, the tracer's answers and the key snapshot are inputs.
 */
module Watchdog {
  import opened Wrappers
  import opened JsValues
  import opened Storage
  import opened TabIdentity
  import opened Classifier
  import opened Scanner
  import opened Dsn
  import opened TraceRetry
  import opened Checkpoint

  /** The environment of one initialisation. `outcome(i)` is what the tracer
      answers on query `i`. */
  datatype InitEnv = InitEnv(
    scanKeys: seq<string>,
    scanNow: int,
    idNow: int,
    idSuffix: string,
    sessionStart: int,
    outcome: nat -> JValue,
    traceNow: int,
    visibilityState: string,
    firstViewNow: int)

  datatype InitResult = InitResult(store: Store, requests: seq<Request>, tabId: Option<string>)

  /** The scan step of initialisation: skipped when no DSN is given. */
  function ScanIfConfigured(store: Store, dsn: string, env: InitEnv): (r: ScanResult)
    ensures dsn == "" ==> r == ScanResult(store, [])
  {
    if dsn == "" then ScanResult(store, []) else Scan(store, env.scanKeys, env.scanNow)
  }

  /** `initWatchdog` with the tracer present (without it nothing happens), run to
      the first visibility checkpoint. */
  function InitWatchdog(store: Store, dsn: string, sentryLoaded: bool, env: InitEnv): (r: InitResult)
    ensures !sentryLoaded ==> r == InitResult(store, [], None)
    ensures dsn == "" ==> r.requests == []
    ensures sentryLoaded ==> r.tabId.Some? && r.tabId.value != ""
    ensures sentryLoaded && r.tabId.Some? && r.tabId.value != "id" ==>
      var id := r.tabId.value;
      && Get(r.store, IdentityKey) == Some(Raw(id))
      && Get(r.store, TraceKey(id))
         == Some(Doc(TraceRecord(StoredTraceId(FirstUsable(env.outcome, 0, QueryBudget(TraceRetries))), env.traceNow)))
      && Get(r.store, CheckpointKey(id))
         == Some(Doc(LifecycleRecord(id, env.sessionStart, env.visibilityState, env.firstViewNow, false)))
  {
    if !sentryLoaded then InitResult(store, [], None)
    else
      var scanned := ScanIfConfigured(store, dsn, env);
      var requests := if dsn == "" then [] else Dispatch(scanned.reports, dsn);
      var identity := GetTabId(scanned.store, env.idNow, env.idSuffix);
      var traceId := StoredTraceId(FirstUsable(env.outcome, 0, QueryBudget(TraceRetries)));
      var traced := StoreTraceId(identity.store, traceId, env.traceNow, env.idNow, env.idSuffix);
      var viewed := HandleVisibilityChange(traced, identity.id, env.sessionStart, env.visibilityState,
                                           env.firstViewNow, env.idNow, env.idSuffix);
      assert TraceKey(identity.id) != IdentityKey by {
        TraceKeyIsNotTabKey(identity.id);
        IdentityKeyIsTabKey();
      }
      assert TraceKey(identity.id) != CheckpointKey(identity.id) by {
        TraceKeyIsNotTabKey(identity.id);
      }
      InitResult(viewed, requests, Some(identity.id))
  }

  /** The identity survives a page load only if the scan did not see it: a
      `tab_…` identity in the snapshot is unparsable, the scan deletes it, and
      this load generates a new one. */
  lemma InitReplacesScannedIdentity(store: Store, dsn: string, env: InitEnv)
    requires dsn != ""
    requires IdentityKey in env.scanKeys && IdentityKey in store && store[IdentityKey].Raw?
    ensures InitWatchdog(store, dsn, true, env).tabId == Some(GenerateTabId(env.idNow, env.idSuffix))
  {
    IdentityKeyIsTabKey();
    ScanDeletesUnparsable(store, env.scanKeys, env.scanNow, IdentityKey);
  }

  /** Requests sent on initialisation are exactly the scan's reports, addressed
      to the DSN's endpoint, when the DSN parses; none otherwise. */
  lemma InitRequestsFollowReports(store: Store, dsn: string, env: InitEnv)
    requires dsn != ""
    ensures var r := InitWatchdog(store, dsn, true, env);
            var reports := Scan(store, env.scanKeys, env.scanNow).reports;
            && (ParseDsn(dsn).None? ==> r.requests == [])
            && (ParseDsn(dsn).Some? ==> |r.requests| == |reports|)
            && (ParseDsn(dsn).Some? ==>
                  forall i :: 0 <= i < |reports| ==>
                    r.requests[i] == Request(EnvelopeUrl(ParseDsn(dsn).value), reports[i].event))
  {
  }

  // ---------------------------------------------------------------------------
  // End-to-end scenarios on a store holding one checkpoint of tab "t1"

  const T1Key: string := "watchdog_tab_t1"

  function Checkpoint1(cleanClose: bool, state: string, sessionStart: int, lastUpdate: int): JValue {
    JObj(map[
      "tabId" := JStr("t1"),
      "cleanClose" := JBool(cleanClose),
      "unloadFired" := JBool(cleanClose),
      "reviewed" := JBool(false),
      "tabSessionStart" := JNum(sessionStart),
      "lastVisibilityState" := JStr(state),
      "lastVisibilityUpdate" := JNum(lastUpdate)])
  }

  function ScanOne(record: JValue, now: int): ScanResult {
    Scan(map[T1Key := Doc(record)], [T1Key], now)
  }

  /** The single report of a one-entry scan of a visible, unclean record. */
  lemma VisibleScenario(sessionStart: int, lastUpdate: int, now: int)
    ensures var record := Checkpoint1(false, "visible", sessionStart, lastUpdate);
            var r := ScanOne(record, now);
            && |r.reports| == 1
            && r.reports[0].event.tags.crashType == ClassifyRecord(record)
            && r.reports[0].event.traceId == JStr(NoTraceId)
            && r.store == map[T1Key := Doc(MarkReviewed(record))]
  {
    var record := Checkpoint1(false, "visible", sessionStart, lastUpdate);
    var store := map[T1Key := Doc(record)];
    assert IsTabKey(T1Key);
    assert Prop(record, "lastVisibilityState") == JStr("visible");
    assert Prop(record, "tabId") == JStr("t1");
    assert TraceKeyFor(record) == Normal(TraceKey("t1"));
    assert TraceKey("t1") !in store by {
      TraceKeyIsNotTabKey("t1");
    }
    CandidateReviewed(store, T1Key, now);
    ScanOfOneKey(store, T1Key, now);
  }

  /** Scenario A: last update at session start is a fresh crash, marked reviewed. */
  lemma ScenarioFresh(t: int, now: int)
    ensures var r := ScanOne(Checkpoint1(false, "visible", t, t), now);
            && |r.reports| == 1 && r.reports[0].event.tags.crashType == ClassicFreshVisibleCrash
            && Get(r.store, T1Key) == Some(Doc(MarkReviewed(Checkpoint1(false, "visible", t, t))))
  {
    VisibleScenario(t, t, now);
  }

  /** Scenario B: fifteen minutes in is a recent crash. */
  lemma ScenarioRecent(t: int, now: int)
    ensures var r := ScanOne(Checkpoint1(false, "visible", t, t + 15 * 60000), now);
            |r.reports| == 1 && r.reports[0].event.tags.crashType == RecentVisibleCrash
  {
    VisibleScenario(t, t + 15 * 60000, now);
  }

  /** Scenario C: forty-five minutes in is other. */
  lemma ScenarioOther(t: int, now: int)
    ensures var r := ScanOne(Checkpoint1(false, "visible", t, t + 45 * 60000), now);
            |r.reports| == 1 && r.reports[0].event.tags.crashType == Other
  {
    VisibleScenario(t, t + 45 * 60000, now);
  }

  /** Scenarios D and E: a hidden record five minutes old stays, twenty minutes
      old is deleted; neither is reported. */
  lemma ScenarioHidden(t: int, now: int)
    ensures var young := ScanOne(Checkpoint1(false, "hidden", t, now - 5 * 60000), now);
            young.reports == [] && young.store == map[T1Key := Doc(Checkpoint1(false, "hidden", t, now - 5 * 60000))]
    ensures var stale := ScanOne(Checkpoint1(false, "hidden", t, now - 20 * 60000), now);
            stale.reports == [] && stale.store == map[]
  {
    assert IsTabKey(T1Key);
    var young := Checkpoint1(false, "hidden", t, now - 5 * 60000);
    var expired := Checkpoint1(false, "hidden", t, now - 20 * 60000);
    assert Prop(young, "lastVisibilityState") == JStr("hidden");
    assert Prop(expired, "lastVisibilityState") == JStr("hidden");
    HiddenGraceWindowNumeric(map[T1Key := Doc(young)], T1Key, now, now - 5 * 60000);
    HiddenGraceWindowNumeric(map[T1Key := Doc(expired)], T1Key, now, now - 20 * 60000);
    HiddenGraceWindow(map[T1Key := Doc(young)], T1Key, now);
    HiddenGraceWindow(map[T1Key := Doc(expired)], T1Key, now);
    ScanOfOneKey(map[T1Key := Doc(young)], T1Key, now);
    ScanOfOneKey(map[T1Key := Doc(expired)], T1Key, now);
    assert map[T1Key := Doc(expired)] - {T1Key} == map[];
  }

  /** Scenario F: a clean close is never selected, reported or removed. */
  lemma ScenarioCleanClose(t: int, lastUpdate: int, now: int)
    ensures var record := Checkpoint1(true, "visible", t, lastUpdate);
            var r := ScanOne(record, now);
            r.reports == [] && r.store == map[T1Key := Doc(record)]
  {
    var record := Checkpoint1(true, "visible", t, lastUpdate);
    SkippedEntriesUntouched(map[T1Key := Doc(record)], T1Key, now);
    ScanOfOneKey(map[T1Key := Doc(record)], T1Key, now);
  }
}
