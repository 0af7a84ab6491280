/**
 * The checkpoint writer and the trace-link writer: full-record overwrites of
 * the current tab's keys.
 */
module Checkpoint {
  import opened Wrappers
  import opened JsValues
  import opened Storage
  import opened TabIdentity
  import opened Classifier
  import opened Scanner

  /** The context both lifecycle handlers write; only the two flags differ.
      `sessionId` is an empty object and the stored minute count is
      `Math.floor((now - sessionStart) / 60000)`. */
  function LifecycleRecord(tabId: string, sessionStart: int, visibilityState: string, now: int, terminal: bool): (r: JValue)
    ensures r.JObj?
    ensures Prop(r, "minutesSessionStartToTabLastViewed").JNum?
    ensures ElapsedMinutes(Prop(r, "lastVisibilityUpdate"), Prop(r, "tabSessionStart"))
         == Some(Prop(r, "minutesSessionStartToTabLastViewed").n)
    ensures Prop(r, "tabSessionStart") == JNum(sessionStart) && Prop(r, "lastVisibilityUpdate") == JNum(now)
    ensures Prop(r, "tabId") == JStr(tabId) && Prop(r, "lastVisibilityState") == JStr(visibilityState)
    ensures Prop(r, "cleanClose") == JBool(terminal) && Prop(r, "unloadFired") == JBool(terminal)
    ensures Prop(r, "reviewed") == JBool(false)
    ensures IsCandidate(r) <==> !terminal
  {
    JObj(map[
      "tabId" := JStr(tabId),
      "sessionId" := JObj(map[]),
      "cleanClose" := JBool(terminal),
      "unloadFired" := JBool(terminal),
      "reviewed" := JBool(false),
      "tabSessionStart" := JNum(sessionStart),
      "lastVisibilityState" := JStr(visibilityState),
      "lastVisibilityUpdate" := JNum(now),
      "minutesSessionStartToTabLastViewed" := JNum((now - sessionStart) / MinuteMs)])
  }

  /** `storeTabContext`: looks the tab id up again (creating one if the identity
      entry has gone) and overwrites `watchdog_tab_<id>` with the context. */
  function StoreTabContext(store: Store, context: JValue, idNow: int, idSuffix: string): (r: Store)
    ensures var id := GetTabId(store, idNow, idSuffix).id;
            && Get(r, CheckpointKey(id)) == Some(Doc(context))
            && (forall k :: k != CheckpointKey(id) && k != IdentityKey ==> Get(r, k) == Get(store, k))
            && (HasIdentity(store) ==> forall k :: k != CheckpointKey(id) ==> Get(r, k) == Get(store, k))
  {
    var identity := GetTabId(store, idNow, idSuffix);
    identity.store[CheckpointKey(identity.id) := Doc(context)]
  }

  /** `handleVisibilityChange`: an unclean, unreviewed checkpoint, which the next
      scan takes up, and nothing else but the identity changes. */
  function HandleVisibilityChange(store: Store, tabId: string, sessionStart: int, visibilityState: string,
                                  now: int, idNow: int, idSuffix: string): (r: Store)
    ensures var key := CheckpointKey(GetTabId(store, idNow, idSuffix).id);
            && key in r && r[key].Doc? && IsCandidate(r[key].doc)
            && (forall k :: k != key && k != IdentityKey ==> Get(r, k) == Get(store, k))
  {
    StoreTabContext(store, LifecycleRecord(tabId, sessionStart, visibilityState, now, false), idNow, idSuffix)
  }

  /** `handleBeforeUnload`: a clean, unreviewed checkpoint, which no scan takes
      up, and nothing else but the identity changes. */
  function HandleBeforeUnload(store: Store, tabId: string, sessionStart: int, visibilityState: string,
                              now: int, idNow: int, idSuffix: string): (r: Store)
    ensures var key := CheckpointKey(GetTabId(store, idNow, idSuffix).id);
            && key in r && r[key].Doc? && !IsCandidate(r[key].doc)
            && Prop(r[key].doc, "cleanClose") == JBool(true) && Prop(r[key].doc, "unloadFired") == JBool(true)
            && (forall k :: k != key && k != IdentityKey ==> Get(r, k) == Get(store, k))
  {
    StoreTabContext(store, LifecycleRecord(tabId, sessionStart, visibilityState, now, true), idNow, idSuffix)
  }

  /** The trace-link record: the trace id and the time it was stored. */
  function TraceRecord(traceId: JValue, now: int): (r: JValue)
    ensures r.JObj? && Prop(r, "trace_id") == traceId && Prop(r, "tabSessionStart") == JNum(now)
  {
    JObj(map["trace_id" := traceId, "tabSessionStart" := JNum(now)])
  }

  /** `storeTraceId`: overwrites `watchdog_trace_<id>`, leaving every checkpoint
      key alone. */
  function StoreTraceId(store: Store, traceId: JValue, now: int, idNow: int, idSuffix: string): (r: Store)
    ensures var id := GetTabId(store, idNow, idSuffix).id;
            && Get(r, TraceKey(id)) == Some(Doc(TraceRecord(traceId, now)))
            && (forall k :: k != TraceKey(id) && k != IdentityKey ==> Get(r, k) == Get(store, k))
  {
    var identity := GetTabId(store, idNow, idSuffix);
    identity.store[TraceKey(identity.id) := Doc(TraceRecord(traceId, now))]
  }

  /** A trace record makes the scanner report its `trace_id` when truthy. */
  lemma TraceRecordEnriches(traceId: JValue, now: int)
    ensures Truthy(traceId) ==> ReportedTraceId(TraceRecord(traceId, now)) == traceId
    ensures !Truthy(traceId) ==> ReportedTraceId(TraceRecord(traceId, now)) == JStr(NoTraceId)
  {
  }

  /** A clean-close checkpoint is never reported and never touched by a scan. */
  lemma UnloadRecordIgnored(store: Store, key: string, tabId: string, sessionStart: int, visibilityState: string,
                            now: int, scanNow: int)
    requires Get(store, key) == Some(Doc(LifecycleRecord(tabId, sessionStart, visibilityState, now, true)))
    ensures ReviewEntry(store, key, scanNow) == Review(store, None)
  {
  }

  /** A hidden visibility checkpoint is never reported; a scan deletes it exactly
      when it was written more than ten minutes before the scan. */
  lemma HiddenRecordWaitsOrGoes(store: Store, tabId: string, sessionStart: int, now: int, scanNow: int)
    requires Get(store, CheckpointKey(tabId)) == Some(Doc(LifecycleRecord(tabId, sessionStart, "hidden", now, false)))
    ensures var r := ReviewEntry(store, CheckpointKey(tabId), scanNow);
            && r.report == None
            && (CheckpointKey(tabId) !in r.store <==> scanNow - now > 10 * 60000)
  {
    HiddenGraceWindow(store, CheckpointKey(tabId), scanNow);
  }

  /** A visible visibility checkpoint whose tab has no corrupt trace record is
      reported once, fresh when written at session start, recent when written
      less than thirty whole minutes later, other beyond that. */
  lemma VisibleRecordReported(store: Store, tabId: string, sessionStart: int, now: int, scanNow: int)
    requires Get(store, CheckpointKey(tabId)) == Some(Doc(LifecycleRecord(tabId, sessionStart, "visible", now, false)))
    requires ReadTrace(store, TraceKey(tabId)).TraceData?
    ensures var r := ReviewEntry(store, CheckpointKey(tabId), scanNow);
            var m := (now - sessionStart) / MinuteMs;
            && r.report.Some?
            && (r.report.value.tags.crashType == ClassicFreshVisibleCrash <==> now == sessionStart)
            && (r.report.value.tags.crashType == RecentVisibleCrash <==> now != sessionStart && m < 30)
            && (r.report.value.tags.crashType == Other <==> now != sessionStart && m >= 30)
  {
    var key := CheckpointKey(tabId);
    var data := LifecycleRecord(tabId, sessionStart, "visible", now, false);
    assert Prop(data, "lastVisibilityState") == JStr("visible");
    assert Prop(data, "tabId") == JStr(tabId);
    CandidateReviewed(store, key, scanNow);
    NumericClassificationByMinutes(JStr("visible"), now, sessionStart, JBool(false));
  }

  /** Duplicate unload firings write the same store as one. */
  lemma UnloadIdempotent(store: Store, tabId: string, sessionStart: int, visibilityState: string,
                         now: int, idNow: int, idSuffix: string)
    requires HasIdentity(store) ==> store[IdentityKey].text != "id"
    ensures var once := HandleBeforeUnload(store, tabId, sessionStart, visibilityState, now, idNow, idSuffix);
            HandleBeforeUnload(once, tabId, sessionStart, visibilityState, now, idNow, idSuffix) == once
  {
    var identity := GetTabId(store, idNow, idSuffix);
    assert CheckpointKey(identity.id) != IdentityKey by {
      if !HasIdentity(store) {
        assert identity.id[0] == 't';
      }
    }
  }
}
