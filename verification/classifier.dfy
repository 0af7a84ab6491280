/**
 * Retrospective classification of an unclean checkpoint, and the diagnostic
 * event the scanner builds for it.
 */
module Classifier {
  import opened Wrappers
  import opened JsValues
  import opened Storage

  /** The crash categories, in the order the rule cascade tries them. */
  datatype CrashType = ClassicFreshVisibleCrash | RecentVisibleCrash | Other {
    /** The `crash_type` tag value sent with the event. */
    function Tag(): string {
      match this
      case ClassicFreshVisibleCrash => "classic_fresh_visible_crash"
      case RecentVisibleCrash => "recent_visible_crash"
      case Other => "other"
    }
  }

  const MinuteMs: int := 60000
  /** The threshold of the recent-visible rule. */
  const PrimaryVisibleCrashMinutes: int := 30

  predicate IsVisible(state: JValue) {
    StrictEq(state, JStr("visible"))
  }

  predicate UnloadNotFired(unloadFired: JValue) {
    StrictEq(unloadFired, JBool(false))
  }

  /** The first-match rule cascade over the four fields it consults. */
  function Classify(state: JValue, lastUpdate: JValue, sessionStart: JValue, unloadFired: JValue): (c: CrashType)
    ensures c != Other ==> IsVisible(state) && UnloadNotFired(unloadFired)
    ensures c == RecentVisibleCrash ==>
      lastUpdate.JNum? && sessionStart.JNum? && lastUpdate.n != sessionStart.n
    ensures c == ClassicFreshVisibleCrash && lastUpdate.JNum? ==> sessionStart == lastUpdate
  {
    if IsVisible(state) && StrictEq(lastUpdate, sessionStart) && UnloadNotFired(unloadFired) then
      ClassicFreshVisibleCrash
    else if IsVisible(state) && lastUpdate.JNum? && sessionStart.JNum?
         && lastUpdate.n - sessionStart.n < PrimaryVisibleCrashMinutes * MinuteMs
         && UnloadNotFired(unloadFired) then
      RecentVisibleCrash
    else
      Other
  }

  /** The cascade applied to a parsed checkpoint. */
  function ClassifyRecord(data: JValue): CrashType {
    Classify(Prop(data, "lastVisibilityState"), Prop(data, "lastVisibilityUpdate"),
             Prop(data, "tabSessionStart"), Prop(data, "unloadFired"))
  }

  /** `Math.floor((lastUpdate - sessionStart) / 60000)` when both are numbers,
      `null` (`None`) otherwise. */
  function ElapsedMinutes(lastUpdate: JValue, sessionStart: JValue): (r: Option<int>)
    ensures r.Some? <==> lastUpdate.JNum? && sessionStart.JNum?
    ensures r.Some? ==>
      r.value * MinuteMs <= lastUpdate.n - sessionStart.n < (r.value + 1) * MinuteMs
  {
    if lastUpdate.JNum? && sessionStart.JNum? then Some((lastUpdate.n - sessionStart.n) / MinuteMs)
    else None
  }

  /** A record meeting both the fresh and the recent condition is fresh. */
  lemma ClassificationPriority(state: JValue, lastUpdate: int, sessionStart: int, unloadFired: JValue)
    requires IsVisible(state) && UnloadNotFired(unloadFired)
    requires lastUpdate == sessionStart
    requires lastUpdate - sessionStart < PrimaryVisibleCrashMinutes * MinuteMs
    ensures Classify(state, JNum(lastUpdate), JNum(sessionStart), unloadFired) == ClassicFreshVisibleCrash
  {
  }

  /** For numeric timestamps the category of a visible, unclean record is decided
      by the elapsed minutes alone: no elapsed time at all is fresh, under thirty
      whole minutes is recent, anything else is other. */
  lemma {:induction false} NumericClassificationByMinutes(state: JValue, lastUpdate: int, sessionStart: int, unloadFired: JValue)
    requires IsVisible(state) && UnloadNotFired(unloadFired)
    ensures var c := Classify(state, JNum(lastUpdate), JNum(sessionStart), unloadFired);
            var m := ElapsedMinutes(JNum(lastUpdate), JNum(sessionStart)).value;
            && (c == ClassicFreshVisibleCrash <==> lastUpdate == sessionStart)
            && (c == RecentVisibleCrash <==> lastUpdate != sessionStart && m < PrimaryVisibleCrashMinutes)
            && (c == Other <==> lastUpdate != sessionStart && m >= PrimaryVisibleCrashMinutes)
  {
    var m := ElapsedMinutes(JNum(lastUpdate), JNum(sessionStart)).value;
    assert m * MinuteMs <= lastUpdate - sessionStart < (m + 1) * MinuteMs;
    if m < PrimaryVisibleCrashMinutes {
      assert (m + 1) * MinuteMs <= PrimaryVisibleCrashMinutes * MinuteMs;
    } else {
      assert m * MinuteMs >= PrimaryVisibleCrashMinutes * MinuteMs;
    }
  }

  /** Only the gap between the two timestamps matters: shifting both by the same
      amount keeps the category. */
  lemma ClassificationShiftInvariant(state: JValue, lastUpdate: int, sessionStart: int, unloadFired: JValue, shift: int)
    ensures Classify(state, JNum(lastUpdate + shift), JNum(sessionStart + shift), unloadFired)
         == Classify(state, JNum(lastUpdate), JNum(sessionStart), unloadFired)
  {
  }

  /** Any state other than exactly the string "visible" (hidden, prerender, a
      missing or non-string value) is classified as other. */
  lemma NonVisibleIsOther(state: JValue, lastUpdate: JValue, sessionStart: JValue, unloadFired: JValue)
    requires state != JStr("visible")
    ensures Classify(state, lastUpdate, sessionStart, unloadFired) == Other
  {
  }

  /** Two missing timestamps are `undefined === undefined`, which the fresh rule
      accepts. */
  lemma MissingTimestampsAreFresh(unloadFired: JValue)
    requires UnloadNotFired(unloadFired)
    ensures Classify(JStr("visible"), JUndef, JUndef, unloadFired) == ClassicFreshVisibleCrash
  {
  }

  /** The `contexts.trace.trace_id` value: the stored trace id when it is truthy,
      the sentinel otherwise. */
  function ReportedTraceId(traceData: JValue): (r: JValue)
    ensures Truthy(r)
    ensures Truthy(traceData) && Truthy(Prop(traceData, "trace_id")) ==> r == Prop(traceData, "trace_id")
    ensures !(Truthy(traceData) && Truthy(Prop(traceData, "trace_id"))) ==> r == JStr(NoTraceId)
  {
    if Truthy(traceData) && Truthy(Prop(traceData, "trace_id")) then Prop(traceData, "trace_id")
    else JStr(NoTraceId)
  }

  /** The event's `tags`. */
  datatype Tags = Tags(watchdog: string, crashType: CrashType)

  /** The diagnostic event the scanner hands to the reporter. `watchdog`,
      `traceData` and `minutesSessionStartToTabLastViewed` make up `extra`. */
  datatype Event = Event(
    message: string,
    level: string,
    timestamp: int,
    watchdog: JValue,
    traceData: JValue,
    minutesSessionStartToTabLastViewed: Option<int>,
    traceId: JValue,
    tags: Tags)

  const UncleanMessage: string := "[WatchdogV2] Unclean session detected"

  /** The event for a checkpoint `data` (already marked reviewed), the parsed
      trace record (`JNull` when there is none) and the scan time. */
  function BuildEvent(data: JValue, traceData: JValue, now: int): (e: Event)
    ensures e.level == "warning" && e.message == UncleanMessage
    ensures e.tags.watchdog == "unclean_session"
    ensures e.tags.crashType == ClassifyRecord(data)
    ensures e.watchdog == data
    ensures e.timestamp * 1000 <= now < (e.timestamp + 1) * 1000
    ensures Truthy(traceData) ==> e.traceData == traceData
    ensures !Truthy(traceData) ==> e.traceData == JObj(map[])
    ensures e.minutesSessionStartToTabLastViewed
         == ElapsedMinutes(Prop(data, "lastVisibilityUpdate"), Prop(data, "tabSessionStart"))
    ensures e.traceId == ReportedTraceId(traceData)
  {
    Event(
      UncleanMessage,
      "warning",
      now / 1000,
      data,
      if Truthy(traceData) then traceData else JObj(map[]),
      ElapsedMinutes(Prop(data, "lastVisibilityUpdate"), Prop(data, "tabSessionStart")),
      ReportedTraceId(traceData),
      Tags("unclean_session", ClassifyRecord(data)))
  }
}
