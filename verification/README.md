# Browser-tab crash watchdog — a Dafny model

The watchdog script records a checkpoint for the current browser tab in
`localStorage` whenever the page's visibility changes (an *unclean* record) and
when the page unloads (a *clean* record). On the next page load it scans every
`watchdog_tab_*` entry left behind, decides which ones are tabs that died
without unloading, classifies each such crash as `classic_fresh_visible_crash`,
`recent_visible_crash` or `other`, marks it reviewed and reports it once to a
Sentry envelope endpoint derived from the DSN.

This project models that core as pure functions over an immutable store:

- `wrappers.dfy`, `js_values.dfy` — `Option`, and the JavaScript values the
  script inspects (`JValue`) with the JavaScript operations it relies on:
  truthiness, strict equality (`===`), property reads, numeric coercion (the
  operand of `now - data.lastVisibilityUpdate`) and string coercion (the
  `${data.tabId}` hole).
- `storage.dfy` — the store as `map<string, Slot>`, where a `Slot` is either
  `Raw` text that `JSON.parse` rejects or a `Doc` holding a JSON document; the
  key scheme `watchdog_tab_<id>`, `watchdog_trace_<id>`, `watchdog_tab_id`.
- `tab_identity.dfy` — `getTabId` / `generateTabId`.
- `classifier.dfy` — the crash-type rule cascade, the minutes enrichment, the
  reported trace id and the event record.
- `scanner.dfy` — `reviewAndReportUnreviewedEntries` as a left fold of a
  single-entry review (`ReviewEntry`) over a snapshot of keys.
- `dsn.dfy` — the DSN pattern `^https?://([^@]+)@([^/]+)/(\d+)` as a
  character-level parser, proved equivalent to a declarative decomposition, and
  the envelope URL.
- `trace_retry.dfy` — `tryGetTraceIdWithRetry` against an oracle of tracer
  answers, with a reference definition.
- `checkpoint.dfy` — the visibility and unload checkpoint builders,
  `storeTabContext` and `storeTraceId`.
- `watchdog.dfy` — `initWatchdog` run up to its first checkpoint, and the
  end-to-end scenarios (fresh, recent, other, young hidden, old hidden, clean
  close).

The clock (`Date.now`), the random suffix of a new tab id, the tracer's answers,
`document.visibilityState`, whether the Sentry SDK is loaded, and the snapshot
of storage keys are all parameters.

Behaviour the model keeps from the code that a reader might not expect:

- The identity key `watchdog_tab_id` carries the checkpoint prefix, and its
  `tab_…` value is not JSON, so a scan that sees it deletes it; the same page
  load then generates a new identity (`Watchdog.InitReplacesScannedIdentity`).
- Every unreviewed unclean record whose state is not exactly `'hidden'` is
  reported — a missing or unusual state is reported as `other`, not skipped.
- The fresh rule compares with `===`, so a record with both timestamps missing
  (`undefined === undefined`) is classified fresh.
- A record is marked reviewed before its trace record is read; a corrupt trace
  record makes the scan delete the checkpoint and send nothing.
- An unparsable DSN still leaves the scanned records marked reviewed; only the
  send is skipped.
- A checkpoint field the scan converts — `lastVisibilityUpdate` in the hidden
  branch's `now - …`, `tabId` in the trace key's template — that is a parsed
  object with its own `toString` field (or an array holding one) makes the
  conversion throw a `TypeError`; the scan's `catch` then removes the entry,
  after it was already rewritten as reviewed in the `tabId` case.
- A hidden checkpoint without a `lastVisibilityUpdate` has a `NaN` age, so no
  scan ever removes it.
- The stored keys are `watchdog_tab_<id>` and `watchdog_trace_<id>`, and the
  recent rule additionally requires both timestamps to be numbers.

## Model

| member | source | states |
|---|---|---|
| TabIdentity.GenerateTabId | watchdogClientV2.js:12-14 | a generated id starts with `tab_` and is non-empty, so it is always truthy |
| TabIdentity.GetTabId | watchdogClientV2.js:17-24 | a stored non-empty identity is returned with the store unchanged; otherwise the generated id is stored under `watchdog_tab_id` and returned; no other key changes |
| TabIdentity.GetTabIdIdempotent | watchdogClientV2.js:17-24 | a second lookup, at any clock and random draw, returns the same id and store |
| TabIdentity.EmptyIdentityIsReplaced | watchdogClientV2.js:18-21 | a stored empty string counts as absent and is replaced by a generated id |
| Storage.ParseItem | watchdogClientV2.js:105 | a missing key parses to `null`, corrupt text fails to parse, a JSON document parses to itself |
| Storage.TraceKeyIsNotTabKey | watchdogClientV2.js:7-8 | no trace-link key carries the checkpoint prefix, so the scan never visits trace records |
| Storage.IdentityKeyIsTabKey | watchdogClientV2.js:18 | the identity key carries the checkpoint prefix the scan selects on |
| JsValues.ToStr | watchdogClientV2.js:123 | string conversion throws exactly when the value holds an object with its own `toString` field; a string converts to itself, a number to its decimal text |
| JsValues.ToNumber | watchdogClientV2.js:109 | numeric coercion throws exactly when string conversion does; a number is itself, `undefined` and any other object are `NaN` |
| JsValues.RenderedNumberToNumber | watchdogClientV2.js:109 | a number stored as decimal text or as a one-element array converts back to the number |
| Scanner.IsCandidate | watchdogClientV2.js:106 | the guard holds exactly for an object whose `cleanClose` is `false` and whose `reviewed` is falsy |
| Scanner.HiddenRemoved | watchdogClientV2.js:109-116 | the hidden branch removes the entry whenever its timestamp cannot be converted, exactly when a numeric timestamp is more than ten minutes old, and never when the timestamp is missing |
| Scanner.TraceKeyFor | watchdogClientV2.js:123 | the trace key of a string `tabId` is `watchdog_trace_<tabId>`; building it throws exactly when `tabId` cannot be converted; it is never a checkpoint key |
| Scanner.MarkReviewed | watchdogClientV2.js:119 | the record gains `reviewed = true` and every other field is unchanged |
| Scanner.ReadTrace | watchdogClientV2.js:123-128 | a missing or empty trace record reads as `null`; non-empty corrupt text is a parse failure |
| Scanner.ReviewEntry | watchdogClientV2.js:103-180 | one loop iteration changes at most its own key, leaves non-prefixed keys alone, and reports only a visible unreviewed unclean record, which it rewrites as reviewed |
| Scanner.SkippedEntriesUntouched | watchdogClientV2.js:106 | null, reviewed, or not-strictly-unclean entries are left unchanged and unreported |
| Scanner.HiddenGraceWindow | watchdogClientV2.js:108-117 | a hidden candidate is never reported; it is deleted iff its age exceeds ten minutes, and otherwise left unchanged |
| Scanner.HiddenGraceWindowNumeric | watchdogClientV2.js:109-111 | for a timestamp stored as a number, its decimal text or a one-element array, deletion happens iff `now - lastVisibilityUpdate > 600000` (strict), with no report |
| Scanner.HiddenUnconvertibleTimestamp | watchdogClientV2.js:108-179 | a hidden candidate whose timestamp conversion throws is deleted unreported; one with no timestamp is kept unchanged |
| Scanner.ParseFailureDeleted | watchdogClientV2.js:177-180 | a prefixed entry that fails to parse is deleted with no report |
| Scanner.CandidateReviewed | watchdogClientV2.js:118-179 | a visible candidate is rewritten as reviewed and reported once with its own classification, unless its `tabId` cannot be converted or its trace record is corrupt, in which case it is deleted unreported |
| Scanner.ReviewSettles | watchdogClientV2.js:106 | after one review an entry yields no report under any later review, and the same review changes it no further |
| Scanner.Scan | watchdogClientV2.js:99-183 | the scan only removes keys, and every report names a key of the snapshot; `Scanner.ScanActsPerKey` gives its full effect |
| Scanner.ScanActsPerKey | watchdogClientV2.js:99-183 | the fold's final store and reports are those of reviewing each scanned key independently on the original store; no key is reported twice |
| Scanner.ScanOfOneKey | watchdogClientV2.js:101-105 | a one-key scan is a single review of that key |
| Scanner.ScanLeavesOtherKeys | watchdogClientV2.js:101-103 | keys outside the snapshot or without the `watchdog_tab_` prefix (trace records included) come out unchanged |
| Scanner.ReportedEntriesMarkedReviewed | watchdogClientV2.js:118-120 | every reported key held a visible candidate and ends the scan as that same record with `reviewed = true`, the record the event carries |
| Scanner.SecondScanReportsNothing | watchdogClientV2.js:106 | re-scanning the result over already-scanned keys, at any clock, reports nothing |
| Scanner.ScanDeletesUnparsable | watchdogClientV2.js:177-179 | a corrupt prefixed entry in the snapshot, the `tab_…` identity included, is gone after the scan and never reported |
| Classifier.Classify | watchdogClientV2.js:136-152 | a non-other category needs state `'visible'` and `unloadFired === false`; recent needs two distinct numeric timestamps; fresh with a numeric update means equal timestamps |
| Classifier.ClassificationPriority | watchdogClientV2.js:138-143 | a record meeting both the fresh and the recent condition is fresh |
| Classifier.NumericClassificationByMinutes | watchdogClientV2.js:137-152 | with numeric timestamps: fresh iff equal; recent iff different and under 30 elapsed minutes; other iff different and 30 or more |
| Classifier.ClassificationShiftInvariant | watchdogClientV2.js:144-152 | shifting both timestamps by the same amount keeps the category |
| Classifier.NonVisibleIsOther | watchdogClientV2.js:137-152 | any state other than the string `'visible'` is classified other |
| Classifier.MissingTimestampsAreFresh | watchdogClientV2.js:139-141 | two missing timestamps compare equal under `===`, so the fresh rule applies |
| Classifier.ElapsedMinutes | watchdogClientV2.js:131-134 | defined iff both timestamps are numbers, and then the floor of the elapsed minutes (bounded between m and m+1 minutes) |
| Classifier.ReportedTraceId | watchdogClientV2.js:166 | the reported trace id is always truthy: the stored `trace_id` when truthy, else `no_trace_id_found` |
| Classifier.BuildEvent | watchdogClientV2.js:154-173 | the event carries the reviewed record, `traceData` or `{}`, the elapsed minutes, the trace id, the classification tag, and a seconds timestamp that is the floor of `now / 1000` |
| Dsn.ParseDsn | watchdogClientV2.js:59-64 | a parse yields non-empty key and host and a non-empty all-digit project id |
| Dsn.PartsParse | watchdogClientV2.js:59 | after the scheme, any valid key/host/digits/trailing split is exactly what the group reader returns |
| Dsn.PartsSound | watchdogClientV2.js:59 | whatever the group reader returns is a valid key/host/digits/trailing split |
| Dsn.ParseDsnSound | watchdogClientV2.js:59-64 | a successful parse is a decomposition `scheme://key@host/digits…` with the pattern's constraints |
| Dsn.ParseDsnComplete | watchdogClientV2.js:59-64 | every such decomposition is exactly the parse result (so it is unique) |
| Dsn.ParseDsnFailsIffNoMatch | watchdogClientV2.js:59-63 | the parse fails exactly when no decomposition exists |
| Dsn.ParseCanonicalDsn | watchdogClientV2.js:59-64 | `scheme://k@h/p` with `k` free of `@`, `h` free of `/`, `p` digits parses back to `(k, h, p)` |
| Dsn.EnvelopeUrl | watchdogClientV2.js:65 | the endpoint always uses `https://` |
| Dsn.Send | watchdogClientV2.js:57-65 | a request is issued iff the DSN parses, to the envelope URL of its host and project |
| Dsn.HttpDsnSendsOverHttps | watchdogClientV2.js:59-65 | an `http://` DSN still sends to `https://{host}/api/{id}/envelope/` |
| Dsn.Dispatch | watchdogClientV2.js:174 | one request per report, in order, when the DSN parses; none otherwise |
| TraceRetry.QueryBudget | watchdogClientV2.js:187-196 | at least one query is always made |
| TraceRetry.FirstUsable | watchdogClientV2.js:186-200 | the reference answer is absent iff no query in the budget was usable, and usable when present |
| TraceRetry.TryGetTraceIdWithRetry | watchdogClientV2.js:186-200 | at most `retries + 1` queries; the result is the first truthy non-sentinel answer, with all earlier answers unusable, or `null` after the whole budget; it equals the reference |
| TraceRetry.StoredTraceId | watchdogClientV2.js:223-229 | the callback stores the resolved id, or the sentinel for `null` |
| Checkpoint.LifecycleRecord | watchdogClientV2.js:233-269 | both records carry the given `tabId` and visibility state, the captured session start and `now` as update time, `reviewed: false`, `cleanClose` and `unloadFired` both `false` for the visibility record and both `true` for the unload record, and minutes that agree with the scanner's computation; they are scan candidates iff written by the visibility handler |
| Checkpoint.HandleVisibilityChange | watchdogClientV2.js:233-248 | the tab's checkpoint becomes a record the next scan takes up; only that key and the identity key can change |
| Checkpoint.HandleBeforeUnload | watchdogClientV2.js:253-268 | the tab's checkpoint becomes a clean-close record (`cleanClose` and `unloadFired` true) no scan takes up; only that key and the identity key can change |
| Checkpoint.TraceRecord | watchdogClientV2.js:53 | the trace record is an object holding the given `trace_id` and the storing time; `Checkpoint.TraceRecordEnriches` shows how the scan reads it back |
| Checkpoint.StoreTabContext | watchdogClientV2.js:45-48 | the context lands under `watchdog_tab_<id>`; only that key, and the identity key when it had to be regenerated, change |
| Checkpoint.StoreTraceId | watchdogClientV2.js:51-54 | the trace record lands under `watchdog_trace_<id>`; no other key but the identity key changes |
| Checkpoint.TraceRecordEnriches | watchdogClientV2.js:53 | a stored trace record makes the scanner report its id when truthy, the sentinel otherwise |
| Checkpoint.UnloadRecordIgnored | watchdogClientV2.js:253-267 | a clean-close checkpoint is never reported and never changed by a scan |
| Checkpoint.HiddenRecordWaitsOrGoes | watchdogClientV2.js:233-247 | a hidden visibility checkpoint is never reported and is deleted iff written more than ten minutes before the scan |
| Checkpoint.VisibleRecordReported | watchdogClientV2.js:233-247 | a visible visibility checkpoint is reported: fresh iff written at session start, recent iff under 30 minutes later, other beyond |
| Checkpoint.UnloadIdempotent | watchdogClientV2.js:253-269 | a second unload write with the same inputs leaves the store as the first left it |
| Watchdog.ScanIfConfigured | watchdogClientV2.js:215-219 | without a DSN no scan happens |
| Watchdog.InitWatchdog | watchdogClientV2.js:203-276 | without the SDK nothing changes; without a DSN nothing is sent; otherwise the store ends with the identity, the trace record of the retry's result and the first visibility checkpoint under this tab's keys |
| Watchdog.InitReplacesScannedIdentity | watchdogClientV2.js:218-221 | when the scan sees the `tab_…` identity it deletes it, and this load's tab id is freshly generated |
| Watchdog.InitRequestsFollowReports | watchdogClientV2.js:215-219 | the requests of a load are the scan's reports addressed to the DSN's endpoint, or none for an unparsable DSN |
| Watchdog.VisibleScenario | watchdogClientV2.js:118-174 | a one-record scan of a visible unclean record reports once, with the sentinel trace id, and leaves the record reviewed |
| Watchdog.ScenarioFresh | watchdogClientV2.js:138-143 | scenario: update at session start is fresh and the record is marked reviewed |
| Watchdog.ScenarioRecent | watchdogClientV2.js:144-151 | scenario: 15 minutes in is recent |
| Watchdog.ScenarioOther | watchdogClientV2.js:137 | scenario: 45 minutes in is other |
| Watchdog.ScenarioHidden | watchdogClientV2.js:108-117 | scenario: a hidden record 5 minutes old stays, 20 minutes old is deleted, neither reported |
| Watchdog.ScenarioCleanClose | watchdogClientV2.js:106 | scenario: a clean close is neither reported nor removed |

## Left out

- Network transport: the `fetch` POST and its response handling are fire-and-forget; the model ends at the `Request` (URL and event).
- Wire serialisation: `JSON.stringify`, the envelope and item headers, `sent_at` and the three-line join; the event is a record value.
- The Sentry SDK: `getSentryTraceId`'s capability queries are replaced by an oracle of answers, one per query.
- Timers: `setTimeout` delays between trace queries, and the two-second SDK-availability retry with its process-global counter; a missing SDK is modelled as "nothing happens".
- Clock and randomness: `Date.now` and `Math.random` readings are parameters.
- DOM plumbing: listener registration and removal, `cleanupWatchdogV2`, and all console logging.
- Store enumeration order: the real loop indexes `localStorage.key(i)` while removing entries, which can skip the entry after a removed one; the model folds over a snapshot sequence of keys instead.
- Cross-tab races on the shared store, including another tab deleting this tab's identity between the retry's queries.
- `setItem` quota errors, which the scan's `catch` would also turn into a deletion.
- Numbers are integers: fractional values, `NaN`, `Infinity` and floating-point rounding of very large timestamps are not modelled.
- JsValues.ToNumber: converts strings, and the string forms of arrays, only when they are empty or a plainly signed run of decimal digits; whitespace-padded, fractional, exponent or radix-prefixed text becomes `NaN`, whereas JavaScript converts some of it to a number.
- JsValues.ToStr: renders numbers in plain decimal, without JavaScript's exponent form for magnitudes of 1e21 and above.
- Watchdog.InitWatchdog: the DSN is modelled as a string. A truthy non-string DSN makes `dsn.match` (watchdogClientV2.js:59, reached from the scan's `try` at :174) throw, so each visible candidate would be marked reviewed and then deleted with no report; the model does not cover that case, and `Dsn.Dispatch` is applied to the reports after the scan rather than inside its `try`.
- TabIdentity.GetTabId: an identity entry holding valid JSON text (which the script itself never writes) is treated as absent and replaced, whereas the script would return that text, because the model does not keep a document's text.
- The `sessionId: {}` field and `document.visibilityState` are carried as given; the writers' stored minute count uses the captured session start.
