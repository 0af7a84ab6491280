/**
 * The origin-wide `localStorage` namespace the watchdog shares between tabs,
 * its key scheme, and how the script reads an entry back through `JSON.parse`.
 */
module Storage {
  import opened Wrappers
  import opened JsValues

  /** A stored string. `Raw` holds text that `JSON.parse` rejects (the tab
      identity `tab_…`, or a corrupted record); `Doc` holds the serialisation of
      a JSON document, represented by the document itself. */
  datatype Slot = Raw(text: string) | Doc(doc: JValue)

  type Store = map<string, Slot>

  /** Prefix shared by every checkpoint key, and by the identity key. */
  const TabPrefix: string := "watchdog_tab_"
  /** Prefix of the per-tab trace-link records. */
  const TracePrefix: string := "watchdog_trace_"
  /** The well-known key holding this browser's tab identity. */
  const IdentityKey: string := "watchdog_tab_id"
  /** The sentinel trace id meaning "unresolved". */
  const NoTraceId: string := "no_trace_id_found"

  predicate StartsWith(s: string, prefix: string) {
    |prefix| <= |s| && s[..|prefix|] == prefix
  }

  /** The keys the crash scanner looks at. */
  predicate IsTabKey(key: string) {
    StartsWith(key, TabPrefix)
  }

  function CheckpointKey(tabId: string): (k: string)
    ensures IsTabKey(k)
  {
    TabPrefix + tabId
  }

  function TraceKey(tabId: string): string {
    TracePrefix + tabId
  }

  /** `localStorage.getItem(key)`, with `None` for `null`. */
  function Get(store: Store, key: string): (r: Option<Slot>)
    ensures r.Some? <==> key in store
    ensures r.Some? ==> store[key] == r.value
  {
    if key in store then Some(store[key]) else None
  }

  /** The outcome of `JSON.parse(localStorage.getItem(key))`. */
  datatype Parsed = Unparsable | Parsed(value: JValue)

  /** A missing key reads as `null`, and `JSON.parse(null)` is `null`. */
  function ParseItem(store: Store, key: string): (r: Parsed)
    ensures key !in store ==> r == Parsed(JNull)
    ensures r.Unparsable? <==> key in store && store[key].Raw?
    ensures key in store && store[key].Doc? ==> r == Parsed(store[key].doc)
  {
    match Get(store, key)
    case None => Parsed(JNull)
    case Some(Raw(_)) => Unparsable
    case Some(Doc(v)) => Parsed(v)
  }

  /** Trace-link keys are never checkpoint keys: the two prefixes part at their
      eleventh character. */
  lemma TraceKeyIsNotTabKey(tabId: string)
    ensures !IsTabKey(TraceKey(tabId))
  {
    var k := TraceKey(tabId);
    assert k[10] == 'r';
    assert TabPrefix[10] == 'a';
  }

  /** The identity key itself carries the checkpoint prefix, so the scanner visits it. */
  lemma IdentityKeyIsTabKey()
    ensures IsTabKey(IdentityKey)
    ensures IdentityKey == CheckpointKey("id")
  {
  }
}
