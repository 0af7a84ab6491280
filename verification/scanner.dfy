/**
 * The crash scanner: one pass over the stored checkpoints that deletes corrupt
 * and abandoned entries, defers young hidden ones, and marks every other
 * unclean entry reviewed while emitting exactly one event for it.
 */
module Scanner {
  import opened Wrappers
  import opened JsValues
  import opened Storage
  import opened Classifier

  /** Grace window for hidden tabs: ten minutes. */
  const HiddenGraceMs: int := 10 * 60000

  /** `data && !data.reviewed && data.cleanClose === false`: an object whose
      `cleanClose` is exactly `false` and whose `reviewed` is falsy. */
  predicate IsCandidate(data: JValue): (b: bool)
    ensures b <==> data.JObj? && Prop(data, "cleanClose") == JBool(false) && !Truthy(Prop(data, "reviewed"))
  {
    Truthy(data) && !Truthy(Prop(data, "reviewed")) && StrictEq(Prop(data, "cleanClose"), JBool(false))
  }

  predicate IsHidden(data: JValue) {
    StrictEq(Prop(data, "lastVisibilityState"), JStr("hidden"))
  }

  /** Whether the hidden-entry branch removes the entry: the age
      `(now - data.lastVisibilityUpdate) / 60000` exceeds ten minutes, or
      computing it throws and the scan's `catch` removes the entry. A `NaN` age
      never exceeds the window, so such an entry stays. */
  predicate HiddenRemoved(data: JValue, now: int): (b: bool)
    ensures ConversionThrows(Prop(data, "lastVisibilityUpdate")) ==> b
    ensures Prop(data, "lastVisibilityUpdate").JNum? ==>
              (b <==> now - Prop(data, "lastVisibilityUpdate").n > HiddenGraceMs)
    ensures Prop(data, "lastVisibilityUpdate").JUndef? ==> !b
  {
    match ToNumber(Prop(data, "lastVisibilityUpdate"))
    case TypeError => true
    case Normal(Some(t)) => now - t > HiddenGraceMs
    case Normal(None) => false
  }

  /** `data.reviewed = true` on the parsed object. */
  function MarkReviewed(data: JValue): (r: JValue)
    requires data.JObj?
    ensures r.JObj? && r.fields.Keys == data.fields.Keys + {"reviewed"}
    ensures Prop(r, "reviewed") == JBool(true)
    ensures forall f :: f != "reviewed" ==> Prop(r, f) == Prop(data, f)
  {
    JObj(data.fields["reviewed" := JBool(true)])
  }

  /** The key of the trace record the scanner consults,
      `watchdog_trace_${data.tabId}`; building it throws when `tabId` cannot be
      converted to a string. It is never a checkpoint key. */
  function TraceKeyFor(data: JValue): (r: Completion<string>)
    ensures r.TypeError? <==> ConversionThrows(Prop(data, "tabId"))
    ensures Prop(data, "tabId").JStr? ==> r == Normal(TraceKey(Prop(data, "tabId").s))
    ensures r.Normal? ==> !IsTabKey(r.value)
  {
    match ToStr(Prop(data, "tabId"))
    case TypeError => TypeError
    case Normal(id) =>
      TraceKeyIsNotTabKey(id);
      Normal(TraceKey(id))
  }

  datatype TraceRead = TraceCorrupt | TraceData(value: JValue)

  /** `traceData`: `null` unless the stored text is truthy, in which case it is
      parsed, and a parse failure escapes to the scanner's catch. */
  function ReadTrace(store: Store, key: string): (r: TraceRead)
    ensures key !in store ==> r == TraceData(JNull)
    ensures r.TraceCorrupt? <==> key in store && store[key].Raw? && store[key].text != ""
  {
    match Get(store, key)
    case None => TraceData(JNull)
    case Some(Raw(t)) => if t == "" then TraceData(JNull) else TraceCorrupt
    case Some(Doc(v)) => TraceData(v)
  }

  datatype Review = Review(store: Store, report: Option<Event>)

  /** One iteration of the scan loop, for the entry under `key`. */
  function ReviewEntry(store: Store, key: string, now: int): (r: Review)
    ensures forall j :: j != key ==> Get(r.store, j) == Get(store, j)
    ensures !IsTabKey(key) ==> r == Review(store, None)
    ensures r.report.Some? ==>
      && key in store && store[key].Doc? && store[key].doc.JObj?
      && IsCandidate(store[key].doc) && !IsHidden(store[key].doc)
      && r.store == store[key := Doc(MarkReviewed(store[key].doc))]
      && r.report.value.watchdog == MarkReviewed(store[key].doc)
  {
    if !IsTabKey(key) then Review(store, None)
    else
      match ParseItem(store, key)
      case Unparsable => Review(store - {key}, None)
      case Parsed(data) =>
        if !IsCandidate(data) then Review(store, None)
        else if IsHidden(data) then
          if HiddenRemoved(data, now) then Review(store - {key}, None) else Review(store, None)
        else
          var marked := MarkReviewed(data);
          var written := store[key := Doc(marked)];
          match TraceKeyFor(marked)
          case TypeError => Review(written - {key}, None)
          case Normal(traceKey) =>
            match ReadTrace(written, traceKey)
            case TraceCorrupt => Review(written - {key}, None)
            case TraceData(traceData) => Review(written, Some(BuildEvent(marked, traceData, now)))
  }

  /** An event together with the key of the checkpoint it reports. */
  datatype Report = Report(key: string, event: Event)

  datatype ScanResult = ScanResult(store: Store, reports: seq<Report>)

  /** The scan as a left fold of `ReviewEntry` over a snapshot of the keys, each
      step seeing the store the previous steps left. */
  function Scan(store: Store, keys: seq<string>, now: int): (r: ScanResult)
    ensures r.store.Keys <= store.Keys
    ensures forall i :: 0 <= i < |r.reports| ==> r.reports[i].key in keys
    decreases |keys|
  {
    if keys == [] then ScanResult(store, [])
    else
      var step := ReviewEntry(store, keys[0], now);
      var rest := Scan(step.store, keys[1..], now);
      var head := if step.report.Some? then [Report(keys[0], step.report.value)] else [];
      ScanResult(rest.store, head + rest.reports)
  }

  // ---------------------------------------------------------------------------
  // Single-entry behaviour

  /** Entries that are not candidates — `null` or missing, already reviewed,
      `cleanClose` anything but `false` — are left as they are, unreported. */
  lemma SkippedEntriesUntouched(store: Store, key: string, now: int)
    requires key in store && store[key].Doc? && !IsCandidate(store[key].doc)
    ensures ReviewEntry(store, key, now) == Review(store, None)
  {
  }

  /** A hidden, unreviewed, unclean entry is never reported; it is deleted exactly
      when its age is strictly more than ten minutes, and otherwise untouched. */
  lemma HiddenGraceWindow(store: Store, key: string, now: int)
    requires IsTabKey(key) && key in store && store[key].Doc?
    requires IsCandidate(store[key].doc) && IsHidden(store[key].doc)
    ensures var r := ReviewEntry(store, key, now);
            && r.report == None
            && (key !in r.store <==> HiddenRemoved(store[key].doc, now))
            && (key in r.store ==> r.store == store)
  {
  }

  /** For a numeric timestamp, whether stored as a number, as its decimal text or
      as a one-element array, the grace window reads
      `now - lastVisibilityUpdate > 10 min`. */
  lemma HiddenGraceWindowNumeric(store: Store, key: string, now: int, lastUpdate: int)
    requires IsTabKey(key) && key in store && store[key].Doc?
    requires IsCandidate(store[key].doc) && IsHidden(store[key].doc)
    requires Prop(store[key].doc, "lastVisibilityUpdate")
             in [JNum(lastUpdate), JStr(IntToDecimal(lastUpdate)), JArr([JNum(lastUpdate)])]
    ensures ReviewEntry(store, key, now).report == None
    ensures key !in ReviewEntry(store, key, now).store <==> now - lastUpdate > 10 * 60000
  {
    RenderedNumberToNumber(lastUpdate);
  }

  /** A hidden entry whose timestamp cannot be converted to a number is removed
      by the scan's `catch`; one without a timestamp is kept forever. */
  lemma HiddenUnconvertibleTimestamp(store: Store, key: string, now: int)
    requires IsTabKey(key) && key in store && store[key].Doc?
    requires IsCandidate(store[key].doc) && IsHidden(store[key].doc)
    ensures ConversionThrows(Prop(store[key].doc, "lastVisibilityUpdate")) ==>
              ReviewEntry(store, key, now) == Review(store - {key}, None)
    ensures Prop(store[key].doc, "lastVisibilityUpdate").JUndef? ==>
              ReviewEntry(store, key, now) == Review(store, None)
  {
  }

  /** A corrupt entry under a checkpoint-prefixed key is deleted, unreported. */
  lemma ParseFailureDeleted(store: Store, key: string, now: int)
    requires IsTabKey(key) && key in store && store[key].Raw?
    ensures ReviewEntry(store, key, now) == Review(store - {key}, None)
  {
  }

  /** A visible (non-hidden) candidate is rewritten with `reviewed = true`; then
      it is reported once, classified from its own fields, unless its `tabId`
      cannot be converted to a string or its trace record is corrupt, in which
      case the rewritten entry is deleted instead. */
  lemma CandidateReviewed(store: Store, key: string, now: int)
    requires IsTabKey(key) && key in store && store[key].Doc?
    requires IsCandidate(store[key].doc) && !IsHidden(store[key].doc)
    ensures var data := store[key].doc;
            var r := ReviewEntry(store, key, now);
            data.JObj? &&
            var marked := MarkReviewed(data);
            match TraceKeyFor(data)
            case TypeError =>
              r == Review(store - {key}, None)
            case Normal(traceKey) =>
              match ReadTrace(store, traceKey)
              case TraceCorrupt =>
                r == Review(store - {key}, None)
              case TraceData(t) =>
                && r.store == store[key := Doc(marked)]
                && r.report == Some(BuildEvent(marked, t, now))
                && r.report.value.tags.crashType == ClassifyRecord(data)
  {
    var data := store[key].doc;
    var marked := MarkReviewed(data);
    assert TraceKeyFor(marked) == TraceKeyFor(data);
    if TraceKeyFor(data).Normal? {
      var traceKey := TraceKeyFor(data).value;
      assert Get(store[key := Doc(marked)], traceKey) == Get(store, traceKey);
    }
  }

  // ---------------------------------------------------------------------------
  // Frame and settling lemmas for the fold

  /** Two stores that agree on a key and on every non-checkpoint key give the same
      review of that key. */
  lemma {:induction false} ReviewLocal(s1: Store, s2: Store, key: string, now: int)
    requires Get(s1, key) == Get(s2, key)
    requires forall j :: !IsTabKey(j) ==> Get(s1, j) == Get(s2, j)
    ensures ReviewEntry(s1, key, now).report == ReviewEntry(s2, key, now).report
    ensures Get(ReviewEntry(s1, key, now).store, key) == Get(ReviewEntry(s2, key, now).store, key)
  {
    if IsTabKey(key) && key in s1 && s1[key].Doc? && IsCandidate(s1[key].doc) && !IsHidden(s1[key].doc) {
      var marked := MarkReviewed(s1[key].doc);
      if TraceKeyFor(marked).Normal? {
        var tk := TraceKeyFor(marked).value;
        assert Get(s1[key := Doc(marked)], tk) == Get(s1, tk);
        assert Get(s2[key := Doc(marked)], tk) == Get(s2, tk);
      }
    }
  }

  /** After a review the entry is settled: reviewing it again, at any clock,
      reports nothing; reviewing it again at the same clock changes nothing. */
  lemma ReviewSettles(store: Store, key: string, now: int, later: int)
    ensures var once := ReviewEntry(store, key, now).store;
            && ReviewEntry(once, key, later).report == None
            && Get(ReviewEntry(once, key, now).store, key) == Get(once, key)
  {
  }

  /** Reviewing a key changes no non-checkpoint key. */
  lemma ReviewKeepsOtherKeys(store: Store, key: string, now: int)
    ensures forall j :: !IsTabKey(j) ==> Get(ReviewEntry(store, key, now).store, j) == Get(store, j)
  {
  }

  // ---------------------------------------------------------------------------
  // Whole-scan properties

  /** The fold acts on each key independently: the final entry under every
      scanned key is what a single review of that key on the original store
      leaves, every other entry is unchanged, the reports are exactly the
      single-review reports of the scanned keys, and no key is reported twice. */
  lemma {:induction false} ScanActsPerKey(store: Store, keys: seq<string>, now: int)
    ensures var r := Scan(store, keys, now);
            && (forall k :: Get(r.store, k) == (if k in keys then Get(ReviewEntry(store, k, now).store, k) else Get(store, k)))
            && (forall rep :: rep in r.reports <==> rep.key in keys && ReviewEntry(store, rep.key, now).report == Some(rep.event))
            && (forall i, j :: 0 <= i < j < |r.reports| ==> r.reports[i].key != r.reports[j].key)
    decreases |keys|
  {
    if keys != [] {
      var k0 := keys[0];
      var step := ReviewEntry(store, k0, now);
      var s1 := step.store;
      var rest := Scan(s1, keys[1..], now);
      var head := if step.report.Some? then [Report(k0, step.report.value)] else [];
      var r := Scan(store, keys, now);
      assert r == ScanResult(rest.store, head + rest.reports);
      ScanActsPerKey(s1, keys[1..], now);
      ReviewKeepsOtherKeys(store, k0, now);
      ReviewSettles(store, k0, now, now);
      forall k
        ensures Get(r.store, k) == (if k in keys then Get(ReviewEntry(store, k, now).store, k) else Get(store, k))
      {
        if k == k0 {
        } else if k in keys[1..] {
          ReviewLocal(s1, store, k, now);
        } else {
          assert k !in keys;
        }
      }
      forall rep
        ensures rep in r.reports <==> rep.key in keys && ReviewEntry(store, rep.key, now).report == Some(rep.event)
      {
        if rep.key != k0 {
          ReviewLocal(s1, store, rep.key, now);
        }
      }
      forall i, j | 0 <= i < j < |r.reports|
        ensures r.reports[i].key != r.reports[j].key
      {
        if i == 0 && head != [] {
          assert r.reports[j] in rest.reports;
        }
      }
    }
  }

  /** A scan of a one-key snapshot is a single review of that key. */
  lemma ScanOfOneKey(store: Store, key: string, now: int)
    ensures var step := ReviewEntry(store, key, now);
            Scan(store, [key], now)
            == ScanResult(step.store, if step.report.Some? then [Report(key, step.report.value)] else [])
  {
    assert [key][1..] == [];
  }

  /** Keys outside the snapshot, and keys without the checkpoint prefix (trace
      records included), come out of a scan unchanged. */
  lemma ScanLeavesOtherKeys(store: Store, keys: seq<string>, now: int, k: string)
    requires k !in keys || !IsTabKey(k)
    ensures Get(Scan(store, keys, now).store, k) == Get(store, k)
  {
    ScanActsPerKey(store, keys, now);
  }

  /** Every reported checkpoint ends the scan rewritten as the same record with
      `reviewed = true`, and that record is what the event carries. */
  lemma ReportedEntriesMarkedReviewed(store: Store, keys: seq<string>, now: int, rep: Report)
    requires rep in Scan(store, keys, now).reports
    ensures rep.key in store && store[rep.key].Doc? && store[rep.key].doc.JObj?
    ensures IsCandidate(store[rep.key].doc) && !IsHidden(store[rep.key].doc)
    ensures rep.event.watchdog == MarkReviewed(store[rep.key].doc)
    ensures Get(Scan(store, keys, now).store, rep.key) == Some(Doc(rep.event.watchdog))
  {
    ScanActsPerKey(store, keys, now);
  }

  /** Exactly-once: scanning the resulting store again over any of the keys
      already scanned, at any later clock, emits no report. */
  lemma SecondScanReportsNothing(store: Store, keys: seq<string>, now: int, keys2: seq<string>, later: int)
    requires forall k :: k in keys2 ==> k in keys
    ensures Scan(Scan(store, keys, now).store, keys2, later).reports == []
  {
    var first := Scan(store, keys, now);
    var second := Scan(first.store, keys2, later);
    ScanActsPerKey(store, keys, now);
    ScanActsPerKey(first.store, keys2, later);
    if second.reports != [] {
      var rep := second.reports[0];
      assert rep in second.reports;
      var k := rep.key;
      var once := ReviewEntry(store, k, now).store;
      ReviewKeepsOtherKeys(store, k, now);
      forall j | !IsTabKey(j)
        ensures Get(first.store, j) == Get(once, j)
      {
      }
      ReviewLocal(first.store, once, k, later);
      ReviewSettles(store, k, now, later);
      assert false;
    }
  }

  /** A corrupt checkpoint-prefixed entry in the snapshot is gone after the scan
      and never reported — the identity key `watchdog_tab_id`, whose `tab_…`
      value is not JSON, included. */
  lemma ScanDeletesUnparsable(store: Store, keys: seq<string>, now: int, k: string)
    requires k in keys && IsTabKey(k) && k in store && store[k].Raw?
    ensures k !in Scan(store, keys, now).store
    ensures forall rep :: rep in Scan(store, keys, now).reports ==> rep.key != k
  {
    ScanActsPerKey(store, keys, now);
    assert Get(Scan(store, keys, now).store, k) == None;
  }
}
