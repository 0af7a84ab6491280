/**
 * The reporter's connection-string handling: the DSN pattern
 * `^https?://([^@]+)@([^/]+)/(\d+)` read character by character, and the
 * envelope endpoint built from its parts.
 */
module Dsn {
  import opened Wrappers
  import opened JsValues
  import opened Storage
  import opened Classifier
  import opened Scanner

  datatype DsnParts = DsnParts(publicKey: string, host: string, projectId: string)

  /** `s` contains no `c`. */
  predicate Free(s: string, c: char) {
    forall j :: 0 <= j < |s| ==> s[j] != c
  }

  /** Position of the first `c` in `s`, or `|s|` when there is none. */
  function IndexOf(s: string, c: char): (i: nat)
    ensures i <= |s|
    ensures i < |s| ==> s[i] == c
    ensures Free(s[..i], c)
    decreases |s|
  {
    if s == [] then 0
    else if s[0] == c then 0
    else 1 + IndexOf(s[1..], c)
  }

  /** Length of the longest run of ASCII digits at the start of `s` (`\d+` is greedy). */
  function DigitRun(s: string): (n: nat)
    ensures n <= |s|
    ensures AllDigits(s[..n])
    ensures n < |s| ==> !IsDigit(s[n])
    decreases |s|
  {
    if s == [] || !IsDigit(s[0]) then 0
    else 1 + DigitRun(s[1..])
  }

  /** What follows `https://` or `http://`; `s?` is greedy, but the two schemes
      never both match. */
  function AfterScheme(s: string): Option<string> {
    if StartsWith(s, "https://") then Some(s[8..])
    else if StartsWith(s, "http://") then Some(s[7..])
    else None
  }

  /** The match, if any: the key runs to the first `@`, the host to the next `/`,
      the project id is the longest digit run after it; the pattern has no end
      anchor, so anything after the digits is ignored. */
  function ParseDsn(dsn: string): (r: Option<DsnParts>)
    ensures r.Some? ==> r.value.publicKey != [] && r.value.host != [] && r.value.projectId != []
    ensures r.Some? ==> AllDigits(r.value.projectId)
  {
    match AfterScheme(dsn)
    case None => None
    case Some(rest) =>
      match ReadGroups(rest)
      case None => None
      case Some(m) => Some(m.parts)
  }

  /** The three groups and the ignored remainder. */
  datatype GroupMatch = GroupMatch(parts: DsnParts, trailing: string)

  /** The three groups, read from the text after the scheme. */
  function ReadGroups(rest: string): (r: Option<GroupMatch>)
    ensures r.Some? ==> r.value.parts.publicKey != [] && r.value.parts.host != [] && r.value.parts.projectId != []
    ensures r.Some? ==> AllDigits(r.value.parts.projectId)
  {
    var at := IndexOf(rest, '@');
    if at == 0 || at == |rest| then None
    else
      var afterAt := rest[at + 1..];
      var slash := IndexOf(afterAt, '/');
      if slash == 0 || slash == |afterAt| then None
      else
        var tail := afterAt[slash + 1..];
        var digits := DigitRun(tail);
        if digits == 0 then None
        else Some(GroupMatch(DsnParts(rest[..at], afterAt[..slash], tail[..digits]), tail[digits..]))
  }

  /** The pattern's meaning after the scheme: a non-empty key without `@`, `@`,
      a non-empty host without `/`, `/`, a non-empty digit run that is not
      followed by a digit, and arbitrary trailing text. */
  predicate PartsMatch(rest: string, d: DsnParts, trailing: string) {
    && rest == d.publicKey + ("@" + (d.host + ("/" + (d.projectId + trailing))))
    && d.publicKey != [] && Free(d.publicKey, '@')
    && d.host != [] && Free(d.host, '/')
    && d.projectId != [] && AllDigits(d.projectId)
    && (trailing == [] || !IsDigit(trailing[0]))
  }

  /** The whole pattern: `http://` or `https://`, then the parts. */
  predicate Decomposes(dsn: string, scheme: string, d: DsnParts, trailing: string) {
    && (scheme == "http" || scheme == "https")
    && StartsWith(dsn, scheme + "://")
    && PartsMatch(dsn[|scheme| + 3..], d, trailing)
  }

  /** A sequence is its prefix, the element at the cut, and its suffix. */
  lemma SplitAt<T>(s: seq<T>, i: nat)
    requires i < |s|
    ensures s == s[..i] + ([s[i]] + s[i + 1..])
  {
  }

  /** `IndexOf` finds a position holding `c` with no `c` before it. */
  lemma {:induction false} IndexOfFirst(s: string, c: char, i: nat)
    requires i < |s| && s[i] == c
    requires Free(s[..i], c)
    ensures IndexOf(s, c) == i
    decreases i
  {
    if i > 0 {
      assert s[1..][..i - 1] == s[..i][1..];
      IndexOfFirst(s[1..], c, i - 1);
    }
  }

  /** Splitting at the first occurrence of a character. */
  lemma SplitAtFirst(s: string, prefix: string, c: char, suffix: string)
    requires Free(prefix, c)
    requires s == prefix + ([c] + suffix)
    ensures IndexOf(s, c) == |prefix|
    ensures s[..|prefix|] == prefix && s[|prefix| + 1..] == suffix
  {
    assert s[..|prefix|] == prefix;
    IndexOfFirst(s, c, |prefix|);
  }

  /** The digit run of a digit string followed by a non-digit is that string. */
  lemma {:induction false} DigitRunOf(digits: string, trailing: string)
    requires AllDigits(digits)
    requires trailing == [] || !IsDigit(trailing[0])
    ensures DigitRun(digits + trailing) == |digits|
    decreases |digits|
  {
    if digits != [] {
      assert (digits + trailing)[1..] == digits[1..] + trailing;
      DigitRunOf(digits[1..], trailing);
    }
  }

  /** Every match of the parts is the one the group reader returns. */
  lemma PartsParse(rest: string, d: DsnParts, trailing: string)
    requires PartsMatch(rest, d, trailing)
    ensures ReadGroups(rest) == Some(GroupMatch(d, trailing))
  {
    var tail := d.projectId + trailing;
    var afterAt := d.host + ("/" + tail);
    SplitAtFirst(rest, d.publicKey, '@', afterAt);
    SplitAtFirst(afterAt, d.host, '/', tail);
    DigitRunOf(d.projectId, trailing);
    assert tail[..|d.projectId|] == d.projectId;
    assert tail[|d.projectId|..] == trailing;
    ReadGroupsAt(rest, |d.publicKey|, |d.host|, |d.projectId|);
  }

  /** The reader's result once the three cut points are known. */
  lemma ReadGroupsAt(rest: string, at: nat, slash: nat, digits: nat)
    requires IndexOf(rest, '@') == at && 0 < at < |rest|
    requires IndexOf(rest[at + 1..], '/') == slash && 0 < slash < |rest[at + 1..]|
    requires DigitRun(rest[at + 1..][slash + 1..]) == digits && digits > 0
    ensures var afterAt := rest[at + 1..];
            var tail := afterAt[slash + 1..];
            ReadGroups(rest) == Some(GroupMatch(DsnParts(rest[..at], afterAt[..slash], tail[..digits]), tail[digits..]))
  {
  }

  /** A successful group read is a match of the parts. */
  lemma PartsSound(rest: string)
    requires ReadGroups(rest).Some?
    ensures PartsMatch(rest, ReadGroups(rest).value.parts, ReadGroups(rest).value.trailing)
  {
    var at := IndexOf(rest, '@');
    var afterAt := rest[at + 1..];
    var slash := IndexOf(afterAt, '/');
    var tail := afterAt[slash + 1..];
    var digits := DigitRun(tail);
    assert ReadGroups(rest).value == GroupMatch(DsnParts(rest[..at], afterAt[..slash], tail[..digits]), tail[digits..]);
    GroupsMatch(rest, at, afterAt, slash, tail, digits);
  }

  /** The three groups found by the reader, reassembled. */
  lemma GroupsMatch(rest: string, at: nat, afterAt: string, slash: nat, tail: string, digits: nat)
    requires at < |rest| && rest[at] == '@' && afterAt == rest[at + 1..]
    requires slash < |afterAt| && afterAt[slash] == '/' && tail == afterAt[slash + 1..]
    requires digits <= |tail|
    ensures rest == rest[..at] + ("@" + (afterAt[..slash] + ("/" + (tail[..digits] + tail[digits..]))))
  {
    SplitAt(rest, at);
    SplitAt(afterAt, slash);
    assert tail == tail[..digits] + tail[digits..];
  }

  /** Which scheme a DSN starts with decides what the parts are read from. */
  lemma SchemeOf(dsn: string, scheme: string)
    requires scheme == "http" || scheme == "https"
    requires StartsWith(dsn, scheme + "://")
    ensures AfterScheme(dsn) == Some(dsn[|scheme| + 3..])
  {
    if scheme == "http" {
      assert dsn[4] == ':';
    }
  }

  /** Soundness: a successful parse is a decomposition of the input. */
  lemma ParseDsnSound(dsn: string)
    requires ParseDsn(dsn).Some?
    ensures exists scheme, trailing :: Decomposes(dsn, scheme, ParseDsn(dsn).value, trailing)
  {
    var scheme := if StartsWith(dsn, "https://") then "https" else "http";
    SchemeOf(dsn, scheme);
    var rest := dsn[|scheme| + 3..];
    PartsSound(rest);
    assert Decomposes(dsn, scheme, ParseDsn(dsn).value, ReadGroups(rest).value.trailing);
  }

  /** Completeness and uniqueness: every decomposition of the input is the one
      the parser returns. */
  lemma ParseDsnComplete(dsn: string, scheme: string, d: DsnParts, trailing: string)
    requires Decomposes(dsn, scheme, d, trailing)
    ensures ParseDsn(dsn) == Some(d)
  {
    SchemeOf(dsn, scheme);
    PartsParse(dsn[|scheme| + 3..], d, trailing);
  }

  /** The parse fails exactly when no decomposition exists. */
  lemma ParseDsnFailsIffNoMatch(dsn: string)
    ensures ParseDsn(dsn).None? <==> forall scheme, d, trailing :: !Decomposes(dsn, scheme, d, trailing)
  {
    if ParseDsn(dsn).Some? {
      ParseDsnSound(dsn);
    } else {
      forall scheme, d, trailing ensures !Decomposes(dsn, scheme, d, trailing) {
        if Decomposes(dsn, scheme, d, trailing) {
          ParseDsnComplete(dsn, scheme, d, trailing);
        }
      }
    }
  }

  /** Canonical DSN text for given parts and scheme. */
  function DsnText(scheme: string, d: DsnParts): string {
    scheme + "://" + d.publicKey + "@" + d.host + "/" + d.projectId
  }

  /** Round trip: the canonical DSN built from well-formed parts parses back to
      them, for either scheme. */
  lemma ParseCanonicalDsn(scheme: string, d: DsnParts)
    requires scheme == "http" || scheme == "https"
    requires d.publicKey != [] && Free(d.publicKey, '@')
    requires d.host != [] && Free(d.host, '/')
    requires d.projectId != [] && AllDigits(d.projectId)
    ensures ParseDsn(DsnText(scheme, d)) == Some(d)
  {
    var dsn := DsnText(scheme, d);
    var rest := d.publicKey + ("@" + (d.host + ("/" + (d.projectId + []))));
    assert dsn == (scheme + "://") + rest;
    assert dsn[|scheme| + 3..] == rest;
    assert PartsMatch(rest, d, []);
    ParseDsnComplete(dsn, scheme, d, []);
  }

  /** `https://{host}/api/{projectId}/envelope/`, whatever the DSN's scheme. */
  function EnvelopeUrl(d: DsnParts): (url: string)
    ensures StartsWith(url, "https://")
  {
    "https://" + d.host + "/api/" + d.projectId + "/envelope/"
  }

  /** A POST the reporter issues: the endpoint and the event it carries. */
  datatype Request = Request(url: string, event: Event)

  /** `sendDirectToSentryEnvelope`: an unparsable DSN aborts the send. */
  function Send(event: Event, dsn: string): (r: Option<Request>)
    ensures r.Some? <==> ParseDsn(dsn).Some?
    ensures r.Some? ==> r.value.event == event && r.value.url == EnvelopeUrl(ParseDsn(dsn).value)
  {
    match ParseDsn(dsn)
    case None => None
    case Some(d) => Some(Request(EnvelopeUrl(d), event))
  }

  /** A plain-http DSN still sends to the https endpoint. */
  lemma HttpDsnSendsOverHttps(event: Event, d: DsnParts)
    requires d.publicKey != [] && Free(d.publicKey, '@')
    requires d.host != [] && Free(d.host, '/')
    requires d.projectId != [] && AllDigits(d.projectId)
    ensures Send(event, DsnText("http", d))
         == Some(Request("https://" + d.host + "/api/" + d.projectId + "/envelope/", event))
  {
    ParseCanonicalDsn("http", d);
  }

  /** The requests a scan's reports turn into: one per report, in order, when
      the DSN parses, and none otherwise. */
  function Dispatch(reports: seq<Report>, dsn: string): (rs: seq<Request>)
    ensures ParseDsn(dsn).None? ==> rs == []
    ensures ParseDsn(dsn).Some? ==> |rs| == |reports|
    ensures ParseDsn(dsn).Some? ==>
      forall i :: 0 <= i < |rs| ==> rs[i] == Request(EnvelopeUrl(ParseDsn(dsn).value), reports[i].event)
    decreases |reports|
  {
    if reports == [] then []
    else
      match Send(reports[0].event, dsn)
      case None => []
      case Some(req) => [req] + Dispatch(reports[1..], dsn)
  }
}
