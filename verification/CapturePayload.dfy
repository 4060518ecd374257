/**
  Accepting a captured landing URL (packages/contracts/src/captureSafety.ts, 23-179, and
  redirectCapture.ts, 9-62) and the reduced payload that is sent on (packages/orchestrator/src/runner.ts,
  84-111). URL parsing and the character classes of the patterns are functions of `web`; only the
  slicing at ? and # is on the characters themselves.
*/
module CapturePayload {
  import opened Prelude

  /** A parsed URL; `document` is its text without the fragment, `search` the text after the first ?. */
  datatype Url = Url(protocol: string, origin: string, host: string, credentials: bool, challengePath: bool,
      search: string, document: string)

  datatype Web = Web(
    url: string -> Option<Url>,
    resolve: (string, string) -> Option<string>,
    fields: string -> seq<(string, string)>,
    parameters: (string, string) -> seq<string>,
    lower: string -> string,
    trim: string -> string,
    challengeKey: string -> bool,
    clickKey: string -> bool,
    publicHost: string -> bool,
    spaced: string -> bool)

  datatype Signal = Signal(main: string, path: Option<string>, visited: Option<string>, guard: Option<string>)

  /** Header names and values in the order of the object's entries. */
  type Headers = seq<(string, string)>

  datatype Event = Event(url: string, verb: string, status: int, timeMs: int, headers: Headers, signal: Option<Signal>,
      body: string)

  datatype PolicyInput = PolicyInput(
    mode: string, issuer: string, destination: string, parameter: string, origins: seq<string>, otherKeys: bool)

  datatype Policy = Policy(issuer: string, destination: string, parameter: string, origins: seq<string>)

  /** What a run reports; the parts that evaluation does not read travel as `session`. */
  datatype RunResult = RunResult(
    finalUrl: Option<string>, verdict: string, challenge: Option<string>, error: string,
    redirectCapture: Option<PolicyInput>, events: seq<Event>, session: string)

  datatype Evidence = DocumentResponse | RedirectLocation | RedirectOnly

  datatype Decision = Accepted(finalUrl: string, suffix: string, evidence: Evidence) | Rejected(code: string)

  // ---------- addresses ----------

  datatype Issue = Invalid | BadProtocol | ChallengePage | ChallengeParameters | EmptyIdentifier(name: string)

  predicate Cloudflare(issue: Option<Issue>) { issue == Some(ChallengePage) || issue == Some(ChallengeParameters) }

  predicate EmptyClick(web: Web, field: (string, string)) { web.clickKey(field.0) && web.trim(field.1) == "" }

  /** The last empty click identifier. */
  function LastEmpty(web: Web, fields: seq<(string, string)>): Option<Issue> {
    if fields == [] then None
    else if EmptyClick(web, fields[|fields| - 1]) then Some(EmptyIdentifier(web.lower(fields[|fields| - 1].0)))
    else LastEmpty(web, fields[..|fields| - 1])
  }

  /** deliverySuffixIssue: a challenge parameter anywhere comes before any empty identifier. */
  function SuffixIssue(web: Web, value: string): Option<Issue> {
    var fields := web.fields(value);
    if exists i :: 0 <= i < |fields| && web.challengeKey(fields[i].0) then Some(ChallengeParameters)
      else LastEmpty(web, fields)
  }

  /** A suffix is deliverable exactly if it has no challenge parameter and no empty click identifier. */
  lemma {:induction false} DeliverableExactly(web: Web, value: string)
    ensures SuffixIssue(web, value).None? <==>
      forall i | 0 <= i < |web.fields(value)| ::
        !web.challengeKey(web.fields(value)[i].0) && !EmptyClick(web, web.fields(value)[i])
  {
    NoneEmpty(web, web.fields(value));
  }

  lemma {:induction false} NoneEmpty(web: Web, fields: seq<(string, string)>)
    ensures LastEmpty(web, fields).None? <==> forall i | 0 <= i < |fields| :: !EmptyClick(web, fields[i])
  {
    if fields != [] {
      NoneEmpty(web, fields[..|fields| - 1]);
      assert fields == fields[..|fields| - 1] + [fields[|fields| - 1]];
    }
  }

  method DeliverySuffixIssue(web: Web, value: string) returns (issue: Option<Issue>)
    ensures issue == SuffixIssue(web, value)
  {
    var fields := web.fields(value);
    var incomplete: Option<Issue> := None;
    for i := 0 to |fields|
      invariant forall k | 0 <= k < i :: !web.challengeKey(fields[k].0)
      invariant incomplete == LastEmpty(web, fields[..i])
    {
      if web.challengeKey(fields[i].0) { return Some(ChallengeParameters); }
      assert fields[..i + 1][..i] == fields[..i];
      if web.clickKey(fields[i].0) && web.trim(fields[i].1) == "" {
        incomplete := Some(EmptyIdentifier(web.lower(fields[i].0)));
      }
    }
    assert fields[..|fields|] == fields;
    issue := incomplete;
  }

  predicate WebProtocol(protocol: string) { protocol == "http:" || protocol == "https:" }

  /** The origin of a web address is the address of its own host. */
  ghost predicate OriginsKeepHosts(web: Web) {
    forall s: string :: web.url(s).Some? && WebProtocol(web.url(s).value.protocol) ==>
      var u := web.url(s).value; web.url(u.origin).Some? ==> web.url(u.origin).value.host == u.host
  }

  function UrlIssue(web: Web, raw: string): Option<Issue> {
    match web.url(raw)
    case None => Some(Invalid)
    case Some(u) =>
      if !WebProtocol(u.protocol) then Some(BadProtocol)
      else if u.challengePath then Some(ChallengePage)
      else SuffixIssue(web, u.search)
  }

  // ---------- responses ----------

  /** The first entry of that name, letter case aside. */
  function Find(web: Web, headers: Headers, name: string): Option<string> {
    if headers == [] then None
    else if web.lower(headers[0].0) == name then Some(headers[0].1)
    else Find(web, headers[1..], name)
  }

  function Header(web: Web, headers: Headers, name: string): string {
    match Find(web, headers, name) case Some(v) => web.trim(v) case None => ""
  }

  predicate Challenged(web: Web, headers: Headers) { web.lower(Header(web, headers, "cf-mitigated")) == "challenge" }

  predicate ChallengeLocation(web: Web, url: string, headers: Headers) {
    var location := Header(web, headers, "location");
    location != "" && var target := web.resolve(location, url); target.Some? && Cloudflare(UrlIssue(web, target.value))
  }

  /** edgeStopForResponse */
  function EdgeStop(web: Web, e: Event): Option<string> {
    var cloudflare := Cloudflare(UrlIssue(web, e.url)) || ChallengeLocation(web, e.url, e.headers)
      || Challenged(web, e.headers);
    if cloudflare then Some("cloudflare_challenge")
    else if e.status == 429 then Some("rate_limited")
    else if e.status == 403 then Some("blocked_response")
    else None
  }

  predicate IsMain(e: Event) { e.signal.Some? && e.signal.value.main == "true" }

  function Documents(events: seq<Event>): (documents: seq<Event>)
    ensures forall e | e in documents :: IsMain(e) && e in events
  {
    if events == [] then []
    else (if IsMain(events[0]) then [events[0]] else []) + Documents(events[1..])
  }

  function FirstStop(web: Web, documents: seq<Event>): Option<string> {
    if documents == [] then None
    else if EdgeStop(web, documents[0]).Some? then EdgeStop(web, documents[0])
    else FirstStop(web, documents[1..])
  }

  // ---------- redirect policy ----------

  predicate Approved(web: Web, origin: string, allowHttp: bool) {
    && |origin| <= 300 && web.url(origin).Some?
    && var u := web.url(origin).value;
    && (u.protocol == "https:" || (allowHttp && u.protocol == "http:"))
    && u.origin == origin && !u.credentials && web.publicHost(u.host)
  }

  function HostOf(web: Web, address: string): string {
    if web.url(address).Some? then web.url(address).value.host else ""
  }

  predicate ValidPolicy(web: Web, p: PolicyInput) {
    && !p.otherKeys && p.mode == "redirect_only" && (p.parameter == "irclickid" || p.parameter == "im_ref")
    && Approved(web, p.issuer, false) && Approved(web, p.destination, false)
    && 1 <= |p.origins| <= 16 && (forall o | o in p.origins :: Approved(web, o, true))
    && (forall o | o in p.origins && HostOf(web, o) == HostOf(web, p.issuer) :: o == p.issuer)
    && (forall i, k | 0 <= i < k < |p.origins| :: p.origins[i] != p.origins[k])
    && p.issuer in p.origins
    && forall o | o in p.origins :: HostOf(web, o) != HostOf(web, p.destination)
  }

  /** parseRedirectCapturePolicy without a seed URL. */
  function ParsePolicy(web: Web, p: PolicyInput): Result<Policy> {
    if ValidPolicy(web, p) then Ok(Policy(p.issuer, p.destination, p.parameter, p.origins))
      else Error("invalid redirect capture policy")
  }

  predicate RedirectStatus(status: int) { status in {301, 302, 303, 307, 308} }

  /** redirectLocationForPolicy */
  function ApprovedLocation(web: Web, p: Policy, e: Event): Option<string> {
    if !RedirectStatus(e.status) || web.url(e.url).None? || web.url(e.url).value.origin != p.issuer then None
    else
      var location := Find(web, e.headers, "location");
      if location.None? || location.value == "" || |location.value| > 32_768 || web.spaced(location.value)
         || !("https://" <= location.value) || web.url(location.value).None? then None
      else
        var target := web.url(location.value).value;
        if target.origin != p.destination || target.credentials then None else location
  }

  predicate FollowsPolicy(web: Web, p: Policy, main: Event, documents: seq<Event>)
    requires IsMain(main)
  {
    && main.signal.value.path == Some("browser-redirect-only") && main.signal.value.visited == Some("false")
    && main.signal.value.guard == Some("origin_allowlist")
    && forall d | d in documents ::
         web.url(d.url).Some? && web.url(d.url).value.origin in p.origins && UrlIssue(web, d.url).None?
  }

  function RedirectDecision(web: Web, input: Option<PolicyInput>, main: Event, documents: seq<Event>, finalUrl: string,
      suffix: string): Decision
    requires IsMain(main)
  {
    if input.None? || ParsePolicy(web, input.value).Error? then Rejected("redirect_policy_mismatch")
    else
      var p := ParsePolicy(web, input.value).value;
      if !FollowsPolicy(web, p, main, documents) then Rejected("redirect_policy_mismatch")
      else if ApprovedLocation(web, p, main) != Some(finalUrl) then Rejected("unverified_destination")
      else
        var ids := web.parameters(finalUrl, p.parameter);
        if |ids| != 1 || web.trim(ids[0]) == "" then Rejected("missing_tracking_identifier")
        else Accepted(finalUrl, suffix, RedirectOnly)
  }

  // ---------- the decision ----------

  function IndexOf(s: string, c: char): (i: int)
    ensures -1 <= i < |s|
    ensures i < 0 <==> c !in s
    ensures 0 <= i ==> s[i] == c && c !in s[..i]
  {
    if s == "" then -1
    else if s[0] == c then 0
    else
      var rest := IndexOf(s[1..], c);
      assert s == [s[0]] + s[1..];
      if rest < 0 then -1 else (assert s[..rest + 1] == [s[0]] + s[1..][..rest]; rest + 1)
  }

  /** The bytes between the first ? and the first #, when the ? comes first. */
  function SuffixOf(finalUrl: string): Option<string> {
    var question, fragment := IndexOf(finalUrl, '?'), IndexOf(finalUrl, '#');
    if question < 0 || (fragment >= 0 && question > fragment) then None
    else
      var suffix := finalUrl[question + 1..if fragment < 0 then |finalUrl| else fragment];
      if suffix == "" then None else Some(suffix)
  }

  /** The address compared between a response and the landing URL. */
  function DocumentUrl(web: Web, raw: string): Option<string> {
    if web.url(raw).Some? then Some(web.url(raw).value.document) else None
  }

  function LocationTarget(web: Web, e: Event): Option<string> {
    var location := Header(web, e.headers, "location");
    if location == "" then None else web.resolve(location, e.url)
  }

  predicate BlockedVerdict(web: Web, verdict: string) {
    web.lower(verdict) in {"block", "blocked", "challenge", "error", "deny", "denied"}
  }

  function DirectDecision(web: Web, main: Event, finalUrl: string, suffix: string): Decision
    requires IsMain(main)
  {
    if 200 <= main.status < 300 && DocumentUrl(web, main.url) == DocumentUrl(web, finalUrl)
    then Accepted(finalUrl, suffix, DocumentResponse)
    else if main.signal.value.path == Some("redirect-first") && RedirectStatus(main.status)
         && UrlIssue(web, main.url).None? && LocationTarget(web, main).Some?
         && DocumentUrl(web, LocationTarget(web, main).value) == DocumentUrl(web, finalUrl)
    then Accepted(finalUrl, suffix, RedirectLocation)
    else Rejected("unverified_destination")
  }

  /** What comes after the landing URL and the verdict are found to be in order. */
  function Verify(web: Web, r: RunResult, given: Option<Option<PolicyInput>>, documents: seq<Event>,
      finalUrl: string): Decision
    requires forall e | e in documents :: IsMain(e)
  {
    match SuffixOf(finalUrl)
    case None => Rejected("missing_suffix")
    case Some(suffix) =>
      if documents == [] then Rejected("unverified_destination")
      else
        var main := documents[|documents| - 1];
        assert main in documents && IsMain(main);
        if main.signal.value.path == Some("browser-redirect-only") || r.redirectCapture.Some?
          || (given.Some? && given.value.Some?)
        then RedirectDecision(web, if given.Some? then given.value
          else r.redirectCapture, main, documents, finalUrl, suffix)
        else DirectDecision(web, main, finalUrl, suffix)
  }

  /** evaluateCaptureResult; `given` is the redirect policy of the options, when options are passed at all. */
  function Evaluate(web: Web, r: RunResult, given: Option<Option<PolicyInput>>): Decision {
    var documents := Documents(r.events);
    var stop := FirstStop(web, documents);
    if stop.Some? then Rejected(stop.value)
    else
      var issue := if r.finalUrl.Some? then UrlIssue(web, r.finalUrl.value) else Some(Invalid);
      if r.error != "" && !Cloudflare(issue) then Rejected("capture_error")
      else if issue.Some? then
        Rejected(if Cloudflare(issue) then "cloudflare_challenge"
          else if issue.value.EmptyIdentifier? then "empty_tracking_identifier" else "invalid_url")
      else if documents != [] && Challenged(web, documents[|documents| - 1].headers)
        then Rejected("cloudflare_challenge")
      else if r.challenge.Some? && r.challenge.value != "" && r.challenge.value != "resolved"
        then Rejected("unresolved_challenge")
      else if BlockedVerdict(web, r.verdict) then Rejected("blocked_response")
      else Verify(web, r, given, documents, r.finalUrl.value)
  }

  // ---------- the reduced payload ----------

  /**
    headers[key.toLowerCase()] = value for the two headers that evaluation reads; a repeated name keeps its last value.
  */
  function Reduced(web: Web, headers: Headers): Headers {
    if headers == [] then []
    else
      var last, before := headers[|headers| - 1], Reduced(web, headers[..|headers| - 1]);
      var name := web.lower(last.0);
      if name == "cf-mitigated" || name == "location" then Put(before, name, last.1) else before
  }

  /** The retained names are in lower case. */
  predicate PlainNames(web: Web) {
    web.lower("location") == "location" && web.lower("cf-mitigated") == "cf-mitigated"
  }

  function Put(headers: Headers, name: string, value: string): Headers {
    if headers == [] then [(name, value)]
    else if headers[0].0 == name then [(name, value)] + headers[1..]
    else [headers[0]] + Put(headers[1..], name, value)
  }

  predicate Kept(web: Web, name: string) { web.lower(name) in {"cf-mitigated", "cf-ray", "retry-after", "location"} }

  function Filtered(web: Web, headers: Headers): Headers {
    if headers == [] then []
    else (if Kept(web, headers[0].0) then [headers[0]] else []) + Filtered(web, headers[1..])
  }

  function OrEmpty(s: Option<string>): Option<string> { if s.Some? then s else Some("") }

  function ReducedEvent(web: Web, e: Event): Event
    requires IsMain(e)
  {
    e.(headers := Reduced(web, e.headers), signal := Some(Signal("true", OrEmpty(e.signal.value.path), None, None)),
      body := "")
  }

  function FilteredEvent(web: Web, e: Event): Event
    requires IsMain(e)
  {
    var s := e.signal.value;
    e.(headers := Filtered(web, e.headers),
      signal := Some(Signal("true", OrEmpty(s.path), OrEmpty(s.visited), OrEmpty(s.guard))), body := "")
  }

  function FilteredEvents(web: Web, documents: seq<Event>): (events: seq<Event>)
    requires forall e | e in documents :: IsMain(e)
  {
    if documents == [] then [] else [FilteredEvent(web, documents[0])] + FilteredEvents(web, documents[1..])
  }

  /** buildCapturePayload */
  function Payload(web: Web, r: RunResult): Result<RunResult> {
    var decision := Evaluate(web, r, None);
    if decision.Rejected? then Error(decision.code)
    else
      var documents := Documents(r.events);
      Ok(r.(finalUrl := Some(decision.finalUrl),
            events := if r.redirectCapture.Some? then FilteredEvents(web, documents)
                      else if documents == [] then [] else [ReducedEvent(web, documents[|documents| - 1])]))
  }

  // ---------- the suffix ----------

  lemma SuffixSlice(finalUrl: string, suffix: string) returns (before: string, after: string)
    requires SuffixOf(finalUrl) == Some(suffix)
    ensures suffix != "" && '#' !in suffix && '?' !in before && '#' !in before && (after == "" || after[0] == '#')
    ensures finalUrl == before + "?" + suffix + after
  {
    var question, fragment := IndexOf(finalUrl, '?'), IndexOf(finalUrl, '#');
    var stop := if fragment < 0 then |finalUrl| else fragment;
    before, after := finalUrl[..question], finalUrl[stop..];
    assert suffix == finalUrl[question + 1..stop];
    assert forall i | 0 <= i < stop :: finalUrl[i] != '#' by {
      if fragment >= 0 { assert forall i | 0 <= i < fragment :: finalUrl[..fragment][i] == finalUrl[i]; }
    }
    assert finalUrl == before + "?" + suffix + after;
  }

  lemma AcceptedIsVerified(web: Web, r: RunResult, given: Option<Option<PolicyInput>>)
    requires Evaluate(web, r, given).Accepted?
    ensures var documents := Documents(r.events);
      && FirstStop(web, documents).None? && r.finalUrl.Some? && UrlIssue(web, r.finalUrl.value).None? && r.error == ""
      && (documents != [] ==> !Challenged(web, documents[|documents| - 1].headers))
      && Evaluate(web, r, given) == Verify(web, r, given, documents, r.finalUrl.value)
  {
    hide FirstStop, UrlIssue, Challenged, BlockedVerdict, Verify;
  }

  lemma VerifiedSuffix(web: Web, r: RunResult, given: Option<Option<PolicyInput>>, documents: seq<Event>,
      finalUrl: string)
    requires forall e | e in documents :: IsMain(e)
    requires Verify(web, r, given, documents, finalUrl).Accepted?
    ensures var d := Verify(web, r, given, documents, finalUrl);
      SuffixOf(finalUrl) == Some(d.suffix) && d.finalUrl == finalUrl && documents != []
  {
    hide SuffixOf, FollowsPolicy, ApprovedLocation, ParsePolicy, UrlIssue, DocumentUrl, LocationTarget;
  }

  /** An accepted suffix is the non-empty text between the first ? of the landing URL and the next #. */
  lemma SuffixIsExact(web: Web, r: RunResult, given: Option<Option<PolicyInput>>)
      returns (before: string, after: string)
    requires Evaluate(web, r, given).Accepted?
    ensures var d := Evaluate(web, r, given);
      && r.finalUrl == Some(before + "?" + d.suffix + after) && d.finalUrl == r.finalUrl.value
      && d.suffix != "" && '#' !in d.suffix && '?' !in before && '#' !in before && (after == "" || after[0] == '#')
  {
    AcceptedIsVerified(web, r, given);
    hide Evaluate, SuffixOf, FirstStop, UrlIssue, Challenged, RedirectDecision, DirectDecision;
    var documents := Documents(r.events);
    VerifiedSuffix(web, r, given, documents, r.finalUrl.value);
    hide *;
    before, after := SuffixSlice(r.finalUrl.value, Evaluate(web, r, given).suffix);
  }

  // ---------- the payload means the same ----------

  /** The last entry of that name, letter case aside. */
  function FindLast(web: Web, headers: Headers, name: string): Option<string> {
    if headers == [] then None
    else if web.lower(headers[|headers| - 1].0) == name then Some(headers[|headers| - 1].1)
    else FindLast(web, headers[..|headers| - 1], name)
  }

  /** Wherever a name that evaluation reads is repeated, its first and its last value agree. */
  ghost predicate EndsAgree(web: Web, headers: Headers) {
    && Find(web, headers, "location") == FindLast(web, headers, "location")
    && Find(web, headers, "cf-mitigated") == FindLast(web, headers, "cf-mitigated")
  }

  lemma {:induction false} FindFiltered(web: Web, headers: Headers, name: string)
    requires name in {"cf-mitigated", "cf-ray", "retry-after", "location"}
    ensures Find(web, Filtered(web, headers), name) == Find(web, headers, name)
  {
    if headers != [] {
      FindFiltered(web, headers[1..], name);
      var rest, all := Filtered(web, headers[1..]), Filtered(web, headers);
      if Kept(web, headers[0].0) {
        assert all == [headers[0]] + rest && all[1..] == rest;
      } else {
        assert all == rest && web.lower(headers[0].0) != name;
      }
    }
  }

  lemma {:induction false} FindPut(web: Web, headers: Headers, name: string, value: string, wanted: string)
    requires web.lower(name) == name && forall i | 0 <= i < |headers| :: web.lower(headers[i].0) == headers[i].0
    ensures Find(web, Put(headers, name, value), wanted)
      == if wanted == name then Some(value) else Find(web, headers, wanted)
    ensures forall i | 0 <= i < |Put(headers, name, value)| ::
      web.lower(Put(headers, name, value)[i].0) == Put(headers, name, value)[i].0
  {
    if headers != [] && headers[0].0 != name {
      FindPut(web, headers[1..], name, value, wanted);
      assert Put(headers, name, value)[1..] == Put(headers[1..], name, value);
    } else if headers != [] {
      assert Put(headers, name, value)[1..] == headers[1..];
    }
  }

  lemma {:induction false} ReducedLast(web: Web, headers: Headers, name: string)
    requires PlainNames(web) && (name == "cf-mitigated" || name == "location")
    ensures Find(web, Reduced(web, headers), name) == FindLast(web, headers, name)
    ensures forall i | 0 <= i < |Reduced(web, headers)| ::
      web.lower(Reduced(web, headers)[i].0) == Reduced(web, headers)[i].0
  {
    if headers != [] {
      var shorter, last := headers[..|headers| - 1], headers[|headers| - 1];
      ReducedLast(web, shorter, name);
      var key := web.lower(last.0);
      if key == "cf-mitigated" || key == "location" { FindPut(web, Reduced(web, shorter), key, last.1, name); }
    }
  }

  /**
    The reduced headers read like the full ones if and only if the first and the last value of the name
    agree: the evaluation takes the first, the payload keeps the last.
  */
  lemma ReducedReadsExactly(web: Web, headers: Headers, name: string)
    requires PlainNames(web) && (name == "cf-mitigated" || name == "location")
    ensures Find(web, Reduced(web, headers), name) == Find(web, headers, name)
      <==> Find(web, headers, name) == FindLast(web, headers, name)
  {
    ReducedLast(web, headers, name);
  }

  lemma {:induction false} FindAt(web: Web, headers: Headers, name: string, i: nat)
    requires i < |headers| && web.lower(headers[i].0) == name
    requires forall k | 0 <= k < i :: web.lower(headers[k].0) != name
    ensures Find(web, headers, name) == Some(headers[i].1)
  {
    if i > 0 { FindAt(web, headers[1..], name, i - 1); }
  }

  /** In particular when no name is repeated, letter case aside. */
  lemma {:induction false} DistinctNamesAgree(web: Web, headers: Headers, name: string)
    requires forall i, k | 0 <= i < k < |headers| :: web.lower(headers[i].0) != web.lower(headers[k].0)
    ensures Find(web, headers, name) == FindLast(web, headers, name)
  {
    if headers != [] {
      var n := |headers| - 1;
      if web.lower(headers[n].0) == name {
        FindAt(web, headers, name, n);
      } else {
        DistinctNamesAgree(web, headers[..n], name);
        FindShorter(web, headers, name);
      }
    }
  }

  lemma {:induction false} FindShorter(web: Web, headers: Headers, name: string)
    requires headers != [] && web.lower(headers[|headers| - 1].0) != name
    ensures Find(web, headers[..|headers| - 1], name) == Find(web, headers, name)
  {
    if |headers| > 1 {
      FindShorter(web, headers[1..], name);
      assert headers[..|headers| - 1][1..] == headers[1..][..|headers| - 2];
    }
  }

  /** Same address, status and relevant headers: the same evidence. */
  ghost predicate SameEvidence(web: Web, e: Event, f: Event) {
    && IsMain(e) && IsMain(f) && e.url == f.url && e.status == f.status
    && Find(web, e.headers, "location") == Find(web, f.headers, "location")
    && Find(web, e.headers, "cf-mitigated") == Find(web, f.headers, "cf-mitigated")
    && f.signal.value.path == OrEmpty(e.signal.value.path)
  }

  lemma SameStop(web: Web, e: Event, f: Event)
    requires SameEvidence(web, e, f)
    ensures EdgeStop(web, e) == EdgeStop(web, f) && Challenged(web, e.headers) == Challenged(web, f.headers)
    ensures LocationTarget(web, e) == LocationTarget(web, f)
  {
    hide UrlIssue, Find;
  }

  // ---------- the reduced document of a run without a policy ----------

  /** The last value of the name without surrounding space, or nothing. */
  function LastHeader(web: Web, headers: Headers, name: string): string {
    match FindLast(web, headers, name) case Some(v) => web.trim(v) case None => ""
  }

  function LastTarget(web: Web, e: Event): Option<string> {
    var location := LastHeader(web, e.headers, "location");
    if location == "" then None else web.resolve(location, e.url)
  }

  /** The last values of the two headers show no challenge. */
  predicate LastPasses(web: Web, e: Event) {
    && web.lower(LastHeader(web, e.headers, "cf-mitigated")) != "challenge"
    && (LastTarget(web, e).Some? ==> !Cloudflare(UrlIssue(web, LastTarget(web, e).value)))
  }

  /** They would serve as well as the first: if a redirect led to the landing URL, so does the last location. */
  predicate LastServes(web: Web, e: Event, finalUrl: string, evidence: Evidence) {
    var target := LastTarget(web, e);
    && LastPasses(web, e)
    && (evidence == RedirectLocation ==>
          target.Some? && DocumentUrl(web, target.value) == DocumentUrl(web, finalUrl))
  }

  lemma ReducedHeader(web: Web, e: Event)
    requires PlainNames(web) && IsMain(e)
    ensures var f := ReducedEvent(web, e);
      && Header(web, f.headers, "location") == LastHeader(web, e.headers, "location")
      && Header(web, f.headers, "cf-mitigated") == LastHeader(web, e.headers, "cf-mitigated")
      && LocationTarget(web, f) == LastTarget(web, e)
  {
    ReducedLast(web, e.headers, "location");
    ReducedLast(web, e.headers, "cf-mitigated");
    hide Find, FindLast, Reduced, PlainNames;
  }

  lemma ReducedStop(web: Web, e: Event)
    requires PlainNames(web) && IsMain(e) && EdgeStop(web, e).None?
    ensures var f := ReducedEvent(web, e);
      && (EdgeStop(web, f).None? <==> LastPasses(web, e))
      && (EdgeStop(web, f).None? ==> !Challenged(web, f.headers))
  {
    ReducedHeader(web, e);
    hide Header, LastHeader, UrlIssue, Cloudflare, Reduced, PlainNames;
  }

  lemma ReducedDirect(web: Web, e: Event, finalUrl: string, suffix: string)
    requires PlainNames(web) && IsMain(e) && DirectDecision(web, e, finalUrl, suffix).Accepted?
    requires LastPasses(web, e)
    ensures var (d, f) := (DirectDecision(web, e, finalUrl, suffix), ReducedEvent(web, e));
      && (DirectDecision(web, f, finalUrl, suffix).Accepted? <==> LastServes(web, e, finalUrl, d.evidence))
      && (DirectDecision(web, f, finalUrl, suffix).Accepted? ==> DirectDecision(web, f, finalUrl, suffix) == d)
  {
    ReducedHeader(web, e);
    hide Header, LastHeader, LastTarget, LocationTarget, UrlIssue, Cloudflare, Reduced, PlainNames, DocumentUrl;
  }

  lemma AgreeingServe(web: Web, e: Event, finalUrl: string, suffix: string)
    requires IsMain(e) && EndsAgree(web, e.headers) && EdgeStop(web, e).None?
    requires DirectDecision(web, e, finalUrl, suffix).Accepted?
    ensures LastServes(web, e, finalUrl, DirectDecision(web, e, finalUrl, suffix).evidence)
  {
    assert LastTarget(web, e) == LocationTarget(web, e) by { hide Find, FindLast; }
    assert LastHeader(web, e.headers, "cf-mitigated") == Header(web, e.headers, "cf-mitigated") by {
      hide Find, FindLast;
    }
    hide EndsAgree, LastTarget, LastHeader, UrlIssue, DocumentUrl;
  }

  lemma FilteredSame(web: Web, e: Event)
    requires IsMain(e)
    ensures SameEvidence(web, e, FilteredEvent(web, e))
  {
    FindFiltered(web, e.headers, "location");
    FindFiltered(web, e.headers, "cf-mitigated");
  }

  lemma {:induction false} FilteredAt(web: Web, documents: seq<Event>)
    requires forall e | e in documents :: IsMain(e)
    ensures var fs := FilteredEvents(web, documents);
      && |fs| == |documents| && Documents(fs) == fs
      && forall i | 0 <= i < |fs| ::
          IsMain(documents[i]) && fs[i] == FilteredEvent(web, documents[i]) && SameEvidence(web, documents[i], fs[i])
  {
    if documents != [] {
      assert documents[0] in documents;
      FilteredAt(web, documents[1..]);
      FilteredSame(web, documents[0]);
      hide SameEvidence;
      var fs := FilteredEvents(web, documents);
      assert fs[1..] == FilteredEvents(web, documents[1..]);
      forall i | 0 <= i < |fs|
        ensures IsMain(documents[i]) && fs[i] == FilteredEvent(web, documents[i])
          && SameEvidence(web, documents[i], fs[i])
      {
        if i > 0 { assert documents[1..][i - 1] == documents[i] && fs[1..][i - 1] == fs[i]; }
      }
    }
  }

  lemma {:induction false} NoStop(web: Web, documents: seq<Event>)
    ensures FirstStop(web, documents).None? <==> forall i | 0 <= i < |documents| :: EdgeStop(web, documents[i]).None?
  {
    if documents != [] {
      NoStop(web, documents[1..]);
      assert documents == [documents[0]] + documents[1..];
    }
  }

  /** An evaluation depends on the documents only through their stops, their last one, and the verification. */
  lemma SameDecision(web: Web, r: RunResult, small: RunResult, given: Option<Option<PolicyInput>>)
    requires Evaluate(web, r, given).Accepted?
    requires small == r.(events := small.events)
    requires var fs := Documents(small.events);
      fs != [] && FirstStop(web, fs).None? && !Challenged(web, fs[|fs| - 1].headers)
    ensures Evaluate(web, small, given) == Verify(web, small, given, Documents(small.events), r.finalUrl.value)
  {
    hide FirstStop, UrlIssue, Challenged, BlockedVerdict, Verify, Cloudflare, Documents;
  }

  lemma RedirectSame(web: Web, input: Option<PolicyInput>, ds: seq<Event>, fs: seq<Event>, finalUrl: string,
      suffix: string)
    requires ds != [] && |fs| == |ds| && forall i | 0 <= i < |ds| ::
      IsMain(ds[i]) && fs[i] == FilteredEvent(web, ds[i]) && SameEvidence(web, ds[i], fs[i])
    requires IsMain(fs[|fs| - 1])
    ensures RedirectDecision(web, input, ds[|ds| - 1], ds, finalUrl, suffix)
      == RedirectDecision(web, input, fs[|fs| - 1], fs, finalUrl, suffix)
  {
    hide Find, UrlIssue, ValidPolicy, Filtered;
    if input.Some? && ParsePolicy(web, input.value).Ok? {
      var p := ParsePolicy(web, input.value).value;
      assert ApprovedLocation(web, p, ds[|ds| - 1]) == ApprovedLocation(web, p, fs[|fs| - 1]);
      FollowsSame(web, p, ds, fs);
      hide ApprovedLocation, FollowsPolicy;
    }
  }

  lemma FollowsSame(web: Web, p: Policy, ds: seq<Event>, fs: seq<Event>)
    requires ds != [] && |fs| == |ds| && forall i | 0 <= i < |ds| :: IsMain(ds[i]) && fs[i] == FilteredEvent(web, ds[i])
    ensures IsMain(fs[|fs| - 1])
    ensures FollowsPolicy(web, p, ds[|ds| - 1], ds) <==> FollowsPolicy(web, p, fs[|fs| - 1], fs)
  {
    hide UrlIssue, Filtered;
    assert forall i | 0 <= i < |ds| :: fs[i].url == ds[i].url && fs[i] in fs && ds[i] in ds;
  }

  /**
    The reduced payload keeps its meaning: if a run is accepted then so is its payload, with the same
    landing URL, suffix and evidence - evaluated on its own, or against the policy of the run - if and
    only if the run has a policy, or the last values of the retained headers serve. Otherwise the payload
    is rejected.
  */
  lemma PayloadKeepsMeaning(web: Web, r: RunResult, given: Option<Option<PolicyInput>>)
    requires PlainNames(web) && Evaluate(web, r, None).Accepted?
    requires given == None || given == Some(r.redirectCapture)
    ensures var (d, ds) := (Evaluate(web, r, None), Documents(r.events));
      && ds != [] && Payload(web, r).Ok?
      && var small := Evaluate(web, Payload(web, r).value, given);
      && (small.Accepted? <==> r.redirectCapture.Some? || LastServes(web, ds[|ds| - 1], d.finalUrl, d.evidence))
      && (small.Accepted? ==> small == d)
  {
    AcceptedIsVerified(web, r, None);
    VerifiedSuffix(web, r, None, Documents(r.events), r.finalUrl.value);
    GivenOwn(web, r);
    assert Evaluate(web, r, given) == Evaluate(web, r, None);
    if r.redirectCapture.Some? {
      hide *;
      RedirectPayload(web, r, given);
    } else {
      hide *;
      DirectPayload(web, r, given);
    }
  }

  /** In particular if the first and the last value of each agree, */
  lemma AgreeingPayload(web: Web, r: RunResult, given: Option<Option<PolicyInput>>)
    requires PlainNames(web) && Evaluate(web, r, None).Accepted?
    requires given == None || given == Some(r.redirectCapture)
    requires var ds := Documents(r.events); ds != [] ==> EndsAgree(web, ds[|ds| - 1].headers)
    ensures Payload(web, r).Ok? && Evaluate(web, Payload(web, r).value, given) == Evaluate(web, r, None)
  {
    hide Evaluate, Payload, Documents, EndsAgree, LastServes, EdgeStop, FirstStop, UrlIssue, PlainNames, SuffixOf;
    var ds := Documents(r.events);
    PayloadKeepsMeaning(web, r, given);
    if r.redirectCapture.None? {
      AcceptedIsVerified(web, r, None);
      NoStop(web, ds);
      VerifiedSuffix(web, r, None, ds, r.finalUrl.value);
      NoPolicyMeansDirect(web, r, ds, r.finalUrl.value);
      hide Verify, DirectDecision;
      VerifiedDirectly(web, r, None, ds, r.finalUrl.value);
      AgreeingServe(web, ds[|ds| - 1], r.finalUrl.value, SuffixOf(r.finalUrl.value).value);
    }
  }

  /** as they do when no name is repeated, letter case aside. */
  lemma DistinctPayload(web: Web, r: RunResult, given: Option<Option<PolicyInput>>)
    requires PlainNames(web) && Evaluate(web, r, None).Accepted?
    requires given == None || given == Some(r.redirectCapture)
    requires var ds := Documents(r.events); ds != [] ==>
      var hs := ds[|ds| - 1].headers; forall i, k | 0 <= i < k < |hs| :: web.lower(hs[i].0) != web.lower(hs[k].0)
    ensures Payload(web, r).Ok? && Evaluate(web, Payload(web, r).value, given) == Evaluate(web, r, None)
  {
    var ds := Documents(r.events);
    hide Evaluate, Payload, Documents, PlainNames, Find, FindLast;
    if ds != [] {
      DistinctNamesAgree(web, ds[|ds| - 1].headers, "location");
      DistinctNamesAgree(web, ds[|ds| - 1].headers, "cf-mitigated");
    }
    AgreeingPayload(web, r, given);
  }

  lemma PayloadIs(web: Web, r: RunResult)
    requires Evaluate(web, r, None).Accepted? && Documents(r.events) != []
    ensures var ds := Documents(r.events);
      && IsMain(ds[|ds| - 1]) && Evaluate(web, r, None).finalUrl == r.finalUrl.value && r.finalUrl.Some?
      && Payload(web, r)
          == Ok(r.(events := if r.redirectCapture.Some? then FilteredEvents(web, ds)
          else [ReducedEvent(web, ds[|ds| - 1])]))
  {
    AcceptedIsVerified(web, r, None);
    VerifiedSuffix(web, r, None, Documents(r.events), r.finalUrl.value);
    var ds := Documents(r.events);
    assert ds[|ds| - 1] in ds;
    hide Evaluate, Verify, FirstStop, UrlIssue, Challenged, SuffixOf, Documents, ReducedEvent, FilteredEvents;
  }

  lemma RedirectPayload(web: Web, r: RunResult, given: Option<Option<PolicyInput>>)
    requires Evaluate(web, r, None).Accepted? && Evaluate(web, r, given) == Evaluate(web, r, None)
    requires r.redirectCapture.Some? && (given == None || given == Some(r.redirectCapture)) && Documents(r.events) != []
    ensures Payload(web, r).Ok? && Evaluate(web, Payload(web, r).value, given) == Evaluate(web, r, None)
  {
    var ds := Documents(r.events);
    PayloadIs(web, r);
    AcceptedIsVerified(web, r, None);
    var small := Payload(web, r).value;
    NoStop(web, ds);
    hide Evaluate, UrlIssue, Payload, SuffixOf;
    FilteredAt(web, ds);
    var fs := FilteredEvents(web, ds);
    forall i | 0 <= i < |fs| ensures EdgeStop(web, fs[i]).None? { SameStop(web, ds[i], fs[i]); }
    NoStop(web, fs);
    SameStop(web, ds[|ds| - 1], fs[|fs| - 1]);
    if SuffixOf(r.finalUrl.value).Some? {
      RedirectSame(web, r.redirectCapture, ds, fs, r.finalUrl.value, SuffixOf(r.finalUrl.value).value);
    }
    hide RedirectDecision, DirectDecision, SameEvidence, EdgeStop, FirstStop, Challenged, FilteredEvents;
    SameDecision(web, r, small, given);
    AcceptedIsVerified(web, r, given);
  }

  lemma NoPolicyMeansDirect(web: Web, r: RunResult, documents: seq<Event>, finalUrl: string)
    requires (forall e | e in documents :: IsMain(e)) && Verify(web, r, None, documents, finalUrl).Accepted?
      && r.redirectCapture.None?
    ensures documents != [] && IsMain(documents[|documents| - 1])
      && documents[|documents| - 1].signal.value.path != Some("browser-redirect-only")
  {
    hide SuffixOf, DirectDecision, FollowsPolicy, ApprovedLocation;
  }

  lemma OneDocument(f: Event)
    requires IsMain(f)
    ensures Documents([f]) == [f]
  {
  }

  /** Without a policy the last document alone is verified. */
  lemma VerifiedDirectly(web: Web, r: RunResult, given: Option<Option<PolicyInput>>, ds: seq<Event>, finalUrl: string)
    requires (forall e | e in ds :: IsMain(e)) && ds != [] && SuffixOf(finalUrl).Some?
    requires r.redirectCapture.None? && (given == None || given == Some(None))
    requires IsMain(ds[|ds| - 1]) && ds[|ds| - 1].signal.value.path != Some("browser-redirect-only")
    ensures Verify(web, r, given, ds, finalUrl) == DirectDecision(web, ds[|ds| - 1], finalUrl, SuffixOf(finalUrl).value)
  {
    hide SuffixOf, RedirectDecision, DirectDecision;
  }

  lemma DirectPayload(web: Web, r: RunResult, given: Option<Option<PolicyInput>>)
    requires PlainNames(web) && Evaluate(web, r, None).Accepted? && Evaluate(web, r, given) == Evaluate(web, r, None)
    requires r.redirectCapture.None? && (given == None || given == Some(None)) && Documents(r.events) != []
    ensures Payload(web, r).Ok?
    ensures var (d, ds) := (Evaluate(web, r, None), Documents(r.events));
      var small := Evaluate(web, Payload(web, r).value, given);
      && (small.Accepted? <==> LastServes(web, ds[|ds| - 1], d.finalUrl, d.evidence))
      && (small.Accepted? ==> small == d)
  {
    var ds := Documents(r.events);
    PayloadIs(web, r);
    AcceptedIsVerified(web, r, None);
    var (small, e, finalUrl) := (Payload(web, r).value, ds[|ds| - 1], r.finalUrl.value);
    VerifiedSuffix(web, r, None, ds, finalUrl);
    NoPolicyMeansDirect(web, r, ds, finalUrl);
    NoStop(web, ds);
    assert e in ds;
    var f := ReducedEvent(web, e);
    NoStop(web, [f]);
    OneDocument(f);
    var suffix := SuffixOf(finalUrl).value;
    hide Evaluate, UrlIssue, Payload, SuffixOf, RedirectDecision, DirectDecision, Reduced, EdgeStop, FirstStop,
      PlainNames, Verify, LastTarget, Challenged, Documents;
    VerifiedDirectly(web, r, None, ds, finalUrl);
    ReducedStop(web, e);
    if LastPasses(web, e) {
      VerifiedDirectly(web, small, given, [f], finalUrl);
      SameDecision(web, r, small, given);
      ReducedDirect(web, e, finalUrl, suffix);
    } else {
      StoppedRejects(web, small, given);
    }
  }

  lemma StoppedRejects(web: Web, r: RunResult, given: Option<Option<PolicyInput>>)
    requires FirstStop(web, Documents(r.events)).Some?
    ensures Evaluate(web, r, given).Rejected?
  {
    hide FirstStop;
  }

  lemma GivenOwn(web: Web, r: RunResult)
    ensures Evaluate(web, r, Some(r.redirectCapture)) == Evaluate(web, r, None)
  {
    hide FirstStop, UrlIssue, Challenged, BlockedVerdict, Cloudflare, RedirectDecision, DirectDecision, SuffixOf;
  }

  lemma UnvisitedRejects(web: Web, r: RunResult, policy: PolicyInput, documents: seq<Event>, finalUrl: string)
    requires forall e | e in documents :: IsMain(e)
    requires documents != [] ==>
      documents[|documents| - 1].signal.Some? && documents[|documents| - 1].signal.value.visited.None?
    ensures Verify(web, r, Some(Some(policy)), documents, finalUrl).Rejected?
  {
    hide SuffixOf, ApprovedLocation, ParsePolicy;
  }

  /** A payload without a policy of its own is never accepted against an explicit one. */
  lemma ForeignPolicyRejects(web: Web, r: RunResult, policy: PolicyInput)
    requires Evaluate(web, r, None).Accepted? && r.redirectCapture.None?
    ensures Payload(web, r).Ok? && Evaluate(web, Payload(web, r).value, Some(Some(policy))).Rejected?
  {
    hide Evaluate, Payload, Verify, Documents, FirstStop, UrlIssue, Challenged, Reduced, SuffixOf;
    AcceptedIsVerified(web, r, None);
    VerifiedSuffix(web, r, None, Documents(r.events), r.finalUrl.value);
    PayloadIs(web, r);
    var ds, small := Documents(r.events), Payload(web, r).value;
    var f := ReducedEvent(web, ds[|ds| - 1]);
    OneDocument(f);
    UnvisitedRejects(web, small, policy, [f], r.finalUrl.value);
    if Evaluate(web, small, Some(Some(policy))).Accepted? { AcceptedIsVerified(web, small, Some(Some(policy))); }
  }

  // A run whose last document repeats its location with another value.

  function Simple(s: string): Option<Url> { Some(Url("https:", s, s, false, false, "", s)) }

  function SimpleLower(s: string): string { if s == "Location" then "location" else s }

  /** Addresses are their own document, nothing is a challenge, and only one name has letter case. */
  const SimpleWeb :=
    Web(Simple, (l: string, base: string) => Some(l), (s: string) => [], (s: string, p: string) => [], SimpleLower,
        (s: string) => s, (k: string) => false, (k: string) => false, (h: string) => true, (s: string) => false)

  const Landing := "https://shop/?x"
  const Elsewhere := "https://shop/?y"

  function RepeatedLocation(): RunResult {
    RunResult(Some(Landing), "allow", None, "", None,
              [Event("https://click/", "GET", 302, 0, [("Location", Landing), ("location", Elsewhere)],
                     Some(Signal("true", Some("redirect-first"), None, None)), "")], "")
  }

  lemma Tail(a: string, b: string)
    ensures (a + b)[|a|..] == b && (a + b)[|a|..|a + b|] == b
  {
  }

  lemma SuffixAfter(before: string, suffix: string)
    requires '?' !in before && '#' !in before && suffix != "" && '#' !in suffix
    ensures SuffixOf(before + "?" + suffix) == Some(suffix)
  {
    var url := before + "?" + suffix;
    var question := IndexOf(url, '?');
    assert url[|before|] == '?';
    assert forall i | 0 <= i < |before| :: url[i] == before[i];
    assert forall k | 0 <= k < question :: url[..question][k] == url[k];
    assert question == |before|;
    assert '#' !in url && IndexOf(url, '#') < 0;
    assert (before + "?") + suffix == url && |before + "?"| == question + 1;
    Tail(before + "?", suffix);
  }

  lemma LandingSuffix()
    ensures SuffixOf(Landing) == Some("x") && Landing != Elsewhere && Landing != "" && Elsewhere != ""
  {
    var before := "https://shop/";
    assert '?' !in before && '#' !in before;
    SuffixAfter(before, "x");
    assert Landing[14] != Elsewhere[14];
    assert Landing == before + "?" + "x";
  }

  lemma RepeatedFinds(headers: Headers)
    requires headers == [("Location", Landing), ("location", Elsewhere)]
    ensures Find(SimpleWeb, headers, "location") == Some(Landing) && Find(SimpleWeb, headers, "cf-mitigated").None?
    ensures Reduced(SimpleWeb, headers) == [("location", Elsewhere)]
  {
    assert "location"[0] != "cf-mitigated"[0] && "location"[0] != "Location"[0];
    assert headers[1..] == [("location", Elsewhere)];
    OneFind(headers[1..]);
    assert headers[..1] == [("Location", Landing)] && headers[..1][..0] == [];
    assert Reduced(SimpleWeb, headers[..1]) == [("location", Landing)];
  }

  /** A run that is accepted on its first location, while its payload, which has the second, is not. */
  lemma RepeatedHeaderDiffers()
    ensures PlainNames(SimpleWeb)
    ensures var r := RepeatedLocation();
      && Evaluate(SimpleWeb, r, None) == Accepted(Landing, "x", RedirectLocation)
      && Payload(SimpleWeb, r).Ok?
      && Evaluate(SimpleWeb, Payload(SimpleWeb, r).value, None) == Rejected("unverified_destination")
  {
    SimplePlain();
    LandingSuffix();
    var r := RepeatedLocation();
    var e := r.events[0];
    RepeatedFinds(e.headers);
    hide *;
    OneFind([("location", Elsewhere)]);
    RepeatedRun(r, e, ReducedEvent(SimpleWeb, e));
  }

  lemma SimplePlain()
    ensures PlainNames(SimpleWeb)
  {
    assert "location"[0] != "Location"[0] && "cf-mitigated"[0] != "Location"[0];
  }

  lemma RepeatedRun(r: RunResult, e: Event, f: Event)
    requires r == RepeatedLocation() && r.events == [e] && IsMain(e) && f == ReducedEvent(SimpleWeb, e)
    requires SuffixOf(Landing) == Some("x") && Landing != Elsewhere && Landing != "" && Elsewhere != ""
    requires Find(SimpleWeb, e.headers, "location") == Some(Landing) && Find(SimpleWeb, e.headers, "cf-mitigated").None?
    requires Reduced(SimpleWeb, e.headers) == [("location", Elsewhere)]
    requires Find(SimpleWeb, [("location", Elsewhere)], "location") == Some(Elsewhere)
    requires Find(SimpleWeb, [("location", Elsewhere)], "cf-mitigated").None?
    ensures Evaluate(SimpleWeb, r, None) == Accepted(Landing, "x", RedirectLocation)
    ensures Payload(SimpleWeb, r).Ok?
      && Evaluate(SimpleWeb, Payload(SimpleWeb, r).value, None) == Rejected("unverified_destination")
  {
    hide SuffixOf, Find, Reduced, Evaluate;
    assert f.headers == [("location", Elsewhere)];
    OneStop(r, e, Landing, "x");
    var small := r.(events := [f]);
    OneStop(small, f, Elsewhere, "x");
  }

  lemma OneFind(headers: Headers)
    requires headers == [("location", Elsewhere)]
    ensures Find(SimpleWeb, headers, "location") == Some(Elsewhere) && Find(SimpleWeb, headers, "cf-mitigated").None?
  {
    assert "location"[0] != "cf-mitigated"[0] && "location"[0] != "Location"[0];
    assert headers[1..] == [];
  }

  /** The decision on a run of one redirect. */
  lemma OneStop(r: RunResult, e: Event, location: string, suffix: string)
    requires r == RepeatedLocation().(events := [e]) && IsMain(e) && e.url == "https://click/" && e.status == 302
    requires e.signal.value.path == Some("redirect-first") && SuffixOf(Landing) == Some(suffix)
    requires Find(SimpleWeb, e.headers, "location") == Some(location) && location != ""
      && Find(SimpleWeb, e.headers, "cf-mitigated").None?
    ensures Documents(r.events) == [e]
    ensures Evaluate(SimpleWeb, r, None)
         == if location == Landing then Accepted(Landing, suffix, RedirectLocation)
           else Rejected("unverified_destination")
  {
    hide SuffixOf, Find;
    OneDocument(e);
    assert forall s: string :: UrlIssue(SimpleWeb, s).None?;
    assert EdgeStop(SimpleWeb, e).None?;
    assert [e][1..] == [];
    assert FirstStop(SimpleWeb, [e]).None?;
    hide EdgeStop, FirstStop, Documents, UrlIssue;
    assert !BlockedVerdict(SimpleWeb, "allow");
    hide BlockedVerdict;
    assert DirectDecision(SimpleWeb, e, Landing, suffix)
        == if location == Landing then Accepted(Landing, suffix, RedirectLocation)
          else Rejected("unverified_destination");
  }

  /** Redirect-only evidence: no document of the run came from the host of the accepted destination. */
  lemma RedirectOnlyNeverVisits(web: Web, r: RunResult, given: Option<Option<PolicyInput>>, d: Event)
    requires OriginsKeepHosts(web) && Evaluate(web, r, given).Accepted?
      && Evaluate(web, r, given).evidence == RedirectOnly
    requires d in Documents(r.events)
    ensures web.url(d.url).Some? && web.url(Evaluate(web, r, given).finalUrl).Some?
    ensures HostOf(web, d.url) != HostOf(web, Evaluate(web, r, given).finalUrl)
  {
    AcceptedIsVerified(web, r, given);
    var p := RedirectFacts(web, r, given, Documents(r.events), r.finalUrl.value);
    hide Evaluate, UrlIssue, FirstStop, Challenged, Verify;
    var origin := web.url(d.url).value.origin;
    assert origin in p.origins && Approved(web, origin, true) && Approved(web, p.destination, false);
  }

  lemma RedirectFacts(web: Web, r: RunResult, given: Option<Option<PolicyInput>>, documents: seq<Event>,
      finalUrl: string) returns (p: PolicyInput)
    requires (forall e | e in documents :: IsMain(e)) && Verify(web, r, given, documents, finalUrl).Accepted?
    requires Verify(web, r, given, documents, finalUrl).evidence == RedirectOnly
    ensures ValidPolicy(web, p) && web.url(finalUrl).Some? && web.url(finalUrl).value.origin == p.destination
    ensures forall d | d in documents ::
      web.url(d.url).Some? && web.url(d.url).value.origin in p.origins && WebProtocol(web.url(d.url).value.protocol)
    ensures Verify(web, r, given, documents, finalUrl).finalUrl == finalUrl
  {
    hide SuffixIssue, SuffixOf, Find, DocumentUrl, LocationTarget, Approved, HostOf;
    p := (if given.Some? then given.value else r.redirectCapture).value;
  }
}
