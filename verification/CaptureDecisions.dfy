/**
  When exactly the result of a run is accepted (packages/contracts/src/captureSafety.ts:23-179 and
  redirectCapture.ts:9-62), and what the payload of an accepted run holds
  (packages/orchestrator/src/runner.ts:84-111), as conditions on the result's fields.
*/
module CaptureDecisions {
  import opened Prelude
  import opened CapturePayload

  // ---------- addresses and headers ----------

  ghost predicate WebAddress(web: Web, raw: string) {
    web.url(raw).Some? && web.url(raw).value.protocol in ["http:", "https:"]
  }

  /** The address is one of Cloudflare's challenge. */
  ghost predicate ChallengeAddress(web: Web, raw: string) {
    && WebAddress(web, raw)
    && var u := web.url(raw).value;
    u.challengePath || exists i :: 0 <= i < |web.fields(u.search)| && web.challengeKey(web.fields(u.search)[i].0)
  }

  /** A destination: a web address without a challenge and without an empty click identifier. */
  ghost predicate Destination(web: Web, raw: string) {
    && WebAddress(web, raw)
    && var u := web.url(raw).value;
    && !u.challengePath
    && forall i | 0 <= i < |web.fields(u.search)| ::
         var field := web.fields(u.search)[i];
         !web.challengeKey(field.0) && (web.clickKey(field.0) ==> web.trim(field.1) != "")
  }

  lemma AddressExactly(web: Web, raw: string)
    ensures UrlIssue(web, raw).None? <==> Destination(web, raw)
    ensures Cloudflare(UrlIssue(web, raw)) <==> ChallengeAddress(web, raw)
  {
    if web.url(raw).Some? {
      DeliverableExactly(web, web.url(raw).value.search);
      NoChallenge(web, web.url(raw).value.search);
    }
  }

  lemma NoChallenge(web: Web, value: string)
    ensures SuffixIssue(web, value) == Some(ChallengeParameters) <==>
      exists i :: 0 <= i < |web.fields(value)| && web.challengeKey(web.fields(value)[i].0)
    ensures SuffixIssue(web, value) != Some(ChallengePage)
  {
    EmptyIsNoChallenge(web, web.fields(value));
  }

  lemma {:induction false} EmptyIsNoChallenge(web: Web, fields: seq<(string, string)>)
    ensures LastEmpty(web, fields).Some? ==> LastEmpty(web, fields).value.EmptyIdentifier?
  {
    if fields != [] { EmptyIsNoChallenge(web, fields[..|fields| - 1]); }
  }

  /** Entry i is the first of that name, letter case aside. */
  ghost predicate FirstNamed(web: Web, headers: Headers, name: string, i: nat) {
    i < |headers| && web.lower(headers[i].0) == name && forall k | 0 <= k < i :: web.lower(headers[k].0) != name
  }

  lemma LaterName(web: Web, headers: Headers, name: string, i: nat)
    requires headers != [] && web.lower(headers[0].0) != name
    ensures FirstNamed(web, headers[1..], name, i) <==> FirstNamed(web, headers, name, i + 1)
  {
    assert forall k: nat | k < |headers| - 1 :: headers[1..][k] == headers[k + 1];
  }

  lemma {:induction false} HeaderExactly(web: Web, headers: Headers, name: string)
    ensures forall i: nat | FirstNamed(web, headers, name, i) ::
      Find(web, headers, name) == Some(headers[i].1) && Header(web, headers, name) == web.trim(headers[i].1)
    ensures (forall i | 0 <= i < |headers| :: web.lower(headers[i].0) != name) ==>
      Find(web, headers, name) == None && Header(web, headers, name) == ""
    ensures Find(web, headers, name).Some? ==> exists i: nat :: FirstNamed(web, headers, name, i)
  {
    if headers != [] {
      HeaderExactly(web, headers[1..], name);
      if web.lower(headers[0].0) == name {
        assert FirstNamed(web, headers, name, 0);
      } else {
        forall i: nat | FirstNamed(web, headers, name, i) ensures i > 0 && FirstNamed(web, headers[1..], name, i - 1) {
          LaterName(web, headers, name, i - 1);
        }
        if i: nat :| FirstNamed(web, headers[1..], name, i) { LaterName(web, headers, name, i); }
      }
    }
  }

  // ---------- refusals on the way ----------

  /** A challenge: in the address, in the one it redirects to, or by its header. */
  ghost predicate Challenges(web: Web, e: Event) {
    || ChallengeAddress(web, e.url)
    || web.lower(Header(web, e.headers, "cf-mitigated")) == "challenge"
    || (Header(web, e.headers, "location") != ""
        && web.resolve(Header(web, e.headers, "location"), e.url).Some?
        && ChallengeAddress(web, web.resolve(Header(web, e.headers, "location"), e.url).value))
  }

  /** A document that ends the attempt: a challenge, a rate limit or a refusal. */
  ghost predicate Stops(web: Web, e: Event) { Challenges(web, e) || e.status == 429 || e.status == 403 }

  lemma StopExactly(web: Web, e: Event)
    ensures EdgeStop(web, e).Some? <==> Stops(web, e)
    ensures EdgeStop(web, e) == Some("cloudflare_challenge") <==> Challenges(web, e)
    ensures EdgeStop(web, e) == Some("rate_limited") <==> !Challenges(web, e) && e.status == 429
    ensures EdgeStop(web, e) == Some("blocked_response") <==> !Challenges(web, e) && e.status == 403
  {
    AddressExactly(web, e.url);
    var location := Header(web, e.headers, "location");
    if location != "" && web.resolve(location, e.url).Some? { AddressExactly(web, web.resolve(location, e.url).value); }
    hide UrlIssue, ChallengeAddress, Header, Cloudflare;
    assert EdgeStop(web, e) ==
      if Challenges(web, e) then Some("cloudflare_challenge")
      else if e.status == 429 then Some("rate_limited")
      else if e.status == 403 then Some("blocked_response") else None;
    assert "cloudflare_challenge"[0] != "rate_limited"[0] && "cloudflare_challenge"[0] != "blocked_response"[0]
      && "rate_limited"[0] != "blocked_response"[0];
    hide EdgeStop, Challenges;
  }

  /** The browser's response to a navigation of the page itself. */
  ghost predicate MainDocument(e: Event) { e.signal.Some? && e.signal.value.main == "true" }

  ghost predicate LastDocument(events: seq<Event>, k: nat) {
    k < |events| && MainDocument(events[k]) && forall l: nat | k < l < |events| :: !MainDocument(events[l])
  }

  lemma LaterDocument(events: seq<Event>, k: nat)
    requires events != []
    ensures LastDocument(events[1..], k) <==> LastDocument(events, k + 1)
    ensures LastDocument(events, 0) <==> MainDocument(events[0]) && forall e | e in events[1..] :: !MainDocument(e)
  {
    hide MainDocument;
    assert forall l: nat | 0 < l < |events| :: events[l] == events[1..][l - 1];
    if LastDocument(events, 0) {
      forall e | e in events[1..] ensures !MainDocument(e) {
        var l: nat :| l < |events[1..]| && events[1..][l] == e;
        assert events[l + 1] == e;
      }
    }
  }

  lemma {:induction false} DocumentsMembers(events: seq<Event>)
    ensures forall e :: e in Documents(events) <==> e in events && MainDocument(e)
  {
    if events != [] {
      DocumentsMembers(events[1..]);
      assert events == [events[0]] + events[1..];
    }
  }

  /** The documents end with the last main document of the run. */
  lemma {:induction false} DocumentsLast(events: seq<Event>, k: nat)
    requires LastDocument(events, k)
    ensures Documents(events) != [] && Documents(events)[|Documents(events)| - 1] == events[k]
  {
    LaterDocument(events, 0);
    if k > 0 {
      LaterDocument(events, k - 1);
      DocumentsLast(events[1..], k - 1);
      hide LastDocument;
    } else {
      NoDocuments(events[1..]);
      hide LastDocument;
    }
  }

  lemma {:induction false} NoDocuments(events: seq<Event>)
    requires forall e | e in events :: !MainDocument(e)
    ensures Documents(events) == []
  {
    if events != [] { NoDocuments(events[1..]); }
  }

  lemma {:induction false} SomeLast(events: seq<Event>)
    requires Documents(events) != []
    ensures exists k: nat :: LastDocument(events, k)
  {
    var rest := events[1..];
    LaterDocument(events, 0);
    DocumentsMembers(rest);
    if Documents(rest) != [] {
      SomeLast(rest);
      var k: nat :| LastDocument(rest, k);
      LaterDocument(events, k);
      hide *;
    }
  }

  lemma DocumentsExactly(events: seq<Event>)
    ensures forall e :: e in Documents(events) <==> e in events && MainDocument(e)
    ensures forall k: nat | LastDocument(events, k) ::
      Documents(events) != [] && Documents(events)[|Documents(events)| - 1] == events[k]
    ensures Documents(events) != [] ==> exists k: nat :: LastDocument(events, k)
  {
    DocumentsMembers(events);
    forall k: nat | LastDocument(events, k)
      ensures Documents(events) != [] && Documents(events)[|Documents(events)| - 1] == events[k]
    {
      DocumentsLast(events, k);
    }
    if Documents(events) != [] { SomeLast(events); }
    hide *;
  }

  lemma {:induction false} NoStopExactly(web: Web, documents: seq<Event>)
    ensures FirstStop(web, documents).None? <==> forall e | e in documents :: !Stops(web, e)
  {
    if documents != [] {
      NoStopExactly(web, documents[1..]);
      StopExactly(web, documents[0]);
      hide Stops, EdgeStop;
    }
  }

  // ---------- what confirms the landing URL ----------

  ghost predicate SameDocument(web: Web, raw: string, finalUrl: string) {
    web.url(raw).Some? && web.url(finalUrl).Some? && web.url(raw).value.document == web.url(finalUrl).value.document
  }

  /** The landing page itself answered. */
  ghost predicate ByResponse(web: Web, main: Event, finalUrl: string) {
    200 <= main.status <= 299 && SameDocument(web, main.url, finalUrl)
  }

  /** A redirect of the redirect-first path leads to it. */
  ghost predicate ByLocation(web: Web, main: Event, finalUrl: string) {
    var location := Header(web, main.headers, "location");
    && main.signal.Some? && main.signal.value.path == Some("redirect-first")
    && main.status in [301, 302, 303, 307, 308] && Destination(web, main.url)
    && location != "" && web.resolve(location, main.url).Some?
    && SameDocument(web, web.resolve(location, main.url).value, finalUrl)
  }

  /** An origin that a policy may name: its own web address without path and credentials, of a public host. */
  ghost predicate PublicOrigin(web: Web, origin: string, protocols: seq<string>) {
    && |origin| <= 300 && web.url(origin).Some? && web.url(origin).value.origin == origin
    && web.url(origin).value.protocol in protocols && !web.url(origin).value.credentials
    && web.publicHost(web.url(origin).value.host)
  }

  /** The issuer is among the origins, alone on its host; no origin is on the host of the merchant. */
  ghost predicate PolicyInOrder(web: Web, p: PolicyInput) {
    && p.mode == "redirect_only" && !p.otherKeys && p.parameter in ["irclickid", "im_ref"]
    && PublicOrigin(web, p.issuer, ["https:"]) && PublicOrigin(web, p.destination, ["https:"])
    && 1 <= |p.origins| <= 16 && p.issuer in p.origins
    && (forall i, k | 0 <= i < |p.origins| && 0 <= k < |p.origins| && p.origins[i] == p.origins[k] :: i == k)
    && forall o | o in p.origins ::
         && PublicOrigin(web, o, ["http:", "https:"])
         && web.url(o).value.host != web.url(p.destination).value.host
         && (web.url(o).value.host == web.url(p.issuer).value.host ==> o == p.issuer)
  }

  /** The first location of the issuer's redirect is the landing URL, byte for byte; nothing else was visited. */
  ghost predicate ByPolicy(web: Web, p: PolicyInput, events: seq<Event>, main: Event, finalUrl: string) {
    && PolicyInOrder(web, p)
    && main.signal.Some? && main.signal.value.path == Some("browser-redirect-only")
    && main.signal.value.visited == Some("false") && main.signal.value.guard == Some("origin_allowlist")
    && (forall e | e in events && MainDocument(e) ::
          Destination(web, e.url) && web.url(e.url).Some? && web.url(e.url).value.origin in p.origins)
    && main.status in [301, 302, 303, 307, 308]
    && web.url(main.url).Some? && web.url(main.url).value.origin == p.issuer
    && Find(web, main.headers, "location") == Some(finalUrl) && |finalUrl| <= 32_768 && !web.spaced(finalUrl)
    && |finalUrl| >= 8 && finalUrl[..8] == "https://"
    && web.url(finalUrl).Some? && web.url(finalUrl).value.origin == p.destination
    && !web.url(finalUrl).value.credentials
    && |web.parameters(finalUrl, p.parameter)| == 1 && web.trim(web.parameters(finalUrl, p.parameter)[0]) != ""
  }

  lemma DirectExactly(web: Web, main: Event, finalUrl: string, suffix: string)
    requires IsMain(main) && Destination(web, finalUrl)
    ensures DirectDecision(web, main, finalUrl, suffix) ==
      if ByResponse(web, main, finalUrl) then Accepted(finalUrl, suffix, DocumentResponse)
      else if ByLocation(web, main, finalUrl) then Accepted(finalUrl, suffix, RedirectLocation)
      else Rejected("unverified_destination")
  {
    AddressExactly(web, main.url);
    hide UrlIssue, Header;
  }

  lemma PolicyExactly(web: Web, p: PolicyInput)
    ensures ParsePolicy(web, p) ==
      if PolicyInOrder(web, p) then Ok(Policy(p.issuer, p.destination, p.parameter, p.origins))
      else Error("invalid redirect capture policy")
  {
    forall o ensures Approved(web, o, true) <==> PublicOrigin(web, o, ["http:", "https:"]) { }
    forall o ensures Approved(web, o, false) <==> PublicOrigin(web, o, ["https:"]) { }
    if PolicyInOrder(web, p) {
      forall o | o in p.origins || o == p.issuer || o == p.destination ensures web.url(o).Some? { }
      hide Approved, PublicOrigin;
    } else {
      if ValidPolicy(web, p) {
        forall o | o in p.origins || o == p.issuer || o == p.destination ensures web.url(o).Some? { }
        hide Approved, PublicOrigin;
      }
    }
  }

  lemma LocationExactly(web: Web, p: Policy, main: Event, finalUrl: string)
    ensures ApprovedLocation(web, p, main) == Some(finalUrl) <==>
      && main.status in [301, 302, 303, 307, 308]
      && web.url(main.url).Some? && web.url(main.url).value.origin == p.issuer
      && Find(web, main.headers, "location") == Some(finalUrl) && |finalUrl| <= 32_768 && !web.spaced(finalUrl)
      && |finalUrl| >= 8 && finalUrl[..8] == "https://"
      && web.url(finalUrl).Some? && web.url(finalUrl).value.origin == p.destination
      && !web.url(finalUrl).value.credentials
  {
    assert "https://" <= finalUrl <==> |finalUrl| >= 8 && finalUrl[..8] == "https://";
    hide Find;
  }

  lemma RedirectExactly(web: Web, input: Option<PolicyInput>, events: seq<Event>, main: Event, finalUrl: string,
      suffix: string)
    requires IsMain(main)
    ensures var d := RedirectDecision(web, input, main, Documents(events), finalUrl, suffix);
      && (d.Accepted? <==> input.Some? && ByPolicy(web, input.value, events, main, finalUrl))
      && (d.Accepted? ==> d == Accepted(finalUrl, suffix, RedirectOnly))
  {
    if input.Some? {
      PolicyExactly(web, input.value);
      DocumentsExactly(events);
      forall e: Event ensures UrlIssue(web, e.url).None? <==> Destination(web, e.url) { AddressExactly(web, e.url); }
      if ParsePolicy(web, input.value).Ok? {
        LocationExactly(web, ParsePolicy(web, input.value).value, main, finalUrl);
      }
      hide PolicyInOrder, ParsePolicy, ApprovedLocation, UrlIssue, Destination, Find, Documents;
    }
  }

  /** The question mark at q comes before any other and any #, and text follows it. */
  ghost predicate SuffixFrom(finalUrl: string, q: nat) {
    && q + 1 < |finalUrl| && finalUrl[q] == '?' && finalUrl[q + 1] != '#'
    && forall i | 0 <= i < q :: finalUrl[i] != '?' && finalUrl[i] != '#'
  }

  ghost predicate HasSuffix(finalUrl: string) { exists q: nat :: SuffixFrom(finalUrl, q) }

  lemma SuffixExactly(finalUrl: string)
    ensures SuffixOf(finalUrl).Some? <==> HasSuffix(finalUrl)
  {
    var q, h := IndexOf(finalUrl, '?'), IndexOf(finalUrl, '#');
    if q >= 0 { assert forall i | 0 <= i < q :: finalUrl[..q][i] == finalUrl[i]; }
    if h >= 0 { assert forall i | 0 <= i < h :: finalUrl[..h][i] == finalUrl[i]; }
    if SuffixOf(finalUrl).Some? {
      assert SuffixFrom(finalUrl, q);
    }
    if k: nat :| SuffixFrom(finalUrl, k) {
      assert q == k && (h < 0 || h > k + 1);
      assert |finalUrl[q + 1..if h < 0 then |finalUrl| else h]| > 0;
    }
  }

  // ---------- the decision ----------

  ghost predicate UsesPolicy(r: RunResult, given: Option<Option<PolicyInput>>, main: Event) {
    || (main.signal.Some? && main.signal.value.path == Some("browser-redirect-only"))
    || r.redirectCapture != None || (given.Some? && given.value != None)
  }

  /** The last main document confirms the landing URL, under the policy if the run has one. */
  ghost predicate Confirmed(web: Web, r: RunResult, given: Option<Option<PolicyInput>>, main: Event, finalUrl: string) {
    var policy := if given.Some? then given.value else r.redirectCapture;
    if UsesPolicy(r, given, main) then policy.Some? && ByPolicy(web, policy.value, r.events, main, finalUrl)
    else ByResponse(web, main, finalUrl) || ByLocation(web, main, finalUrl)
  }

  /** No error, no refusal and no open challenge on the way to a destination with a suffix. */
  ghost predicate Undisturbed(web: Web, r: RunResult) {
    && r.error == "" && r.finalUrl.Some? && Destination(web, r.finalUrl.value) && HasSuffix(r.finalUrl.value)
    && (r.challenge.Some? ==> r.challenge.value == "" || r.challenge.value == "resolved")
    && web.lower(r.verdict) !in ["block", "blocked", "challenge", "error", "deny", "denied"]
    && forall e | e in r.events && MainDocument(e) :: !Stops(web, e)
  }

  /**
    The result of a run is accepted if and only if nothing disturbed it and its last main document confirms
    the landing URL; the evidence says how.
  */
  lemma AcceptedExactly(web: Web, r: RunResult, given: Option<Option<PolicyInput>>)
    ensures Evaluate(web, r, given).Accepted? <==>
      Undisturbed(web, r)
      && exists k: nat :: LastDocument(r.events, k) && Confirmed(web, r, given, r.events[k], r.finalUrl.value)
    ensures Evaluate(web, r, given).Accepted? ==> Some(Evaluate(web, r, given).finalUrl) == r.finalUrl
    ensures Evaluate(web, r, given).Accepted? ==> forall k: nat | LastDocument(r.events, k) ::
      Evaluate(web, r, given).evidence ==
        if UsesPolicy(r, given, r.events[k]) then RedirectOnly
        else if ByResponse(web, r.events[k], r.finalUrl.value) then DocumentResponse else RedirectLocation
  {
    DecisionExactly(web, r, given);
    if r.finalUrl.Some? && Destination(web, r.finalUrl.value) { VerifyExactly(web, r, given, r.finalUrl.value); }
    hide Evaluate, Verify, LastDocument, Confirmed, Destination, HasSuffix, Stops, UsesPolicy, ByResponse, Documents;
  }

  /** Everything but the confirmation. */
  lemma DecisionExactly(web: Web, r: RunResult, given: Option<Option<PolicyInput>>)
    ensures Evaluate(web, r, given).Accepted? <==>
      && r.error == "" && r.finalUrl.Some? && Destination(web, r.finalUrl.value)
      && (r.challenge.Some? ==> r.challenge.value == "" || r.challenge.value == "resolved")
      && web.lower(r.verdict) !in ["block", "blocked", "challenge", "error", "deny", "denied"]
      && (forall e | e in r.events && MainDocument(e) :: !Stops(web, e))
      && Verify(web, r, given, Documents(r.events), r.finalUrl.value).Accepted?
    ensures Evaluate(web, r, given).Accepted? ==>
      r.finalUrl.Some? && Evaluate(web, r, given) == Verify(web, r, given, Documents(r.events), r.finalUrl.value)
  {
    hide Documents, FirstStop, Verify, UrlIssue, Destination, ChallengeAddress, Header;
    var documents := Documents(r.events);
    DocumentsExactly(r.events);
    NoStopExactly(web, documents);
    if r.finalUrl.Some? { AddressExactly(web, r.finalUrl.value); }
    if documents != [] {
      assert documents[|documents| - 1] in documents;
      assert Challenged(web, documents[|documents| - 1].headers) ==> Stops(web, documents[|documents| - 1]);
    }
    hide Stops, Challenges, Challenged, MainDocument;
  }

  lemma VerifyExactly(web: Web, r: RunResult, given: Option<Option<PolicyInput>>, finalUrl: string)
    requires Destination(web, finalUrl)
    ensures var d := Verify(web, r, given, Documents(r.events), finalUrl);
      && (d.Accepted? <==>
          HasSuffix(finalUrl) && exists k: nat ::
            LastDocument(r.events, k) && Confirmed(web, r, given, r.events[k], finalUrl))
      && (d.Accepted? ==> d.finalUrl == finalUrl)
    ensures Verify(web, r, given, Documents(r.events), finalUrl).Accepted? ==>
      forall k: nat | LastDocument(r.events, k) ::
        Verify(web, r, given, Documents(r.events), finalUrl).evidence ==
          if UsesPolicy(r, given, r.events[k]) then RedirectOnly
          else if ByResponse(web, r.events[k], finalUrl) then DocumentResponse else RedirectLocation
  {
    hide Documents, SuffixOf, HasSuffix, RedirectDecision, DirectDecision, ByPolicy, ByResponse, ByLocation,
      Destination, LastDocument;
    var documents := Documents(r.events);
    DocumentsExactly(r.events);
    SuffixExactly(finalUrl);
    if documents != [] && SuffixOf(finalUrl).Some? {
      var main := documents[|documents| - 1];
      assert main in documents;
      var k: nat :| LastDocument(r.events, k);
      OneLast(r.events, k);
      ConfirmedExactly(web, r, given, main, finalUrl, SuffixOf(finalUrl).value);
      hide UsesPolicy, Confirmed;
    }
  }

  lemma ConfirmedExactly(web: Web, r: RunResult, given: Option<Option<PolicyInput>>, main: Event, finalUrl: string,
      suffix: string)
    requires Destination(web, finalUrl) && IsMain(main)
    ensures var input := if given.Some? then given.value else r.redirectCapture;
      var d := if UsesPolicy(r, given, main)
               then RedirectDecision(web, input, main, Documents(r.events), finalUrl, suffix)
               else DirectDecision(web, main, finalUrl, suffix);
      && (d.Accepted? <==> Confirmed(web, r, given, main, finalUrl))
      && (d.Accepted? ==> d == Accepted(finalUrl, suffix,
            if UsesPolicy(r, given, main) then RedirectOnly
            else if ByResponse(web, main, finalUrl) then DocumentResponse else RedirectLocation))
  {
    RedirectExactly(web, if given.Some? then given.value else r.redirectCapture, r.events, main, finalUrl, suffix);
    DirectExactly(web, main, finalUrl, suffix);
    hide RedirectDecision, DirectDecision, ByPolicy, ByResponse, ByLocation, Destination, UsesPolicy;
  }

  lemma OneLast(events: seq<Event>, k: nat)
    requires LastDocument(events, k)
    ensures forall l: nat | LastDocument(events, l) :: l == k
  {
  }

  // ---------- the payload ----------

  /** Entry i is the last of its name, letter case aside. */
  ghost predicate LastNamed(web: Web, headers: Headers, i: nat) {
    i < |headers| && forall k: nat | i < k < |headers| :: web.lower(headers[k].0) != web.lower(headers[i].0)
  }

  ghost predicate NamedOnce(headers: Headers) {
    forall i, k | 0 <= i < k < |headers| :: headers[i].0 != headers[k].0
  }

  /** The headers of a run without a policy: the last location and the last cf-mitigated, under lower-case names. */
  ghost predicate LastTwo(web: Web, headers: Headers, kept: Headers) {
    && NamedOnce(kept)
    && forall h :: h in kept <==>
         h.0 in ["cf-mitigated", "location"]
         && exists i: nat :: LastNamed(web, headers, i) && web.lower(headers[i].0) == h.0 && headers[i].1 == h.1
  }

  lemma {:induction false} PutExactly(headers: Headers, name: string, value: string)
    requires NamedOnce(headers)
    ensures NamedOnce(Put(headers, name, value))
    ensures forall h :: h in Put(headers, name, value) <==> if h.0 == name then h.1 == value else h in headers
  {
    if headers != [] && headers[0].0 != name {
      assert headers == [headers[0]] + headers[1..];
      PutExactly(headers[1..], name, value);
    } else if headers != [] {
      assert headers == [headers[0]] + headers[1..];
    }
  }

  lemma {:induction false} ReducedExactly(web: Web, headers: Headers)
    ensures LastTwo(web, headers, Reduced(web, headers))
  {
    if headers != [] {
      var n := |headers| - 1;
      ReducedExactly(web, headers[..n]);
      var name := web.lower(headers[n].0);
      PutExactly(Reduced(web, headers[..n]), name, headers[n].1);
      EarlierNames(web, headers);
      hide LastNamed, Put, NamedOnce;
    }
  }

  /** One entry more hides the earlier ones of its name. */
  lemma EarlierNames(web: Web, headers: Headers)
    requires headers != []
    ensures var n := |headers| - 1;
      && LastNamed(web, headers, n)
      && (forall i: nat | i < n :: headers[i] == headers[..n][i])
      && forall i: nat | i < n :: LastNamed(web, headers, i) <==>
           LastNamed(web, headers[..n], i) && web.lower(headers[i].0) != web.lower(headers[n].0)
  {
  }

  /** The headers of a run with a policy: the entries of four names, as often as they occur. */
  ghost predicate FourNames(web: Web, headers: Headers, kept: Headers) {
    forall h :: multiset(kept)[h] ==
      if web.lower(h.0) in ["cf-mitigated", "cf-ray", "retry-after", "location"] then multiset(headers)[h] else 0
  }

  lemma {:induction false} FilteredExactly(web: Web, headers: Headers)
    ensures FourNames(web, headers, Filtered(web, headers))
  {
    if headers != [] {
      FilteredExactly(web, headers[1..]);
      assert headers == [headers[0]] + headers[1..];
    }
  }

  /** Headers and documents keep their order. */
  lemma {:induction false} FilteredByPieces(web: Web, a: Headers, b: Headers)
    ensures Filtered(web, a + b) == Filtered(web, a) + Filtered(web, b)
  {
    if a == [] {
      assert a + b == b;
    } else {
      assert (a + b)[1..] == a[1..] + b;
      FilteredByPieces(web, a[1..], b);
    }
  }

  lemma {:induction false} DocumentsByPieces(a: seq<Event>, b: seq<Event>)
    ensures Documents(a + b) == Documents(a) + Documents(b)
  {
    if a == [] {
      assert a + b == b;
    } else {
      assert (a + b)[1..] == a[1..] + b;
      DocumentsByPieces(a[1..], b);
    }
  }

  ghost function TextOf(s: Option<string>): Option<string> { Some(if s.Some? then s.value else "") }

  /** Address, method, status and time of the response, the capture path, and the two headers. */
  ghost predicate Reports(web: Web, e: Event, f: Event) {
    && e.signal.Some? && f == e.(headers := f.headers, body := "",
         signal := Some(Signal("true", TextOf(e.signal.value.path), None, None)))
    && LastTwo(web, e.headers, f.headers)
  }

  /** ... or the four headers, and what the browser said about the policy. */
  ghost predicate ReportsPolicy(web: Web, e: Event, f: Event) {
    && e.signal.Some? && f == e.(headers := f.headers, body := "",
         signal := Some(Signal("true", TextOf(e.signal.value.path), TextOf(e.signal.value.visited),
                               TextOf(e.signal.value.guard))))
    && FourNames(web, e.headers, f.headers)
  }

  lemma ReportsOne(web: Web, e: Event)
    requires IsMain(e)
    ensures ReportsPolicy(web, e, FilteredEvent(web, e))
  {
    FilteredExactly(web, e.headers);
    hide Filtered, FourNames;
  }

  lemma {:induction false} FilteredEventsExactly(web: Web, documents: seq<Event>)
    requires forall e | e in documents :: IsMain(e)
    ensures |FilteredEvents(web, documents)| == |documents|
    ensures forall i | 0 <= i < |documents| :: ReportsPolicy(web, documents[i], FilteredEvents(web, documents)[i])
  {
    if documents != [] {
      FilteredEventsExactly(web, documents[1..]);
      ReportsOne(web, documents[0]);
      hide FilteredEvent;
      forall i | 0 < i < |documents| ensures ReportsPolicy(web, documents[i], FilteredEvents(web, documents)[i]) {
        assert documents[1..][i - 1] == documents[i];
        hide ReportsPolicy;
      }
    }
  }

  /**
    A payload is built exactly for an accepted run. It keeps verdict, challenge, error, policy and session,
    and reports the last main document, or under a policy all of them in order.
  */
  lemma PayloadExactly(web: Web, r: RunResult)
    ensures Payload(web, r).Ok? <==> Evaluate(web, r, None).Accepted?
    ensures Payload(web, r).Ok? ==>
      var p := Payload(web, r).value;
      && p == r.(events := p.events)
      && (r.redirectCapture.Some? ==>
            && |p.events| == |Documents(r.events)|
            && forall i | 0 <= i < |p.events| :: ReportsPolicy(web, Documents(r.events)[i], p.events[i]))
      && (r.redirectCapture.None? ==>
            |p.events| == 1 && exists k: nat :: LastDocument(r.events, k) && Reports(web, r.events[k], p.events[0]))
  {
    AcceptedExactly(web, r, None);
    hide Evaluate, Undisturbed, Confirmed;
    if Payload(web, r).Ok? {
      var documents := Documents(r.events);
      DocumentsExactly(r.events);
      FilteredEventsExactly(web, documents);
      var k: nat :| LastDocument(r.events, k);
      ReducedExactly(web, r.events[k].headers);
      assert r.events[k] == documents[|documents| - 1] && IsMain(r.events[k]);
      hide FilteredEvents, Reduced, LastTwo, FourNames, Documents, LastDocument;
      assert r.redirectCapture.None? ==> Reports(web, r.events[k], Payload(web, r).value.events[0]);
    }
  }
}
