/**
 One invocation from the call to the answer: which request leaves, what it carries, and what the
 agent gets back (passd/service.py: `invoke_capability`).
 */
module Invocation {
  import opened Wrappers
  import opened Text
  import opened Urls
  import opened Json
  import opened Capabilities
  import opened Definitions
  import opened Outbound
  import opened Redaction
  import opened Store
  import opened Leases
  import opened Lookups
  import opened Admission
  import opened Verdicts

  /** The request that goes out under a lease: the approved target, path, method and headers, and the text of the secret in its header. */
  ghost predicate SentFor(request: Request, leaseId: string, agentId: string, d: Definition, name: string, path: string, text: string, body: Option<string>) {
    && request.leaseId == leaseId && request.agentId == agentId && request.verb == name && request.body == body
    && request.url == d.scheme + "://" + AuthorityText(d) + path && UrlSplit(request.url) == SplitUrl(d.scheme, AuthorityText(d), path, "", "")
    && d.injectHeader in request.headers && request.headers[d.injectHeader] == d.injectPrefix + text
    && (forall key :: key in request.headers && key != d.injectHeader ==> key in d.staticHeaders && request.headers[key] == d.staticHeaders[key])
    && (forall key :: key in d.staticHeaders ==> key in request.headers && request.headers[key] == d.staticHeaders[key])
    && forall key :: key in request.headers && Lower(key) == Lower(d.injectHeader) ==> key == d.injectHeader
  }

  lemma RequestExactly(leaseId: string, agentId: string, d: Definition, verb: string, path: string, text: string, body: Option<string>)
    requires Stored(d) && ValidateInvocation(d, verb, path).Ok?
    ensures var (name, sent) := ValidateInvocation(d, verb, path).value;
            SentFor(Request(leaseId, agentId, Url(d, sent), name, Headers(d, text), body), leaseId, agentId, d, name, sent, text, body)
  {
    hide Url, UrlSplit, ValidateInvocation, AuthorityText, Headers, Stored, Lower;
    UrlIsExact(d, verb, path);
    HeadersAreExact(d, text);
  }

  /** What comes back: the concealed response, or an error if none arrives. */
  predicate Answered(r: Result<Answer>, response: Option<Response>, text: string) {
    match response
    case None => r == Err(Internal)
    case Some(arrived) => r == Conceal(arrived, text)
  }

  /**
   The outcome of the candidate loop decides: without a grant, with a value that has no text, or
   with a target that is refused, nothing leaves; otherwise one request leaves and its response is concealed.
   */
  ghost predicate SentOut(out: Outcome, sentBefore: seq<Request>, sentAfter: seq<Request>, r: Result<Answer>, agent: Agent, d: Definition, name: string, path: string,
                       body: Option<string>, allowPrivate: bool, resolve: string -> Resolution, respond: Request -> Option<Response>)
  {
    match out
    case NoLease => r == Err(PermissionDenied) && sentAfter == sentBefore
    case NoField => r == Err(NotFound) && sentAfter == sentBefore
    case Granted(id, secret) =>
      if secret.Null? || secret.Arr? || secret.Obj? then r == Err(ValidationError) && sentAfter == sentBefore
      else if Refusal(d, agent.allowedHosts, allowPrivate, resolve).Some? then
        r == Err(Refusal(d, agent.allowedHosts, allowPrivate, resolve).value) && sentAfter == sentBefore
      else exists request, text ::
        && TextOf(secret, text) && SentFor(request, id, agent.id, d, name, path, text, body)
        && sentAfter == sentBefore + [request] && Answered(r, respond(request), text)
  }

  /** What is known of a call that may take the lock. */
  lemma CallIsPermitted(agent: Agent, catalog: Catalog, capabilityId: string, verb: string, path: string, reason: Option<string>)
    requires CapabilityQuery(agent, catalog, capabilityId, verb, path, reason).Ok?
    requires forall id :: id in catalog ==> Stored(catalog[id].definition)
    ensures var q := CapabilityQuery(agent, catalog, capabilityId, verb, path, reason).value;
            Stored(q.definition) && ValidateInvocation(q.definition, verb, path) == Ok((q.verb, q.path))
  {
    hide Stored, ValidateInvocation, HostAllowed;
  }

  /**
   The whole call. One that is not permitted, or whose host is outside the ceiling, changes nothing;
   any other is decided by the loop over the leases for exactly the permitted call.
   */
  ghost predicate Invoked(rootKey: string, before: Requests, after: Requests, sentBefore: seq<Request>, sentAfter: seq<Request>, r: Result<Answer>,
                          agent: Agent, catalog: Catalog, capabilityId: string, verb: string, path: string, body: Option<string>, reason: Option<string>,
                          items: map<string, Item>, ts: int, allowPrivate: bool, resolve: string -> Resolution, respond: Request -> Option<Response>)
  {
    var id := Lower(Strip(capabilityId));
    && ((forall name, sent :: !CallAsked(agent, catalog, capabilityId, verb, path, reason, name, sent)) ==> r.Err? && after == before && sentAfter == sentBefore)
    && forall name, sent :: CallAsked(agent, catalog, capabilityId, verb, path, reason, name, sent) ==>
         if !Within(catalog[id].definition.host, agent.allowedHosts) then r == Err(PermissionDenied) && after == before && sentAfter == sentBefore
         else exists out ::
           && Decided(rootKey, before, after, out, agent.id, CallQuery(id, catalog[id].version, catalog[id].definition, name, sent), items, ts)
           && SentOut(out, sentBefore, sentAfter, r, agent, catalog[id].definition, name, sent, body, allowPrivate, resolve, respond)
  }

  lemma RefusedIsInvoked(rootKey: string, before: Requests, sent: seq<Request>, r: Result<Answer>,
                         agent: Agent, catalog: Catalog, capabilityId: string, verb: string, path: string, body: Option<string>, reason: Option<string>,
                         items: map<string, Item>, ts: int, allowPrivate: bool, resolve: string -> Resolution, respond: Request -> Option<Response>)
    requires var q := CapabilityQuery(agent, catalog, capabilityId, verb, path, reason); q.Err? && r == Err(q.error)
    ensures Invoked(rootKey, before, before, sent, sent, r, agent, catalog, capabilityId, verb, path, body, reason, items, ts, allowPrivate, resolve, respond)
  {
    hide CapabilityQuery, CallAsked, Within, Decided, SentOut, Strip, Lower;
    CapabilityQueryExactly(agent, catalog, capabilityId, verb, path, reason);
    AskedIsThere(agent, catalog, capabilityId, verb, path, reason);
  }

  lemma AskedIsThere(agent: Agent, catalog: Catalog, capabilityId: string, verb: string, path: string, reason: Option<string>)
    ensures forall name, sent :: CallAsked(agent, catalog, capabilityId, verb, path, reason, name, sent) ==> Lower(Strip(capabilityId)) in catalog
  {
    hide Permits, Strip, Lower;
  }

  lemma DecidedIsInvoked(rootKey: string, before: Requests, after: Requests, sentBefore: seq<Request>, sentAfter: seq<Request>, r: Result<Answer>, out: Outcome,
                         agent: Agent, catalog: Catalog, capabilityId: string, verb: string, path: string, body: Option<string>, reason: Option<string>,
                         items: map<string, Item>, ts: int, allowPrivate: bool, resolve: string -> Resolution, respond: Request -> Option<Response>)
    requires CapabilityQuery(agent, catalog, capabilityId, verb, path, reason).Ok?
    requires var q := CapabilityQuery(agent, catalog, capabilityId, verb, path, reason).value;
             && Decided(rootKey, before, after, out, agent.id, q, items, ts)
             && SentOut(out, sentBefore, sentAfter, r, agent, q.definition, q.verb, q.path, body, allowPrivate, resolve, respond)
    ensures Invoked(rootKey, before, after, sentBefore, sentAfter, r, agent, catalog, capabilityId, verb, path, body, reason, items, ts, allowPrivate, resolve, respond)
  {
    hide CapabilityQuery, CallAsked, Within, Decided, SentOut, Strip, Lower;
    CapabilityQueryExactly(agent, catalog, capabilityId, verb, path, reason);
    AskedIsThere(agent, catalog, capabilityId, verb, path, reason);
  }
}
