/**
 The service object: one lease table and one capability catalog above the encrypted store.
 Each method that takes the database lock in passd/service.py is one method here, with the same
 loops; the clock and random ids are arguments.
 */
module Service {
  import opened Wrappers
  import opened Text
  import opened Urls
  import opened Json
  import opened Authority
  import opened Capabilities
  import opened Definitions
  import opened Outbound
  import opened Ordering
  import opened Refs
  import opened Store
  import opened Leases
  import opened Lookups
  import opened Admission
  import opened Verdicts
  import opened Invocation
  import opened Consumption
  import opened Runs
  import opened Outcomes

  class PassdService {
    const rootKey: string
    const allowPrivate: bool
    const vaults: VaultStore
    var requests: Requests
    var catalog: Catalog
    var outbound: seq<Request>

    ghost predicate Valid()
      reads this, vaults
    {
      vaults.Valid() && forall id :: id in catalog ==> Stored(catalog[id].definition)
    }

    constructor (rootKey: string, allowPrivate: bool, vaults: VaultStore)
      requires vaults.Valid()
      ensures Valid() && this.rootKey == rootKey && this.allowPrivate == allowPrivate && this.vaults == vaults
      ensures requests == map[] && catalog == map[] && outbound == []
    {
      this.rootKey, this.allowPrivate, this.vaults := rootKey, allowPrivate, vaults;
      requests, catalog, outbound := map[], map[], [];
    }

    // ---------- asking ----------

    /** The critical section of both request methods: look for an exact retry, then count, then insert. */
    method SubmitRequest(id: string, agentId: string, action: Action, host: Option<string>, content: Content, ts: int) returns (r: Result<string>)
      modifies this`requests
      ensures (requests, r) == Submit(old(requests), id, agentId, action, host, content, ts)
    {
      var waiting := PendingOf(requests, agentId);
      var stamps := CreationStamps(requests, waiting);
      var pending := InOrder(stamps);
      InOrderAscending(stamps);
      ghost var retries := RetriesOf(requests, agentId, action, host, content);
      for i := 0 to |pending|
        invariant requests == old(requests)
        invariant forall k :: 0 <= k < i ==> pending[k] !in retries
      {
        assert pending[i] in pending;
        if SameRequest(requests[pending[i]], action, host, content) {
          FirstListedIsEarliest(stamps, CreationStamps(requests, retries), i);
          return Ok(pending[i]);
        }
      }
      assert retries == {} by {
        assert forall other :: other in retries ==> other in pending;
      }
      if |waiting| >= MAX_PENDING_PER_AGENT {
        return Err(Conflict);
      }
      if id in requests {
        return Err(Internal);
      }
      requests := requests[id := NewRow(id, agentId, action, host, content, ts)];
      return Ok(id);
    }

    method RequestAccess(agent: Agent, uri: string, action: Action, targetHost: Option<string>, reason: Option<string>, ttl: int, uses: int, id: string, clock: int)
      returns (r: Result<string>)
      modifies this`requests
      ensures match PrepareAccess(agent, uri, action, targetHost, reason, ttl, uses)
              case Err(e) => r == Err(e) && requests == old(requests)
              case Ok((host, content)) => (requests, r) == Submit(old(requests), id, agent.id, action, host, content, clock)
      ensures !AccessAsked(agent, uri, action, targetHost, reason, ttl, uses) ==> r.Err? && requests == old(requests)
      ensures AccessAsked(agent, uri, action, targetHost, reason, ttl, uses) ==>
                if AccessWithin(agent, action, targetHost)
                then Queued(old(requests), requests, r, id, agent.id, action, AccessHost(action, targetHost),
                            Content(Secret(ParsePassRef(uri).value), Strip(reason.value), ttl, uses), clock)
                else r == Err(PermissionDenied) && requests == old(requests)
    {
      hide PrepareAccess, Queued, AccessAsked, AccessWithin, ParsePassRef, Strip, Submit;
      PreparedAccess(agent, uri, action, targetHost, reason, ttl, uses);
      var prepared := PrepareAccess(agent, uri, action, targetHost, reason, ttl, uses);
      if prepared.Err? {
        return Err(prepared.error);
      }
      SubmitOutcome(requests, id, agent.id, action, prepared.value.0, prepared.value.1, clock);
      r := SubmitRequest(id, agent.id, action, prepared.value.0, prepared.value.1, clock);
    }

    method RequestCapability(agent: Agent, capabilityId: string, verb: string, path: string, reason: Option<string>, ttl: int, uses: int, id: string, clock: int)
      returns (r: Result<string>)
      modifies this`requests
      ensures match PrepareCapability(agent, catalog, capabilityId, verb, path, reason, ttl, uses)
              case Err(e) => r == Err(e) && requests == old(requests)
              case Ok((host, content)) => (requests, r) == Submit(old(requests), id, agent.id, CapabilityInvoke, host, content, clock)
      ensures (forall name, sent :: !CapabilityAsked(agent, catalog, capabilityId, verb, path, reason, ttl, uses, name, sent)) ==> r.Err? && requests == old(requests)
      ensures forall name, sent :: CapabilityAsked(agent, catalog, capabilityId, verb, path, reason, ttl, uses, name, sent) ==>
                var key := Lower(Strip(capabilityId));
                if Within(catalog[key].definition.host, agent.allowedHosts)
                then Queued(old(requests), requests, r, id, agent.id, CapabilityInvoke, Some(catalog[key].definition.host),
                            Content(Call(key, catalog[key].version, name, sent), Strip(reason.value), ttl, uses), clock)
                else r == Err(PermissionDenied) && requests == old(requests)
    {
      hide PrepareCapability, Queued, CapabilityAsked, Within, Strip, Lower, Submit;
      PreparedCapability(agent, catalog, capabilityId, verb, path, reason, ttl, uses);
      AskedCapability(agent, catalog, capabilityId, verb, path, reason, ttl, uses);
      var prepared := PrepareCapability(agent, catalog, capabilityId, verb, path, reason, ttl, uses);
      if prepared.Err? {
        return Err(prepared.error);
      }
      SubmitOutcome(requests, id, agent.id, CapabilityInvoke, prepared.value.0, prepared.value.1, clock);
      r := SubmitRequest(id, agent.id, CapabilityInvoke, prepared.value.0, prepared.value.1, clock);
    }

    /** An accepted definition becomes the current one under its id; a refused one changes nothing. */
    method PutCapability(raw: RawDefinition) returns (r: Result<string>)
      requires Valid()
      modifies this`catalog
      ensures Valid()
      ensures match NormalizeDefinition(raw, allowPrivate)
              case Err(e) => r == Err(e) && catalog == old(catalog)
              case Ok(d) =>
                r == Ok(DefinitionVersion(rootKey, d)) && catalog == old(catalog)[d.id := CapabilityRow(DefinitionVersion(rootKey, d), d)]
      ensures r.Ok? <==> ProperHead(raw) && ProperTail(raw) && (Lower(Strip(Or(raw.scheme, "https"))) == "http" ==> allowPrivate)
      ensures r.Err? ==> catalog == old(catalog) && (r.error == PermissionDenied || r.error == ValidationError)
      ensures r.Ok? ==>
                var id := Lower(Strip(Or(raw.id, "")));
                && id in catalog && catalog == old(catalog)[id := catalog[id]] && r.value == catalog[id].version
                && catalog[id].version == DefinitionVersion(rootKey, catalog[id].definition) && StoredFrom(catalog[id].definition, raw)
    {
      hide NormalizeDefinition, DefinitionVersion, Stored, ProperHead, ProperTail, StoredFrom, Strip, Lower;
      NormalizedExactly(raw, allowPrivate);
      if ProperHead(raw) { StoredId(raw, allowPrivate); }
      var normalized := NormalizeDefinition(raw, allowPrivate);
      if normalized.Err? {
        return Err(normalized.error);
      }
      AcceptedIsStored(raw, allowPrivate);
      var d := normalized.value;
      var version := DefinitionVersion(rootKey, d);
      catalog := catalog[d.id := CapabilityRow(version, d)];
      return Ok(version);
    }

    // ---------- reviewing ----------

    /** The item and the field that a selector names now, with the value there. */
    method Resolve(selector: Selector) returns (r: Result<Bound>)
      requires Valid()
      ensures r == ResolveSelector(vaults.Contents(), selector)
      ensures forall bound :: r == Ok(bound) <==> NamesBound(vaults.Contents(), selector, bound)
      ensures r.Err? ==> NamesNothing(vaults.Contents(), selector, r.error)
    {
      hide NamesBound, NamesNothing;
      ResolveExactly(vaults.Contents(), selector);
      var item := vaults.ResolveItem(selector.vault, selector.item);
      if item.Err? {
        return Err(item.error);
      }
      if selector.field.None? {
        return Err(ValidationError);
      }
      var payload := vaults.ReadItem(item.value);
      var secret := ExtractField(payload.value, selector.field.value);
      r := if secret.Err? then Err(secret.error) else Ok(Bound(item.value, selector.field.value, secret.value));
    }

    /** What an approval finds: the current definition is compared and checked, the reference is resolved, the field is read. */
    method ReviewPending(row: Row) returns (review: Review)
      requires Valid()
      ensures review == ReviewRow(row, catalog, vaults.Contents())
    {
      hide ValidateInvocation, ResolveSelector, ParsePassRef, CapabilityKey, Stored, View, PlainValid, KeysOwned, Openable, NamesBound;
      var selector: Result<Selector>;
      var capability: Option<string> := None;
      match row.payload.content.target {
        case Call(capabilityId, capabilityVersion, verb, path) =>
          var key := CapabilityKey(capabilityId);
          if key !in catalog || catalog[key].version != capabilityVersion {
            return TurnStale;
          }
          var call := ValidateInvocation(catalog[key].definition, verb, path);
          if call.Err? {
            return Refuse(call.error);
          }
          selector, capability := ParsePassRef(catalog[key].definition.backingUri), Some(catalog[key].version);
        case Secret(s) =>
          selector := Ok(s);
      }
      if selector.Err? {
        return Refuse(selector.error);
      }
      var bound := Resolve(selector.value);
      review := if bound.Err? then Refuse(bound.error) else Grant(bound.value, capability);
    }

    method ApproveAccess(id: string, ttl: Option<int>, uses: Option<int>, note: Option<string>, clock: int) returns (r: Result<string>)
      requires Valid()
      modifies this`requests
      ensures (requests, r) == Approve(rootKey, old(requests), catalog, vaults.Contents(), id, ttl, uses, note, clock)
      ensures Reviewed(rootKey, old(requests), requests, r, catalog, vaults.Contents(), id, ttl, uses, note, clock)
    {
      hide ApprovedRow, ReviewRow, Stored, View, PlainValid, KeysOwned, Openable, Staled, Reviewed;
      ApproveOutcome(rootKey, requests, catalog, vaults.Contents(), id, ttl, uses, note, clock);
      if id !in requests {
        return Err(NotFound);
      }
      var row := requests[id];
      if row.status != Pending {
        return Err(Conflict);
      }
      var review := ReviewPending(row);
      match review {
        case TurnStale =>
          requests := MarkStale(requests, id, Pending, clock);
          return Err(Conflict);
        case Refuse(e) =>
          return Err(e);
        case Grant(bound, capability) =>
          requests := requests[id := ApprovedRow(rootKey, id, row, bound, capability, ttl, uses, note, clock)];
          return Ok(id);
      }
    }

    method DenyAccess(id: string, note: Option<string>, clock: int) returns (r: Result<string>)
      modifies this`requests
      ensures (requests, r) == Deny(old(requests), id, note, clock)
      ensures r.Ok? <==> id in old(requests) && old(requests)[id].status == Pending
      ensures r.Err? ==> requests == old(requests) && r.error == if id in old(requests) then Conflict else NotFound
      ensures r.Ok? ==>
                && r.value == id && id in requests && NoteKept(note, requests[id].payload.decisionNote)
                && requests == old(requests)[id := old(requests)[id].(status := Denied, reviewedAt := Some(clock),
                                                                      payload := old(requests)[id].payload.(decisionNote := requests[id].payload.decisionNote))]
                && forall agentId, q, ts :: !Live(requests[id], agentId, q, ts)
    {
      if id !in requests {
        return Err(NotFound);
      }
      var row := requests[id];
      if row.status != Pending {
        return Err(Conflict);
      }
      var payload := row.payload.(decisionNote := Note(note));
      requests := requests[id := row.(payload := payload, status := Denied, reviewedAt := Some(clock))];
      return Ok(id);
    }

    method RevokeAccess(id: string, clock: int) returns (r: Result<string>)
      modifies this`requests
      ensures (requests, r) == Revoke(old(requests), id, clock)
      ensures r.Ok? <==> id in old(requests) && old(requests)[id].status == Approved
      ensures r.Err? ==> requests == old(requests) && r.error == if id in old(requests) then Conflict else NotFound
      ensures r.Ok? ==>
                && r.value == id && id in requests
                && requests == old(requests)[id := old(requests)[id].(status := Revoked, reviewedAt := Some(clock))]
                && forall agentId, q, ts :: !Live(requests[id], agentId, q, ts)
    {
      if id !in requests {
        return Err(NotFound);
      }
      if requests[id].status != Approved {
        return Err(Conflict);
      }
      requests := requests[id := requests[id].(status := Revoked, reviewedAt := Some(clock))];
      return Ok(id);
    }

    // ---------- consuming ----------

    /** The version checks of one matching candidate: the item row is read and opened here. */
    method CheckCandidate(row: Row, q: Query) returns (v: Verdict)
      requires Valid()
      ensures v == Judge(rootKey, row, q, vaults.Contents().items)
      ensures Judged(v, rootKey, row, q, vaults.Contents().items)
    {
      hide QueryField, CredentialVersion, Judged;
      JudgeExactly(rootKey, row, q, vaults.Contents().items);
      var target := row.payload.content.target;
      if q.CallQuery? && target.Call? && target.capabilityVersion != q.version {
        return NotCurrent;
      }
      if row.itemId.None? || row.itemId.value !in vaults.items || QueryField(q).None? {
        return NotCurrent;
      }
      if q.SecretQuery? && row.payload.credentialVersion.None? {
        return NotCurrent;
      }
      var id, field := row.itemId.value, QueryField(q).value;
      var payload := vaults.ReadItem(id);
      var secret := ExtractField(payload.value, field);
      if secret.Err? {
        return FieldGone;
      }
      var version := CredentialVersion(rootKey, id, field, secret.value);
      v := if row.payload.credentialVersion == Some(version) then Current(secret.value) else NotCurrent;
    }

    /**
     The candidate loop. Besides being the function `Consume` of the tables, its result is stated
     outright: the first stopping row decides, the stale rows before it are marked, and nothing
     else changes.
     */
    method ConsumeGrant(agentId: string, q: Query, ts: int) returns (out: Outcome)
      requires Valid()
      modifies this`requests
      ensures (requests, out) == Consume(rootKey, old(requests), agentId, q, vaults.Contents().items, ts)
      ensures requests.Keys == old(requests).Keys
      ensures forall id :: id in old(requests) ==> requests[id] == RowAfter(rootKey, old(requests), agentId, q, vaults.Contents().items, ts, id)
      ensures Decided(rootKey, old(requests), requests, out, agentId, q, vaults.Contents().items, ts)
    {
      hide Decided, Judged, Reads, KeysOwned;
      hide Judge, Matches, RowAfter, StopOutcome, Stoppers, Stored, View, PlainValid, Openable, Candidates, Live;
      ConsumeExact(rootKey, requests, agentId, q, vaults.Contents().items, ts);
      ConsumeDecides(rootKey, requests, agentId, q, vaults.Contents().items, ts);
      var candidates := Candidates(requests, agentId, q, ts);
      for i := 0 to |candidates|
        invariant Scan(rootKey, requests, candidates[i..], q, vaults.Contents().items, ts)
               == Consume(rootKey, old(requests), agentId, q, vaults.Contents().items, ts)
      {
        var c := candidates[i];
        assert candidates[i..][0] == c && candidates[i..][1..] == candidates[i + 1..];
        if Matches(c.row, q) {
          var verdict := CheckCandidate(c.row, q);
          match verdict {
            case NotCurrent =>
              requests := MarkStale(requests, c.id, Approved, ts);
            case FieldGone =>
              return NoField;
            case Current(secret) =>
              if c.id in requests && ClaimGuard(requests[c.id], ts) {
                requests := requests[c.id := Claimed(requests[c.id])];
                return Granted(c.id, secret);
              }
          }
        }
      }
      return NoLease;
    }

    method ConsumeExactGrant(agent: Agent, action: Action, uri: string, targetHost: Option<string>, reason: Option<string>, clock: int)
      returns (r: Result<(string, Value)>)
      requires Valid() && action != CapabilityInvoke
      modifies this`requests
      ensures match ExactQuery(agent, action, uri, targetHost, reason)
              case Err(e) => r == Err(e) && requests == old(requests)
              case Ok(q) =>
                var (after, out) := Consume(rootKey, old(requests), agent.id, q, vaults.Contents().items, clock);
                requests == after && r == OutcomeResult(out)
      ensures !UseAsked(agent, action, uri, targetHost, reason) ==> r.Err? && requests == old(requests)
      ensures !Reasoned(reason) ==> r == Err(PermissionDenied)
      ensures UseAsked(agent, action, uri, targetHost, reason) ==> exists out ::
                && Decided(rootKey, old(requests), requests, out, agent.id, UseQuery(action, uri, targetHost), vaults.Contents().items, clock)
                && (match out
                    case Granted(id, secret) => r == Ok((id, secret))
                    case NoField => r == Err(NotFound)
                    case NoLease => r == Err(PermissionDenied))
    {
      hide ExactQuery, UseAsked, UseQuery, Consume, RowAfter, Decided, View, PlainValid, KeysOwned, Openable, Reasoned;
      ExactQueryExactly(agent, action, uri, targetHost, reason);
      var q := ExactQuery(agent, action, uri, targetHost, reason);
      if q.Err? {
        return Err(q.error);
      }
      var out := ConsumeGrant(agent.id, q.value, clock);
      r := OutcomeResult(out);
    }

    /** The definition is read from the catalog before the loop; a use stays spent if a later check fails. */
    method InvokeCapability(agent: Agent, capabilityId: string, verb: string, path: string, body: Option<string>, reason: Option<string>, clock: int,
                            resolve: string -> Resolution, respond: Request -> Option<Response>)
      returns (r: Result<Answer>)
      requires Valid()
      modifies this`requests, this`outbound
      ensures Invoked(rootKey, old(requests), requests, old(outbound), outbound, r, agent, catalog, capabilityId, verb, path, body, reason,
                      vaults.Contents().items, clock, allowPrivate, resolve, respond)
    {
      hide Consume, RowAfter, SecretText, TextOf, CapabilityQuery, Url, Headers, UrlSplit, PortSuffix, Stored, Refusal, ValidateTarget, HostAllowed, SentFor, Conceal;
      hide View, PlainValid, KeysOwned, Openable, Decided, Invoked, ValidateInvocation;
      ghost var before, sentBefore, items := requests, outbound, vaults.Contents().items;
      var query := CapabilityQuery(agent, catalog, capabilityId, verb, path, reason);
      if query.Err? {
        r := Err(query.error);
        RefusedIsInvoked(rootKey, before, sentBefore, r, agent, catalog, capabilityId, verb, path, body, reason, items, clock, allowPrivate, resolve, respond);
        return;
      }
      var q := query.value;
      CallIsPermitted(agent, catalog, capabilityId, verb, path, reason);
      TargetIsChecked(q.definition, verb, path, agent.allowedHosts, allowPrivate, resolve);
      var out := ConsumeGrant(agent.id, q, clock);
      r := Invoke(agent, q, verb, path, out, body, resolve, respond);
      DecidedIsInvoked(rootKey, before, requests, sentBefore, outbound, r, out, agent, catalog, capabilityId, verb, path, body, reason, items, clock, allowPrivate, resolve, respond);
    }

    /** After the lock is released: the secret's text, the check of the target, the request, and its concealed response. */
    method Invoke(agent: Agent, q: Query, verb: string, path: string, out: Outcome, body: Option<string>, resolve: string -> Resolution, respond: Request -> Option<Response>)
      returns (r: Result<Answer>)
      requires q.CallQuery? && Stored(q.definition) && ValidateInvocation(q.definition, verb, path) == Ok((q.verb, q.path))
      modifies this`outbound
      ensures SentOut(out, old(outbound), outbound, r, agent, q.definition, q.verb, q.path, body, allowPrivate, resolve, respond)
    {
      hide SecretText, TextOf, Url, Headers, UrlSplit, Stored, Refusal, ValidateTarget, SentFor, Conceal, ValidateInvocation;
      if !out.Granted? {
        return Err(OutcomeResult(out).error);
      }
      var text := SecretText(out.secret);
      SecretTextExactly(out.secret);
      if text.Err? {
        return Err(text.error);
      }
      var url := Url(q.definition, q.path);
      TargetIsChecked(q.definition, verb, path, agent.allowedHosts, allowPrivate, resolve);
      var refused := ValidateTarget(url, agent.allowedHosts, allowPrivate, resolve);
      if refused.Some? {
        return Err(refused.value);
      }
      var request := Request(out.id, agent.id, url, q.verb, Headers(q.definition, text.value), body);
      RequestExactly(out.id, agent.id, q.definition, verb, path, text.value, body);
      outbound := outbound + [request];
      var response := respond(request);
      if response.None? {
        return Err(Internal);
      }
      r := Conceal(response.value, text.value);
      assert Answered(r, respond(request), text.value);
    }
  }

  function OutcomeResult(out: Outcome): Result<(string, Value)> {
    match out
    case Granted(id, secret) => Ok((id, secret))
    case NoField => Err(NotFound)
    case NoLease => Err(PermissionDenied)
  }
}
