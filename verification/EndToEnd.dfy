/**
 From request to use: an approved lease serves the very call that asked for it, until it expires
 or its budget is spent, as long as the bound value and the definition have not changed. For an
 exact-secret lease this has one exception, which the theorem states as its exact condition.
 */
module EndToEnd {
  import opened Wrappers
  import opened Text
  import opened Json
  import opened Authority
  import opened Ordering
  import opened Refs
  import opened Capabilities
  import opened Store
  import opened Leases
  import opened Lookups
  import opened Admission
  import opened Consumption
  import opened Runs
  import opened Outcomes
  import opened Service

  /** The row of a request as it is after its approval and some uses. */
  function LeasedRow(rootKey: string, id: string, agentId: string, action: Action, host: Option<string>, content: Content, requestedAt: int,
                     bound: Bound, capability: Option<string>, ttl: Option<int>, uses: Option<int>, note: Option<string>, approvedAt: int, used: nat): Row
  {
    ApprovedRow(rootKey, id, NewRow(id, agentId, action, host, content, requestedAt), bound, capability, ttl, uses, note, approvedAt).(uses := used)
  }

  predicate StillHolds(items: map<string, Item>, bound: Bound) {
    bound.itemId in items && ExtractField(items[bound.itemId].payload, bound.field) == Ok(bound.secret)
  }

  /** Time and budget are left. */
  predicate Unspent(row: Row, ts: int) {
    row.expiresAt.Some? && ts < row.expiresAt.value && row.maxUses.Some? && row.uses < row.maxUses.value
  }

  /** The one exception: a reveal request that named the empty host stores it, and the consuming query looks for none. */
  predicate NamedEmptyHost(action: Action, targetHost: Option<string>) {
    action == SecretReveal && targetHost == Some("")
  }

  // ---------- rows ----------

  lemma LeasedColumns(rootKey: string, id: string, agentId: string, action: Action, host: Option<string>, content: Content, requestedAt: int,
                      bound: Bound, capability: Option<string>, ttl: Option<int>, uses: Option<int>, note: Option<string>, approvedAt: int, used: nat)
    ensures var row := LeasedRow(rootKey, id, agentId, action, host, content, requestedAt, bound, capability, ttl, uses, note, approvedAt, used);
            && row.agentId == agentId && row.action == action && row.targetHost == host && row.status == Approved && row.payload.content == content
            && row.itemId == Some(bound.itemId)
            && row.payload.credentialVersion == Some(CredentialVersion(rootKey, bound.itemId, bound.field, bound.secret))
  {
    hide CredentialVersion, ApprovalDigest, RequestDigest, Note, ApprovedTtl, ApprovedUses;
  }

  lemma SecretQueryFits(agent: Agent, uri: string, action: Action, targetHost: Option<string>, reason: Option<string>, ttl: int, uses: int, reason': Option<string>)
    requires PrepareAccess(agent, uri, action, targetHost, reason, ttl, uses).Ok? && HasReason(reason')
    ensures ExactQuery(agent, action, uri, targetHost, reason').Ok?
    ensures var (host, content) := PrepareAccess(agent, uri, action, targetHost, reason, ttl, uses).value;
            var q := ExactQuery(agent, action, uri, targetHost, reason').value;
            && content.target.Secret? && q.SecretQuery? && q == SecretQuery(action, content.target.selector, q.host) && q.selector.field.Some?
            && (host == q.host <==> !NamedEmptyHost(action, targetHost))
  {
    hide ParsePassRef, NormalizeHost, HostAllowed, HasReason;
  }

  lemma SecretRowJudged(rootKey: string, row: Row, q: Query, items: map<string, Item>, bound: Bound)
    requires q.SecretQuery? && row.payload.content.target == Secret(q.selector) && q.selector.field == Some(bound.field)
    requires row.itemId == Some(bound.itemId) && StillHolds(items, bound)
    requires row.payload.credentialVersion == Some(CredentialVersion(rootKey, bound.itemId, bound.field, bound.secret))
    ensures Matches(row, q) && Judge(rootKey, row, q, items) == Current(bound.secret)
  {
    hide CredentialVersion;
  }

  // ---------- tables ----------

  /** A live row that is current for the operation is never passed over in vain. */
  lemma CurrentRowServes(rootKey: string, requests: Requests, id: string, agentId: string, q: Query, items: map<string, Item>, ts: int)
    requires id in requests && Live(requests[id], agentId, q, ts) && Matches(requests[id], q) && Judge(rootKey, requests[id], q, items).Current?
    ensures var out := Consume(rootKey, requests, agentId, q, items, ts).1;
            && out != NoLease
            && (Selected(requests, agentId, q, ts).Keys == {id} ==> out == Granted(id, Judge(rootKey, requests[id], q, items).secret))
  {
    hide Judge, Live, Matches, Consume;
    var stops := Stoppers(rootKey, requests, agentId, q, items, ts);
    assert id in stops;
    ConsumeExact(rootKey, requests, agentId, q, items, ts);
    assert Earliest(stops) in Selected(requests, agentId, q, ts);
  }

  /**
   Exact-secret leases. In any later table that still holds the approved row with time and budget
   left, and with the bound value unchanged, the call with the arguments of the request finds the
   row if and only if it was not a reveal request with the empty host. If it finds it, the call is not refused for
   want of a lease, and if no other lease matches it is granted the approved value.
   */
  lemma SecretLeaseServesItsRequest(
    rootKey: string, agent: Agent, uri: string, action: Action, targetHost: Option<string>, reason: Option<string>, requestedTtl: int, requestedUses: int,
    id: string, requestedAt: int, catalog: Catalog, store: Plain, capability: Option<string>, ttl: Option<int>, uses: Option<int>, note: Option<string>, approvedAt: int,
    requests: Requests, used: nat, items: map<string, Item>, reason': Option<string>, ts: int)
    requires PrepareAccess(agent, uri, action, targetHost, reason, requestedTtl, requestedUses).Ok? && HasReason(reason')
    requires var (host, content) := PrepareAccess(agent, uri, action, targetHost, reason, requestedTtl, requestedUses).value;
             var row := NewRow(id, agent.id, action, host, content, requestedAt);
             && ReviewRow(row, catalog, store).Grant? && StillHolds(items, ReviewRow(row, catalog, store).bound)
             && id in requests
             && requests[id] == LeasedRow(rootKey, id, agent.id, action, host, content, requestedAt, ReviewRow(row, catalog, store).bound, capability, ttl, uses, note, approvedAt, used)
             && Unspent(requests[id], ts)
    ensures ExactQuery(agent, action, uri, targetHost, reason').Ok?
    ensures var q := ExactQuery(agent, action, uri, targetHost, reason').value;
            var out := Consume(rootKey, requests, agent.id, q, items, ts).1;
            && (id in Selected(requests, agent.id, q, ts) <==> !NamedEmptyHost(action, targetHost))
            && (!NamedEmptyHost(action, targetHost) ==> out != NoLease)
            && (Selected(requests, agent.id, q, ts).Keys == {id} ==> out.Granted? && out.id == id && StoredValue(items, requests[id], q) == Ok(out.secret))
  {
    hide ReviewRow, LeasedRow, PrepareAccess, ExactQuery, HasReason, Judge, Consume, QueryNames, ApprovedQuery;
    var (host, content) := PrepareAccess(agent, uri, action, targetHost, reason, requestedTtl, requestedUses).value;
    var row := NewRow(id, agent.id, action, host, content, requestedAt);
    var bound := ReviewRow(row, catalog, store).bound;
    SecretQueryFits(agent, uri, action, targetHost, reason, requestedTtl, requestedUses, reason');
    var q := ExactQuery(agent, action, uri, targetHost, reason').value;
    LeasedColumns(rootKey, id, agent.id, action, host, content, requestedAt, bound, capability, ttl, uses, note, approvedAt, used);
    SecretReviewField(row, catalog, store);
    SecretRowJudged(rootKey, requests[id], q, items, bound);
    assert Live(requests[id], agent.id, q, ts) <==> host == q.host;
    if host == q.host { CurrentRowServes(rootKey, requests, id, agent.id, q, items, ts); }
  }

  /** A request that is let in, and whose lease no call can ever use. */
  lemma EmptyHostIsLetIn(agent: Agent)
    requires {"access.request", "secret.reveal"} <= agent.scopes
    ensures PrepareAccess(agent, PrintRef("v", "i", "f"), SecretReveal, Some(""), Some("r"), 60, 1).Ok? && NamedEmptyHost(SecretReveal, Some(""))
  {
    hide ParsePassRef, PrintRef, Strip;
    ParsePrintRef("v", "i", "f");
    StripPlain("r");
  }

  /** The value now in the field that the row and the operation name. */
  function StoredValue(items: map<string, Item>, row: Row, q: Query): Result<Value> {
    if row.itemId.None? || row.itemId.value !in items || QueryField(q).None? then Err(NotFound)
    else ExtractField(items[row.itemId.value].payload, QueryField(q).value)
  }

  lemma SecretReviewField(row: Row, catalog: Catalog, store: Plain)
    requires ReviewRow(row, catalog, store).Grant? && row.payload.content.target.Secret?
    ensures row.payload.content.target.selector.field == Some(ReviewRow(row, catalog, store).bound.field)
  {
    hide FindItem;
  }

  // ---------- capabilities ----------

  lemma CallQueryFits(agent: Agent, catalog: Catalog, capabilityId: string, verb: string, path: string, reason: Option<string>, ttl: int, uses: int, reason': Option<string>)
    requires PrepareCapability(agent, catalog, capabilityId, verb, path, reason, ttl, uses).Ok? && HasReason(reason')
    ensures CapabilityQuery(agent, catalog, capabilityId, verb, path, reason').Ok?
    ensures var (host, content) := PrepareCapability(agent, catalog, capabilityId, verb, path, reason, ttl, uses).value;
            var q := CapabilityQuery(agent, catalog, capabilityId, verb, path, reason').value;
            && q.CallQuery? && content.target == Call(q.capabilityId, q.version, q.verb, q.path)
            && q.capabilityId == CapabilityKey(capabilityId) && q.capabilityId in catalog && catalog[q.capabilityId] == CapabilityRow(q.version, q.definition)
  {
    hide ValidateInvocation, HostAllowed, HasReason, CapabilityKey;
  }

  lemma LowerEnds(s: string)
    ensures |Lower(s)| == |s| && forall c :: c in Lower(s) ==> LowerChar(c) == c
    ensures forall i :: 0 <= i < |s| ==> (IsSpace(Lower(s)[i]) <==> IsSpace(s[i]))
  {
  }

  lemma KeyTwice(ref: string)
    ensures CapabilityKey(CapabilityKey(ref)) == CapabilityKey(ref)
  {
    hide Strip, Lower;
    var key := CapabilityKey(ref);
    LowerEnds(Strip(ref));
    StripPlain(key);
    LowerPlain(key);
  }

  lemma CallReviewField(row: Row, catalog: Catalog, store: Plain)
    requires ReviewRow(row, catalog, store).Grant? && row.payload.content.target.Call?
    ensures var key := CapabilityKey(row.payload.content.target.capabilityId);
            key in catalog && BackingField(catalog[key].definition) == Some(ReviewRow(row, catalog, store).bound.field)
  {
    hide FindItem, ParsePassRef, ValidateInvocation, CapabilityKey;
  }

  lemma CallRowJudged(rootKey: string, row: Row, q: Query, items: map<string, Item>, bound: Bound)
    requires q.CallQuery? && row.payload.content.target == Call(q.capabilityId, q.version, q.verb, q.path) && BackingField(q.definition) == Some(bound.field)
    requires row.itemId == Some(bound.itemId) && StillHolds(items, bound)
    requires row.payload.credentialVersion == Some(CredentialVersion(rootKey, bound.itemId, bound.field, bound.secret))
    ensures Matches(row, q) && Judge(rootKey, row, q, items) == Current(bound.secret)
  {
    hide CredentialVersion, BackingField;
  }

  /** Capability leases serve their request without exception, while the definition in the catalog is the one that was approved. */
  lemma CapabilityLeaseServesItsRequest(
    rootKey: string, agent: Agent, catalog: Catalog, capabilityId: string, verb: string, path: string, reason: Option<string>, requestedTtl: int, requestedUses: int,
    id: string, requestedAt: int, store: Plain, capability: Option<string>, ttl: Option<int>, uses: Option<int>, note: Option<string>, approvedAt: int,
    requests: Requests, used: nat, items: map<string, Item>, reason': Option<string>, ts: int)
    requires PrepareCapability(agent, catalog, capabilityId, verb, path, reason, requestedTtl, requestedUses).Ok? && HasReason(reason')
    requires var (host, content) := PrepareCapability(agent, catalog, capabilityId, verb, path, reason, requestedTtl, requestedUses).value;
             var row := NewRow(id, agent.id, CapabilityInvoke, host, content, requestedAt);
             && ReviewRow(row, catalog, store).Grant? && StillHolds(items, ReviewRow(row, catalog, store).bound)
             && id in requests
             && requests[id] == LeasedRow(rootKey, id, agent.id, CapabilityInvoke, host, content, requestedAt, ReviewRow(row, catalog, store).bound, capability, ttl, uses, note, approvedAt, used)
             && Unspent(requests[id], ts)
    ensures CapabilityQuery(agent, catalog, capabilityId, verb, path, reason').Ok?
    ensures var q := CapabilityQuery(agent, catalog, capabilityId, verb, path, reason').value;
            var out := Consume(rootKey, requests, agent.id, q, items, ts).1;
            && id in Selected(requests, agent.id, q, ts) && out != NoLease
            && (Selected(requests, agent.id, q, ts).Keys == {id} ==> out.Granted? && out.id == id && StoredValue(items, requests[id], q) == Ok(out.secret))
  {
    hide ReviewRow, LeasedRow, PrepareCapability, CapabilityQuery, HasReason, Judge, Consume, BackingField, CapabilityKey;
    var (host, content) := PrepareCapability(agent, catalog, capabilityId, verb, path, reason, requestedTtl, requestedUses).value;
    var row := NewRow(id, agent.id, CapabilityInvoke, host, content, requestedAt);
    var bound := ReviewRow(row, catalog, store).bound;
    CallQueryFits(agent, catalog, capabilityId, verb, path, reason, requestedTtl, requestedUses, reason');
    var q := CapabilityQuery(agent, catalog, capabilityId, verb, path, reason').value;
    LeasedColumns(rootKey, id, agent.id, CapabilityInvoke, host, content, requestedAt, bound, capability, ttl, uses, note, approvedAt, used);
    KeyTwice(capabilityId);
    CallReviewField(row, catalog, store);
    CallRowJudged(rootKey, requests[id], q, items, bound);
    CurrentRowServes(rootKey, requests, id, agent.id, q, items, ts);
  }
}
