/**
 The lease table `access_requests` (passd/service.py:555-1069): what a row holds, and each
 critical section under the database lock as a function from the tables to the tables.
 */
module Leases {
  import opened Wrappers
  import opened Text
  import opened Json
  import opened Authority
  import opened Capabilities
  import opened Ordering
  import opened Refs
  import opened Store

  const MAX_REASON_LENGTH := 300
  const MAX_ACCESS_TTL := 24 * 3600
  const MAX_ACCESS_USES := 100
  const MAX_PENDING_PER_AGENT := 32
  const MIN_TTL := 60

  // ---------- rows ----------

  datatype Action = SecretUse | SecretReveal | CapabilityInvoke

  function ActionName(action: Action): string {
    match action
    case SecretUse => "secret.use"
    case SecretReveal => "secret.reveal"
    case CapabilityInvoke => "capability.invoke"
  }

  datatype Agent = Agent(id: string, scopes: set<string>, allowedHosts: seq<string>)

  // What is asked for: one field of one item, or one method and path of one version of a capability.
  datatype Target =
    | Secret(selector: Selector)
    | Call(capabilityId: string, capabilityVersion: string, verb: string, path: string)

  datatype Content = Content(target: Target, reason: string, requestedTtl: int, requestedUses: int)

  // The sealed part of a row; the last five entries are absent until they are written.
  datatype Payload = Payload(
    content: Content, authorityDigest: Option<string>, credentialVersion: Option<string>,
    approvedCapability: Option<string>, decisionNote: Option<string>, approvalDigest: Option<string>)

  datatype Status = Pending | Approved | Denied | Revoked | Stale

  datatype Row = Row(
    agentId: string, action: Action, targetHost: Option<string>, payload: Payload, status: Status,
    itemId: Option<string>, expiresAt: Option<int>, maxUses: Option<int>, uses: int, createdAt: int, reviewedAt: Option<int>)

  type Requests = map<string, Row>

  datatype CapabilityRow = CapabilityRow(version: string, definition: Definition)

  type Catalog = map<string, CapabilityRow>

  // ---------- digests ----------

  function OptStr(s: Option<string>): Value {
    match s
    case Some(text) => Str(text)
    case None => Null
  }

  /** The record hashed into the authority digest of a capability request. */
  function AuthorityMaterial(id: string, agentId: string, content: Content): Value
    requires content.target.Call?
  {
    Obj(map[
      "schema" := Str("passd-authority-v1"), "request_id" := Str(id), "agent_id" := Str(agentId),
      "action" := Str("capability.invoke"), "authority_kind" := Str("capability"),
      "capability_id" := Str(content.target.capabilityId), "capability_version" := Str(content.target.capabilityVersion),
      "method" := Str(content.target.verb), "path" := Str(content.target.path), "reason" := Str(content.reason),
      "requested_ttl" := Int(content.requestedTtl), "requested_uses" := Int(content.requestedUses)])
  }

  function RequestDigest(id: string, agentId: string, content: Content): Option<string> {
    if content.target.Call? then Some(AuthorityDigest(AuthorityMaterial(id, agentId, content))) else None
  }

  /** The record hashed into the approval digest. */
  function ApprovalMaterial(
    id: string, agentId: string, authorityDigest: Option<string>, action: Action, target: Target,
    credentialVersion: Option<string>, ttl: int, uses: int): Value
  {
    Obj(map[
      "schema" := Str("passd-approval-v1"), "request_id" := Str(id), "agent_id" := Str(agentId),
      "authority_digest" := OptStr(authorityDigest), "capability" := Str(ActionName(action)),
      "capability_id" := (if target.Call? then Str(target.capabilityId) else Null),
      "capability_version" := (if target.Call? then Str(target.capabilityVersion) else Null),
      "credential_version" := OptStr(credentialVersion), "approved_ttl" := Int(ttl), "approved_uses" := Int(uses)])
  }

  function ApprovalDigest(
    id: string, agentId: string, authorityDigest: Option<string>, action: Action, target: Target,
    credentialVersion: Option<string>, ttl: int, uses: int): string
  {
    AuthorityDigest(ApprovalMaterial(id, agentId, authorityDigest, action, target, credentialVersion, ttl, uses))
  }

  // ---------- asking ----------

  predicate HasReason(reason: Option<string>) {
    reason.Some? && Strip(reason.value) != ""
  }

  predicate InRange(n: int, low: int, high: int) {
    low <= n <= high
  }

  /** An exact-secret request that may enter the queue: the stored host and content. */
  function PrepareAccess(
    agent: Agent, uri: string, action: Action, targetHost: Option<string>, reason: Option<string>, ttl: int, uses: int)
    : Result<(Option<string>, Content)>
  {
    if "access.request" !in agent.scopes then Err(PermissionDenied)
    else if action == CapabilityInvoke then Err(ValidationError)
    else if ActionName(action) !in agent.scopes then Err(PermissionDenied)
    else if !HasReason(reason) then Err(PermissionDenied)
    else if |reason.value| > MAX_REASON_LENGTH then Err(ValidationError)
    else
      var selector := ParsePassRef(uri);
      if selector.Err? then Err(selector.error)
      else if selector.value.field.None? then Err(ValidationError)
      else if !InRange(ttl, MIN_TTL, MAX_ACCESS_TTL) || !InRange(uses, 1, MAX_ACCESS_USES) then Err(ValidationError)
      else
        var content := Content(Secret(selector.value), Strip(reason.value), ttl, uses);
        if action == SecretReveal then
          if targetHost.Some? && targetHost.value != "" then Err(ValidationError) else Ok((targetHost, content))
        else if targetHost.None? || targetHost.value == "" then Err(ValidationError)
        else
          var host := NormalizeHost(targetHost.value);
          if host.Err? then Err(host.error)
          else if agent.allowedHosts != [] && !HostAllowed(host.value, agent.allowedHosts) then Err(PermissionDenied)
          else Ok((Some(host.value), content))
  }

  function CapabilityKey(ref: string): string {
    Lower(Strip(ref))
  }

  /** A capability request that may enter the queue, against the catalog as it was read. */
  function PrepareCapability(
    agent: Agent, catalog: Catalog, capabilityId: string, verb: string, path: string, reason: Option<string>, ttl: int, uses: int)
    : Result<(Option<string>, Content)>
  {
    if "capability.request" !in agent.scopes || "capability.invoke" !in agent.scopes then Err(PermissionDenied)
    else if !HasReason(reason) then Err(PermissionDenied)
    else if |reason.value| > MAX_REASON_LENGTH then Err(ValidationError)
    else if !InRange(ttl, MIN_TTL, MAX_ACCESS_TTL) || !InRange(uses, 1, MAX_ACCESS_USES) then Err(ValidationError)
    else if CapabilityKey(capabilityId) !in catalog then Err(NotFound)
    else
      var row := catalog[CapabilityKey(capabilityId)];
      var call := ValidateInvocation(row.definition, verb, path);
      if call.Err? then Err(call.error)
      else if agent.allowedHosts != [] && !HostAllowed(row.definition.host, agent.allowedHosts) then Err(PermissionDenied)
      else
        var target := Call(CapabilityKey(capabilityId), row.version, call.value.0, call.value.1);
        Ok((Some(row.definition.host), Content(target, Strip(reason.value), ttl, uses)))
  }

  predicate IsPending(requests: Requests, id: string, agentId: string) {
    id in requests && requests[id].status == Pending && requests[id].agentId == agentId
  }

  function PendingOf(requests: Requests, agentId: string): set<string> {
    set id | id in requests && IsPending(requests, id, agentId)
  }

  /** The same request: the host of a capability request is not compared, its version already fixes it. */
  predicate SameRequest(row: Row, action: Action, host: Option<string>, content: Content) {
    row.action == action && (action == CapabilityInvoke || row.targetHost == host) && row.payload.content == content
  }

  function RetriesOf(requests: Requests, agentId: string, action: Action, host: Option<string>, content: Content): set<string> {
    set id | id in requests && IsPending(requests, id, agentId) && SameRequest(requests[id], action, host, content)
  }

  function CreationStamps(requests: Requests, ids: set<string>): map<string, int>
    requires ids <= requests.Keys
  {
    map id | id in ids :: requests[id].createdAt
  }

  function NewRow(id: string, agentId: string, action: Action, host: Option<string>, content: Content, ts: int): Row {
    Row(agentId, action, host, Payload(content, RequestDigest(id, agentId, content), None, None, None, None),
        Pending, None, None, None, 0, ts, None)
  }

  /** The critical section of both request methods. */
  function Submit(requests: Requests, id: string, agentId: string, action: Action, host: Option<string>, content: Content, ts: int)
    : (Requests, Result<string>)
  {
    var retries := RetriesOf(requests, agentId, action, host, content);
    if retries != {} then
      assert CreationStamps(requests, retries).Keys == retries;
      (requests, Ok(Earliest(CreationStamps(requests, retries))))
    else if |PendingOf(requests, agentId)| >= MAX_PENDING_PER_AGENT then (requests, Err(Conflict))
    else if id in requests then (requests, Err(Internal))
    else (requests[id := NewRow(id, agentId, action, host, content, ts)], Ok(id))
  }

  // ---------- reviewing ----------

  function ExtractField(payload: ItemPayload, field: string): Result<Value> {
    if field in payload.fields then Ok(payload.fields[field]) else Err(NotFound)
  }

  function Staled(row: Row, ts: int): Row {
    row.(status := Stale, reviewedAt := Some(ts))
  }

  /** `UPDATE ... SET status='stale' ... WHERE id=? AND status=from` */
  function MarkStale(requests: Requests, id: string, from: Status, ts: int): Requests {
    if id in requests && requests[id].status == from then requests[id := Staled(requests[id], ts)] else requests
  }

  // The item and the field that an approval binds.
  datatype Bound = Bound(itemId: string, field: string, secret: Value)

  function ResolveSelector(store: Plain, selector: Selector): Result<Bound> {
    var item := FindItem(store, selector.vault, selector.item);
    if item.Err? then Err(item.error)
    else if selector.field.None? then Err(ValidationError)
    else
      var secret := ExtractField(store.items[item.value].payload, selector.field.value);
      if secret.Err? then Err(secret.error) else Ok(Bound(item.value, selector.field.value, secret.value))
  }

  function ResolveBacking(store: Plain, d: Definition): Result<Bound> {
    var selector := ParsePassRef(d.backingUri);
    if selector.Err? then Err(selector.error) else ResolveSelector(store, selector.value)
  }

  function Min(a: int, b: int): int { if a < b then a else b }

  function Max(a: int, b: int): int { if a < b then b else a }

  function ApprovedTtl(requested: int, ttl: Option<int>): int {
    match ttl
    case None => requested
    case Some(t) => Min(requested, Max(MIN_TTL, t))
  }

  function ApprovedUses(requested: int, uses: Option<int>): int {
    match uses
    case None => requested
    case Some(n) => Min(requested, Max(1, n))
  }

  function Note(note: Option<string>): Option<string> {
    if note.Some? && Strip(note.value) != "" then Some(Strip(note.value)) else None
  }

  function ApprovedRow(
    rootKey: string, id: string, row: Row, bound: Bound, capability: Option<string>,
    ttl: Option<int>, uses: Option<int>, note: Option<string>, clock: int): Row
  {
    var content := row.payload.content;
    var version := CredentialVersion(rootKey, bound.itemId, bound.field, bound.secret);
    var t, n := ApprovedTtl(content.requestedTtl, ttl), ApprovedUses(content.requestedUses, uses);
    var digest := ApprovalDigest(id, row.agentId, row.payload.authorityDigest, row.action, content.target, Some(version), t, n);
    row.(payload := row.payload.(credentialVersion := Some(version), approvedCapability := capability,
                                 decisionNote := Note(note), approvalDigest := Some(digest)),
         status := Approved, itemId := Some(bound.itemId), expiresAt := Some(clock + t), maxUses := Some(n), uses := 0, reviewedAt := Some(clock))
  }

  datatype Review = Refuse(error: Error) | TurnStale | Grant(bound: Bound, capability: Option<string>)

  function ReviewBound(bound: Result<Bound>, capability: Option<string>): Review {
    if bound.Err? then Refuse(bound.error) else Grant(bound.value, capability)
  }

  function ReviewCall(cap: CapabilityRow, verb: string, path: string, store: Plain): Review {
    var call := ValidateInvocation(cap.definition, verb, path);
    if call.Err? then Refuse(call.error) else ReviewBound(ResolveBacking(store, cap.definition), Some(cap.version))
  }

  /** What an approval finds for a pending row, before anything is written. */
  function ReviewRow(row: Row, catalog: Catalog, store: Plain): Review {
    match row.payload.content.target
    case Secret(selector) => ReviewBound(ResolveSelector(store, selector), None)
    case Call(capabilityId, capabilityVersion, verb, path) =>
      if CapabilityKey(capabilityId) !in catalog || catalog[CapabilityKey(capabilityId)].version != capabilityVersion then TurnStale
      else ReviewCall(catalog[CapabilityKey(capabilityId)], verb, path, store)
  }

  function Approve(
    rootKey: string, requests: Requests, catalog: Catalog, store: Plain,
    id: string, ttl: Option<int>, uses: Option<int>, note: Option<string>, clock: int): (Requests, Result<string>)
  {
    if id !in requests then (requests, Err(NotFound))
    else if requests[id].status != Pending then (requests, Err(Conflict))
    else
      match ReviewRow(requests[id], catalog, store)
      case Refuse(e) => (requests, Err(e))
      case TurnStale => (MarkStale(requests, id, Pending, clock), Err(Conflict))
      case Grant(bound, capability) =>
        (requests[id := ApprovedRow(rootKey, id, requests[id], bound, capability, ttl, uses, note, clock)], Ok(id))
  }

  function Deny(requests: Requests, id: string, note: Option<string>, clock: int): (Requests, Result<string>) {
    if id !in requests then (requests, Err(NotFound))
    else if requests[id].status != Pending then (requests, Err(Conflict))
    else
      var row := requests[id];
      (requests[id := row.(payload := row.payload.(decisionNote := Note(note)), status := Denied, reviewedAt := Some(clock))], Ok(id))
  }

  function Revoke(requests: Requests, id: string, clock: int): (Requests, Result<string>) {
    if id !in requests then (requests, Err(NotFound))
    else if requests[id].status != Approved then (requests, Err(Conflict))
    else (requests[id := requests[id].(status := Revoked, reviewedAt := Some(clock))], Ok(id))
  }

  // ---------- consuming ----------

  // What a caller wants to do now. A capability call carries the catalog row it read.
  datatype Query =
    | SecretQuery(action: Action, selector: Selector, host: Option<string>)
    | CallQuery(capabilityId: string, version: string, definition: Definition, verb: string, path: string)

  function QueryAction(q: Query): Action {
    if q.CallQuery? then CapabilityInvoke else q.action
  }

  /** The WHERE clause of the candidate SELECT. */
  predicate Live(row: Row, agentId: string, q: Query, ts: int) {
    && row.agentId == agentId && row.action == QueryAction(q)
    && row.status == Approved && row.expiresAt.Some? && row.expiresAt.value > ts
    && row.maxUses.Some? && row.uses < row.maxUses.value
    && (q.SecretQuery? ==> row.targetHost == q.host)
  }

  predicate Matches(row: Row, q: Query) {
    var target := row.payload.content.target;
    if q.CallQuery? then target.Call? && target.capabilityId == q.capabilityId && target.verb == q.verb && target.path == q.path
    else target.Secret? && target.selector == q.selector
  }

  function QueryField(q: Query): Option<string> {
    if q.CallQuery? then BackingField(q.definition) else q.selector.field
  }

  datatype Verdict = Current(secret: Value) | NotCurrent | FieldGone

  /** The version checks of a matching candidate, against the items as they are read for it. */
  function Judge(rootKey: string, row: Row, q: Query, items: map<string, Item>): Verdict {
    var target := row.payload.content.target;
    if q.CallQuery? && target.Call? && target.capabilityVersion != q.version then NotCurrent
    else if row.itemId.None? || row.itemId.value !in items || QueryField(q).None? then NotCurrent
    else if q.SecretQuery? && row.payload.credentialVersion.None? then NotCurrent
    else
      var id, field := row.itemId.value, QueryField(q).value;
      var secret := ExtractField(items[id].payload, field);
      if secret.Err? then FieldGone
      else if row.payload.credentialVersion == Some(CredentialVersion(rootKey, id, field, secret.value)) then Current(secret.value)
      else NotCurrent
  }

  datatype Candidate = Candidate(id: string, row: Row)

  datatype Outcome = Granted(id: string, secret: Value) | NoField | NoLease

  function ExpiryStamps(requests: Requests, agentId: string, q: Query, ts: int): map<string, int> {
    map id | id in requests && Live(requests[id], agentId, q, ts) :: requests[id].expiresAt.value
  }

  /** The candidate rows in ORDER BY expires_at, id, as the SELECT returned them. */
  function Candidates(requests: Requests, agentId: string, q: Query, ts: int): seq<Candidate> {
    var ids := CandidateIds(requests, agentId, q, ts);
    seq(|ids|, i requires 0 <= i < |ids| => assert ids[i] in ids; Candidate(ids[i], requests[ids[i]]))
  }

  function CandidateIds(requests: Requests, agentId: string, q: Query, ts: int): (ids: seq<string>)
    ensures forall id :: id in ids ==> id in requests
  {
    InOrderAscending(ExpiryStamps(requests, agentId, q, ts));
    InOrder(ExpiryStamps(requests, agentId, q, ts))
  }

  /** The guard of the claiming UPDATE. */
  predicate ClaimGuard(row: Row, ts: int) {
    row.status == Approved && row.expiresAt.Some? && row.expiresAt.value > ts && row.maxUses.Some? && row.uses < row.maxUses.value
  }

  function Claimed(row: Row): Row {
    row.(uses := row.uses + 1)
  }

  /** One turn of the candidate loop: the tables after it, and the outcome if the loop stops here. */
  function Examine(rootKey: string, requests: Requests, c: Candidate, q: Query, items: map<string, Item>, ts: int): (Requests, Option<Outcome>) {
    if !Matches(c.row, q) then (requests, None)
    else
      match Judge(rootKey, c.row, q, items)
      case NotCurrent => (MarkStale(requests, c.id, Approved, ts), None)
      case FieldGone => (requests, Some(NoField))
      case Current(secret) =>
        if c.id in requests && ClaimGuard(requests[c.id], ts)
        then (requests[c.id := Claimed(requests[c.id])], Some(Granted(c.id, secret)))
        else (requests, None)
  }

  /** The whole candidate loop, when the items do not change during it. */
  function Scan(rootKey: string, requests: Requests, rest: seq<Candidate>, q: Query, items: map<string, Item>, ts: int): (Requests, Outcome) {
    if rest == [] then (requests, NoLease)
    else
      var (after, stop) := Examine(rootKey, requests, rest[0], q, items, ts);
      if stop.Some? then (after, stop.value) else Scan(rootKey, after, rest[1..], q, items, ts)
  }

  function Consume(rootKey: string, requests: Requests, agentId: string, q: Query, items: map<string, Item>, ts: int): (Requests, Outcome) {
    Scan(rootKey, requests, Candidates(requests, agentId, q, ts), q, items, ts)
  }
}
