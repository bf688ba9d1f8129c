/**
 What one call does, said outright: when it succeeds, what the affected row then holds, which
 error is reported otherwise, and that nothing else changes.
 */
module Outcomes {
  import opened Wrappers
  import opened Text
  import opened Json
  import opened Authority
  import opened Capabilities
  import opened Ordering
  import opened Refs
  import opened Store
  import opened StoreHistory
  import opened Leases
  import opened Lookups
  import opened Runs

  /** A request that nobody has looked at. */
  predicate Untouched(row: Row) {
    && row.status == Pending && row.itemId.None? && row.expiresAt.None? && row.maxUses.None? && row.uses == 0 && row.reviewedAt.None?
    && row.payload.credentialVersion.None? && row.payload.approvalDigest.None?
  }

  predicate Waiting(row: Row, agentId: string) {
    row.status == Pending && row.agentId == agentId
  }

  /** A pending request of this agent for the same: the host of a capability request is fixed by its version. */
  predicate AsksTheSame(row: Row, agentId: string, action: Action, host: Option<string>, content: Content) {
    Waiting(row, agentId) && row.action == action && (action == CapabilityInvoke || row.targetHost == host) && row.payload.content == content
  }

  /**
   A request turned `before` into `after` and was answered with `r`: with the oldest pending request
   for the same, if there is one; else with a conflict if 32 of this agent are pending; else with one
   new pending row, which holds what was asked for and no decision.
   */
  ghost predicate Queued(before: Requests, after: Requests, r: Result<string>, id: string, agentId: string, action: Action,
                         host: Option<string>, content: Content, ts: int) {
    if exists other :: other in before && AsksTheSame(before[other], agentId, action, host, content) then
      && after == before && r.Ok? && r.value in before && AsksTheSame(before[r.value], agentId, action, host, content)
      && forall other :: other in before && AsksTheSame(before[other], agentId, action, host, content) && other != r.value ==>
           before[r.value].createdAt < before[other].createdAt || (before[r.value].createdAt == before[other].createdAt && Less(r.value, other))
    else if |set other | other in before && Waiting(before[other], agentId)| >= 32 then after == before && r == Err(Conflict)
    else if id in before then after == before && r == Err(Internal)
    else
      && r == Ok(id)
      && after == before[id := Row(agentId, action, host, Payload(content, RequestDigest(id, agentId, content), None, None, None, None),
                                   Pending, None, None, None, 0, ts, None)]
  }

  lemma SubmitOutcome(requests: Requests, id: string, agentId: string, action: Action, host: Option<string>, content: Content, ts: int)
    ensures var (after, r) := Submit(requests, id, agentId, action, host, content, ts);
            Queued(requests, after, r, id, agentId, action, host, content, ts)
  {
    hide RequestDigest, Less;
    var retries := RetriesOf(requests, agentId, action, host, content);
    assert forall other :: other in retries <==> other in requests && AsksTheSame(requests[other], agentId, action, host, content);
    assert PendingOf(requests, agentId) == set other | other in requests && Waiting(requests[other], agentId);
    if retries != {} {
      var stamps := CreationStamps(requests, retries);
      assert stamps.Keys == retries;
      forall other | other in retries && other != Earliest(stamps) ensures Before(stamps, Earliest(stamps), other) {}
    }
  }

  /** The definition that the row asks for is not the current one any more. */
  predicate DefinitionChanged(row: Row, catalog: Catalog) {
    var target := row.payload.content.target;
    target.Call? && (Lower(Strip(target.capabilityId)) !in catalog || catalog[Lower(Strip(target.capabilityId))].version != target.capabilityVersion)
  }

  ghost predicate StillPermitted(row: Row, catalog: Catalog) {
    var target := row.payload.content.target;
    target.Call? ==>
      Lower(Strip(target.capabilityId)) in catalog
      && exists name, sent :: Permits(catalog[Lower(Strip(target.capabilityId))].definition, target.verb, target.path, name, sent)
  }

  lemma PermittedExactly(row: Row, catalog: Catalog)
    requires !DefinitionChanged(row, catalog) && row.payload.content.target.Call?
    ensures var target := row.payload.content.target;
            var call := ValidateInvocation(catalog[CapabilityKey(target.capabilityId)].definition, target.verb, target.path);
            && (call.Ok? <==> StillPermitted(row, catalog)) && (call.Err? ==> call.error == PermissionDenied || call.error == ValidationError)
  {
    hide Permits, ValidateInvocation, Strip, Lower;
    var target := row.payload.content.target;
    var call := ValidateInvocation(catalog[CapabilityKey(target.capabilityId)].definition, target.verb, target.path);
    InvocationExactly(catalog[CapabilityKey(target.capabilityId)].definition, target.verb, target.path);
    assert call.Ok? ==> call == Ok((call.value.0, call.value.1));
  }

  /** A review grants exactly if the operation is current and permitted and names a value, and then binds that value. */
  lemma ReviewOutcome(row: Row, catalog: Catalog, store: Plain)
    ensures var review, q := ReviewRow(row, catalog, store), ApprovedQuery(row, catalog);
            && (review.TurnStale? <==> DefinitionChanged(row, catalog))
            && (review.Grant? <==> !DefinitionChanged(row, catalog) && StillPermitted(row, catalog) && exists bound :: QueryNames(store, q, bound))
            && (review.Grant? ==> QueryNames(store, q, review.bound) && review.capability == ApprovedVersion(row))
            && (review.Refuse? ==> if StillPermitted(row, catalog) then QueryNamesNothing(store, q, review.error)
                                   else review.error == PermissionDenied || review.error == ValidationError)
  {
    hide ResolveSelector, ResolveBacking, QueryNames, QueryNamesNothing, ValidateInvocation, CapabilityKey, Strip, Lower, StillPermitted;
    var q := ApprovedQuery(row, catalog);
    KeyOfRow(row, catalog);
    if row.payload.content.target.Secret? { SecretPermitted(row, catalog); }
    if !DefinitionChanged(row, catalog) && row.payload.content.target.Call? { PermittedExactly(row, catalog); }
    ResolveQueryExactly(store, q);
    var resolved := if q.SecretQuery? then ResolveSelector(store, q.selector) else ResolveBacking(store, q.definition);
    assert resolved.Ok? ==> QueryNames(store, q, resolved.value);
  }

  lemma KeyOfRow(row: Row, catalog: Catalog)
    ensures row.payload.content.target.Call? ==> CapabilityKey(row.payload.content.target.capabilityId) == Lower(Strip(row.payload.content.target.capabilityId))
  {
    hide Strip, Lower;
  }

  lemma SecretPermitted(row: Row, catalog: Catalog)
    requires row.payload.content.target.Secret?
    ensures StillPermitted(row, catalog)
  {
  }

  /** The definition's version, for a capability. */
  function ApprovedVersion(row: Row): Option<string> {
    if row.payload.content.target.Call? then Some(row.payload.content.target.capabilityVersion) else None
  }

  /** What is granted of `requested`: what the person gave, but at least `low` and never more than `requested`. */
  predicate Narrowed(requested: int, low: int, given: Option<int>, granted: int) {
    match given
    case None => granted == requested
    case Some(n) =>
      && (n >= requested ==> granted == requested) && (low <= n <= requested ==> granted == n)
      && (n < low <= requested ==> granted == low) && granted <= requested
  }

  predicate NoteKept(note: Option<string>, kept: Option<string>) {
    if note.Some? && Strip(note.value) != "" then kept == Some(Strip(note.value)) else kept == None
  }

  /** An approved row: its clock, its narrowed budget, the version of the value it binds, and the digest of all that; all else is as before. */
  predicate GrantedRow(rootKey: string, id: string, row: Row, approved: Row, bound: Bound, ttl: Option<int>, uses: Option<int>, note: Option<string>, clock: int) {
    && approved.expiresAt.Some? && approved.maxUses.Some?
    && Narrowed(row.payload.content.requestedTtl, 60, ttl, approved.expiresAt.value - clock)
    && Narrowed(row.payload.content.requestedUses, 1, uses, approved.maxUses.value)
    && NoteKept(note, approved.payload.decisionNote)
    && var version := CredentialVersion(rootKey, bound.itemId, bound.field, bound.secret);
    && approved == row.(status := Approved, itemId := Some(bound.itemId), uses := 0, reviewedAt := Some(clock),
                        expiresAt := approved.expiresAt, maxUses := approved.maxUses,
                        payload := row.payload.(credentialVersion := Some(version), approvedCapability := ApprovedVersion(row),
                                                decisionNote := approved.payload.decisionNote, approvalDigest := approved.payload.approvalDigest))
    && approved.payload.approvalDigest ==
         Some(ApprovalDigest(id, row.agentId, row.payload.authorityDigest, row.action, row.payload.content.target, Some(version),
                             approved.expiresAt.value - clock, approved.maxUses.value))
  }

  lemma ApprovedIsGranted(rootKey: string, id: string, row: Row, bound: Bound,
                          ttl: Option<int>, uses: Option<int>, note: Option<string>, clock: int)
    ensures GrantedRow(rootKey, id, row, ApprovedRow(rootKey, id, row, bound, ApprovedVersion(row), ttl, uses, note, clock), bound, ttl, uses, note, clock)
  {
    hide CredentialVersion, ApprovalDigest, Strip;
  }

  /**
   An approval needs a pending row. It marks the row stale exactly because the definition it asked
   for is no longer current; otherwise it succeeds exactly if the operation is still permitted and
   its reference names a value, and binds the row to the very item and value that the reference
   names. In every other case nothing changes, and the error says why.
   */
  ghost predicate Reviewed(rootKey: string, before: Requests, after: Requests, r: Result<string>, catalog: Catalog, store: Plain,
                           id: string, ttl: Option<int>, uses: Option<int>, note: Option<string>, clock: int) {
    if id !in before then r == Err(NotFound) && after == before
    else if before[id].status != Pending then r == Err(Conflict) && after == before
    else if DefinitionChanged(before[id], catalog) then
      r == Err(Conflict) && after == before[id := before[id].(status := Stale, reviewedAt := Some(clock))]
    else if !StillPermitted(before[id], catalog) then (r == Err(PermissionDenied) || r == Err(ValidationError)) && after == before
    else if exists bound :: QueryNames(store, ApprovedQuery(before[id], catalog), bound) then
      && r == Ok(id) && id in after && after == before[id := after[id]]
      && exists bound :: QueryNames(store, ApprovedQuery(before[id], catalog), bound)
                         && GrantedRow(rootKey, id, before[id], after[id], bound, ttl, uses, note, clock)
    else r.Err? && QueryNamesNothing(store, ApprovedQuery(before[id], catalog), r.error) && after == before
  }

  lemma ApproveOutcome(rootKey: string, requests: Requests, catalog: Catalog, store: Plain, id: string, ttl: Option<int>, uses: Option<int>, note: Option<string>, clock: int)
    ensures var (after, r) := Approve(rootKey, requests, catalog, store, id, ttl, uses, note, clock);
            Reviewed(rootKey, requests, after, r, catalog, store, id, ttl, uses, note, clock)
  {
    hide ReviewRow, ApprovedRow, DefinitionChanged, StillPermitted, QueryNames, QueryNamesNothing, ApprovedQuery, GrantedRow;
    if id in requests && requests[id].status == Pending {
      var review := ReviewRow(requests[id], catalog, store);
      ReviewOutcome(requests[id], catalog, store);
      if review.Grant? {
        ApprovedIsGranted(rootKey, id, requests[id], review.bound, ttl, uses, note, clock);
      }
    }
  }

  /** Denial decides a pending row, revocation an approved one, each exactly once and nothing else. */
  lemma DecisionOutcome(requests: Requests, id: string, note: Option<string>, clock: int)
    ensures var (after, r) := Deny(requests, id, note, clock);
            && (r.Ok? <==> id in requests && requests[id].status == Pending)
            && (r.Err? ==> after == requests && r.error == if id in requests then Conflict else NotFound)
            && (r.Ok? ==>
                  && r.value == id && id in after && NoteKept(note, after[id].payload.decisionNote)
                  && after == requests[id := requests[id].(status := Denied, reviewedAt := Some(clock),
                                                           payload := requests[id].payload.(decisionNote := after[id].payload.decisionNote))]
                  && Deny(after, id, note, clock) == (after, Err(Conflict)))
    ensures var (after, r) := Revoke(requests, id, clock);
            && (r.Ok? <==> id in requests && requests[id].status == Approved)
            && (r.Err? ==> after == requests && r.error == if id in requests then Conflict else NotFound)
            && (r.Ok? ==>
                  && r.value == id && after == requests[id := requests[id].(status := Revoked, reviewedAt := Some(clock))]
                  && Revoke(after, id, clock) == (after, Err(Conflict)))
  {
    hide Strip;
  }

  // ---------- vaults and items ----------

  /**
   A put writes exactly one item: the one of the same source if there is one, wherever it was, else
   a new one. It fails exactly if the vault is not found, the title is blank or a half-empty source is taken.
   */
  lemma PutItemOutcome(p: Plain, vaultRef: string, payload: ItemPayload)
    requires PlainValid(p)
    ensures var (q, r) := PlainPutItem(p, vaultRef, payload);
            var vault := FindVault(p.vaults, vaultRef);
            && q.vaults == p.vaults && (r.Err? ==> q == p) && PlainValid(q)
            && (vault.Err? ==> r == Err(vault.error))
            && (vault.Ok? && Strip(payload.title) == "" ==> r == Err(ValidationError))
            && (vault.Ok? && Strip(payload.title) != "" && (Linked(payload.source) || !(payload.source.kind.Some? && payload.source.id.Some?)) ==> r.Ok?)
            && (vault.Ok? && Strip(payload.title) != "" && !Linked(payload.source) && payload.source.kind.Some? && payload.source.id.Some? ==>
                  if ItemsFrom(p.items, payload.source) == {} then r.Ok? else r == Err(Internal))
            && (r.Ok? ==>
                  && vault.Ok? && q.items == p.items[r.value := Item(vault.value, payload.(title := Strip(payload.title)))]
                  && (r.value in p.items <==> Linked(payload.source) && ItemsFrom(p.items, payload.source) != {})
                  && (r.value in p.items ==> p.items[r.value].payload.source == payload.source && q.draws == p.draws))
  {
    hide PlainValid, ItemId, Strip, FindVault, Grows;
    PutItemKeeps(p, vaultRef, payload);
    DrawFresh(p);
    var taken := exists id :: id in p.items && Clashing(payload.source, p.items[id].payload.source);
    assert taken <==> ItemsFrom(p.items, payload.source) != {} && payload.source.kind.Some? && payload.source.id.Some? by {
      ItemsClash(p.items, payload.source);
    }
  }

  /** A vault is looked up by its source if it has one, else by its name; only the first is updated. */
  lemma CreateVaultOutcome(p: Plain, name: string, description: string, source: Source)
    requires PlainValid(p)
    ensures var (q, r) := PlainCreateVault(p, name, description, source);
            var stored := VaultPayload(Strip(name), description, source);
            && q.items == p.items && (r.Err? ==> q == p) && PlainValid(q)
            && (Strip(name) == "" ==> r == Err(ValidationError))
            && (Strip(name) != "" && (Linked(source) || !(source.kind.Some? && source.id.Some?)) ==> r.Ok?)
            && (Strip(name) != "" && !Linked(source) && source.kind.Some? && source.id.Some? ==>
                  if VaultsNamed(p.vaults, Strip(name)) != {} || VaultsFrom(p.vaults, source) == {} then r.Ok? else r == Err(Internal))
            && (r.Ok? && !Linked(source) && VaultsNamed(p.vaults, Strip(name)) != {} ==>
                  q == p && r.value in p.vaults && p.vaults[r.value].name == Strip(name))
            && (r.Ok? && (Linked(source) || VaultsNamed(p.vaults, Strip(name)) == {}) ==>
                  && q.vaults == p.vaults[r.value := stored]
                  && (r.value in p.vaults <==> Linked(source) && VaultsFrom(p.vaults, source) != {})
                  && (r.value in p.vaults ==> p.vaults[r.value].source == source && q.draws == p.draws))
  {
    hide PlainValid, VaultId, Strip, Grows;
    CreateVaultKeeps(p, name, description, source);
    DrawFresh(p);
    VaultsClash(p.vaults, source);
  }

  lemma ItemsClash(items: map<string, Item>, source: Source)
    ensures (exists id :: id in items && Clashing(source, items[id].payload.source)) <==> ItemsFrom(items, source) != {} && source.kind.Some? && source.id.Some?
  {
    if ItemsFrom(items, source) != {} {
      var id :| id in ItemsFrom(items, source);
      assert source.kind.Some? && source.id.Some? ==> Clashing(source, items[id].payload.source);
    }
    forall id | id in items && Clashing(source, items[id].payload.source) ensures id in ItemsFrom(items, source) {}
  }

  lemma VaultsClash(vaults: map<string, VaultPayload>, source: Source)
    ensures (exists id :: id in vaults && Clashing(source, vaults[id].source)) <==> VaultsFrom(vaults, source) != {} && source.kind.Some? && source.id.Some?
  {
    if VaultsFrom(vaults, source) != {} {
      var id :| id in VaultsFrom(vaults, source);
      assert source.kind.Some? && source.id.Some? ==> Clashing(source, vaults[id].source);
    }
    forall id | id in vaults && Clashing(source, vaults[id].source) ensures id in VaultsFrom(vaults, source) {}
  }
}
