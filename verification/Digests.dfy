/**
 What the two digests of a lease bind. A digest determines its record (Authority); here the record
 determines every part of the request or of the approval, and the limit of that is stated too.
 */
module Digests {
  import opened Wrappers
  import opened Json
  import opened Authority
  import opened Capabilities
  import opened Store
  import opened Leases
  import opened Runs
  import opened RunSafety
  import opened RunTheorems

  // ---------- the records ----------

  lemma AuthorityMembers(id: string, agentId: string, content: Content)
    requires content.target.Call?
    ensures var m := AuthorityMaterial(id, agentId, content).members;
            && {"request_id", "agent_id", "capability_id", "capability_version", "method", "path", "reason", "requested_ttl", "requested_uses"} <= m.Keys
            && m["request_id"] == Str(id) && m["agent_id"] == Str(agentId)
            && m["capability_id"] == Str(content.target.capabilityId) && m["capability_version"] == Str(content.target.capabilityVersion)
            && m["method"] == Str(content.target.verb) && m["path"] == Str(content.target.path) && m["reason"] == Str(content.reason)
            && m["requested_ttl"] == Int(content.requestedTtl) && m["requested_uses"] == Int(content.requestedUses)
  {
  }

  lemma ApprovalMembers(id: string, agentId: string, authorityDigest: Option<string>, action: Action, target: Target,
                        credentialVersion: Option<string>, ttl: int, uses: int)
    ensures var m := ApprovalMaterial(id, agentId, authorityDigest, action, target, credentialVersion, ttl, uses).members;
            && {"request_id", "agent_id", "authority_digest", "capability", "capability_id", "capability_version", "credential_version", "approved_ttl", "approved_uses"} <= m.Keys
            && m["request_id"] == Str(id) && m["agent_id"] == Str(agentId) && m["authority_digest"] == OptStr(authorityDigest)
            && m["capability"] == Str(ActionName(action))
            && m["capability_id"] == (if target.Call? then Str(target.capabilityId) else Null)
            && m["capability_version"] == (if target.Call? then Str(target.capabilityVersion) else Null)
            && m["credential_version"] == OptStr(credentialVersion) && m["approved_ttl"] == Int(ttl) && m["approved_uses"] == Int(uses)
  {
  }

  lemma ActionNameInjective(a: Action, b: Action)
    requires ActionName(a) == ActionName(b)
    ensures a == b
  {
    assert "secret.use"[7] != "secret.reveal"[7];
    assert "secret.use"[0] != "capability.invoke"[0] && "secret.reveal"[0] != "capability.invoke"[0];
  }

  /** The authority digest of a capability request binds the row, the agent and everything that was asked for. */
  lemma RequestDigestInjective(id: string, agentId: string, content: Content, id': string, agentId': string, content': Content)
    requires content.target.Call? && content'.target.Call?
    requires RequestDigest(id, agentId, content) == RequestDigest(id', agentId', content')
    ensures id == id' && agentId == agentId' && content == content'
  {
    hide AuthorityDigest, AuthorityMaterial;
    AuthorityDigestInjective(AuthorityMaterial(id, agentId, content), AuthorityMaterial(id', agentId', content'));
    AuthorityMembers(id, agentId, content);
    AuthorityMembers(id', agentId', content');
  }

  /** The approval digest binds the row, the agent, the action, what is approved, the credential version and the budget. */
  lemma ApprovalDigestInjective(
    id: string, agentId: string, authorityDigest: Option<string>, action: Action, target: Target, credentialVersion: Option<string>, ttl: int, uses: int,
    id': string, agentId': string, authorityDigest': Option<string>, action': Action, target': Target, credentialVersion': Option<string>, ttl': int, uses': int)
    requires ApprovalDigest(id, agentId, authorityDigest, action, target, credentialVersion, ttl, uses)
          == ApprovalDigest(id', agentId', authorityDigest', action', target', credentialVersion', ttl', uses')
    ensures id == id' && agentId == agentId' && authorityDigest == authorityDigest' && action == action'
    ensures target.Call? <==> target'.Call?
    ensures target.Call? ==> target.capabilityId == target'.capabilityId && target.capabilityVersion == target'.capabilityVersion
    ensures credentialVersion == credentialVersion' && ttl == ttl' && uses == uses'
  {
    hide AuthorityDigest, ApprovalMaterial;
    AuthorityDigestInjective(ApprovalMaterial(id, agentId, authorityDigest, action, target, credentialVersion, ttl, uses),
                             ApprovalMaterial(id', agentId', authorityDigest', action', target', credentialVersion', ttl', uses'));
    ApprovalMembers(id, agentId, authorityDigest, action, target, credentialVersion, ttl, uses);
    ApprovalMembers(id', agentId', authorityDigest', action', target', credentialVersion', ttl', uses');
    ActionNameInjective(action, action');
  }

  /** The limit: neither digest depends on the target host, so that of a secret lease is fixed only through the id of its row. */
  lemma DigestsIgnoreHost(rootKey: string, id: string, row: Row, host: Option<string>, bound: Bound, capability: Option<string>,
                          ttl: Option<int>, uses: Option<int>, note: Option<string>, clock: int)
    ensures ApprovedRow(rootKey, id, row.(targetHost := host), bound, capability, ttl, uses, note, clock)
         == ApprovedRow(rootKey, id, row, bound, capability, ttl, uses, note, clock).(targetHost := host)
    ensures forall agentId, action, content, ts ::
              NewRow(id, agentId, action, host, content, ts) == NewRow(id, agentId, action, row.targetHost, content, ts).(targetHost := host)
  {
    hide CredentialVersion, ApprovalDigest, RequestDigest, Note, ApprovedTtl, ApprovedUses;
  }

  // ---------- reachable rows ----------

  lemma ApprovedParts(w: World, id: string)
    requires Inv(w) && id in w.requests && w.requests[id].status == Approved
    ensures var row := w.requests[id];
            id in w.approvals && Carries(w.rootKey, row, w.approvals[id]) && RequestOk(id, row) && DigestOk(id, row)
  {
    hide CatalogOk, ThreadsOk, ClaimsOk, SentOk, QueueOk, Carries, RequestOk, DigestOk;
    RowIsOk(w, id);
    CarriedWhileApproved(w.rootKey, id, w.requests[id], w.approvals);
    RowDigests(w.rootKey, id, w.requests[id], w.approvals);
  }

  lemma VersionBinds(rootKey: string, row: Row, a: Approval, rootKey': string, row': Row, a': Approval)
    requires Carries(rootKey, row, a) && Carries(rootKey', row', a') && row.payload.credentialVersion == row'.payload.credentialVersion
    ensures rootKey == rootKey' && a.itemId == a'.itemId && a.field == a'.field && a.secret == a'.secret
  {
    hide Binds, QueryOk, QueryField, KeyedVersion;
    var m, m' := CredentialMaterial(a.itemId, a.field, a.secret), CredentialMaterial(a'.itemId, a'.field, a'.secret);
    KeyedVersionInjective(rootKey, "passd/credential/version/v1", m, rootKey', "passd/credential/version/v1", m', "sv1_");
    assert m.members["item_id"] == m'.members["item_id"] && m.members["field"] == m'.members["field"] && m.members["value"] == m'.members["value"];
  }

  lemma EqualDigests(id: string, row: Row, id': string, row': Row)
    requires RequestOk(id, row) && RequestOk(id', row') && DigestOk(id, row) && DigestOk(id', row')
    requires row.status == Approved && row'.status == Approved && row.payload.approvalDigest == row'.payload.approvalDigest
    ensures id == id' && row.agentId == row'.agentId && row.action == row'.action && row.maxUses == row'.maxUses
    ensures row.expiresAt.Some? && row.reviewedAt.Some? && row'.expiresAt.Some? && row'.reviewedAt.Some?
    ensures row.expiresAt.value - row.reviewedAt.value == row'.expiresAt.value - row'.reviewedAt.value
    ensures row.payload.credentialVersion == row'.payload.credentialVersion
    ensures row.action == CapabilityInvoke ==> row.payload.content == row'.payload.content
  {
    hide ApprovalDigest, RequestDigest;
    var p, p' := row.payload, row'.payload;
    ApprovalDigestInjective(
      id, row.agentId, p.authorityDigest, row.action, p.content.target, p.credentialVersion, row.expiresAt.value - row.reviewedAt.value, row.maxUses.value,
      id', row'.agentId, p'.authorityDigest, row'.action, p'.content.target, p'.credentialVersion, row'.expiresAt.value - row'.reviewedAt.value, row'.maxUses.value);
    if row.action == CapabilityInvoke {
      RequestDigestInjective(id, row.agentId, p.content, id', row'.agentId, p'.content);
    }
  }

  /**
   Two approved rows, of whatever reachable worlds of whatever runs, that show the same approval
   digest are approvals of the same request: same row id, agent, action, lifetime and budget, the
   same item, field and secret value under the same root key, and for a capability the same
   version, method, path, reason and request.
   */
  lemma SameDigestSameApproval(ws: seq<World>, i: nat, id: string, ws': seq<World>, i': nat, id': string)
    requires IsRun(ws) && i < |ws| && id in ws[i].requests && ws[i].requests[id].status == Approved
    requires IsRun(ws') && i' < |ws'| && id' in ws'[i'].requests && ws'[i'].requests[id'].status == Approved
    requires ws[i].requests[id].payload.approvalDigest == ws'[i'].requests[id'].payload.approvalDigest
    ensures id == id' && ws[i].rootKey == ws'[i'].rootKey && id in ws[i].approvals && id' in ws'[i'].approvals
    ensures var row, row', a, a' := ws[i].requests[id], ws'[i'].requests[id'], ws[i].approvals[id], ws'[i'].approvals[id'];
            && row.agentId == row'.agentId && row.action == row'.action && row.maxUses == row'.maxUses && a.ttl == a'.ttl
            && a.itemId == a'.itemId && a.field == a'.field && a.secret == a'.secret
            && (row.action == CapabilityInvoke ==> row.payload.content == row'.payload.content)
  {
    hide Inv, Carries, RequestOk, DigestOk;
    RunInv(ws, i);
    RunInv(ws', i');
    ApprovedParts(ws[i], id);
    ApprovedParts(ws'[i'], id');
    var row, row', a, a' := ws[i].requests[id], ws'[i'].requests[id'], ws[i].approvals[id], ws'[i'].approvals[id'];
    EqualDigests(id, row, id', row');
    VersionBinds(ws[i].rootKey, row, a, ws'[i'].rootKey, row', a');
    CarriedTtl(ws[i].rootKey, row, a);
    CarriedTtl(ws'[i'].rootKey, row', a');
  }

  lemma CarriedTtl(rootKey: string, row: Row, a: Approval)
    requires Carries(rootKey, row, a) && row.status == Approved
    ensures row.expiresAt.Some? && row.reviewedAt.Some? && row.expiresAt.value - row.reviewedAt.value == a.ttl
  {
    hide Binds, QueryOk, QueryField, CredentialVersion;
  }
}
