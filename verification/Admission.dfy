/**
 Who may ask for what: the checks that a request and a call pass before the lock is taken, and
 exactly when they pass them.
 */
module Admission {
  import opened Wrappers
  import opened Text
  import opened Capabilities
  import opened Refs
  import opened Leases
  import opened Lookups

  // ---------- asking for access ----------

  predicate Reasoned(reason: Option<string>) {
    reason.Some? && Strip(reason.value) != ""
  }

  predicate WithinLimits(reason: string, ttl: int, uses: int) {
    |reason| <= 300 && 60 <= ttl <= 86400 && 1 <= uses <= 100
  }

  predicate NamesField(uri: string) {
    ParsePassRef(uri).Ok? && ParsePassRef(uri).value.field.Some?
  }

  /** The host that goes with an exact-secret request: a bare host for a use, none for a reveal. */
  predicate HostGiven(action: Action, targetHost: Option<string>) {
    if action == SecretUse then targetHost.Some? && targetHost.value != "" && NormalizeHost(targetHost.value).Ok?
    else targetHost == None || targetHost == Some("")
  }

  /** The scopes and the reason without which an exact-secret request is not allowed. */
  predicate MayAsk(agent: Agent, action: Action, reason: Option<string>) {
    && "access.request" in agent.scopes && Reasoned(reason)
    && (action == SecretUse ==> "secret.use" in agent.scopes) && (action == SecretReveal ==> "secret.reveal" in agent.scopes)
  }

  /** Everything but the host ceiling. */
  predicate AccessAsked(agent: Agent, uri: string, action: Action, targetHost: Option<string>, reason: Option<string>, ttl: int, uses: int) {
    && action != CapabilityInvoke && MayAsk(agent, action, reason)
    && WithinLimits(reason.value, ttl, uses) && NamesField(uri) && HostGiven(action, targetHost)
  }

  function AccessHost(action: Action, targetHost: Option<string>): Option<string>
    requires HostGiven(action, targetHost)
  {
    if action == SecretUse then Some(NormalizeHost(targetHost.value).value) else targetHost
  }

  ghost predicate AccessWithin(agent: Agent, action: Action, targetHost: Option<string>)
    requires HostGiven(action, targetHost)
  {
    action == SecretUse ==> Within(NormalizeHost(targetHost.value).value, agent.allowedHosts)
  }

  /**
   An exact-secret request is let in exactly if everything is asked for properly and the host is
   within the ceiling; a host outside the ceiling is not allowed.
   */
  lemma PreparedAccess(agent: Agent, uri: string, action: Action, targetHost: Option<string>, reason: Option<string>, ttl: int, uses: int)
    ensures var r := PrepareAccess(agent, uri, action, targetHost, reason, ttl, uses);
            && (!AccessAsked(agent, uri, action, targetHost, reason, ttl, uses) ==> r.Err?)
            && (action != CapabilityInvoke && !MayAsk(agent, action, reason) ==> r == Err(PermissionDenied))
            && (MayAsk(agent, action, reason) && !AccessAsked(agent, uri, action, targetHost, reason, ttl, uses) ==> r == Err(ValidationError))
            && (AccessAsked(agent, uri, action, targetHost, reason, ttl, uses) ==>
                  r == if AccessWithin(agent, action, targetHost)
                       then Ok((AccessHost(action, targetHost), Content(Secret(ParsePassRef(uri).value), Strip(reason.value), ttl, uses)))
                       else Err(PermissionDenied))
  {
    hide NormalizeHost, HostAllowed, Within, ParsePassRef, Strip;
    ParseRefuses(uri);
    if targetHost.Some? { HostRefused(targetHost.value); }
    if action == SecretUse && targetHost.Some? && NormalizeHost(targetHost.value).Ok? {
      CeilingExactly(NormalizeHost(targetHost.value).value, agent.allowedHosts);
    }
  }

  lemma HostRefused(host: string)
    ensures NormalizeHost(host).Err? ==> NormalizeHost(host).error == ValidationError
  {
    hide Strip, Lower;
  }

  /** What a capability request asks for: a known capability, and a call that its current definition permits. */
  predicate CapabilityAsked(agent: Agent, catalog: Catalog, capabilityId: string, verb: string, path: string, reason: Option<string>, ttl: int, uses: int,
                            name: string, sent: string)
  {
    && {"capability.request", "capability.invoke"} <= agent.scopes && Reasoned(reason) && WithinLimits(reason.value, ttl, uses)
    && Lower(Strip(capabilityId)) in catalog && Permits(catalog[Lower(Strip(capabilityId))].definition, verb, path, name, sent)
  }

  /** A capability request is let in exactly if its call is permitted now and its host is within the ceiling; it is bound to the current version. */
  lemma PreparedCapability(agent: Agent, catalog: Catalog, capabilityId: string, verb: string, path: string, reason: Option<string>, ttl: int, uses: int)
    ensures var r := PrepareCapability(agent, catalog, capabilityId, verb, path, reason, ttl, uses);
            var id := Lower(Strip(capabilityId));
            && ((forall name, sent :: !CapabilityAsked(agent, catalog, capabilityId, verb, path, reason, ttl, uses, name, sent)) ==> r.Err?)
            && (!({"capability.request", "capability.invoke"} <= agent.scopes && Reasoned(reason)) ==> r == Err(PermissionDenied))
            && forall name, sent :: CapabilityAsked(agent, catalog, capabilityId, verb, path, reason, ttl, uses, name, sent) ==>
                 r == if Within(catalog[id].definition.host, agent.allowedHosts)
                      then Ok((Some(catalog[id].definition.host),
                               Content(Call(id, catalog[id].version, name, sent), Strip(reason.value), ttl, uses)))
                      else Err(PermissionDenied)
  {
    hide HostAllowed, Within, ValidateInvocation, Permits, Strip, Upper, Lower;
    var id := Lower(Strip(capabilityId));
    if id in catalog {
      InvocationExactly(catalog[id].definition, verb, path);
      var call := ValidateInvocation(catalog[id].definition, verb, path);
      if call.Ok? {
        assert call == Ok((call.value.0, call.value.1)) && Permits(catalog[id].definition, verb, path, call.value.0, call.value.1);
        if PrepareCapability(agent, catalog, capabilityId, verb, path, reason, ttl, uses).Ok? {
          assert CapabilityAsked(agent, catalog, capabilityId, verb, path, reason, ttl, uses, call.value.0, call.value.1);
        }
      }
      CeilingExactly(catalog[id].definition.host, agent.allowedHosts);
    }
  }

  lemma AskedCapability(agent: Agent, catalog: Catalog, capabilityId: string, verb: string, path: string, reason: Option<string>, ttl: int, uses: int)
    ensures forall name, sent :: CapabilityAsked(agent, catalog, capabilityId, verb, path, reason, ttl, uses, name, sent) ==>
              Lower(Strip(capabilityId)) in catalog && reason.Some?
  {
    hide Permits, Strip, Lower;
  }

  // ---------- calling ----------

  /** What `_consume_exact_grant` checks before it takes the lock. */
  function ExactQuery(agent: Agent, action: Action, uri: string, targetHost: Option<string>, reason: Option<string>): Result<Query> {
    if !HasReason(reason) then Err(PermissionDenied)
    else if ActionName(action) !in agent.scopes then Err(PermissionDenied)
    else
      var selector := ParsePassRef(uri);
      if selector.Err? then Err(selector.error)
      else if selector.value.field.None? then Err(PermissionDenied)
      else if action != SecretUse then Ok(SecretQuery(action, selector.value, None))
      else if targetHost.None? || targetHost.value == "" then Err(PermissionDenied)
      else
        var host := NormalizeHost(targetHost.value);
        if host.Err? then Err(host.error) else Ok(SecretQuery(action, selector.value, Some(host.value)))
  }

  /** What `_consume_capability_grant` reads and checks before it takes the lock. */
  function CapabilityQuery(agent: Agent, catalog: Catalog, capabilityId: string, verb: string, path: string, reason: Option<string>): (r: Result<Query>)
    ensures r.Ok? ==> r.value.CallQuery?
  {
    if !HasReason(reason) then Err(PermissionDenied)
    else if "capability.invoke" !in agent.scopes then Err(PermissionDenied)
    else if CapabilityKey(capabilityId) !in catalog then Err(PermissionDenied)
    else
      var row := catalog[CapabilityKey(capabilityId)];
      var call := ValidateInvocation(row.definition, verb, path);
      if call.Err? then Err(call.error)
      else if agent.allowedHosts != [] && !HostAllowed(row.definition.host, agent.allowedHosts) then Err(PermissionDenied)
      else Ok(CallQuery(CapabilityKey(capabilityId), row.version, row.definition, call.value.0, call.value.1))
  }

  /** What a call that uses an exact-secret lease must give; a reveal has no host. */
  predicate UseAsked(agent: Agent, action: Action, uri: string, targetHost: Option<string>, reason: Option<string>) {
    && Reasoned(reason) && (action == SecretUse ==> "secret.use" in agent.scopes) && (action == SecretReveal ==> "secret.reveal" in agent.scopes)
    && NamesField(uri) && (action == SecretUse ==> targetHost.Some? && targetHost.value != "" && NormalizeHost(targetHost.value).Ok?)
  }

  /** The lease that such a call asks for: of the reference, and of the bare host for a use. */
  function UseQuery(action: Action, uri: string, targetHost: Option<string>): Query
    requires ParsePassRef(uri).Ok? && (action == SecretUse ==> targetHost.Some? && NormalizeHost(targetHost.value).Ok?)
  {
    SecretQuery(action, ParsePassRef(uri).value, if action == SecretUse then Some(NormalizeHost(targetHost.value).value) else None)
  }

  /** A call with an exact-secret lease goes on exactly if it gives all that; it then asks for the reference and the bare host. */
  lemma ExactQueryExactly(agent: Agent, action: Action, uri: string, targetHost: Option<string>, reason: Option<string>)
    requires action != CapabilityInvoke
    ensures var r := ExactQuery(agent, action, uri, targetHost, reason);
            && (r.Ok? <==> UseAsked(agent, action, uri, targetHost, reason))
            && (r.Ok? ==> r.value == UseQuery(action, uri, targetHost))
            && (!Reasoned(reason) || ActionName(action) !in agent.scopes ==> r == Err(PermissionDenied))
  {
    hide NormalizeHost, ParsePassRef, Strip;
  }

  /** What an invocation must give. */
  predicate CallAsked(agent: Agent, catalog: Catalog, capabilityId: string, verb: string, path: string, reason: Option<string>, name: string, sent: string) {
    && Reasoned(reason) && "capability.invoke" in agent.scopes
    && Lower(Strip(capabilityId)) in catalog && Permits(catalog[Lower(Strip(capabilityId))].definition, verb, path, name, sent)
  }

  /** An invocation goes on exactly if it gives all that and the host is within the ceiling; it then asks for the call under the definition that was read. */
  lemma CapabilityQueryExactly(agent: Agent, catalog: Catalog, capabilityId: string, verb: string, path: string, reason: Option<string>)
    ensures var r := CapabilityQuery(agent, catalog, capabilityId, verb, path, reason);
            var id := Lower(Strip(capabilityId));
            && ((forall name, sent :: !CallAsked(agent, catalog, capabilityId, verb, path, reason, name, sent)) ==> r.Err?)
            && (!Reasoned(reason) || "capability.invoke" !in agent.scopes || id !in catalog ==> r == Err(PermissionDenied))
            && forall name, sent :: CallAsked(agent, catalog, capabilityId, verb, path, reason, name, sent) ==>
                 r == if Within(catalog[id].definition.host, agent.allowedHosts)
                      then Ok(CallQuery(id, catalog[id].version, catalog[id].definition, name, sent))
                      else Err(PermissionDenied)
  {
    hide HostAllowed, Within, ValidateInvocation, Permits, Strip, Lower;
    var id := Lower(Strip(capabilityId));
    if id in catalog {
      InvocationExactly(catalog[id].definition, verb, path);
      var call := ValidateInvocation(catalog[id].definition, verb, path);
      if call.Ok? {
        assert call == Ok((call.value.0, call.value.1)) && Permits(catalog[id].definition, verb, path, call.value.0, call.value.1);
        if CapabilityQuery(agent, catalog, capabilityId, verb, path, reason).Ok? {
          assert CallAsked(agent, catalog, capabilityId, verb, path, reason, call.value.0, call.value.1);
        }
      }
      CeilingExactly(catalog[id].definition.host, agent.allowedHosts);
    }
  }
}
