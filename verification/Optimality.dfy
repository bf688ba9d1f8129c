/**
 The candidate loop is the earliest-expiring-first policy of Matching: runs of approvals and
 calls of one exact operation, with no revocation and no change of its versions, serve as many
 calls as any policy that chooses among the live leases.
 */
module Optimality {
  import opened Wrappers
  import opened Ordering
  import opened Authority
  import opened Capabilities
  import opened Store
  import opened Leases
  import opened Consumption
  import opened RunSafety
  import opened Matching

  /** An approved row for this agent and operation. */
  predicate Offered(row: Row, agentId: string, q: Query) {
    && row.agentId == agentId && row.action == QueryAction(q) && (q.SecretQuery? ==> row.targetHost == q.host)
    && Matches(row, q) && row.status == Approved
    && row.expiresAt.Some? && row.maxUses.Some? && row.uses <= row.maxUses.value
  }

  function LeaseOf(row: Row, agentId: string, q: Query): Lease
    requires Offered(row, agentId, q)
  {
    Lease(row.expiresAt.value, row.maxUses.value - row.uses)
  }

  function PoolOf(requests: Requests, agentId: string, q: Query): Pool {
    map id | id in requests && Offered(requests[id], agentId, q) :: LeaseOf(requests[id], agentId, q)
  }

  /** Every offered row would pass its version checks. */
  ghost predicate AllCurrent(rootKey: string, requests: Requests, agentId: string, q: Query, items: map<string, Item>) {
    forall id :: id in requests && Offered(requests[id], agentId, q) ==> Judge(rootKey, requests[id], q, items).Current?
  }

  /** The caller's catalog row is the one in the catalog. */
  predicate QueryNow(catalog: Catalog, q: Query) {
    q.CallQuery? ==> CapabilityKey(q.capabilityId) in catalog && catalog[CapabilityKey(q.capabilityId)] == CapabilityRow(q.version, q.definition)
  }

  // ---------- one call ----------

  lemma AliveIsSelected(requests: Requests, agentId: string, q: Query, ts: int)
    ensures AliveStamps(PoolOf(requests, agentId, q), ts) == Selected(requests, agentId, q, ts)
  {
    hide Matches;
    var pool, selected := PoolOf(requests, agentId, q), Selected(requests, agentId, q, ts);
    forall id | id in requests ensures Alive(pool, id, ts) <==> id in selected {}
  }

  lemma CurrentStop(rootKey: string, requests: Requests, agentId: string, q: Query, items: map<string, Item>, ts: int)
    requires AllCurrent(rootKey, requests, agentId, q, items)
    ensures Stoppers(rootKey, requests, agentId, q, items, ts) == Selected(requests, agentId, q, ts)
  {
    hide Matches, Judge;
    forall id | id in requests && Live(requests[id], agentId, q, ts) && Matches(requests[id], q)
      ensures Stops(rootKey, requests[id], q, items)
    {
      assert Offered(requests[id], agentId, q);
    }
  }

  /** While every version is current the loop spends exactly the lease that the policy chooses. */
  lemma ConsumeIsEarliest(rootKey: string, requests: Requests, agentId: string, q: Query, items: map<string, Item>, ts: int)
    requires AllCurrent(rootKey, requests, agentId, q, items)
    ensures var (after, out) := Consume(rootKey, requests, agentId, q, items, ts);
            var pool := PoolOf(requests, agentId, q);
            var choice := EarliestAlive(pool, ts);
            && (out.Granted? <==> choice.Some?)
            && PoolOf(after, agentId, q) == (if choice.Some? then Spend(pool, choice.value) else pool)
            && AllCurrent(rootKey, after, agentId, q, items)
  {
    hide Consume, Matches, Judge;
    ConsumeExact(rootKey, requests, agentId, q, items, ts);
    CurrentStop(rootKey, requests, agentId, q, items, ts);
    AliveIsSelected(requests, agentId, q, ts);
    var after := Consume(rootKey, requests, agentId, q, items, ts).0;
    var choice := EarliestAlive(PoolOf(requests, agentId, q), ts);
    if choice.Some? {
      assert Offered(requests[choice.value], agentId, q);
      ClaimSpends(rootKey, requests, after, agentId, q, items, choice.value);
    } else {
      assert after == requests;
    }
  }

  /** Writing one row changes the pool at that row only. */
  lemma PoolWrite(requests: Requests, id: string, row: Row, agentId: string, q: Query)
    ensures var pool := PoolOf(requests, agentId, q);
            PoolOf(requests[id := row], agentId, q) == if Offered(row, agentId, q) then pool[id := LeaseOf(row, agentId, q)] else pool - {id}
  {
    hide Offered, LeaseOf;
  }

  lemma CurrentWrite(rootKey: string, requests: Requests, id: string, row: Row, agentId: string, q: Query, items: map<string, Item>)
    requires AllCurrent(rootKey, requests, agentId, q, items)
    requires Offered(row, agentId, q) ==> Judge(rootKey, row, q, items).Current?
    ensures AllCurrent(rootKey, requests[id := row], agentId, q, items)
  {
    hide Offered, Judge;
  }

  lemma ClaimSpends(rootKey: string, requests: Requests, after: Requests, agentId: string, q: Query, items: map<string, Item>, first: string)
    requires AllCurrent(rootKey, requests, agentId, q, items)
    requires first in requests && Offered(requests[first], agentId, q) && requests[first].uses < requests[first].maxUses.value
    requires after.Keys == requests.Keys
    requires forall id :: id in requests ==> after[id] == if id == first then Claimed(requests[id]) else requests[id]
    ensures PoolOf(after, agentId, q) == Spend(PoolOf(requests, agentId, q), first)
    ensures AllCurrent(rootKey, after, agentId, q, items)
  {
    hide AllCurrent, Judge, PoolOf;
    var row := Claimed(requests[first]);
    assert after == requests[first := row];
    ClaimedOffered(requests[first], agentId, q);
    PoolAt(requests, first, agentId, q);
    PoolWrite(requests, first, row, agentId, q);
    CurrentAt(rootKey, requests, first, agentId, q, items);
    ClaimedJudgedSame(rootKey, requests[first], q, items);
    CurrentWrite(rootKey, requests, first, row, agentId, q, items);
  }

  lemma ClaimedOffered(row: Row, agentId: string, q: Query)
    requires Offered(row, agentId, q) && row.uses < row.maxUses.value
    ensures Offered(Claimed(row), agentId, q)
    ensures LeaseOf(Claimed(row), agentId, q) == Lease(LeaseOf(row, agentId, q).expiry, LeaseOf(row, agentId, q).left - 1)
  {
  }

  lemma PoolAt(requests: Requests, id: string, agentId: string, q: Query)
    requires id in requests
    ensures id in PoolOf(requests, agentId, q) <==> Offered(requests[id], agentId, q)
    ensures Offered(requests[id], agentId, q) ==> PoolOf(requests, agentId, q)[id] == LeaseOf(requests[id], agentId, q)
  {
    hide Offered, LeaseOf;
  }

  lemma CurrentAt(rootKey: string, requests: Requests, id: string, agentId: string, q: Query, items: map<string, Item>)
    requires AllCurrent(rootKey, requests, agentId, q, items) && id in requests && Offered(requests[id], agentId, q)
    ensures Judge(rootKey, requests[id], q, items).Current?
  {
    hide Offered, Judge;
  }

  lemma ClaimedJudgedSame(rootKey: string, row: Row, q: Query, items: map<string, Item>)
    ensures Judge(rootKey, Claimed(row), q, items) == Judge(rootKey, row, q, items) && Matches(Claimed(row), q) == Matches(row, q)
  {
    hide CredentialVersion, QueryField;
  }

  // ---------- one approval ----------

  /** A fresh approval of this operation is current. */
  lemma ApprovedIsCurrent(rootKey: string, id: string, row: Row, catalog: Catalog, store: Plain, q: Query, capability: Option<string>,
                          ttl: Option<int>, uses: Option<int>, note: Option<string>, clock: int)
    requires ReviewRow(row, catalog, store).Grant? && QueryNow(catalog, q) && Matches(row, q)
    ensures Judge(rootKey, ApprovedRow(rootKey, id, row, ReviewRow(row, catalog, store).bound, capability, ttl, uses, note, clock), q, store.items).Current?
  {
    hide CredentialVersion, ApprovalDigest, BackingField, ReviewRow, CapabilityKey, Note, ApprovedTtl, ApprovedUses;
    ReviewedMatchBound(row, catalog, store, q);
  }

  lemma ReviewedMatchBound(row: Row, catalog: Catalog, store: Plain, q: Query)
    requires ReviewRow(row, catalog, store).Grant? && QueryNow(catalog, q) && Matches(row, q)
    ensures var bound := ReviewRow(row, catalog, store).bound;
            && HoldsSecret(store, bound) && QueryField(q) == Some(bound.field)
            && (q.CallQuery? ==> row.payload.content.target.Call? && row.payload.content.target.capabilityVersion == q.version)
  {
    hide ResolveSelector, ReviewCall, BackingField, CapabilityKey;
    match row.payload.content.target
    case Secret(selector) => SelectorBound(store, selector);
    case Call(id, version, verb, path) => ReviewedCallBound(catalog[CapabilityKey(id)], verb, path, store);
  }

  /** What an approval adds to the pool. */
  function Arrival(after: Requests, id: string, ok: bool, agentId: string, q: Query): Option<Lease> {
    if ok && id in after && Offered(after[id], agentId, q) then Some(LeaseOf(after[id], agentId, q)) else None
  }

  lemma ApproveArrives(rootKey: string, requests: Requests, catalog: Catalog, store: Plain, agentId: string, q: Query,
                       id: string, ttl: Option<int>, uses: Option<int>, note: Option<string>, clock: int)
    requires AllCurrent(rootKey, requests, agentId, q, store.items) && QueryNow(catalog, q)
    ensures var (after, r) := Approve(rootKey, requests, catalog, store, id, ttl, uses, note, clock);
            var lease := Arrival(after, id, r.Ok?, agentId, q);
            && AllCurrent(rootKey, after, agentId, q, store.items)
            && PoolOf(after, agentId, q) == (if lease.Some? then Add(PoolOf(requests, agentId, q), id, lease.value) else PoolOf(requests, agentId, q))
  {
    hide ReviewRow, ApprovedRow, AllCurrent, QueryNow, PoolOf, Offered, LeaseOf, Judge;
    if id in requests && requests[id].status == Pending {
      var row, review := requests[id], ReviewRow(requests[id], catalog, store);
      PendingNotOffered(requests, id, agentId, q);
      if review.Grant? {
        var approved := ApprovedRow(rootKey, id, row, review.bound, review.capability, ttl, uses, note, clock);
        PoolWrite(requests, id, approved, agentId, q);
        GrantIsCurrent(rootKey, id, row, catalog, store, agentId, q, ttl, uses, note, clock);
        CurrentWrite(rootKey, requests, id, approved, agentId, q, store.items);
      } else if review.TurnStale? {
        StaleNotOffered(row, agentId, q, clock);
        PoolWrite(requests, id, Staled(row, clock), agentId, q);
        CurrentWrite(rootKey, requests, id, Staled(row, clock), agentId, q, store.items);
      }
    }
  }

  lemma PendingNotOffered(requests: Requests, id: string, agentId: string, q: Query)
    requires id in requests && requests[id].status == Pending
    ensures id !in PoolOf(requests, agentId, q)
  {
    hide Matches;
  }

  lemma StaleNotOffered(row: Row, agentId: string, q: Query, ts: int)
    ensures !Offered(Staled(row, ts), agentId, q)
  {
    hide Matches;
  }

  lemma GrantIsCurrent(rootKey: string, id: string, row: Row, catalog: Catalog, store: Plain, agentId: string, q: Query,
                       ttl: Option<int>, uses: Option<int>, note: Option<string>, clock: int)
    requires ReviewRow(row, catalog, store).Grant? && QueryNow(catalog, q)
    ensures var review := ReviewRow(row, catalog, store);
            var approved := ApprovedRow(rootKey, id, row, review.bound, review.capability, ttl, uses, note, clock);
            Offered(approved, agentId, q) ==> Judge(rootKey, approved, q, store.items).Current?
  {
    hide ReviewRow, ApprovedRow, Judge, Matches, QueryNow;
    var review := ReviewRow(row, catalog, store);
    ApprovedKeepsContent(rootKey, id, row, review.bound, review.capability, ttl, uses, note, clock, q);
    if Matches(row, q) {
      ApprovedIsCurrent(rootKey, id, row, catalog, store, q, review.capability, ttl, uses, note, clock);
    }
  }

  lemma ApprovedKeepsContent(rootKey: string, id: string, row: Row, bound: Bound, capability: Option<string>,
                             ttl: Option<int>, uses: Option<int>, note: Option<string>, clock: int, q: Query)
    ensures Matches(ApprovedRow(rootKey, id, row, bound, capability, ttl, uses, note, clock), q) == Matches(row, q)
  {
    hide CredentialVersion, ApprovalDigest, Note, ApprovedTtl, ApprovedUses;
  }

  // ---------- runs of approvals and calls ----------

  datatype Call = ApproveCall(id: string, ttl: Option<int>, uses: Option<int>, note: Option<string>, clock: int) | InvokeCall(ts: int)

  /** Calls that the service grants in this run. */
  function ServedByService(rootKey: string, requests: Requests, catalog: Catalog, store: Plain, agentId: string, q: Query, calls: seq<Call>): nat
    decreases |calls|
  {
    if calls == [] then 0
    else
      match calls[0]
      case ApproveCall(id, ttl, uses, note, clock) =>
        ServedByService(rootKey, Approve(rootKey, requests, catalog, store, id, ttl, uses, note, clock).0, catalog, store, agentId, q, calls[1..])
      case InvokeCall(ts) =>
        var (after, out) := Consume(rootKey, requests, agentId, q, store.items, ts);
        (if out.Granted? then 1 else 0) + ServedByService(rootKey, after, catalog, store, agentId, q, calls[1..])
  }

  /** The leases that arrive and the calls that come in this run. */
  function EventsOf(rootKey: string, requests: Requests, catalog: Catalog, store: Plain, agentId: string, q: Query, calls: seq<Call>): seq<Event>
    decreases |calls|
  {
    if calls == [] then []
    else
      match calls[0]
      case ApproveCall(id, ttl, uses, note, clock) =>
        var (after, r) := Approve(rootKey, requests, catalog, store, id, ttl, uses, note, clock);
        var lease := Arrival(after, id, r.Ok?, agentId, q);
        (if lease.Some? then [Arrive(id, lease.value)] else []) + EventsOf(rootKey, after, catalog, store, agentId, q, calls[1..])
      case InvokeCall(ts) =>
        var after := Consume(rootKey, requests, agentId, q, store.items, ts).0;
        [Invoke(ts)] + EventsOf(rootKey, after, catalog, store, agentId, q, calls[1..])
  }

  predicate CallsNonDecreasing(calls: seq<Call>, now: int) {
    calls == [] ||
    match calls[0]
    case ApproveCall(_, _, _, _, _) => CallsNonDecreasing(calls[1..], now)
    case InvokeCall(ts) => now <= ts && CallsNonDecreasing(calls[1..], ts)
  }

  lemma {:induction false} ServiceIsEarliest(rootKey: string, requests: Requests, catalog: Catalog, store: Plain, agentId: string, q: Query, calls: seq<Call>, now: int)
    requires AllCurrent(rootKey, requests, agentId, q, store.items) && QueryNow(catalog, q) && CallsNonDecreasing(calls, now)
    ensures var events := EventsOf(rootKey, requests, catalog, store, agentId, q, calls);
            && NonDecreasing(events, now)
            && ServedByService(rootKey, requests, catalog, store, agentId, q, calls) == ServedEarliest(PoolOf(requests, agentId, q), events)
    decreases |calls|
  {
    hide AllCurrent, QueryNow, Approve, Consume, Arrival, PoolOf, EarliestAlive;
    if calls != [] {
      match calls[0]
      case ApproveCall(id, ttl, uses, note, clock) =>
        var (after, r) := Approve(rootKey, requests, catalog, store, id, ttl, uses, note, clock);
        ApproveArrives(rootKey, requests, catalog, store, agentId, q, id, ttl, uses, note, clock);
        ServiceIsEarliest(rootKey, after, catalog, store, agentId, q, calls[1..], now);
        var rest := EventsOf(rootKey, after, catalog, store, agentId, q, calls[1..]);
        var lease := Arrival(after, id, r.Ok?, agentId, q);
        if lease.Some? {
          assert ([Arrive(id, lease.value)] + rest)[1..] == rest;
        } else {
          assert [] + rest == rest;
        }
      case InvokeCall(ts) =>
        var after := Consume(rootKey, requests, agentId, q, store.items, ts).0;
        ConsumeIsEarliest(rootKey, requests, agentId, q, store.items, ts);
        ServiceIsEarliest(rootKey, after, catalog, store, agentId, q, calls[1..], ts);
        var rest := EventsOf(rootKey, after, catalog, store, agentId, q, calls[1..]);
        assert ([Invoke(ts)] + rest)[1..] == rest;
    }
  }

  /**
   Over any run of approvals and calls of one operation, with calls at non-decreasing times, the
   service grants at least as many calls as any other way of choosing among the live leases.
   */
  lemma ServiceIsOptimal(rootKey: string, requests: Requests, catalog: Catalog, store: Plain, agentId: string, q: Query, calls: seq<Call>, now: int, choices: seq<string>)
    requires AllCurrent(rootKey, requests, agentId, q, store.items) && QueryNow(catalog, q) && CallsNonDecreasing(calls, now)
    requires |choices| == |EventsOf(rootKey, requests, catalog, store, agentId, q, calls)|
    ensures ServedBy(PoolOf(requests, agentId, q), EventsOf(rootKey, requests, catalog, store, agentId, q, calls), choices)
         <= ServedByService(rootKey, requests, catalog, store, agentId, q, calls)
  {
    hide AllCurrent, QueryNow, EventsOf, ServedByService, PoolOf;
    ServiceIsEarliest(rootKey, requests, catalog, store, agentId, q, calls, now);
    EarliestFirstIsOptimal(PoolOf(requests, agentId, q), now, EventsOf(rootKey, requests, catalog, store, agentId, q, calls), choices);
  }
}
