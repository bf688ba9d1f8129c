/**
 Interleaved callers. A world holds the tables, the lock, the clock and one program counter for
 each agent call in progress; a step is one atomic action: a critical section that needs the
 lock, one turn of a candidate loop by the thread that holds it, a read outside the lock, or a
 write to the vault and item tables, which takes no lock. Approvals, claims and outbound
 executions are recorded as history.
 */
module Runs {
  import opened Wrappers
  import opened Text
  import opened Json
  import opened Authority
  import opened Capabilities
  import opened Refs
  import opened Store
  import opened Leases
  import opened Consumption

  // ---------- worlds ----------

  // What a person approved: the operation, the item and field it was bound to, and the value there.
  datatype Approval = Approval(
    agentId: string, query: Query, itemId: string, field: string, secret: Value, approvedAt: int, ttl: int, uses: int)

  datatype Pc =
    | Idle
    | Ready(agentId: string, q: Query)
    | Timed(agentId: string, q: Query, ts: int)
    | Scanning(agentId: string, q: Query, ts: int, rest: seq<Candidate>)
    | Holding(agentId: string, q: Query, id: string, secret: Value)

  // A claimed use, and an operation carried out with a secret.
  datatype Claim = Claim(id: string, agentId: string, q: Query, secret: Value, ts: int)

  datatype Sent = Sent(id: string, agentId: string, q: Query, secret: Value)

  type Threads = map<nat, Pc>

  datatype World = World(
    rootKey: string, requests: Requests, catalog: Catalog, store: Plain, clock: int,
    lock: Option<nat>, threads: Threads, approvals: map<string, Approval>, claims: seq<Claim>, sent: seq<Sent>)

  ghost predicate Init(w: World) {
    w.requests == map[] && w.catalog == map[] && w.lock == None && w.threads == map[]
    && w.approvals == map[] && w.claims == [] && w.sent == []
  }

  function PcOf(w: World, t: nat): Pc {
    if t in w.threads then w.threads[t] else Idle
  }

  function SetPc(w: World, t: nat, pc: Pc): World {
    w.(threads := w.threads[t := pc])
  }

  // ---------- steps ----------

  datatype Step =
    | DoSubmit(id: string, agentId: string, action: Action, host: Option<string>, content: Content)
    | DoApprove(id: string, ttl: Option<int>, uses: Option<int>, note: Option<string>)
    | DoDeny(id: string, note: Option<string>)
    | DoRevoke(id: string)
    | DoPutCapability(definition: Definition)
    | DoPutVault(id: string, vault: VaultPayload)
    | DoPutItem(id: string, item: Item)
    | DoClock(clock: int)
    | DoBeginCall(t: nat, agentId: string, capabilityId: string, verb: string, path: string)
    | DoBeginSecret(t: nat, agentId: string, action: Action, selector: Selector, host: Option<string>)
    | DoReadClock(t: nat)
    | DoLock(t: nat)
    | DoExamine(t: nat)
    | DoRefuse(t: nat)
    | DoSend(t: nat)
    | DoDrop(t: nat)

  ghost predicate Enabled(w: World, s: Step) {
    match s
    case DoSubmit(_, _, action, _, content) =>
      w.lock == None && InRange(content.requestedTtl, MIN_TTL, MAX_ACCESS_TTL) && InRange(content.requestedUses, 1, MAX_ACCESS_USES)
      && (content.target.Call? <==> action == CapabilityInvoke)
    case DoApprove(_, _, _, _) => w.lock == None
    case DoDeny(_, _) => w.lock == None
    case DoRevoke(_) => w.lock == None
    case DoPutCapability(_) => w.lock == None
    case DoPutVault(_, _) => true
    case DoPutItem(_, _) => true
    case DoClock(_) => true
    case DoBeginCall(t, _, id, verb, path) =>
      PcOf(w, t).Idle? && ReadCall(w.catalog, id, verb, path).Some?
    case DoBeginSecret(t, _, action, selector, _) => PcOf(w, t).Idle? && action != CapabilityInvoke && selector.field.Some?
    case DoReadClock(t) => PcOf(w, t).Ready?
    case DoLock(t) => PcOf(w, t).Timed? && w.lock == None
    case DoExamine(t) => PcOf(w, t).Scanning? && PcOf(w, t).rest != []
    case DoRefuse(t) => PcOf(w, t).Scanning? && PcOf(w, t).rest == []
    case DoSend(t) => PcOf(w, t).Holding?
    case DoDrop(t) => !PcOf(w, t).Scanning?
  }

  /** The operation that an approval of this row stands for. */
  function ApprovedQuery(row: Row, catalog: Catalog): Query {
    match row.payload.content.target
    case Secret(selector) => SecretQuery(row.action, selector, row.targetHost)
    case Call(id, version, verb, path) =>
      CallQuery(id, version, if CapabilityKey(id) in catalog then catalog[CapabilityKey(id)].definition else NoDefinition(), verb, path)
  }

  // Never used: a row is approved only while its capability is in the catalog.
  function NoDefinition(): Definition {
    Definition("", "", "", "", "", 0, [], "", "", "", map[], "0.0")
  }

  /** The operation that a caller asks for, with the catalog row as it is read now. */
  function ReadCall(catalog: Catalog, ref: string, verb: string, path: string): Option<Query> {
    if CapabilityKey(ref) !in catalog then None
    else
      var row := catalog[CapabilityKey(ref)];
      match ValidateInvocation(row.definition, verb, path)
      case Ok(call) => Some(CallQuery(CapabilityKey(ref), row.version, row.definition, call.0, call.1))
      case Err(_) => None
  }

  /** What is remembered of an approval. */
  function ApprovalRecord(row: Row, q: Query, bound: Bound, ttl: Option<int>, uses: Option<int>, clock: int): Approval {
    Approval(row.agentId, q, bound.itemId, bound.field, bound.secret, clock,
             ApprovedTtl(row.payload.content.requestedTtl, ttl), ApprovedUses(row.payload.content.requestedUses, uses))
  }

  function ApproveStep(w: World, id: string, ttl: Option<int>, uses: Option<int>, note: Option<string>): World {
    var after := Approve(w.rootKey, w.requests, w.catalog, w.store, id, ttl, uses, note, w.clock).0;
    if id in w.requests && w.requests[id].status == Pending && ReviewRow(w.requests[id], w.catalog, w.store).Grant? then
      var bound := ReviewRow(w.requests[id], w.catalog, w.store).bound;
      var record := ApprovalRecord(w.requests[id], ApprovedQuery(w.requests[id], w.catalog), bound, ttl, uses, w.clock);
      w.(requests := after, approvals := w.approvals[id := record])
    else w.(requests := after)
  }

  function ExamineStep(w: World, t: nat): World
    requires PcOf(w, t).Scanning? && PcOf(w, t).rest != []
  {
    var Scanning(agentId, q, ts, rest) := PcOf(w, t);
    var (after, stop) := Examine(w.rootKey, w.requests, rest[0], q, w.store.items, ts);
    match stop
    case None => SetPc(w.(requests := after), t, Scanning(agentId, q, ts, rest[1..]))
    case Some(Granted(id, secret)) =>
      SetPc(w.(requests := after, lock := None, claims := w.claims + [Claim(id, agentId, q, secret, ts)]), t, Holding(agentId, q, id, secret))
    case Some(NoField) => SetPc(w.(requests := after, lock := None), t, Idle)
    case Some(NoLease) => SetPc(w.(requests := after, lock := None), t, Idle)
  }

  ghost function Apply(w: World, s: Step): World
    requires Enabled(w, s)
  {
    hide ReadCall;
    match s
    case DoSubmit(id, agentId, action, host, content) => w.(requests := Submit(w.requests, id, agentId, action, host, content, w.clock).0)
    case DoApprove(id, ttl, uses, note) => ApproveStep(w, id, ttl, uses, note)
    case DoDeny(id, note) => w.(requests := Deny(w.requests, id, note, w.clock).0)
    case DoRevoke(id) => w.(requests := Revoke(w.requests, id, w.clock).0)
    case DoPutCapability(d) => w.(catalog := w.catalog[d.id := CapabilityRow(DefinitionVersion(w.rootKey, d), d)])
    case DoPutVault(id, vault) => w.(store := SetVault(w.store, id, vault))
    case DoPutItem(id, item) => w.(store := SetItem(w.store, id, item))
    case DoClock(clock) => w.(clock := clock)
    case DoBeginCall(t, agentId, id, verb, path) =>
      SetPc(w, t, Ready(agentId, ReadCall(w.catalog, id, verb, path).value))
    case DoBeginSecret(t, agentId, action, selector, host) => SetPc(w, t, Ready(agentId, SecretQuery(action, selector, host)))
    case DoReadClock(t) => SetPc(w, t, Timed(PcOf(w, t).agentId, PcOf(w, t).q, w.clock))
    case DoLock(t) =>
      var pc := PcOf(w, t);
      SetPc(w.(lock := Some(t)), t, Scanning(pc.agentId, pc.q, pc.ts, Candidates(w.requests, pc.agentId, pc.q, pc.ts)))
    case DoExamine(t) => ExamineStep(w, t)
    case DoRefuse(t) => SetPc(w.(lock := None), t, Idle)
    case DoSend(t) =>
      var pc := PcOf(w, t);
      SetPc(w.(sent := w.sent + [Sent(pc.id, pc.agentId, pc.q, pc.secret)]), t, Idle)
    case DoDrop(t) => SetPc(w, t, Idle)
  }

  ghost predicate Next(w: World, w': World) {
    exists s :: Enabled(w, s) && w' == Apply(w, s)
  }

  ghost predicate IsRun(ws: seq<World>) {
    ws != [] && Init(ws[0]) && forall i :: 0 <= i < |ws| - 1 ==> Next(ws[i], ws[i + 1])
  }

  // ---------- counting ----------

  function CountClaims(claims: seq<Claim>, id: string): nat {
    if claims == [] then 0
    else CountClaims(claims[..|claims| - 1], id) + if claims[|claims| - 1].id == id then 1 else 0
  }

  function CountSent(sent: seq<Sent>, id: string): nat {
    if sent == [] then 0
    else CountSent(sent[..|sent| - 1], id) + if sent[|sent| - 1].id == id then 1 else 0
  }

  lemma CountMore(claims: seq<Claim>, c: Claim, sent: seq<Sent>, s: Sent, id: string)
    ensures CountClaims(claims + [c], id) == CountClaims(claims, id) + if c.id == id then 1 else 0
    ensures CountSent(sent + [s], id) == CountSent(sent, id) + if s.id == id then 1 else 0
  {
    assert (claims + [c])[..|claims|] == claims;
    assert (sent + [s])[..|sent|] == sent;
  }

  /** The threads that have claimed a use of this row and have not carried it out. */
  ghost function Holders(threads: Threads, id: string): set<nat> {
    set t | t in threads && threads[t].Holding? && threads[t].id == id
  }

  lemma HoldersAfter(threads: Threads, t: nat, pc: Pc, id: string)
    requires t !in threads || !threads[t].Holding? || !pc.Holding?
    ensures var before, after := |Holders(threads, id)|, |Holders(threads[t := pc], id)|;
            after == before + (if pc.Holding? && pc.id == id then 1 else 0)
                            - (if t in threads && threads[t].Holding? && threads[t].id == id then 1 else 0)
  {
    var before, after := Holders(threads, id), Holders(threads[t := pc], id);
    assert t in after <==> pc.Holding? && pc.id == id;
    assert forall u :: u != t ==> (u in after <==> u in before);
    if t in after {
      assert after == before + {t};
    } else if t in before {
      assert after == before - {t};
    } else {
      assert after == before;
    }
  }

  // ---------- the invariant ----------

  /** A call was built from a catalog row whose version is the version of its definition. */
  predicate QueryOk(rootKey: string, q: Query) {
    if q.CallQuery? then q.version == DefinitionVersion(rootKey, q.definition) else q.action != CapabilityInvoke
  }

  /** The row asks for this operation and no other. */
  predicate Binds(row: Row, q: Query) {
    && row.action == QueryAction(q) && Matches(row, q)
    && (if q.CallQuery? then row.payload.content.target.capabilityVersion == q.version else row.targetHost == q.host)
  }

  /** The row carries the approval, and the approval only narrows what was asked for. */
  predicate Carries(rootKey: string, row: Row, a: Approval) {
    && row.agentId == a.agentId && Binds(row, a.query) && QueryOk(rootKey, a.query) && QueryField(a.query) == Some(a.field)
    && row.itemId == Some(a.itemId)
    && row.payload.credentialVersion == Some(CredentialVersion(rootKey, a.itemId, a.field, a.secret))
    && row.expiresAt == Some(a.approvedAt + a.ttl) && MIN_TTL <= a.ttl <= row.payload.content.requestedTtl
    && row.maxUses == Some(a.uses) && 1 <= a.uses <= row.payload.content.requestedUses
    && 0 <= row.uses <= a.uses
    && (row.status == Approved || row.status == Revoked || row.status == Stale)
    && (row.status == Approved ==> row.reviewedAt == Some(a.approvedAt))
  }

  predicate NeverApproved(row: Row) {
    && row.itemId.None? && row.expiresAt.None? && row.maxUses.None? && row.uses == 0
    && row.payload.credentialVersion.None?
    && (row.status == Pending || row.status == Denied || row.status == Stale)
  }

  predicate RequestOk(id: string, row: Row) {
    var content := row.payload.content;
    && InRange(content.requestedTtl, MIN_TTL, MAX_ACCESS_TTL) && InRange(content.requestedUses, 1, MAX_ACCESS_USES)
    && (content.target.Call? <==> row.action == CapabilityInvoke)
    && row.payload.authorityDigest == RequestDigest(id, row.agentId, content)
  }

  /** The approval digest is the one computed from the row's own columns. */
  predicate DigestOk(id: string, row: Row) {
    row.status == Approved ==>
      row.expiresAt.Some? && row.reviewedAt.Some? && row.maxUses.Some?
      && row.payload.approvalDigest ==
           Some(ApprovalDigest(id, row.agentId, row.payload.authorityDigest, row.action, row.payload.content.target,
                               row.payload.credentialVersion, row.expiresAt.value - row.reviewedAt.value, row.maxUses.value))
  }

  predicate RowOk(rootKey: string, id: string, row: Row, approvals: map<string, Approval>) {
    && RequestOk(id, row) && DigestOk(id, row)
    && (if id in approvals then Carries(rootKey, row, approvals[id]) else NeverApproved(row))
  }

  ghost predicate RowsOk(rootKey: string, requests: Requests, approvals: map<string, Approval>) {
    && approvals.Keys <= requests.Keys
    && forall id :: id in requests ==> RowOk(rootKey, id, requests[id], approvals)
  }

  ghost predicate CatalogOk(rootKey: string, catalog: Catalog) {
    forall id :: id in catalog ==> catalog[id].version == DefinitionVersion(rootKey, catalog[id].definition)
  }

  /** The operation and the secret are the ones that were approved. */
  predicate AsApproved(approvals: map<string, Approval>, id: string, agentId: string, q: Query, secret: Value) {
    id in approvals && approvals[id].agentId == agentId && approvals[id].query == q && approvals[id].secret == secret
  }

  /** Every live matching row is still to be examined. */
  ghost predicate Covers(requests: Requests, rest: seq<Candidate>, agentId: string, q: Query, ts: int) {
    forall id :: id in requests && Live(requests[id], agentId, q, ts) && Matches(requests[id], q) ==>
      exists i :: 0 <= i < |rest| && rest[i].id == id
  }

  ghost predicate PcOk(rootKey: string, requests: Requests, approvals: map<string, Approval>, pc: Pc) {
    match pc
    case Idle => true
    case Ready(_, q) => QueryOk(rootKey, q)
    case Timed(_, q, _) => QueryOk(rootKey, q)
    case Scanning(agentId, q, ts, rest) =>
      QueryOk(rootKey, q) && Fresh(requests, rest, agentId, q, ts) && Covers(requests, rest, agentId, q, ts)
    case Holding(agentId, q, id, secret) => AsApproved(approvals, id, agentId, q, secret)
  }

  ghost predicate ThreadsOk(rootKey: string, requests: Requests, approvals: map<string, Approval>, threads: Threads, lock: Option<nat>) {
    && (forall t :: t in threads ==> PcOk(rootKey, requests, approvals, threads[t]))
    && (forall t :: t in threads && threads[t].Scanning? ==> lock == Some(t))
  }

  ghost predicate ClaimsOk(requests: Requests, approvals: map<string, Approval>, claims: seq<Claim>) {
    && (forall k :: 0 <= k < |claims| ==>
          && AsApproved(approvals, claims[k].id, claims[k].agentId, claims[k].q, claims[k].secret)
          && claims[k].ts < approvals[claims[k].id].approvedAt + approvals[claims[k].id].ttl)
    && (forall id :: id in requests ==> CountClaims(claims, id) == requests[id].uses)
  }

  ghost predicate SentOk(approvals: map<string, Approval>, threads: Threads, claims: seq<Claim>, sent: seq<Sent>) {
    && (forall k :: 0 <= k < |sent| ==> AsApproved(approvals, sent[k].id, sent[k].agentId, sent[k].q, sent[k].secret))
    && (forall id :: CountSent(sent, id) + |Holders(threads, id)| <= CountClaims(claims, id))
  }

  ghost predicate QueueOk(requests: Requests) {
    && (forall agentId :: |PendingOf(requests, agentId)| <= MAX_PENDING_PER_AGENT)
    && (forall a, b :: a in requests && b in requests && Duplicates(requests[a], requests[b]) ==> a == b)
  }

  /** Two pending rows of one agent with the same request content. */
  predicate Duplicates(a: Row, b: Row) {
    && a.status == Pending && b.status == Pending && a.agentId == b.agentId
    && SameRequest(b, a.action, a.targetHost, a.payload.content)
  }

  ghost predicate Inv(w: World) {
    && RowsOk(w.rootKey, w.requests, w.approvals)
    && CatalogOk(w.rootKey, w.catalog)
    && ThreadsOk(w.rootKey, w.requests, w.approvals, w.threads, w.lock)
    && ClaimsOk(w.requests, w.approvals, w.claims)
    && SentOk(w.approvals, w.threads, w.claims, w.sent)
    && QueueOk(w.requests)
  }
}
