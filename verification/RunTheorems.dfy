/** What holds in every run, whatever the interleaving of callers, administrators and item writers. */
module RunTheorems {
  import opened Wrappers
  import opened Json
  import opened Authority
  import opened Capabilities
  import opened Store
  import opened Leases
  import opened Lookups
  import opened Consumption
  import opened Runs
  import opened RunSafety
  import opened Outcomes

  // ---------- only what was approved leaves ----------

  /**
   In the step from `w` to `w'` a person approved row `id`, and `a` records what was there at that
   moment: the time, the operation the row asked for, and the very item, field and value that the
   selector of that operation, or the backing reference of its definition, named in the store.
   */
  ghost predicate ApprovedAt(w: World, w': World, id: string, a: Approval) {
    && id in w.requests && w.requests[id].status == Pending && id !in w.approvals
    && id in w'.requests && w'.requests[id].status == Approved
    && a.agentId == w.requests[id].agentId && a.query == ApprovedQuery(w.requests[id], w.catalog) && Binds(w.requests[id], a.query)
    && QueryNames(w.store, a.query, Bound(a.itemId, a.field, a.secret))
    && a.approvedAt == w.clock && MIN_TTL <= a.ttl <= w.requests[id].payload.content.requestedTtl
    && w'.requests[id].expiresAt == Some(w.clock + a.ttl) && w'.requests[id].maxUses == Some(a.uses)
    && (a.query.CallQuery? ==>
          && CapabilityKey(a.query.capabilityId) in w.catalog
          && a.query.definition == w.catalog[CapabilityKey(a.query.capabilityId)].definition
          && a.query.version == w.catalog[CapabilityKey(a.query.capabilityId)].version)
  }

  /** A step leaves the recorded approvals alone, or is the approval of one more row. */
  lemma ApprovalsGrow(w: World, s: Step)
    requires Inv(w) && Enabled(w, s)
    ensures var w' := Apply(w, s);
            || w'.approvals == w.approvals
            || (s.DoApprove? && s.id in w'.approvals && w'.approvals == w.approvals[s.id := w'.approvals[s.id]]
                && ApprovedAt(w, w', s.id, w'.approvals[s.id]))
  {
    hide Inv, ApprovedAt, ApproveStep, Submit, Deny, Revoke, Examine, Candidates, DefinitionVersion, ReadCall;
    if s.DoApprove? { ApproveGrows(w, s.id, s.ttl, s.uses, s.note); }
  }

  lemma ApproveGrows(w: World, id: string, ttl: Option<int>, uses: Option<int>, note: Option<string>)
    requires Inv(w) && w.lock == None
    ensures var w' := ApproveStep(w, id, ttl, uses, note);
            || w'.approvals == w.approvals
            || (id in w'.approvals && w'.approvals == w.approvals[id := w'.approvals[id]] && ApprovedAt(w, w', id, w'.approvals[id]))
  {
    hide ReviewRow, Approve, ApprovedAt, ApprovalRecord, RowsOk, CatalogOk, ThreadsOk, ClaimsOk, SentOk, QueueOk;
    if id in w.requests && w.requests[id].status == Pending && ReviewRow(w.requests[id], w.catalog, w.store).Grant? {
      GrantIsApproval(w, id, ttl, uses, note);
    }
  }

  lemma GrantIsApproval(w: World, id: string, ttl: Option<int>, uses: Option<int>, note: Option<string>)
    requires RowsOk(w.rootKey, w.requests, w.approvals) && CatalogOk(w.rootKey, w.catalog)
    requires id in w.requests && w.requests[id].status == Pending && ReviewRow(w.requests[id], w.catalog, w.store).Grant?
    ensures var w' := ApproveStep(w, id, ttl, uses, note);
            id in w'.approvals && w'.approvals == w.approvals[id := w'.approvals[id]] && ApprovedAt(w, w', id, w'.approvals[id])
  {
    hide QueryNames, ApprovalRecord, RowOk, RowsOk, CatalogOk, ReviewRow, ApprovedRow, ApprovedQuery, ApproveStep, Binds, QueryOk, QueryField, CapabilityKey;
    var row := w.requests[id];
    var review := ReviewRow(row, w.catalog, w.store);
    RowIsOk(w, id);
    RowShape(w.rootKey, id, row, w.approvals);
    ReviewedRowBound(w.rootKey, row, w.catalog, w.store);
    ReviewOutcome(row, w.catalog, w.store);
    ApprovedColumns(w.rootKey, id, row, review.bound, review.capability, ttl, uses, note, w.clock, ApprovedQuery(row, w.catalog));
    GrantedRowOk(w, id, review.bound, review.capability, ttl, uses, note);
    if row.payload.content.target.Call? { ReviewedDefinition(row, w.catalog, w.store); }
    ApprovedQueryKind(row, w.catalog);
    ApproveStepRecords(w, id, ttl, uses, note);
  }

  lemma ApprovedColumns(rootKey: string, id: string, row: Row, bound: Bound, capability: Option<string>,
                        ttl: Option<int>, uses: Option<int>, note: Option<string>, clock: int, q: Query)
    requires InRange(row.payload.content.requestedTtl, MIN_TTL, MAX_ACCESS_TTL)
    ensures var approved := ApprovedRow(rootKey, id, row, bound, capability, ttl, uses, note, clock);
            var a := ApprovalRecord(row, q, bound, ttl, uses, clock);
            && approved.expiresAt == Some(clock + a.ttl) && approved.maxUses == Some(a.uses)
            && a.approvedAt == clock && MIN_TTL <= a.ttl <= row.payload.content.requestedTtl
            && Bound(a.itemId, a.field, a.secret) == bound && a.query == q && a.agentId == row.agentId
  {
    hide CredentialVersion, ApprovalDigest, Note;
  }

  lemma ApprovedQueryKind(row: Row, catalog: Catalog)
    ensures ApprovedQuery(row, catalog).CallQuery? <==> row.payload.content.target.Call?
  {
    hide CapabilityKey;
  }

  lemma ApproveStepRecords(w: World, id: string, ttl: Option<int>, uses: Option<int>, note: Option<string>)
    requires id in w.requests && w.requests[id].status == Pending && ReviewRow(w.requests[id], w.catalog, w.store).Grant?
    ensures var w' := ApproveStep(w, id, ttl, uses, note);
            var review := ReviewRow(w.requests[id], w.catalog, w.store);
            && w'.approvals == w.approvals[id := ApprovalRecord(w.requests[id], ApprovedQuery(w.requests[id], w.catalog), review.bound, ttl, uses, w.clock)]
            && w'.requests == w.requests[id := ApprovedRow(w.rootKey, id, w.requests[id], review.bound, review.capability, ttl, uses, note, w.clock)]
  {
    hide ReviewRow, ApprovedRow, ApprovalRecord, ApprovedQuery;
  }

  lemma RowShape(rootKey: string, id: string, row: Row, approvals: map<string, Approval>)
    requires RowOk(rootKey, id, row, approvals)
    ensures row.payload.content.target.Call? <==> row.action == CapabilityInvoke
    ensures InRange(row.payload.content.requestedTtl, MIN_TTL, MAX_ACCESS_TTL) && InRange(row.payload.content.requestedUses, 1, MAX_ACCESS_USES)
  {
  }

  lemma ReviewedDefinition(row: Row, catalog: Catalog, store: Plain)
    requires ReviewRow(row, catalog, store).Grant? && row.payload.content.target.Call?
    ensures var id, q := row.payload.content.target.capabilityId, ApprovedQuery(row, catalog);
            && CapabilityKey(id) in catalog && q.capabilityId == id
            && q.definition == catalog[CapabilityKey(id)].definition && q.version == catalog[CapabilityKey(id)].version
  {
    hide ReviewCall, CapabilityKey;
  }

  lemma StartsEmpty(ws: seq<World>)
    requires IsRun(ws)
    ensures ws != [] && ws[0].approvals == map[]
  {
  }

  /** Every recorded approval was made in some earlier step of the run, and has not changed since. */
  lemma {:induction false} ApprovalOrigin(ws: seq<World>, i: nat, id: string) returns (j: nat)
    requires IsRun(ws) && i < |ws| && id in ws[i].approvals
    ensures j < i && ApprovedAt(ws[j], ws[j + 1], id, ws[i].approvals[id])
  {
    hide ApprovedAt, Inv, Enabled, Apply, IsRun;
    StartsEmpty(ws);
    RunInv(ws, i - 1);
    var s := RunStep(ws, i - 1);
    ApprovalsGrow(ws[i - 1], s);
    if id in ws[i - 1].approvals && ws[i].approvals[id] == ws[i - 1].approvals[id] {
      j := ApprovalOrigin(ws, i - 1, id);
    } else {
      j := i - 1;
    }
  }

  /**
   In every interleaving, whatever leaves the service was approved by a person in an earlier step:
   the same agent, the same operation (for a capability the very definition that was in the
   catalog at that step, although the call read the catalog outside the lock), and the value that
   the bound field of the bound item had at that step.
   */
  lemma OnlyApprovedLeaves(ws: seq<World>, i: nat, k: nat) returns (j: nat)
    requires IsRun(ws) && i < |ws| && k < |ws[i].sent|
    ensures var o := ws[i].sent[k];
            && j < i && o.id in ws[i].approvals && ApprovedAt(ws[j], ws[j + 1], o.id, ws[i].approvals[o.id])
            && ws[i].approvals[o.id].agentId == o.agentId && ws[i].approvals[o.id].query == o.q && ws[i].approvals[o.id].secret == o.secret
  {
    hide RowsOk, CatalogOk, ClaimsOk, QueueOk, ThreadsOk, SentOk, ApprovedAt;
    RunInv(ws, i);
    assert AsApproved(ws[i].approvals, ws[i].sent[k].id, ws[i].sent[k].agentId, ws[i].sent[k].q, ws[i].sent[k].secret) by {
      SentAsApproved(ws[i], k);
    }
    j := ApprovalOrigin(ws, i, ws[i].sent[k].id);
  }

  lemma SentAsApproved(w: World, k: nat)
    requires SentOk(w.approvals, w.threads, w.claims, w.sent) && k < |w.sent|
    ensures AsApproved(w.approvals, w.sent[k].id, w.sent[k].agentId, w.sent[k].q, w.sent[k].secret)
  {
  }

  // ---------- budgets ----------

  /** Per lease: claims granted are the uses counted, executions never exceed them, and the uses stay within what was granted and asked for. */
  lemma BudgetConserved(ws: seq<World>, i: nat, id: string)
    requires IsRun(ws) && i < |ws| && id in ws[i].requests
    ensures var w, row := ws[i], ws[i].requests[id];
            && CountSent(w.sent, id) <= CountClaims(w.claims, id) == row.uses
            && 0 <= row.uses <= (if row.maxUses.Some? then row.maxUses.value else 0) <= row.payload.content.requestedUses <= MAX_ACCESS_USES
  {
    RunInv(ws, i);
    RowIsOk(ws[i], id);
    assert CountSent(ws[i].sent, id) + |Holders(ws[i].threads, id)| <= CountClaims(ws[i].claims, id);
    RowBudget(ws[i].rootKey, id, ws[i].requests[id], ws[i].approvals);
  }

  lemma RowBudget(rootKey: string, id: string, row: Row, approvals: map<string, Approval>)
    requires RowOk(rootKey, id, row, approvals)
    ensures 0 <= row.uses <= (if row.maxUses.Some? then row.maxUses.value else 0) <= row.payload.content.requestedUses <= MAX_ACCESS_USES
  {
  }

  lemma RowCarries(rootKey: string, id: string, row: Row, approvals: map<string, Approval>)
    requires RowOk(rootKey, id, row, approvals) && id in approvals
    ensures Carries(rootKey, row, approvals[id]) && row.expiresAt == Some(approvals[id].approvedAt + approvals[id].ttl)
  {
  }

  /** While a row is approved, its lifetime and budget lie between the minimum and what was asked for. */
  lemma ApprovalOnlyNarrows(ws: seq<World>, i: nat, id: string)
    requires IsRun(ws) && i < |ws| && id in ws[i].requests && ws[i].requests[id].status == Approved
    ensures var row := ws[i].requests[id];
            && row.expiresAt.Some? && row.reviewedAt.Some? && row.maxUses.Some?
            && 60 <= row.expiresAt.value - row.reviewedAt.value <= row.payload.content.requestedTtl
            && 1 <= row.maxUses.value <= row.payload.content.requestedUses
  {
    RunInv(ws, i);
    RowIsOk(ws[i], id);
    CarriedWhileApproved(ws[i].rootKey, id, ws[i].requests[id], ws[i].approvals);
    NarrowedWhileApproved(ws[i].rootKey, ws[i].requests[id], ws[i].approvals[id]);
  }

  lemma NarrowedWhileApproved(rootKey: string, row: Row, a: Approval)
    requires Carries(rootKey, row, a) && row.status == Approved
    ensures row.expiresAt.Some? && row.reviewedAt.Some? && row.maxUses.Some?
    ensures 60 <= row.expiresAt.value - row.reviewedAt.value <= row.payload.content.requestedTtl
    ensures 1 <= row.maxUses.value <= row.payload.content.requestedUses
  {
  }

  // ---------- digests ----------

  /** In every reachable world the stored digests are the ones recomputed from the row as it is now. */
  lemma DigestsStayVerifiable(ws: seq<World>, i: nat, id: string)
    requires IsRun(ws) && i < |ws| && id in ws[i].requests
    ensures RequestOk(id, ws[i].requests[id]) && DigestOk(id, ws[i].requests[id])
  {
    RunInv(ws, i);
    RowIsOk(ws[i], id);
    RowDigests(ws[i].rootKey, id, ws[i].requests[id], ws[i].approvals);
  }

  lemma RowDigests(rootKey: string, id: string, row: Row, approvals: map<string, Approval>)
    requires RowOk(rootKey, id, row, approvals)
    ensures RequestOk(id, row) && DigestOk(id, row)
  {
    hide RequestOk, DigestOk, Carries;
  }

  // ---------- the queue ----------

  /** No agent has more than 32 pending rows, of both kinds together, and no two of them ask for the same. */
  lemma QueueBounded(ws: seq<World>, i: nat, agentId: string)
    requires IsRun(ws) && i < |ws|
    ensures |PendingOf(ws[i].requests, agentId)| <= 32
    ensures forall a, b :: a in ws[i].requests && b in ws[i].requests && Duplicates(ws[i].requests[a], ws[i].requests[b]) ==> a == b
  {
    RunInv(ws, i);
  }

  /** An exact retry returns the one pending row with this content and changes nothing. */
  lemma RetryIsIdempotent(ws: seq<World>, i: nat, id: string, newId: string, ts: int)
    requires IsRun(ws) && i < |ws| && id in ws[i].requests && ws[i].requests[id].status == Pending
    ensures var row := ws[i].requests[id];
            Submit(ws[i].requests, newId, row.agentId, row.action, row.targetHost, row.payload.content, ts) == (ws[i].requests, Ok(id))
  {
    RunInv(ws, i);
    var requests, row := ws[i].requests, ws[i].requests[id];
    var retries := RetriesOf(requests, row.agentId, row.action, row.targetHost, row.payload.content);
    assert id in retries;
    forall other | other in retries ensures other == id {
      assert Duplicates(requests[id], requests[other]);
    }
    assert retries == {id};
    assert CreationStamps(requests, retries).Keys == retries;
  }

  // ---------- the loop under interference ----------

  /** Whatever other threads have done since the candidates were selected, the claiming UPDATE of the next one would change exactly one row. */
  lemma ClaimAlwaysHits(ws: seq<World>, i: nat, t: nat)
    requires IsRun(ws) && i < |ws| && PcOf(ws[i], t).Scanning? && PcOf(ws[i], t).rest != []
    ensures var pc := PcOf(ws[i], t);
            var c := pc.rest[0];
            c.id in ws[i].requests && ws[i].requests[c.id] == c.row && ClaimGuard(c.row, pc.ts)
  {
    RunInv(ws, i);
    ScannerFacts(ws[i], t);
    var pc := PcOf(ws[i], t);
    GuardAlwaysHits(ws[i].requests, pc.rest, pc.agentId, pc.q, pc.ts);
  }

  /** A call that is refused at the end of its loop leaves no live lease for its operation, although items may have changed during the loop. */
  lemma RefusalIsFinal(ws: seq<World>, i: nat, t: nat)
    requires IsRun(ws) && i < |ws| && Enabled(ws[i], DoRefuse(t))
    ensures var pc := PcOf(ws[i], t);
            Selected(ws[i].requests, pc.agentId, pc.q, pc.ts) == map[]
  {
    RunInv(ws, i);
    ScannerFacts(ws[i], t);
    var pc := PcOf(ws[i], t);
    NothingLeft(ws[i].requests, pc.agentId, pc.q, pc.ts);
  }

  lemma NothingLeft(requests: Requests, agentId: string, q: Query, ts: int)
    requires Covers(requests, [], agentId, q, ts)
    ensures Selected(requests, agentId, q, ts) == map[]
  {
    hide Live, Matches;
  }

  // ---------- the life of a row ----------

  /** The moves of one step. */
  predicate Move(from: Status, to: Status) {
    || from == to
    || (from == Pending && (to == Approved || to == Denied || to == Stale))
    || (from == Approved && (to == Revoked || to == Stale))
  }

  /** What a row keeps as it gets later; a denied, revoked or stale row is frozen. */
  predicate Later(r: Row, r': Row) {
    && r'.agentId == r.agentId && r'.action == r.action && r'.targetHost == r.targetHost && r'.createdAt == r.createdAt
    && r'.payload.content == r.payload.content && r'.payload.authorityDigest == r.payload.authorityDigest
    && (r.status == Approved ==>
          && (r'.status == Approved || r'.status == Revoked || r'.status == Stale)
          && r'.payload == r.payload && r'.itemId == r.itemId && r'.expiresAt == r.expiresAt && r'.maxUses == r.maxUses && r.uses <= r'.uses)
    && (r.status == Denied || r.status == Revoked || r.status == Stale ==> r' == r)
  }

  lemma LaterReflexive(r: Row)
    ensures Later(r, r)
  {
  }

  lemma LaterTransitive(r: Row, r': Row, r'': Row)
    requires Later(r, r') && Later(r', r'')
    ensures Later(r, r'')
  {
  }

  lemma ApproveAdvances(w: World, id: string, ttl: Option<int>, uses: Option<int>, note: Option<string>, other: string)
    requires other in w.requests
    ensures var a := ApproveStep(w, id, ttl, uses, note).requests;
            other in a && Move(w.requests[other].status, a[other].status) && Later(w.requests[other], a[other])
  {
    hide ReviewRow, ApprovedRow, ApprovalRecord, ApprovedQuery, Later, Staled;
    LaterReflexive(w.requests[other]);
    if id in w.requests && w.requests[id].status == Pending {
      var row, review := w.requests[id], ReviewRow(w.requests[id], w.catalog, w.store);
      if review.TurnStale? { StaledLater(row, w.clock); }
      if review.Grant? { ApprovedLater(w.rootKey, id, row, review.bound, review.capability, ttl, uses, note, w.clock); }
    }
  }

  lemma StaledLater(row: Row, ts: int)
    requires row.status == Pending
    ensures Later(row, Staled(row, ts)) && Staled(row, ts).status == Stale
  {
  }

  lemma ApprovedLater(rootKey: string, id: string, row: Row, bound: Bound, capability: Option<string>,
                      ttl: Option<int>, uses: Option<int>, note: Option<string>, clock: int)
    requires row.status == Pending
    ensures var approved := ApprovedRow(rootKey, id, row, bound, capability, ttl, uses, note, clock);
            Later(row, approved) && approved.status == Approved
  {
    hide ApprovedTtl, ApprovedUses, Note, ApprovalDigest, CredentialVersion;
  }

  lemma DenyAdvances(requests: Requests, id: string, note: Option<string>, clock: int, other: string)
    requires other in requests
    ensures var d := Deny(requests, id, note, clock).0;
            other in d && Move(requests[other].status, d[other].status) && Later(requests[other], d[other])
  {
    hide Note;
  }

  lemma RevokeAdvances(requests: Requests, id: string, clock: int, other: string)
    requires other in requests
    ensures var r := Revoke(requests, id, clock).0;
            other in r && Move(requests[other].status, r[other].status) && Later(requests[other], r[other])
  {
  }

  lemma SubmitAdvances(requests: Requests, id: string, agentId: string, action: Action, host: Option<string>, content: Content, ts: int, other: string)
    requires other in requests
    ensures var s := Submit(requests, id, agentId, action, host, content, ts).0;
            other in s && s[other] == requests[other]
  {
    hide NewRow;
  }

  lemma ExamineAdvances(w: World, t: nat, other: string)
    requires other in w.requests && PcOf(w, t).Scanning? && PcOf(w, t).rest != []
    ensures var e := ExamineStep(w, t).requests;
            other in e && Move(w.requests[other].status, e[other].status) && Later(w.requests[other], e[other])
  {
    hide Judge, Matches;
  }

  /** Every step moves every row along the allowed transitions and keeps what must be kept; no row is deleted. */
  lemma StepAdvances(w: World, s: Step, id: string)
    requires Enabled(w, s) && id in w.requests
    ensures var w' := Apply(w, s);
            id in w'.requests && Move(w.requests[id].status, w'.requests[id].status) && Later(w.requests[id], w'.requests[id])
  {
    hide ExamineStep, Later, ApproveStep, DefinitionVersion, SetVault, SetItem, Submit, Deny, Revoke, Candidates, ReadCall;
    LaterReflexive(w.requests[id]);
    match s
    case DoSubmit(r, agentId, action, host, content) => SubmitAdvances(w.requests, r, agentId, action, host, content, w.clock, id);
    case DoApprove(r, ttl, uses, note) => ApproveAdvances(w, r, ttl, uses, note, id);
    case DoDeny(r, note) => DenyAdvances(w.requests, r, note, w.clock, id);
    case DoRevoke(r) => RevokeAdvances(w.requests, r, w.clock, id);
    case DoExamine(t) => ExamineAdvances(w, t, id);
    case _ =>
  }

  lemma {:induction false} RunAdvances(ws: seq<World>, i: nat, j: nat, id: string)
    requires IsRun(ws) && i <= j < |ws| && id in ws[i].requests
    ensures id in ws[j].requests && Later(ws[i].requests[id], ws[j].requests[id])
    decreases j
  {
    hide Enabled, Apply, IsRun, Later;
    if i == j {
      LaterReflexive(ws[i].requests[id]);
    } else {
      RunAdvances(ws, i, j - 1, id);
      var s := RunStep(ws, j - 1);
      StepAdvances(ws[j - 1], s, id);
      LaterTransitive(ws[i].requests[id], ws[j - 1].requests[id], ws[j].requests[id]);
    }
  }

  ghost predicate ClockNeverGoesBack(ws: seq<World>) {
    forall i, j :: 0 <= i < j < |ws| ==> ws[i].clock <= ws[j].clock
  }

  predicate ActiveIn(w: World, id: string) {
    id in w.requests && ActiveShown(w.requests[id], w.clock)
  }

  /** With a clock that never goes back, a lease that was active and has become inactive is never active again. */
  lemma NeverActiveAgain(ws: seq<World>, i: nat, j: nat, k: nat, id: string)
    requires IsRun(ws) && ClockNeverGoesBack(ws) && i < j < k < |ws|
    requires ActiveIn(ws[i], id) && !ActiveIn(ws[j], id)
    ensures !ActiveIn(ws[k], id)
  {
    RunAdvances(ws, i, j, id);
    RunAdvances(ws, j, k, id);
  }
}
