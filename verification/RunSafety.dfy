/** Every step keeps the invariant of Runs, and what that says about whole runs. */
module RunSafety {
  import opened Wrappers
  import opened Json
  import opened Authority
  import opened Capabilities
  import opened Store
  import opened Leases
  import opened Consumption
  import opened Runs

  // ---------- what a current row proves about the caller's operation ----------

  /**
   If the loop finds an approved row current for a caller's operation, then that operation is the
   approved one, down to every field of the capability definition that was read outside the lock,
   and the secret is the value that the bound field had when it was approved.
   */
  lemma CurrentIsApproved(rootKey: string, row: Row, a: Approval, agentId: string, q: Query, items: map<string, Item>, ts: int)
    requires Carries(rootKey, row, a) && Live(row, agentId, q, ts) && Matches(row, q) && QueryOk(rootKey, q)
    requires Judge(rootKey, row, q, items).Current?
    ensures a.agentId == agentId && a.query == q && a.secret == Judge(rootKey, row, q, items).secret
    ensures ts < a.approvedAt + a.ttl
  {
    if q.CallQuery? {
      DefinitionVersionInjective(rootKey, q.definition, a.query.definition);
    }
    CredentialVersionInjective(rootKey, row.itemId.value, QueryField(q).value, Judge(rootKey, row, q, items).secret,
                               a.itemId, a.field, a.secret);
  }

  // ---------- frames ----------

  ghost predicate Extends(approvals: map<string, Approval>, more: map<string, Approval>) {
    forall id :: id in approvals ==> id in more && more[id] == approvals[id]
  }

  /** Without the lock no thread is scanning, so the tables may change under the threads. */
  lemma ThreadsUnlocked(rootKey: string, requests: Requests, requests': Requests, approvals: map<string, Approval>, approvals': map<string, Approval>, threads: Threads)
    requires ThreadsOk(rootKey, requests, approvals, threads, None) && Extends(approvals, approvals')
    ensures ThreadsOk(rootKey, requests', approvals', threads, None)
  {
    forall t | t in threads ensures PcOk(rootKey, requests', approvals', threads[t]) {
      assert PcOk(rootKey, requests, approvals, threads[t]);
    }
  }

  /** One thread moves to a state that is not scanning, and the lock is released or stays free of it. */
  lemma ThreadsMove(rootKey: string, requests: Requests, requests': Requests, approvals: map<string, Approval>, threads: Threads, lock: Option<nat>, lock': Option<nat>, t: nat, pc: Pc)
    requires ThreadsOk(rootKey, requests, approvals, threads, lock)
    requires (lock' == lock && requests' == requests) || lock == Some(t)
    requires PcOk(rootKey, requests', approvals, pc) && (pc.Scanning? ==> lock' == Some(t))
    ensures ThreadsOk(rootKey, requests', approvals, threads[t := pc], lock')
  {
    forall u {:trigger threads[t := pc][u]} | u in threads[t := pc] ensures PcOk(rootKey, requests', approvals, threads[t := pc][u]) {
      if u != t { assert PcOk(rootKey, requests, approvals, threads[u]); }
    }
  }

  lemma {:induction false} CountNone(claims: seq<Claim>, id: string)
    requires forall k :: 0 <= k < |claims| ==> claims[k].id != id
    ensures CountClaims(claims, id) == 0
  {
    if claims != [] { CountNone(claims[..|claims| - 1], id); }
  }

  /** Rows may only leave the queue. */
  lemma QueueShrinks(requests: Requests, requests': Requests)
    requires QueueOk(requests)
    requires forall id :: id in requests' && requests'[id].status == Pending ==> id in requests && requests[id] == requests'[id]
    ensures QueueOk(requests')
  {
    forall agentId ensures |PendingOf(requests', agentId)| <= MAX_PENDING_PER_AGENT {
      assert PendingOf(requests', agentId) <= PendingOf(requests, agentId);
      SubsetSize(PendingOf(requests', agentId), PendingOf(requests, agentId));
    }
    forall a, b | a in requests' && b in requests' && Duplicates(requests'[a], requests'[b]) ensures a == b {
      assert Duplicates(requests[a], requests[b]);
    }
  }

  lemma {:induction false} SubsetSize(a: set<string>, b: set<string>)
    requires a <= b
    ensures |a| <= |b|
  {
    if a != {} {
      var x :| x in a;
      SubsetSize(a - {x}, b - {x});
    }
  }

  // ---------- the steps that need the free lock ----------

  /** A row of the table is written; rows that were there before keep their approval. */
  lemma RowsWrite(rootKey: string, requests: Requests, approvals: map<string, Approval>, id: string, row: Row, approvals': map<string, Approval>)
    requires RowsOk(rootKey, requests, approvals) && Extends(approvals, approvals')
    requires approvals'.Keys <= approvals.Keys + {id} && RowOk(rootKey, id, row, approvals')
    ensures RowsOk(rootKey, requests[id := row], approvals')
  {
    hide RequestOk, DigestOk, Carries, NeverApproved;
    var after := requests[id := row];
    forall other | other in after ensures RowOk(rootKey, other, after[other], approvals') {
      if other != id { assert RowOk(rootKey, other, requests[other], approvals); }
    }
  }

  lemma ClaimsWrite(requests: Requests, approvals: map<string, Approval>, approvals': map<string, Approval>, claims: seq<Claim>, id: string, row: Row)
    requires ClaimsOk(requests, approvals, claims) && Extends(approvals, approvals')
    requires CountClaims(claims, id) == row.uses
    ensures ClaimsOk(requests[id := row], approvals', claims)
  {
    forall k | 0 <= k < |claims| ensures AsApproved(approvals', claims[k].id, claims[k].agentId, claims[k].q, claims[k].secret) {
      assert AsApproved(approvals, claims[k].id, claims[k].agentId, claims[k].q, claims[k].secret);
    }
  }

  lemma SentExtends(approvals: map<string, Approval>, approvals': map<string, Approval>, threads: Threads, claims: seq<Claim>, sent: seq<Sent>)
    requires SentOk(approvals, threads, claims, sent) && Extends(approvals, approvals')
    ensures SentOk(approvals', threads, claims, sent)
  {
    forall k | 0 <= k < |sent| ensures AsApproved(approvals', sent[k].id, sent[k].agentId, sent[k].q, sent[k].secret) {
      assert AsApproved(approvals, sent[k].id, sent[k].agentId, sent[k].q, sent[k].secret);
    }
  }

  lemma NewRowOk(rootKey: string, id: string, agentId: string, action: Action, host: Option<string>, content: Content, ts: int, approvals: map<string, Approval>)
    requires InRange(content.requestedTtl, MIN_TTL, MAX_ACCESS_TTL) && InRange(content.requestedUses, 1, MAX_ACCESS_USES)
    requires (content.target.Call? <==> action == CapabilityInvoke) && id !in approvals
    ensures RowOk(rootKey, id, NewRow(id, agentId, action, host, content, ts), approvals)
  {
    hide RequestDigest;
  }

  lemma ClaimsOfStranger(requests: Requests, rootKey: string, approvals: map<string, Approval>, claims: seq<Claim>, id: string)
    requires RowsOk(rootKey, requests, approvals) && ClaimsOk(requests, approvals, claims) && id !in requests
    ensures CountClaims(claims, id) == 0
  {
    forall k | 0 <= k < |claims| ensures claims[k].id != id {
      assert AsApproved(approvals, claims[k].id, claims[k].agentId, claims[k].q, claims[k].secret);
    }
    CountNone(claims, id);
  }

  lemma SubmitKeeps(w: World, id: string, agentId: string, action: Action, host: Option<string>, content: Content)
    requires Inv(w) && Enabled(w, DoSubmit(id, agentId, action, host, content))
    ensures Inv(Apply(w, DoSubmit(id, agentId, action, host, content)))
  {
    hide RequestDigest, PcOk, AsApproved, Duplicates, CatalogOk, SentOk, RowOk;
    var after := Submit(w.requests, id, agentId, action, host, content, w.clock).0;
    if after != w.requests {
      var row := NewRow(id, agentId, action, host, content, w.clock);
      assert after == w.requests[id := row] && id !in w.requests;
      NewRowOk(w.rootKey, id, agentId, action, host, content, w.clock, w.approvals);
      RowsWrite(w.rootKey, w.requests, w.approvals, id, row, w.approvals);
      ThreadsUnlocked(w.rootKey, w.requests, after, w.approvals, w.approvals, w.threads);
      ClaimsOfStranger(w.requests, w.rootKey, w.approvals, w.claims, id);
      ClaimsWrite(w.requests, w.approvals, w.approvals, w.claims, id, row);
      SubmitQueue(w.requests, id, agentId, action, host, content, w.clock);
    }
  }

  lemma NoDuplicate(requests: Requests, id: string, agentId: string, action: Action, host: Option<string>, content: Content, ts: int, other: string)
    requires RetriesOf(requests, agentId, action, host, content) == {} && other in requests
    ensures var row := NewRow(id, agentId, action, host, content, ts);
            !Duplicates(row, requests[other]) && !Duplicates(requests[other], row)
  {
    hide RequestDigest;
    assert other !in RetriesOf(requests, agentId, action, host, content);
  }

  lemma PendingAfter(requests: Requests, id: string, row: Row, agentId: string)
    requires id !in requests && row.status == Pending
    ensures PendingOf(requests[id := row], agentId) == PendingOf(requests, agentId) + if row.agentId == agentId then {id} else {}
  {
  }

  lemma SubmitQueue(requests: Requests, id: string, agentId: string, action: Action, host: Option<string>, content: Content, ts: int)
    requires QueueOk(requests) && id !in requests
    requires |PendingOf(requests, agentId)| < MAX_PENDING_PER_AGENT && RetriesOf(requests, agentId, action, host, content) == {}
    ensures QueueOk(requests[id := NewRow(id, agentId, action, host, content, ts)])
  {
    hide RequestDigest, Duplicates, PendingOf, RetriesOf;
    var row := NewRow(id, agentId, action, host, content, ts);
    var after := requests[id := row];
    forall a ensures |PendingOf(after, a)| <= MAX_PENDING_PER_AGENT {
      PendingAfter(requests, id, row, a);
    }
    forall other | other in requests ensures !Duplicates(row, requests[other]) && !Duplicates(requests[other], row) {
      NoDuplicate(requests, id, agentId, action, host, content, ts, other);
    }
    forall a, b | a in after && b in after && Duplicates(after[a], after[b]) ensures a == b {
      if a != id && b != id { assert Duplicates(requests[a], requests[b]); }
    }
  }

  /** Replacing one row by a row with the same count of uses that is not pending. */
  lemma ReviewKeeps(w: World, id: string, row: Row, approvals': map<string, Approval>)
    requires Inv(w) && w.lock == None && id in w.requests
    requires row.status != Pending && row.uses == w.requests[id].uses
    requires RowOk(w.rootKey, id, row, approvals') && Extends(w.approvals, approvals')
    requires approvals'.Keys <= w.approvals.Keys + {id}
    ensures Inv(w.(requests := w.requests[id := row], approvals := approvals'))
  {
    hide RowOk;
    var after := w.requests[id := row];
    RowsWrite(w.rootKey, w.requests, w.approvals, id, row, approvals');
    ThreadsUnlocked(w.rootKey, w.requests, after, w.approvals, approvals', w.threads);
    ClaimsWrite(w.requests, w.approvals, approvals', w.claims, id, row);
    SentExtends(w.approvals, approvals', w.threads, w.claims, w.sent);
    QueueShrinks(w.requests, after);
  }

  lemma ApproveKeeps(w: World, id: string, ttl: Option<int>, uses: Option<int>, note: Option<string>)
    requires Inv(w) && w.lock == None
    ensures Inv(ApproveStep(w, id, ttl, uses, note))
  {
    hide ReviewRow, ApprovedRow, ApprovalRecord, ApprovedQuery, RowOk, CatalogOk, ThreadsOk, ClaimsOk, SentOk, QueueOk;
    if id in w.requests && w.requests[id].status == Pending {
      var row := w.requests[id];
      var review := ReviewRow(row, w.catalog, w.store);
      if review.TurnStale? {
        RowIsOk(w, id);
        StaledRowOk(w.rootKey, id, row, w.approvals, w.clock);
        ReviewKeeps(w, id, Staled(row, w.clock), w.approvals);
      } else if review.Grant? {
        var q := ApprovedQuery(row, w.catalog);
        var approved := ApprovedRow(w.rootKey, id, row, review.bound, review.capability, ttl, uses, note, w.clock);
        var record := ApprovalRecord(row, q, review.bound, ttl, uses, w.clock);
        GrantedRowOk(w, id, review.bound, review.capability, ttl, uses, note);
        ReviewKeeps(w, id, approved, w.approvals[id := record]);
      }
    }
  }

  lemma RowIsOk(w: World, id: string)
    requires RowsOk(w.rootKey, w.requests, w.approvals) && id in w.requests
    ensures RowOk(w.rootKey, id, w.requests[id], w.approvals)
  {
    hide RowOk;
  }

  lemma StaledRowOk(rootKey: string, id: string, row: Row, approvals: map<string, Approval>, ts: int)
    requires RowOk(rootKey, id, row, approvals) && (row.status == Pending || row.status == Approved)
    ensures RowOk(rootKey, id, Staled(row, ts), approvals)
  {
    hide RequestDigest, ApprovalDigest, CredentialVersion, DefinitionVersion;
  }

  lemma GrantedRowOk(w: World, id: string, bound: Bound, capability: Option<string>, ttl: Option<int>, uses: Option<int>, note: Option<string>)
    requires RowsOk(w.rootKey, w.requests, w.approvals) && CatalogOk(w.rootKey, w.catalog)
    requires id in w.requests && w.requests[id].status == Pending
    requires ReviewRow(w.requests[id], w.catalog, w.store) == Grant(bound, capability)
    ensures var approved := ApprovedRow(w.rootKey, id, w.requests[id], bound, capability, ttl, uses, note, w.clock);
            var record := ApprovalRecord(w.requests[id], ApprovedQuery(w.requests[id], w.catalog), bound, ttl, uses, w.clock);
            && id !in w.approvals && approved.status == Approved && approved.uses == w.requests[id].uses
            && RowOk(w.rootKey, id, approved, w.approvals[id := record])
  {
    hide RequestDigest, ApprovalDigest, CredentialVersion, DefinitionVersion, ReviewRow, Carries;
    var row := w.requests[id];
    assert RowOk(w.rootKey, id, row, w.approvals);
    assert id !in w.approvals by { NotCarriedWhilePending(w.rootKey, id, row, w.approvals); }
    ReviewedRowBound(w.rootKey, row, w.catalog, w.store);
    ApprovedRowCarries(w.rootKey, id, row, bound, capability, ttl, uses, note, w.clock, ApprovedQuery(row, w.catalog));
    ApprovedRowDigest(w.rootKey, id, row, bound, capability, ttl, uses, note, w.clock);
  }

  lemma NotCarriedWhilePending(rootKey: string, id: string, row: Row, approvals: map<string, Approval>)
    requires RowOk(rootKey, id, row, approvals) && (row.status == Pending || row.status == Denied)
    ensures id !in approvals
  {
  }

  /** The approved row carries the recorded approval, whatever budget the human passed in. */
  lemma ApprovedRowCarries(rootKey: string, id: string, row: Row, bound: Bound, capability: Option<string>,
                           ttl: Option<int>, uses: Option<int>, note: Option<string>, clock: int, q: Query)
    requires InRange(row.payload.content.requestedTtl, MIN_TTL, MAX_ACCESS_TTL) && InRange(row.payload.content.requestedUses, 1, MAX_ACCESS_USES)
    requires Binds(row, q) && QueryOk(rootKey, q) && QueryField(q) == Some(bound.field)
    ensures Carries(rootKey, ApprovedRow(rootKey, id, row, bound, capability, ttl, uses, note, clock),
                    ApprovalRecord(row, q, bound, ttl, uses, clock))
  {
    hide ApprovalDigest, CredentialVersion, DefinitionVersion, BackingField, Note;
    var approved := ApprovedRow(rootKey, id, row, bound, capability, ttl, uses, note, clock);
    assert approved.payload.content == row.payload.content && approved.action == row.action && approved.targetHost == row.targetHost;
  }

  lemma ApprovedRowDigest(rootKey: string, id: string, row: Row, bound: Bound, capability: Option<string>,
                          ttl: Option<int>, uses: Option<int>, note: Option<string>, clock: int)
    requires RequestOk(id, row)
    ensures var approved := ApprovedRow(rootKey, id, row, bound, capability, ttl, uses, note, clock);
            RequestOk(id, approved) && DigestOk(id, approved)
  {
    hide ApprovalDigest, RequestDigest, CredentialVersion, Note;
  }

  // What the review has found is what the item holds.

  ghost predicate HoldsSecret(store: Plain, bound: Bound) {
    && bound.itemId in store.items && bound.field in store.items[bound.itemId].payload.fields
    && bound.secret == store.items[bound.itemId].payload.fields[bound.field]
  }

  lemma SelectorBound(store: Plain, selector: Refs.Selector)
    requires ResolveSelector(store, selector).Ok?
    ensures HoldsSecret(store, ResolveSelector(store, selector).value)
    ensures selector.field == Some(ResolveSelector(store, selector).value.field)
  {
  }

  lemma BackingBound(store: Plain, d: Definition)
    requires ResolveBacking(store, d).Ok?
    ensures HoldsSecret(store, ResolveBacking(store, d).value)
    ensures BackingField(d) == Some(ResolveBacking(store, d).value.field)
  {
    SelectorBound(store, Refs.ParsePassRef(d.backingUri).value);
  }

  lemma ReviewedCallBound(cap: CapabilityRow, verb: string, path: string, store: Plain)
    requires ReviewCall(cap, verb, path, store).Grant?
    ensures HoldsSecret(store, ReviewCall(cap, verb, path, store).bound)
    ensures BackingField(cap.definition) == Some(ReviewCall(cap, verb, path, store).bound.field)
  {
    BackingBound(store, cap.definition);
  }

  /** An approval binds the row's own operation, with the definition that is in the catalog, to the field as it is stored. */
  lemma ReviewedRowBound(rootKey: string, row: Row, catalog: Catalog, store: Plain)
    requires CatalogOk(rootKey, catalog) && ReviewRow(row, catalog, store).Grant?
    requires row.payload.content.target.Call? <==> row.action == CapabilityInvoke
    ensures var bound, q := ReviewRow(row, catalog, store).bound, ApprovedQuery(row, catalog);
            HoldsSecret(store, bound) && QueryField(q) == Some(bound.field) && Binds(row, q) && QueryOk(rootKey, q)
  {
    hide ResolveSelector, ReviewCall, BackingField, DefinitionVersion, CapabilityKey;
    match row.payload.content.target
    case Secret(selector) => SelectorBound(store, selector);
    case Call(id, version, verb, path) => ReviewedCallBound(catalog[CapabilityKey(id)], verb, path, store);
  }

  lemma DenyKeeps(w: World, id: string, note: Option<string>)
    requires Inv(w) && w.lock == None
    ensures Inv(w.(requests := Deny(w.requests, id, note, w.clock).0))
  {
    hide RowOk, Note;
    if id in w.requests && w.requests[id].status == Pending {
      var after := Deny(w.requests, id, note, w.clock).0;
      RowIsOk(w, id);
      DeniedRowOk(w.rootKey, id, w.requests[id], w.approvals, Note(note), w.clock);
      ReviewKeeps(w, id, after[id], w.approvals);
    }
  }

  lemma DeniedRowOk(rootKey: string, id: string, row: Row, approvals: map<string, Approval>, note: Option<string>, ts: int)
    requires RowOk(rootKey, id, row, approvals) && row.status == Pending
    ensures RowOk(rootKey, id, row.(payload := row.payload.(decisionNote := note), status := Denied, reviewedAt := Some(ts)), approvals)
  {
    hide RequestDigest, ApprovalDigest, CredentialVersion, DefinitionVersion;
  }

  lemma RevokeKeeps(w: World, id: string)
    requires Inv(w) && w.lock == None
    ensures Inv(w.(requests := Revoke(w.requests, id, w.clock).0))
  {
    hide RowOk;
    if id in w.requests && w.requests[id].status == Approved {
      var after := Revoke(w.requests, id, w.clock).0;
      RowIsOk(w, id);
      RevokedRowOk(w.rootKey, id, w.requests[id], w.approvals, w.clock);
      ReviewKeeps(w, id, after[id], w.approvals);
    }
  }

  lemma RevokedRowOk(rootKey: string, id: string, row: Row, approvals: map<string, Approval>, ts: int)
    requires RowOk(rootKey, id, row, approvals) && row.status == Approved
    ensures RowOk(rootKey, id, row.(status := Revoked, reviewedAt := Some(ts)), approvals)
  {
    hide RequestDigest, ApprovalDigest, CredentialVersion, DefinitionVersion;
  }

  // ---------- the steps of a caller outside the loop ----------

  /** A thread moves without touching the tables, and without a claimed use before or after. */
  lemma MoveKeeps(w: World, t: nat, pc: Pc)
    requires Inv(w) && !PcOf(w, t).Scanning? && !pc.Scanning? && !pc.Holding?
    requires PcOk(w.rootKey, w.requests, w.approvals, pc)
    ensures Inv(SetPc(w, t, pc))
  {
    hide RowOk, PcOk;
    ThreadsMove(w.rootKey, w.requests, w.requests, w.approvals, w.threads, w.lock, w.lock, t, pc);
    HoldersMove(w.approvals, w.threads, w.claims, w.sent, t, pc);
  }

  lemma HoldersMove(approvals: map<string, Approval>, threads: Threads, claims: seq<Claim>, sent: seq<Sent>, t: nat, pc: Pc)
    requires SentOk(approvals, threads, claims, sent) && !pc.Holding?
    ensures SentOk(approvals, threads[t := pc], claims, sent)
  {
    forall id ensures CountSent(sent, id) + |Holders(threads[t := pc], id)| <= CountClaims(claims, id) {
      HoldersAfter(threads, t, pc, id);
    }
  }

  lemma BeginCallOk(rootKey: string, catalog: Catalog, id: string, verb: string, path: string)
    requires CatalogOk(rootKey, catalog) && ReadCall(catalog, id, verb, path).Some?
    ensures QueryOk(rootKey, ReadCall(catalog, id, verb, path).value)
  {
    hide CapabilityKey, ValidateInvocation, DefinitionVersion;
  }

  /** The lock is taken: the candidates are fresh, and every live matching row is among them. */
  lemma LockKeeps(w: World, t: nat)
    requires Inv(w) && Enabled(w, DoLock(t))
    ensures Inv(Apply(w, DoLock(t)))
  {
    hide RowsOk, CatalogOk, ClaimsOk, SentOk, QueueOk, Fresh, Covers, QueryOk, RowOk, Candidates, Live, Matches;
    var pc := PcOf(w, t);
    var rest := Candidates(w.requests, pc.agentId, pc.q, pc.ts);
    CandidatesFresh(w.requests, pc.agentId, pc.q, pc.ts);
    CandidatesCover(w.requests, pc.agentId, pc.q, pc.ts);
    var scanning := Scanning(pc.agentId, pc.q, pc.ts, rest);
    assert PcOk(w.rootKey, w.requests, w.approvals, w.threads[t]);
    ThreadsLock(w.rootKey, w.requests, w.approvals, w.threads, t, scanning);
    HoldersMove(w.approvals, w.threads, w.claims, w.sent, t, scanning);
  }

  lemma ThreadsLock(rootKey: string, requests: Requests, approvals: map<string, Approval>, threads: Threads, t: nat, pc: Pc)
    requires ThreadsOk(rootKey, requests, approvals, threads, None) && PcOk(rootKey, requests, approvals, pc)
    ensures ThreadsOk(rootKey, requests, approvals, threads[t := pc], Some(t))
  {
    hide PcOk;
  }

  lemma CandidatesCover(requests: Requests, agentId: string, q: Query, ts: int)
    ensures Covers(requests, Candidates(requests, agentId, q, ts), agentId, q, ts)
  {
    var stamps := ExpiryStamps(requests, agentId, q, ts);
    var cs := Candidates(requests, agentId, q, ts);
    Ordering.InOrderAscending(stamps);
    forall id | id in requests && Live(requests[id], agentId, q, ts) && Matches(requests[id], q)
      ensures exists i :: 0 <= i < |cs| && cs[i].id == id
    {
      assert id in Ordering.InOrder(stamps);
      var i :| 0 <= i < |cs| && Ordering.InOrder(stamps)[i] == id;
      assert cs[i].id == id;
    }
  }

  lemma SendKeeps(w: World, t: nat)
    requires Inv(w) && Enabled(w, DoSend(t))
    ensures Inv(Apply(w, DoSend(t)))
  {
    hide RowsOk, CatalogOk, ClaimsOk, QueueOk, RowOk;
    var pc := PcOf(w, t);
    assert PcOk(w.rootKey, w.requests, w.approvals, w.threads[t]);
    ThreadsMove(w.rootKey, w.requests, w.requests, w.approvals, w.threads, w.lock, w.lock, t, Idle);
    var more := w.sent + [Sent(pc.id, pc.agentId, pc.q, pc.secret)];
    forall k | 0 <= k < |more| ensures AsApproved(w.approvals, more[k].id, more[k].agentId, more[k].q, more[k].secret) {
      if k < |w.sent| { assert more[k] == w.sent[k]; }
    }
    forall id ensures CountSent(more, id) + |Holders(w.threads[t := Idle], id)| <= CountClaims(w.claims, id) {
      CountMore([], Claim(id, "", pc.q, pc.secret, 0), w.sent, Sent(pc.id, pc.agentId, pc.q, pc.secret), id);
      HoldersAfter(w.threads, t, Idle, id);
    }
  }

  // ---------- one turn of the candidate loop ----------

  /** While the lock is held the row is the one that was selected, so the claiming UPDATE changes exactly one row. */
  lemma GuardAlwaysHits(requests: Requests, rest: seq<Candidate>, agentId: string, q: Query, ts: int)
    requires rest != [] && Fresh(requests, rest, agentId, q, ts)
    ensures rest[0].id in requests && requests[rest[0].id] == rest[0].row && ClaimGuard(requests[rest[0].id], ts)
  {
  }

  lemma CoversTail(rootKey: string, requests: Requests, rest: seq<Candidate>, agentId: string, q: Query, items: map<string, Item>, ts: int)
    requires rest != [] && Fresh(requests, rest, agentId, q, ts) && Covers(requests, rest, agentId, q, ts)
    requires Examine(rootKey, requests, rest[0], q, items, ts).1.None?
    ensures Covers(Examine(rootKey, requests, rest[0], q, items, ts).0, rest[1..], agentId, q, ts)
  {
    hide Judge;
    var after := Examine(rootKey, requests, rest[0], q, items, ts).0;
    ExamineKeepsOthers(rootKey, requests, rest, agentId, q, items, ts);
    forall id | id in after && Live(after[id], agentId, q, ts) && Matches(after[id], q)
      ensures exists i :: 0 <= i < |rest[1..]| && rest[1..][i].id == id
    {
      assert id != rest[0].id;
      assert after[id] == requests[id];
      var i :| 0 <= i < |rest| && rest[i].id == id;
      assert rest[1..][i - 1].id == id;
    }
  }

  /** The row that a turn writes keeps its approval, and a granted use is for what was approved. */
  lemma ExamineRow(rootKey: string, requests: Requests, approvals: map<string, Approval>, rest: seq<Candidate>, agentId: string, q: Query, items: map<string, Item>, ts: int)
    requires RowsOk(rootKey, requests, approvals) && QueryOk(rootKey, q)
    requires rest != [] && Fresh(requests, rest, agentId, q, ts)
    ensures var (after, stop) := Examine(rootKey, requests, rest[0], q, items, ts);
            var id := rest[0].id;
            && id in requests && id in approvals && id in after && after == requests[id := after[id]]
            && RowOk(rootKey, id, after[id], approvals) && after[id].status != Pending
            && after[id].uses == requests[id].uses + (if stop.Some? && stop.value.Granted? then 1 else 0)
            && stop != Some(NoLease)
            && (stop.Some? && stop.value.Granted? ==>
                  stop.value.id == id && AsApproved(approvals, id, agentId, q, stop.value.secret) && ts < approvals[id].approvedAt + approvals[id].ttl)
  {
    hide RowOk, Carries, QueryOk, Judge, Live, Matches;
    var id, row := rest[0].id, rest[0].row;
    GuardAlwaysHits(requests, rest, agentId, q, ts);
    assert RowOk(rootKey, id, row, approvals);
    CarriedWhileApproved(rootKey, id, row, approvals);
    if Matches(row, q) {
      StaledRowOk(rootKey, id, row, approvals, ts);
      ClaimedRowOk(rootKey, id, row, approvals);
      if Judge(rootKey, row, q, items).Current? {
        CurrentIsApproved(rootKey, row, approvals[id], agentId, q, items, ts);
      }
    }
  }

  lemma CarriedWhileApproved(rootKey: string, id: string, row: Row, approvals: map<string, Approval>)
    requires RowOk(rootKey, id, row, approvals) && row.status == Approved
    ensures id in approvals && Carries(rootKey, row, approvals[id])
  {
  }

  lemma ClaimedRowOk(rootKey: string, id: string, row: Row, approvals: map<string, Approval>)
    requires RowOk(rootKey, id, row, approvals) && row.status == Approved && row.maxUses.Some? && row.uses < row.maxUses.value
    ensures RowOk(rootKey, id, Claimed(row), approvals)
  {
    hide RequestDigest, ApprovalDigest, CredentialVersion, DefinitionVersion;
  }

  lemma ClaimRecorded(requests: Requests, approvals: map<string, Approval>, claims: seq<Claim>, c: Claim, row: Row)
    requires ClaimsOk(requests, approvals, claims) && c.id in requests && row.uses == requests[c.id].uses + 1
    requires AsApproved(approvals, c.id, c.agentId, c.q, c.secret) && c.ts < approvals[c.id].approvedAt + approvals[c.id].ttl
    ensures ClaimsOk(requests[c.id := row], approvals, claims + [c])
  {
    var more := claims + [c];
    forall k | 0 <= k < |more|
      ensures AsApproved(approvals, more[k].id, more[k].agentId, more[k].q, more[k].secret)
           && more[k].ts < approvals[more[k].id].approvedAt + approvals[more[k].id].ttl
    {
      if k < |claims| { assert more[k] == claims[k]; }
    }
    forall id | id in requests[c.id := row] ensures CountClaims(more, id) == requests[c.id := row][id].uses {
      CountMore(claims, c, [], Sent(c.id, c.agentId, c.q, c.secret), id);
    }
  }

  lemma ClaimHeld(approvals: map<string, Approval>, threads: Threads, claims: seq<Claim>, sent: seq<Sent>, t: nat, c: Claim)
    requires SentOk(approvals, threads, claims, sent) && t in threads && !threads[t].Holding?
    ensures SentOk(approvals, threads[t := Holding(c.agentId, c.q, c.id, c.secret)], claims + [c], sent)
  {
    hide Holders, CountSent, CountClaims, AsApproved;
    var pc := Holding(c.agentId, c.q, c.id, c.secret);
    forall id ensures CountSent(sent, id) + |Holders(threads[t := pc], id)| <= CountClaims(claims + [c], id) {
      CountMore(claims, c, [], Sent(c.id, c.agentId, c.q, c.secret), id);
      HoldersAfter(threads, t, pc, id);
    }
  }

  /** What the scanning thread knows. */
  lemma ScannerFacts(w: World, t: nat)
    requires ThreadsOk(w.rootKey, w.requests, w.approvals, w.threads, w.lock) && PcOf(w, t).Scanning?
    ensures var pc := PcOf(w, t);
            && t in w.threads && w.lock == Some(t) && QueryOk(w.rootKey, pc.q)
            && Fresh(w.requests, pc.rest, pc.agentId, pc.q, pc.ts) && Covers(w.requests, pc.rest, pc.agentId, pc.q, pc.ts)
  {
    hide QueryOk, Fresh, Covers;
    assert PcOk(w.rootKey, w.requests, w.approvals, w.threads[t]);
  }

  lemma ExamineKeeps(w: World, t: nat)
    requires Inv(w) && PcOf(w, t).Scanning? && PcOf(w, t).rest != []
    ensures Inv(ExamineStep(w, t))
  {
    hide RowOk, Examine, QueryOk, Fresh, Covers, ThreadsOk, ClaimsOk, SentOk, QueueOk, CatalogOk, AsApproved;
    ScannerFacts(w, t);
    var Scanning(agentId, q, ts, rest) := PcOf(w, t);
    var id, items := rest[0].id, w.store.items;
    var (after, stop) := Examine(w.rootKey, w.requests, rest[0], q, items, ts);
    ExamineRow(w.rootKey, w.requests, w.approvals, rest, agentId, q, items, ts);
    RowsWrite(w.rootKey, w.requests, w.approvals, id, after[id], w.approvals);
    QueueShrinks(w.requests, after);
    if stop.Some? && stop.value.Granted? {
      var c := Claim(id, agentId, q, stop.value.secret, ts);
      ClaimRecorded(w.requests, w.approvals, w.claims, c, after[id]);
      ClaimHeld(w.approvals, w.threads, w.claims, w.sent, t, c);
      ThreadsMove(w.rootKey, w.requests, after, w.approvals, w.threads, w.lock, None, t, Holding(agentId, q, id, stop.value.secret));
    } else {
      ClaimCountKept(w, id);
      ClaimsWrite(w.requests, w.approvals, w.approvals, w.claims, id, after[id]);
      if stop.None? {
        ExamineKeepsOthers(w.rootKey, w.requests, rest, agentId, q, items, ts);
        CoversTail(w.rootKey, w.requests, rest, agentId, q, items, ts);
        ThreadsMove(w.rootKey, w.requests, after, w.approvals, w.threads, w.lock, w.lock, t, Scanning(agentId, q, ts, rest[1..]));
        HoldersMove(w.approvals, w.threads, w.claims, w.sent, t, Scanning(agentId, q, ts, rest[1..]));
      } else {
        ThreadsMove(w.rootKey, w.requests, after, w.approvals, w.threads, w.lock, None, t, Idle);
        HoldersMove(w.approvals, w.threads, w.claims, w.sent, t, Idle);
      }
    }
  }

  lemma ClaimCountKept(w: World, id: string)
    requires ClaimsOk(w.requests, w.approvals, w.claims) && id in w.requests
    ensures CountClaims(w.claims, id) == w.requests[id].uses
  {
  }

  /** The end of an unsuccessful loop. */
  lemma RefuseKeeps(w: World, t: nat)
    requires Inv(w) && Enabled(w, DoRefuse(t))
    ensures Inv(Apply(w, DoRefuse(t)))
  {
    hide RowsOk, CatalogOk, ClaimsOk, SentOk, QueueOk, Fresh, Covers, QueryOk, RowOk;
    ScannerFacts(w, t);
    ThreadsMove(w.rootKey, w.requests, w.requests, w.approvals, w.threads, w.lock, None, t, Idle);
    HoldersMove(w.approvals, w.threads, w.claims, w.sent, t, Idle);
  }

  // ---------- every step, every run ----------

  lemma StepKeeps(w: World, s: Step)
    requires Inv(w) && Enabled(w, s)
    ensures Inv(Apply(w, s))
  {
    hide Submit, Deny, Revoke, Candidates, ReadCall, ApproveStep, ExamineStep, DefinitionVersion, Inv;
    match s
    case DoSubmit(id, agentId, action, host, content) => SubmitKeeps(w, id, agentId, action, host, content);
    case DoApprove(id, ttl, uses, note) => ApproveKeeps(w, id, ttl, uses, note);
    case DoDeny(id, note) => DenyKeeps(w, id, note);
    case DoRevoke(id) => RevokeKeeps(w, id);
    case DoPutCapability(d) => CatalogKeeps(w, d);
    case DoPutVault(id, vault) => StoreKeeps(w, SetVault(w.store, id, vault), w.clock);
    case DoPutItem(id, item) => StoreKeeps(w, SetItem(w.store, id, item), w.clock);
    case DoClock(clock) => StoreKeeps(w, w.store, clock);
    case DoBeginCall(t, agentId, id, verb, path) => BeginCallKeeps(w, t, agentId, id, verb, path);
    case DoBeginSecret(t, agentId, action, selector, host) => MoveKeeps(w, t, Ready(agentId, SecretQuery(action, selector, host)));
    case DoReadClock(t) => ReadClockKeeps(w, t);
    case DoLock(t) => LockKeeps(w, t);
    case DoExamine(t) => ExamineKeeps(w, t);
    case DoRefuse(t) => RefuseKeeps(w, t);
    case DoSend(t) => SendKeeps(w, t);
    case DoDrop(t) => MoveKeeps(w, t, Idle);
  }

  lemma CatalogKeeps(w: World, d: Definition)
    requires Inv(w)
    ensures Inv(w.(catalog := w.catalog[d.id := CapabilityRow(DefinitionVersion(w.rootKey, d), d)]))
  {
    hide DefinitionVersion;
  }

  lemma StoreKeeps(w: World, store: Plain, clock: int)
    requires Inv(w)
    ensures Inv(w.(store := store)) && Inv(w.(clock := clock))
  {
  }

  lemma BeginCallKeeps(w: World, t: nat, agentId: string, id: string, verb: string, path: string)
    requires Inv(w) && Enabled(w, DoBeginCall(t, agentId, id, verb, path))
    ensures Inv(Apply(w, DoBeginCall(t, agentId, id, verb, path)))
  {
    hide ReadCall, RowsOk, QueryOk, ThreadsOk, ClaimsOk, SentOk, QueueOk;
    BeginCallOk(w.rootKey, w.catalog, id, verb, path);
    MoveKeeps(w, t, Ready(agentId, ReadCall(w.catalog, id, verb, path).value));
  }

  lemma ReadClockKeeps(w: World, t: nat)
    requires Inv(w) && Enabled(w, DoReadClock(t))
    ensures Inv(Apply(w, DoReadClock(t)))
  {
    hide RowsOk, QueryOk, ClaimsOk, SentOk, QueueOk;
    var pc := PcOf(w, t);
    assert PcOk(w.rootKey, w.requests, w.approvals, w.threads[t]);
    MoveKeeps(w, t, Timed(pc.agentId, pc.q, w.clock));
  }

  lemma InitInv(w: World)
    requires Init(w)
    ensures Inv(w)
  {
    forall agentId ensures PendingOf(w.requests, agentId) == {} {}
    forall id ensures Holders(w.threads, id) == {} {}
  }

  lemma RunStep(ws: seq<World>, i: nat) returns (s: Step)
    requires IsRun(ws) && i + 1 < |ws|
    ensures Enabled(ws[i], s) && ws[i + 1] == Apply(ws[i], s)
  {
    hide Enabled, Apply;
    assert Next(ws[i], ws[i + 1]);
    s :| Enabled(ws[i], s) && ws[i + 1] == Apply(ws[i], s);
  }

  /** The invariant holds in every world of every run. */
  lemma {:induction false} RunInv(ws: seq<World>, i: nat)
    requires IsRun(ws) && i < |ws|
    ensures Inv(ws[i])
  {
    hide Inv, Enabled, Apply;
    if i == 0 {
      InitInv(ws[0]);
    } else {
      RunInv(ws, i - 1);
      var s := RunStep(ws, i - 1);
      StepKeeps(ws[i - 1], s);
    }
  }
}
