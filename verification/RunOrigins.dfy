/**
 Where the records of a run come from: every claim was made by one call, on the clock that this
 call had read and the items that were stored at that step; every operation carried out was
 claimed; and every change of status has its reason.
 */
module RunOrigins {
  import opened Wrappers
  import opened Json
  import opened Authority
  import opened Capabilities
  import opened Store
  import opened Leases
  import opened Lookups
  import opened Consumption
  import opened Verdicts
  import opened Runs
  import opened RunSafety
  import opened Outcomes
  import opened RunTheorems

  // ---------- one step ----------

  /** In the step from `w` to `w'` the thread that held the lock claimed one use of a live row, current for the items stored then. */
  ghost predicate ClaimedAt(w: World, w': World, t: nat, c: Claim) {
    var pc := PcOf(w, t);
    && pc.Scanning? && pc.agentId == c.agentId && pc.q == c.q && pc.ts == c.ts && w.lock == Some(t)
    && c.id in w.requests && Eligible(w.requests[c.id], c.agentId, c.q, c.ts)
    && IsCurrent(w.rootKey, w.requests[c.id], c.q, w.store.items, c.secret)
    && w'.claims == w.claims + [c] && w'.requests == w.requests[c.id := Claimed(w.requests[c.id])]
  }

  lemma ExamineClaims(w: World, t: nat)
    requires Inv(w) && PcOf(w, t).Scanning? && PcOf(w, t).rest != []
    ensures var w' := ExamineStep(w, t);
            if PcOf(w', t).Holding? then
              && |w'.claims| == |w.claims| + 1 && ClaimedAt(w, w', t, w'.claims[|w.claims|])
              && var c := w'.claims[|w.claims|]; PcOf(w', t) == Holding(c.agentId, c.q, c.id, c.secret)
            else w'.claims == w.claims
  {
    hide Judge, Live, Matches, RowsOk, CatalogOk, ClaimsOk, SentOk, QueueOk, ThreadsOk, Covers, QueryOk, Eligible, IsCurrent, IsOutdated, HasLostField;
    ScannerFacts(w, t);
    var pc := PcOf(w, t);
    EligibleExactly(pc.rest[0].row, pc.agentId, pc.q, pc.ts);
    JudgeExactly(w.rootKey, pc.rest[0].row, pc.q, w.store.items);
    assert w.requests[pc.rest[0].id] == pc.rest[0].row && Live(pc.rest[0].row, pc.agentId, pc.q, pc.ts);
  }

  /** Claims are only added, and only by a thread in its candidate loop. */
  lemma ClaimStep(w: World, s: Step)
    requires Inv(w) && Enabled(w, s)
    ensures var w' := Apply(w, s);
            || w'.claims == w.claims
            || (s.DoExamine? && |w'.claims| == |w.claims| + 1 && ClaimedAt(w, w', s.t, w'.claims[|w.claims|]))
  {
    hide Inv, ClaimedAt, ExamineStep, ApproveStep, Submit, Deny, Revoke, Candidates, DefinitionVersion, ReadCall;
    if s.DoExamine? {
      ExamineClaims(w, s.t);
    } else if s.DoApprove? {
      ApproveLeaves(w, s.id, s.ttl, s.uses, s.note);
    }
  }

  lemma ApproveLeaves(w: World, id: string, ttl: Option<int>, uses: Option<int>, note: Option<string>)
    ensures var w' := ApproveStep(w, id, ttl, uses, note);
            w'.claims == w.claims && w'.sent == w.sent && w'.threads == w.threads && w'.clock == w.clock && w'.store == w.store && w'.catalog == w.catalog
  {
    hide Approve, ReviewRow, ApprovalRecord, ApprovedQuery;
  }

  lemma ExamineLeaves(w: World, t: nat)
    requires PcOf(w, t).Scanning? && PcOf(w, t).rest != []
    ensures var w' := ExamineStep(w, t);
            && w'.sent == w.sent && (forall u :: u != t ==> PcOf(w', u) == PcOf(w, u))
            && (SameCall(PcOf(w, t), PcOf(w', t)) || PcOf(w', t).Idle? || PcOf(w', t).Holding?)
  {
    hide Examine;
  }

  /** Still the same call, with the clock reading that it took. */
  predicate SameCall(pc: Pc, pc': Pc) {
    && (pc.Timed? || pc.Scanning?) && (pc'.Timed? || pc'.Scanning?)
    && pc.agentId == pc'.agentId && pc.q == pc'.q && pc.ts == pc'.ts
  }

  /** How the program counter of one thread can have come about. */
  lemma PcStep(w: World, s: Step, t: nat)
    requires Inv(w) && Enabled(w, s)
    ensures var w' := Apply(w, s);
            var pc, pc' := PcOf(w, t), PcOf(w', t);
            && (pc'.Timed? || pc'.Scanning? ==>
                  SameCall(pc, pc') || (s == DoReadClock(t) && pc == Ready(pc'.agentId, pc'.q) && pc'.ts == w.clock))
            && (pc'.Ready? && pc' != pc ==> pc'.q.SecretQuery? || exists id, verb, path :: ReadCall(w.catalog, id, verb, path) == Some(pc'.q))
            && (pc'.Holding? && pc' != pc ==> s == DoExamine(t))
  {
    hide Inv, ExamineStep, ApproveStep, Submit, Deny, Revoke, Candidates, DefinitionVersion, ReadCall;
    match s
    case DoExamine(u) => ExamineLeaves(w, u);
    case DoApprove(id, ttl, uses, note) => ApproveLeaves(w, id, ttl, uses, note);
    case DoBeginCall(u, agentId, id, verb, path) => assert ReadCall(w.catalog, id, verb, path).Some?;
    case _ =>
  }

  // ---------- claims ----------

  /** Every claim was made in one step of the run. */
  lemma {:induction false} ClaimOrigin(ws: seq<World>, i: nat, k: nat) returns (j: nat, t: nat)
    requires IsRun(ws) && i < |ws| && k < |ws[i].claims|
    ensures j < i && |ws[j].claims| == k && ClaimedAt(ws[j], ws[j + 1], t, ws[i].claims[k])
  {
    hide ClaimedAt, Inv, Enabled, Apply;
    if i == 0 {
      NothingYet(ws);
    } else {
      RunInv(ws, i - 1);
      var s := RunStep(ws, i - 1);
      ClaimStep(ws[i - 1], s);
      if k < |ws[i - 1].claims| {
        if ws[i].claims != ws[i - 1].claims { ClaimKeepsOlder(ws[i - 1], ws[i], s.t, k); }
        j, t := ClaimOrigin(ws, i - 1, k);
      } else {
        j, t := i - 1, s.t;
      }
    }
  }

  lemma ClaimKeepsOlder(w: World, w': World, t: nat, k: nat)
    requires |w'.claims| == |w.claims| + 1 && ClaimedAt(w, w', t, w'.claims[|w.claims|]) && k < |w.claims|
    ensures w'.claims[k] == w.claims[k]
  {
    hide Live, Matches, Judge;
  }

  lemma NothingYet(ws: seq<World>)
    requires IsRun(ws)
    ensures ws[0].claims == [] && ws[0].sent == [] && ws[0].threads == map[] && ws[0].approvals == map[] && ws[0].requests == map[]
  {
    hide Enabled, Apply;
  }

  /** The time of a call is the clock as that call read it, before it took the lock. */
  lemma {:induction false} ClockOrigin(ws: seq<World>, j: nat, t: nat) returns (m: nat)
    requires IsRun(ws) && j < |ws| && (PcOf(ws[j], t).Timed? || PcOf(ws[j], t).Scanning?)
    ensures m < j && PcOf(ws[m], t) == Ready(PcOf(ws[j], t).agentId, PcOf(ws[j], t).q) && ws[m].clock == PcOf(ws[j], t).ts
  {
    hide Inv, Enabled, Apply, IsRun;
    NothingYet(ws);
    RunInv(ws, j - 1);
    var s := RunStep(ws, j - 1);
    PcStep(ws[j - 1], s, t);
    if SameCall(PcOf(ws[j - 1], t), PcOf(ws[j], t)) {
      m := ClockOrigin(ws, j - 1, t);
    } else {
      m := j - 1;
    }
  }

  /** The query is a call that the current definition of its capability permits, under the current version. */
  ghost predicate AsRead(catalog: Catalog, q: Query) {
    && q.CallQuery? && q.capabilityId in catalog
    && q.version == catalog[q.capabilityId].version && q.definition == catalog[q.capabilityId].definition
    && exists verb, path :: Permits(q.definition, verb, path, q.verb, q.path)
  }

  lemma ReadExactly(catalog: Catalog, id: string, verb: string, path: string)
    requires ReadCall(catalog, id, verb, path).Some?
    ensures AsRead(catalog, ReadCall(catalog, id, verb, path).value)
  {
    hide ValidateInvocation, Permits, CapabilityKey;
    InvocationExactly(catalog[CapabilityKey(id)].definition, verb, path);
  }

  /** The capability of a call is a row of the catalog as that call read it, before the clock and the lock. */
  lemma {:induction false} CatalogOrigin(ws: seq<World>, j: nat, t: nat) returns (b: nat)
    requires IsRun(ws) && j < |ws| && PcOf(ws[j], t).Ready? && PcOf(ws[j], t).q.CallQuery?
    ensures b < j && AsRead(ws[b].catalog, PcOf(ws[j], t).q)
  {
    hide Inv, Enabled, Apply, IsRun, ReadCall, AsRead;
    NothingYet(ws);
    RunInv(ws, j - 1);
    var s := RunStep(ws, j - 1);
    PcStep(ws[j - 1], s, t);
    if PcOf(ws[j - 1], t) == PcOf(ws[j], t) {
      b := CatalogOrigin(ws, j - 1, t);
    } else {
      b := j - 1;
      var id, verb, path :| ReadCall(ws[b].catalog, id, verb, path) == Some(PcOf(ws[j], t).q);
      ReadExactly(ws[b].catalog, id, verb, path);
    }
  }

  lemma {:induction false} ApprovalStays(ws: seq<World>, j: nat, i: nat, id: string)
    requires IsRun(ws) && j <= i < |ws| && id in ws[j].approvals
    ensures id in ws[i].approvals && ws[i].approvals[id] == ws[j].approvals[id]
    decreases i
  {
    hide Inv, Enabled, Apply, IsRun, ApprovedAt;
    if j < i {
      ApprovalStays(ws, j, i - 1, id);
      RunInv(ws, i - 1);
      var s := RunStep(ws, i - 1);
      ApprovalsGrow(ws[i - 1], s);
      if ws[i].approvals != ws[i - 1].approvals { WasNotApproved(ws[i - 1], ws[i], s.id, ws[i].approvals[s.id]); }
    }
  }

  lemma WasNotApproved(w: World, w': World, id: string, a: Approval)
    requires ApprovedAt(w, w', id, a)
    ensures id !in w.approvals
  {
    hide QueryNames, Binds, ApprovedQuery;
  }

  lemma LiveIsApproved(w: World, w': World, t: nat, c: Claim)
    requires Inv(w) && ClaimedAt(w, w', t, c)
    ensures c.id in w.approvals && w.requests[c.id].expiresAt == Some(w.approvals[c.id].approvedAt + w.approvals[c.id].ttl)
    ensures c.ts < w.approvals[c.id].approvedAt + w.approvals[c.id].ttl
  {
    hide CatalogOk, ThreadsOk, ClaimsOk, SentOk, QueueOk, Judge, Matches, RowOk;
    RowIsOk(w, c.id);
    CarriedWhileApproved(w.rootKey, c.id, w.requests[c.id], w.approvals);
    RowCarries(w.rootKey, c.id, w.requests[c.id], w.approvals);
  }

  /**
   Every use was claimed in time: in step `j` thread `t`, holding the lock, claimed it on a row that
   was live and current for the items stored at `j`; that call had read the clock in the earlier
   world `m`; and the reading lies before the moment of the approval, step `a`, plus a lifetime
   that is at most the requested one.
   */
  lemma ClaimedInTime(ws: seq<World>, i: nat, k: nat) returns (j: nat, t: nat, m: nat, a: nat)
    requires IsRun(ws) && i < |ws| && k < |ws[i].claims|
    ensures var c := ws[i].claims[k];
            && m < j < i && a < j && ClaimedAt(ws[j], ws[j + 1], t, c)
            && PcOf(ws[m], t) == Ready(c.agentId, c.q) && ws[m].clock == c.ts
            && c.id in ws[i].approvals && ApprovedAt(ws[a], ws[a + 1], c.id, ws[i].approvals[c.id])
            && ws[m].clock < ws[a].clock + ws[i].approvals[c.id].ttl
            && c.id in ws[a].requests && ws[i].approvals[c.id].ttl <= ws[a].requests[c.id].payload.content.requestedTtl
  {
    hide Inv, Enabled, Apply, IsRun, QueryNames, Binds, ApprovedQuery, Judge, Live, Matches;
    var c := ws[i].claims[k];
    j, t := ClaimOrigin(ws, i, k);
    m := ClockOrigin(ws, j, t);
    RunInv(ws, j);
    LiveIsApproved(ws[j], ws[j + 1], t, c);
    a := ApprovalOrigin(ws, j, c.id);
    ApprovalStays(ws, j, i, c.id);
  }

  // ---------- executions ----------

  /** The claim that a held or executed operation rests on. */
  predicate Backs(c: Claim, id: string, agentId: string, q: Query, secret: Value) {
    c.id == id && c.agentId == agentId && c.q == q && c.secret == secret
  }

  lemma ClaimsPrefix(w: World, s: Step)
    requires Inv(w) && Enabled(w, s)
    ensures w.claims <= Apply(w, s).claims
  {
    hide Inv, Enabled, Apply, Live, Matches, Judge;
    ClaimStep(w, s);
  }

  /** A thread that holds a use has claimed it, with the secret that it holds. */
  lemma {:induction false} HoldOrigin(ws: seq<World>, j: nat, t: nat) returns (n: nat)
    requires IsRun(ws) && j < |ws| && PcOf(ws[j], t).Holding?
    ensures var pc := PcOf(ws[j], t);
            n < |ws[j].claims| && Backs(ws[j].claims[n], pc.id, pc.agentId, pc.q, pc.secret)
  {
    hide Inv, Enabled, Apply, IsRun, ClaimedAt;
    NothingYet(ws);
    RunInv(ws, j - 1);
    var s := RunStep(ws, j - 1);
    PcStep(ws[j - 1], s, t);
    ClaimsPrefix(ws[j - 1], s);
    if PcOf(ws[j - 1], t) == PcOf(ws[j], t) {
      n := HoldOrigin(ws, j - 1, t);
    } else {
      ExamineEnabled(ws[j - 1], t);
      ExamineClaims(ws[j - 1], t);
      n := |ws[j - 1].claims|;
    }
  }

  lemma ExamineEnabled(w: World, t: nat)
    requires Enabled(w, DoExamine(t))
    ensures PcOf(w, t).Scanning? && PcOf(w, t).rest != [] && Apply(w, DoExamine(t)) == ExamineStep(w, t)
  {
    hide ExamineStep;
  }

  lemma SentStep(w: World, s: Step)
    requires Inv(w) && Enabled(w, s)
    ensures var w' := Apply(w, s);
            || w'.sent == w.sent
            || (s.DoSend? && PcOf(w, s.t).Holding?
                && var pc := PcOf(w, s.t); w'.sent == w.sent + [Sent(pc.id, pc.agentId, pc.q, pc.secret)])
  {
    hide Inv, ExamineStep, ApproveStep, Submit, Deny, Revoke, Candidates, DefinitionVersion, ReadCall;
    match s
    case DoExamine(t) => ExamineLeaves(w, t);
    case DoApprove(id, ttl, uses, note) => ApproveLeaves(w, id, ttl, uses, note);
    case _ =>
  }

  /** Whatever is carried out was claimed before, with the same secret: the one stored when the use was claimed. */
  lemma {:induction false} SentWasClaimed(ws: seq<World>, i: nat, k: nat) returns (n: nat)
    requires IsRun(ws) && i < |ws| && k < |ws[i].sent|
    ensures var o := ws[i].sent[k];
            n < |ws[i].claims| && Backs(ws[i].claims[n], o.id, o.agentId, o.q, o.secret)
  {
    hide Inv, Enabled, Apply, IsRun;
    NothingYet(ws);
    RunInv(ws, i - 1);
    var s := RunStep(ws, i - 1);
    SentStep(ws[i - 1], s);
    ClaimsPrefix(ws[i - 1], s);
    if k < |ws[i - 1].sent| {
      n := SentWasClaimed(ws, i - 1, k);
    } else {
      n := HoldOrigin(ws, i - 1, s.t);
    }
  }

  // ---------- reasons ----------

  /**
   Why the row `id` has another status after step `s`: a person decided it, stamped with the clock
   of that step; or its definition had changed when it was to be approved; or a call of its own
   operation found that its definition or the stored value had changed, stamped with the time of that call.
   */
  ghost predicate ChangedFor(w: World, s: Step, row: Row, id: string, row': Row) {
    match row'.status
    case Approved => s.DoApprove? && s.id == id && row'.reviewedAt == Some(w.clock) && row'.createdAt == row.createdAt
    case Denied => s.DoDeny? && s.id == id && row' == row.(status := Denied, reviewedAt := Some(w.clock), payload := row'.payload)
    case Revoked => s.DoRevoke? && s.id == id && row' == row.(status := Revoked, reviewedAt := Some(w.clock))
    case Stale =>
      if row.status == Pending then
        s.DoApprove? && s.id == id && DefinitionChanged(row, w.catalog) && row' == row.(status := Stale, reviewedAt := Some(w.clock))
      else
        && s.DoExamine? && PcOf(w, s.t).Scanning? && Matches(row, PcOf(w, s.t).q)
        && IsOutdated(w.rootKey, row, PcOf(w, s.t).q, w.store.items) && row' == row.(status := Stale, reviewedAt := Some(PcOf(w, s.t).ts))
    case Pending => false
  }

  lemma ApproveReasons(w: World, id: string, ttl: Option<int>, uses: Option<int>, note: Option<string>, other: string)
    requires other in w.requests
    ensures var w' := ApproveStep(w, id, ttl, uses, note);
            && w'.requests.Keys == w.requests.Keys
            && (w'.requests[other] == w.requests[other] || ChangedFor(w, DoApprove(id, ttl, uses, note), w.requests[other], other, w'.requests[other]))
  {
    hide ReviewRow, QueryNames, ApprovedQuery, DefinitionChanged, StillPermitted, ApprovalRecord, CredentialVersion, ApprovalDigest, Note;
    if id in w.requests { ReviewOutcome(w.requests[id], w.catalog, w.store); }
  }

  lemma ExamineReasons(w: World, t: nat, other: string)
    requires Inv(w) && PcOf(w, t).Scanning? && PcOf(w, t).rest != [] && other in w.requests
    ensures var w' := ExamineStep(w, t);
            && w'.requests.Keys == w.requests.Keys
            && (w'.requests[other].status == w.requests[other].status || ChangedFor(w, DoExamine(t), w.requests[other], other, w'.requests[other]))
  {
    hide Judge, Live, Matches, RowsOk, CatalogOk, ClaimsOk, SentOk, QueueOk, ThreadsOk, Covers, QueryOk, DefinitionChanged, Eligible, IsCurrent, IsOutdated, HasLostField;
    ScannerFacts(w, t);
    var pc := PcOf(w, t);
    JudgeExactly(w.rootKey, pc.rest[0].row, pc.q, w.store.items);
    GuardAlwaysHits(w.requests, pc.rest, pc.agentId, pc.q, pc.ts);
  }

  lemma SubmitAdds(w: World, id: string, agentId: string, action: Action, host: Option<string>, content: Content, other: string)
    ensures var after := Submit(w.requests, id, agentId, action, host, content, w.clock).0;
            && (other in w.requests ==> other in after && after[other] == w.requests[other])
            && (other in after && other !in w.requests ==> Untouched(after[other]) && after[other].createdAt == w.clock)
  {
    hide RequestDigest;
  }

  /** No status changes without its reason, and a new row is an untouched request stamped with the clock. */
  lemma StatusReasons(w: World, s: Step, id: string)
    requires Inv(w) && Enabled(w, s) && id in Apply(w, s).requests
    ensures var row' := Apply(w, s).requests[id];
            if id in w.requests then row'.status == w.requests[id].status || ChangedFor(w, s, w.requests[id], id, row')
            else s.DoSubmit? && Untouched(row') && row'.createdAt == w.clock
  {
    hide Inv, ExamineStep, ApproveStep, Submit, Candidates, DefinitionVersion, ReadCall, Untouched, Judge, Matches, DefinitionChanged, Note;
    match s
    case DoSubmit(r, agentId, action, host, content) => SubmitAdds(w, r, agentId, action, host, content, id);
    case DoApprove(r, ttl, uses, note) =>
      if id in w.requests { ApproveReasons(w, r, ttl, uses, note, id); } else { ApproveSameIds(w, r, ttl, uses, note); }
    case DoExamine(t) =>
      if id in w.requests { ExamineReasons(w, t, id); } else { ExamineSameIds(w, t); }
    case _ =>
  }

  lemma ApproveSameIds(w: World, id: string, ttl: Option<int>, uses: Option<int>, note: Option<string>)
    ensures ApproveStep(w, id, ttl, uses, note).requests.Keys == w.requests.Keys
  {
    hide ReviewRow, ApprovedRow, ApprovalRecord, ApprovedQuery, Staled;
  }

  lemma ExamineSameIds(w: World, t: nat)
    requires PcOf(w, t).Scanning? && PcOf(w, t).rest != []
    ensures ExamineStep(w, t).requests.Keys <= w.requests.Keys
  {
    hide Judge, Matches;
  }
}
