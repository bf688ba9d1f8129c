/**
 The candidate loop said of the columns of the rows and of the stored fields alone: which rows are
 eligible, what makes one current, outdated or unreadable, and what the loop leaves in every row.
 */
module Verdicts {
  import opened Wrappers
  import opened Text
  import opened Json
  import opened Authority
  import opened Capabilities
  import opened Ordering
  import opened Refs
  import opened Store
  import opened Leases
  import opened Consumption

  // ---------- one row ----------

  /** The field that an operation reads: of its own selector, or of the backing reference of its definition. */
  predicate Reads(q: Query, field: string) {
    match q
    case SecretQuery(_, selector, _) => selector.field == Some(field)
    case CallQuery(_, _, d, _, _) => ParsePassRef(d.backingUri).Ok? && ParsePassRef(d.backingUri).value.field == Some(field)
  }

  /** The lease was approved for another version of the definition than the one that the call read. */
  predicate OtherVersion(row: Row, q: Query) {
    q.CallQuery? && row.payload.content.target.Call? && row.payload.content.target.capabilityVersion != q.version
  }

  predicate ItemThere(row: Row, items: map<string, Item>) {
    row.itemId.Some? && row.itemId.value in items
  }

  /** The stored value of the field that the operation reads is `secret`, and it is the approved one. */
  ghost predicate IsCurrent(rootKey: string, row: Row, q: Query, items: map<string, Item>, secret: Value) {
    && !OtherVersion(row, q) && ItemThere(row, items)
    && exists field ::
         && Reads(q, field) && field in items[row.itemId.value].payload.fields && items[row.itemId.value].payload.fields[field] == secret
         && row.payload.credentialVersion == Some(CredentialVersion(rootKey, row.itemId.value, field, secret))
  }

  /** The definition and the item are there, but the item has no such field any more. */
  ghost predicate HasLostField(row: Row, q: Query, items: map<string, Item>) {
    && !OtherVersion(row, q) && ItemThere(row, items) && (q.SecretQuery? ==> row.payload.credentialVersion.Some?)
    && exists field :: Reads(q, field) && field !in items[row.itemId.value].payload.fields
  }

  /** Another definition, no item, no version that could be compared, or another value. */
  ghost predicate IsOutdated(rootKey: string, row: Row, q: Query, items: map<string, Item>) {
    || OtherVersion(row, q) || !ItemThere(row, items) || (q.SecretQuery? && row.payload.credentialVersion.None?)
    || (forall field :: !Reads(q, field))
    || exists field ::
         && Reads(q, field) && field in items[row.itemId.value].payload.fields
         && row.payload.credentialVersion != Some(CredentialVersion(rootKey, row.itemId.value, field, items[row.itemId.value].payload.fields[field]))
  }

  lemma ReadsQueryField(q: Query)
    ensures forall field :: Reads(q, field) <==> QueryField(q) == Some(field)
  {
    hide ParsePassRef;
  }

  /** The verdict is what the columns of the row and the stored fields say. */
  ghost predicate Judged(verdict: Verdict, rootKey: string, row: Row, q: Query, items: map<string, Item>) {
    && (verdict == NotCurrent <==> IsOutdated(rootKey, row, q, items))
    && (verdict == FieldGone <==> HasLostField(row, q, items))
    && forall secret :: verdict == Current(secret) <==> IsCurrent(rootKey, row, q, items, secret)
  }

  /** The three verdicts, each exactly. */
  lemma JudgeExactly(rootKey: string, row: Row, q: Query, items: map<string, Item>)
    ensures Judged(Judge(rootKey, row, q, items), rootKey, row, q, items)
  {
    hide CredentialVersion, QueryField, Reads;
    ReadsQueryField(q);
  }

  // ---------- the table ----------

  /** Approved, unexpired, unspent, and for this agent, action, host and very operation. */
  predicate Eligible(row: Row, agentId: string, q: Query, ts: int) {
    && row.agentId == agentId && row.status == Approved
    && row.expiresAt.Some? && ts < row.expiresAt.value && row.maxUses.Some? && row.uses < row.maxUses.value
    && match q
       case SecretQuery(action, selector, host) =>
         row.action == action && row.targetHost == host && row.payload.content.target == Secret(selector)
       case CallQuery(id, _, _, verb, path) =>
         row.action == CapabilityInvoke && row.payload.content.target.Call? && row.payload.content.target.capabilityId == id
         && row.payload.content.target.verb == verb && row.payload.content.target.path == path
  }

  lemma EligibleExactly(row: Row, agentId: string, q: Query, ts: int)
    ensures Eligible(row, agentId, q, ts) <==> Live(row, agentId, q, ts) && Matches(row, q)
  {
  }

  /** Row `a` expires before row `b`, or at the same time and has the smaller id. */
  predicate Ahead(requests: Requests, a: string, b: string)
    requires a in requests && b in requests
  {
    && requests[a].expiresAt.Some? && requests[b].expiresAt.Some?
    && (requests[a].expiresAt.value < requests[b].expiresAt.value
        || (requests[a].expiresAt.value == requests[b].expiresAt.value && Less(a, b)))
  }

  /** Every eligible row ahead of `stop` was outdated and is stale now; nothing else has changed. */
  ghost predicate StaledUpTo(rootKey: string, before: Requests, after: Requests, stop: string, agentId: string, q: Query, items: map<string, Item>, ts: int)
    requires stop in before && after.Keys == before.Keys
  {
    forall id :: id in before && id != stop ==>
      if Eligible(before[id], agentId, q, ts) && Ahead(before, id, stop)
      then IsOutdated(rootKey, before[id], q, items) && after[id] == before[id].(status := Stale, reviewedAt := Some(ts))
      else after[id] == before[id]
  }

  /** The loop ended at the row `stop`: with a use of it, or because its field is gone. */
  ghost predicate StoppedAt(rootKey: string, before: Requests, after: Requests, out: Outcome, agentId: string, q: Query, items: map<string, Item>, ts: int, stop: string)
    requires after.Keys == before.Keys
  {
    && stop in before && Eligible(before[stop], agentId, q, ts) && StaledUpTo(rootKey, before, after, stop, agentId, q, items, ts)
    && match out
       case Granted(id, secret) => id == stop && IsCurrent(rootKey, before[stop], q, items, secret) && after[stop] == before[stop].(uses := before[stop].uses + 1)
       case NoField => HasLostField(before[stop], q, items) && after[stop] == before[stop]
       case NoLease => false
  }

  /**
   The loop turned `before` into `after` and ended with `out`: it ends at the first eligible row
   that is not outdated, and grants it unless that row has lost its field; a row of another
   definition never ends it.
   */
  ghost predicate Decided(rootKey: string, before: Requests, after: Requests, out: Outcome, agentId: string, q: Query, items: map<string, Item>, ts: int) {
    && after.Keys == before.Keys
    && if out.NoLease? then
         forall id :: id in before ==>
           if Eligible(before[id], agentId, q, ts)
           then IsOutdated(rootKey, before[id], q, items) && after[id] == before[id].(status := Stale, reviewedAt := Some(ts))
           else after[id] == before[id]
       else exists stop :: StoppedAt(rootKey, before, after, out, agentId, q, items, ts, stop)
  }

  lemma BeforeIsAhead(requests: Requests, agentId: string, q: Query, ts: int, a: string, b: string)
    requires a in requests && b in requests && Live(requests[a], agentId, q, ts) && Live(requests[b], agentId, q, ts)
    ensures Before(ExpiryStamps(requests, agentId, q, ts), a, b) <==> Ahead(requests, a, b)
  {
  }

  /** What the loop leaves in row `id` when it ends without a stop, or at the row `stop`. */
  ghost predicate RowLeft(rootKey: string, before: Requests, row: Row, agentId: string, q: Query, items: map<string, Item>, ts: int, stop: Option<string>, id: string)
    requires id in before && (stop.Some? ==> stop.value in before)
  {
    if stop == Some(id) then
      row == if Judge(rootKey, before[id], q, items).Current? then before[id].(uses := before[id].uses + 1) else before[id]
    else if Eligible(before[id], agentId, q, ts) && (stop.Some? ==> Ahead(before, id, stop.value)) then
      IsOutdated(rootKey, before[id], q, items) && row == before[id].(status := Stale, reviewedAt := Some(ts))
    else row == before[id]
  }

  lemma SelectedExactly(rootKey: string, before: Requests, agentId: string, q: Query, items: map<string, Item>, ts: int, id: string)
    requires id in before
    ensures id in Selected(before, agentId, q, ts) <==> Eligible(before[id], agentId, q, ts)
    ensures id in Stoppers(rootKey, before, agentId, q, items, ts) <==> Eligible(before[id], agentId, q, ts) && !IsOutdated(rootKey, before[id], q, items)
    ensures Eligible(before[id], agentId, q, ts) ==> Live(before[id], agentId, q, ts)
  {
    hide Live, Matches, Judge, IsOutdated, Eligible;
    EligibleExactly(before[id], agentId, q, ts);
    JudgeExactly(rootKey, before[id], q, items);
  }

  lemma RowAfterLeft(rootKey: string, before: Requests, agentId: string, q: Query, items: map<string, Item>, ts: int, id: string)
    requires id in before
    ensures var stops := Stoppers(rootKey, before, agentId, q, items, ts);
            && (stops != map[] ==> Earliest(stops) in before)
            && RowLeft(rootKey, before, RowAfter(rootKey, before, agentId, q, items, ts, id), agentId, q, items, ts,
                       if stops == map[] then None else Some(Earliest(stops)), id)
  {
    hide Live, Judge, IsOutdated, Eligible, Ahead, Before, Selected, Stoppers, ExpiryStamps;
    var stops := Stoppers(rootKey, before, agentId, q, items, ts);
    SelectedExactly(rootKey, before, agentId, q, items, ts, id);
    StopsKnown(rootKey, before, agentId, q, items, ts);
    if stops != map[] {
      if Eligible(before[id], agentId, q, ts) { BeforeIsAhead(before, agentId, q, ts, id, Earliest(stops)); }
      if id in stops && id != Earliest(stops) { NotAheadOfEarliest(before, agentId, q, ts, stops, id); }
    }
  }

  lemma StopsAt(rootKey: string, before: Requests, agentId: string, q: Query, items: map<string, Item>, ts: int, stop: string)
    requires stop in Stoppers(rootKey, before, agentId, q, items, ts)
    ensures var out := StopOutcome(rootKey, stop, before[stop], q, items);
            && Eligible(before[stop], agentId, q, ts)
            && (out.Granted? <==> Judge(rootKey, before[stop], q, items).Current?)
            && (out.Granted? ==> out.id == stop && IsCurrent(rootKey, before[stop], q, items, out.secret))
            && (out.NoField? ==> HasLostField(before[stop], q, items)) && !out.NoLease?
  {
    hide Live, Matches, Judge, IsCurrent, IsOutdated, HasLostField, Eligible;
    EligibleExactly(before[stop], agentId, q, ts);
    JudgeExactly(rootKey, before[stop], q, items);
  }

  lemma NotAheadOfEarliest(before: Requests, agentId: string, q: Query, ts: int, stops: map<string, int>, id: string)
    requires forall other :: other in stops ==> other in before && Live(before[other], agentId, q, ts) && stops[other] == before[other].expiresAt.value
    requires id in stops && id != Earliest(stops)
    ensures !Ahead(before, id, Earliest(stops))
  {
    hide Live, Less;
    assert Before(stops, Earliest(stops), id);
    LessAsymmetric(id, Earliest(stops));
  }

  /** The whole loop, from the columns and the stored fields. */
  lemma ConsumeDecides(rootKey: string, requests: Requests, agentId: string, q: Query, items: map<string, Item>, ts: int)
    ensures var (after, out) := Consume(rootKey, requests, agentId, q, items, ts);
            Decided(rootKey, requests, after, out, agentId, q, items, ts)
  {
    hide Live, Matches, Judge, IsOutdated, IsCurrent, HasLostField, Eligible, Ahead, Before, Consume, RowAfter, Stoppers, Stops, StopOutcome;
    ConsumeExact(rootKey, requests, agentId, q, items, ts);
    var stops := Stoppers(rootKey, requests, agentId, q, items, ts);
    var (after, out) := Consume(rootKey, requests, agentId, q, items, ts);
    var stop := if stops == map[] then None else Some(Earliest(stops));
    StopsKnown(rootKey, requests, agentId, q, items, ts);
    forall id | id in requests
      ensures RowLeft(rootKey, requests, after[id], agentId, q, items, ts, stop, id)
    {
      RowAfterLeft(rootKey, requests, agentId, q, items, ts, id);
    }
    if stops != map[] {
      StopsAt(rootKey, requests, agentId, q, items, ts, Earliest(stops));
      DecidedAt(rootKey, requests, after, out, agentId, q, items, ts, Earliest(stops));
    }
  }

  lemma StopsKnown(rootKey: string, requests: Requests, agentId: string, q: Query, items: map<string, Item>, ts: int)
    ensures var stops := Stoppers(rootKey, requests, agentId, q, items, ts);
            forall id :: id in stops ==> id in requests && Live(requests[id], agentId, q, ts) && stops[id] == requests[id].expiresAt.value
  {
    hide Live, Stops;
  }

  lemma DecidedAt(rootKey: string, before: Requests, after: Requests, out: Outcome, agentId: string, q: Query, items: map<string, Item>, ts: int, stop: string)
    requires after.Keys == before.Keys && stop in before && Eligible(before[stop], agentId, q, ts) && !out.NoLease?
    requires out.Granted? <==> Judge(rootKey, before[stop], q, items).Current?
    requires if out.Granted? then out.id == stop && IsCurrent(rootKey, before[stop], q, items, out.secret) else HasLostField(before[stop], q, items)
    requires forall id :: id in before ==> RowLeft(rootKey, before, after[id], agentId, q, items, ts, Some(stop), id)
    ensures Decided(rootKey, before, after, out, agentId, q, items, ts)
  {
    hide Judge, IsOutdated, IsCurrent, HasLostField, Eligible, Ahead;
    assert RowLeft(rootKey, before, after[stop], agentId, q, items, ts, Some(stop), stop);
    assert StoppedAt(rootKey, before, after, out, agentId, q, items, ts, stop);
  }

  // ---------- the statement fixes the result ----------

  /** The three verdicts exclude each other, and a row is current with one value at most. */
  lemma OneVerdict(rootKey: string, row: Row, q: Query, items: map<string, Item>)
    ensures !(IsOutdated(rootKey, row, q, items) && HasLostField(row, q, items))
    ensures forall secret :: IsCurrent(rootKey, row, q, items, secret) ==> !IsOutdated(rootKey, row, q, items) && !HasLostField(row, q, items)
    ensures forall a, b :: IsCurrent(rootKey, row, q, items, a) && IsCurrent(rootKey, row, q, items, b) ==> a == b
  {
    hide Judge, IsOutdated, IsCurrent, HasLostField;
    JudgeExactly(rootKey, row, q, items);
  }

  lemma AheadTotal(requests: Requests, agentId: string, q: Query, ts: int, a: string, b: string)
    requires a in requests && b in requests && a != b && Eligible(requests[a], agentId, q, ts) && Eligible(requests[b], agentId, q, ts)
    ensures Ahead(requests, a, b) || Ahead(requests, b, a)
  {
    hide Less;
    LessTotal(a, b);
  }

  /** The loop leaves exactly one table and ends in exactly one way: `Decided` leaves nothing open. */
  lemma DecidedOnce(rootKey: string, before: Requests, after: Requests, out: Outcome, after': Requests, out': Outcome,
                    agentId: string, q: Query, items: map<string, Item>, ts: int)
    requires Decided(rootKey, before, after, out, agentId, q, items, ts) && Decided(rootKey, before, after', out', agentId, q, items, ts)
    ensures after == after' && out == out'
  {
    hide IsOutdated, IsCurrent, HasLostField, Eligible, Ahead, StaledUpTo;
    if out.NoLease? && out'.NoLease? {
      assert forall id :: id in before ==> after[id] == after'[id];
    } else if out.NoLease? {
      var stop :| StoppedAt(rootKey, before, after', out', agentId, q, items, ts, stop);
      OneVerdict(rootKey, before[stop], q, items);
    } else if out'.NoLease? {
      var stop :| StoppedAt(rootKey, before, after, out, agentId, q, items, ts, stop);
      OneVerdict(rootKey, before[stop], q, items);
    } else {
      var stop :| StoppedAt(rootKey, before, after, out, agentId, q, items, ts, stop);
      var stop' :| StoppedAt(rootKey, before, after', out', agentId, q, items, ts, stop');
      OneStop(rootKey, before, after, out, after', out', agentId, q, items, ts, stop, stop');
    }
  }

  lemma OneStop(rootKey: string, before: Requests, after: Requests, out: Outcome, after': Requests, out': Outcome,
                agentId: string, q: Query, items: map<string, Item>, ts: int, stop: string, stop': string)
    requires after.Keys == before.Keys == after'.Keys
    requires StoppedAt(rootKey, before, after, out, agentId, q, items, ts, stop)
    requires StoppedAt(rootKey, before, after', out', agentId, q, items, ts, stop')
    ensures after == after' && out == out'
  {
    hide IsOutdated, IsCurrent, HasLostField, Eligible, Ahead;
    OneVerdict(rootKey, before[stop], q, items);
    OneVerdict(rootKey, before[stop'], q, items);
    if stop != stop' { AheadTotal(before, agentId, q, ts, stop, stop'); }
    assert forall id :: id in before ==> after[id] == after'[id];
  }
}
