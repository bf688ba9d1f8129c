/**
 The exact result of the candidate loop of `_consume_exact_grant` and `_consume_capability_grant`,
 and the three ways in which the service says that a lease is active.
 */
module Consumption {
  import opened Wrappers
  import opened Ordering
  import opened Store
  import opened Leases

  // ---------- the loop over a list of candidates ----------

  /** The loop stops at a matching row that is current or whose field has disappeared. */
  predicate Stops(rootKey: string, row: Row, q: Query, items: map<string, Item>) {
    Matches(row, q) && !Judge(rootKey, row, q, items).NotCurrent?
  }

  /** Index of the candidate at which the loop stops, or the number of candidates. */
  function FirstStop(rootKey: string, rest: seq<Candidate>, q: Query, items: map<string, Item>): (k: nat)
    ensures k <= |rest|
  {
    if rest == [] || Stops(rootKey, rest[0].row, q, items) then 0 else 1 + FirstStop(rootKey, rest[1..], q, items)
  }

  lemma {:induction false} FirstStopStops(rootKey: string, rest: seq<Candidate>, q: Query, items: map<string, Item>)
    ensures var k := FirstStop(rootKey, rest, q, items);
            && (k < |rest| ==> Stops(rootKey, rest[k].row, q, items))
            && (forall i :: 0 <= i < k ==> !Stops(rootKey, rest[i].row, q, items))
  {
    hide Stops;
    if rest != [] && !Stops(rootKey, rest[0].row, q, items) {
      var k := FirstStop(rootKey, rest[1..], q, items);
      FirstStopStops(rootKey, rest[1..], q, items);
      forall i | 0 <= i < k + 1 ensures !Stops(rootKey, rest[i].row, q, items) {
        if i > 0 { assert !Stops(rootKey, rest[1..][i - 1].row, q, items); }
      }
    }
  }

  function StopOutcome(rootKey: string, id: string, row: Row, q: Query, items: map<string, Item>): Outcome
    requires Stops(rootKey, row, q, items)
  {
    match Judge(rootKey, row, q, items)
    case Current(secret) => Granted(id, secret)
    case FieldGone => NoField
  }

  /** Every candidate still has the row that was selected, and is live. */
  ghost predicate Fresh(requests: Requests, rest: seq<Candidate>, agentId: string, q: Query, ts: int) {
    && (forall i :: 0 <= i < |rest| ==> rest[i].id in requests && requests[rest[i].id] == rest[i].row && Live(rest[i].row, agentId, q, ts))
    && (forall i, j :: 0 <= i < j < |rest| ==> rest[i].id != rest[j].id)
  }

  ghost predicate PassedOver(rest: seq<Candidate>, k: nat, q: Query, id: string)
    requires k <= |rest|
  {
    exists i :: 0 <= i < k && rest[i].id == id && Matches(rest[i].row, q)
  }

  /** A turn that does not stop leaves the other candidates as they were selected. */
  lemma ExamineKeepsOthers(rootKey: string, requests: Requests, rest: seq<Candidate>, agentId: string, q: Query, items: map<string, Item>, ts: int)
    requires rest != [] && Fresh(requests, rest, agentId, q, ts)
    ensures var (after, stop) := Examine(rootKey, requests, rest[0], q, items, ts);
            && after.Keys == requests.Keys
            && Fresh(after, rest[1..], agentId, q, ts)
            && (forall id :: id in requests && id != rest[0].id ==> after[id] == requests[id])
            && (stop.Some? <==> Stops(rootKey, rest[0].row, q, items))
            && (stop.Some? ==> stop.value == StopOutcome(rootKey, rest[0].id, rest[0].row, q, items))
            && (stop.None? ==> after[rest[0].id] == if Matches(rest[0].row, q) then Staled(rest[0].row, ts) else rest[0].row)
            && (stop.Some? ==> after[rest[0].id] == if stop.value.Granted? then Claimed(rest[0].row) else rest[0].row)
  {
    hide Judge, Matches;
  }

  lemma PassedOverShift(rest: seq<Candidate>, k: nat, q: Query, id: string)
    requires 1 <= k <= |rest|
    ensures PassedOver(rest, k, q, id) <==> (rest[0].id == id && Matches(rest[0].row, q)) || PassedOver(rest[1..], k - 1, q, id)
  {
    hide Matches;
    if PassedOver(rest, k, q, id) {
      var i :| 0 <= i < k && rest[i].id == id && Matches(rest[i].row, q);
      if i > 0 { assert rest[1..][i - 1].id == id; }
    }
    if PassedOver(rest[1..], k - 1, q, id) {
      var i :| 0 <= i < k - 1 && rest[1..][i].id == id && Matches(rest[1..][i].row, q);
      assert rest[i + 1].id == id;
    }
  }

  lemma PassedOverLater(requests: Requests, rest: seq<Candidate>, k: nat, agentId: string, q: Query, ts: int, id: string)
    requires Fresh(requests, rest, agentId, q, ts) && 1 <= k <= |rest| && PassedOver(rest[1..], k - 1, q, id)
    ensures id != rest[0].id
  {
    hide Matches, Live;
    var i :| 0 <= i < k - 1 && rest[1..][i].id == id && Matches(rest[1..][i].row, q);
    assert rest[i + 1].id == id;
  }

  lemma StopIsLater(requests: Requests, rest: seq<Candidate>, k: nat, agentId: string, q: Query, ts: int)
    requires Fresh(requests, rest, agentId, q, ts) && 1 <= k < |rest|
    ensures rest[k] == rest[1..][k - 1] && rest[k].id != rest[0].id
  {
    hide Live;
  }

  /** What the loop leaves in the row of `id`, when it stops at candidate `k` with `out`. */
  ghost function ListRow(requests: Requests, rest: seq<Candidate>, k: nat, q: Query, ts: int, out: Outcome, id: string): Row
    requires k <= |rest| && id in requests
  {
    if PassedOver(rest, k, q, id) then Staled(requests[id], ts)
    else if out.Granted? && out.id == id then Claimed(requests[id])
    else requests[id]
  }

  ghost function ListOutcome(rootKey: string, rest: seq<Candidate>, q: Query, items: map<string, Item>): Outcome {
    FirstStopStops(rootKey, rest, q, items);
    var k := FirstStop(rootKey, rest, q, items);
    if k == |rest| then NoLease else StopOutcome(rootKey, rest[k].id, rest[k].row, q, items)
  }

  lemma {:induction false} ScanList(rootKey: string, requests: Requests, rest: seq<Candidate>, agentId: string, q: Query, items: map<string, Item>, ts: int)
    requires Fresh(requests, rest, agentId, q, ts)
    ensures var (after, out) := Scan(rootKey, requests, rest, q, items, ts);
            && after.Keys == requests.Keys
            && out == ListOutcome(rootKey, rest, q, items)
            && forall id :: id in requests ==> after[id] == ListRow(requests, rest, FirstStop(rootKey, rest, q, items), q, ts, out, id)
  {
    hide Stops, Matches, Live, Examine, Fresh, StopOutcome, PassedOver;
    if rest == [] {
      forall id | id in requests ensures !PassedOver(rest, 0, q, id) { NonePassedOver(rest, q, id); }
    } else {
      ScanTurn(rootKey, requests, rest, agentId, q, items, ts);
      var (mid, stop) := Examine(rootKey, requests, rest[0], q, items, ts);
      if stop.None? {
        ScanList(rootKey, mid, rest[1..], agentId, q, items, ts);
        ScanStep(rootKey, requests, mid, rest, agentId, q, items, ts);
      } else {
        forall id | id in requests ensures !PassedOver(rest, 0, q, id) { NonePassedOver(rest, q, id); }
      }
    }
  }

  lemma NonePassedOver(rest: seq<Candidate>, q: Query, id: string)
    ensures !PassedOver(rest, 0, q, id)
  {
  }

  /** `ExamineKeepsOthers`, row by row. */
  lemma ScanTurn(rootKey: string, requests: Requests, rest: seq<Candidate>, agentId: string, q: Query, items: map<string, Item>, ts: int)
    requires rest != [] && Fresh(requests, rest, agentId, q, ts)
    ensures var (after, stop) := Examine(rootKey, requests, rest[0], q, items, ts);
            && after.Keys == requests.Keys && Fresh(after, rest[1..], agentId, q, ts)
            && (stop.Some? <==> Stops(rootKey, rest[0].row, q, items))
            && (stop.Some? ==> stop.value == StopOutcome(rootKey, rest[0].id, rest[0].row, q, items)
                               && (stop.value.Granted? ==> stop.value.id == rest[0].id))
            && forall id :: id in requests ==>
                 after[id] == if id != rest[0].id then requests[id]
                              else if stop.Some? then (if stop.value.Granted? then Claimed(requests[id]) else requests[id])
                              else if Matches(rest[0].row, q) then Staled(requests[id], ts) else requests[id]
  {
    hide Judge, Matches, Live, Examine;
    ExamineKeepsOthers(rootKey, requests, rest, agentId, q, items, ts);
    assert requests[rest[0].id] == rest[0].row;
    var (after, stop) := Examine(rootKey, requests, rest[0], q, items, ts);
    var id := rest[0].id;
    if stop.Some? && stop.value.Granted? { assert after[id] == Claimed(requests[id]); }
    else if stop.Some? { assert after[id] == requests[id]; }
    else if Matches(rest[0].row, q) { assert after[id] == Staled(requests[id], ts); }
    else { assert after[id] == requests[id]; }
  }

  lemma ScanStep(rootKey: string, requests: Requests, mid: Requests, rest: seq<Candidate>, agentId: string, q: Query, items: map<string, Item>, ts: int)
    requires rest != [] && Fresh(requests, rest, agentId, q, ts) && !Stops(rootKey, rest[0].row, q, items)
    requires mid.Keys == requests.Keys
    requires forall id :: id in requests ==>
               mid[id] == if id == rest[0].id && Matches(rest[0].row, q) then Staled(requests[id], ts) else requests[id]
    ensures var k := FirstStop(rootKey, rest, q, items);
            var out := ListOutcome(rootKey, rest, q, items);
            && k == 1 + FirstStop(rootKey, rest[1..], q, items)
            && out == ListOutcome(rootKey, rest[1..], q, items)
            && forall id :: id in requests ==> ListRow(mid, rest[1..], k - 1, q, ts, out, id) == ListRow(requests, rest, k, q, ts, out, id)
  {
    hide Judge, Matches, Live, Stops, Fresh, StopOutcome, ListRow;
    var k := FirstStop(rootKey, rest, q, items);
    if k < |rest| { StopIsLater(requests, rest, k, agentId, q, ts); }
    var out := ListOutcome(rootKey, rest, q, items);
    OutcomeId(rootKey, rest, q, items);
    forall id | id in requests ensures ListRow(mid, rest[1..], k - 1, q, ts, out, id) == ListRow(requests, rest, k, q, ts, out, id) {
      SameListRow(requests, mid, rest, k, agentId, q, ts, out, id);
    }
  }

  lemma SameListRow(requests: Requests, mid: Requests, rest: seq<Candidate>, k: nat, agentId: string, q: Query, ts: int, out: Outcome, id: string)
    requires Fresh(requests, rest, agentId, q, ts) && 1 <= k <= |rest| && id in requests && id in mid
    requires mid[id] == if id == rest[0].id && Matches(rest[0].row, q) then Staled(requests[id], ts) else requests[id]
    requires out.Granted? ==> out.id != rest[0].id
    ensures ListRow(mid, rest[1..], k - 1, q, ts, out, id) == ListRow(requests, rest, k, q, ts, out, id)
  {
    hide Matches, Fresh, PassedOver;
    PassedOverShift(rest, k, q, id);
    if PassedOver(rest[1..], k - 1, q, id) { PassedOverLater(requests, rest, k, agentId, q, ts, id); }
  }

  lemma OutcomeId(rootKey: string, rest: seq<Candidate>, q: Query, items: map<string, Item>)
    ensures var out, k := ListOutcome(rootKey, rest, q, items), FirstStop(rootKey, rest, q, items);
            out.Granted? ==> k < |rest| && out.id == rest[k].id
  {
    hide Judge, Matches, FirstStop;
  }

  // ---------- the same result, said of the table ----------

  /** The matching live rows, stamped with their expiry. */
  ghost function Selected(requests: Requests, agentId: string, q: Query, ts: int): map<string, int> {
    map id | id in requests && Live(requests[id], agentId, q, ts) && Matches(requests[id], q) :: requests[id].expiresAt.value
  }

  /** The selected rows that are not stale: current ones, and ones whose field has disappeared. */
  ghost function Stoppers(rootKey: string, requests: Requests, agentId: string, q: Query, items: map<string, Item>, ts: int): map<string, int> {
    map id | id in requests && Live(requests[id], agentId, q, ts) && Stops(rootKey, requests[id], q, items) :: requests[id].expiresAt.value
  }

  /** The row of `id` after the loop. */
  ghost function RowAfter(rootKey: string, requests: Requests, agentId: string, q: Query, items: map<string, Item>, ts: int, id: string): Row
    requires id in requests
  {
    var selected, stops := Selected(requests, agentId, q, ts), Stoppers(rootKey, requests, agentId, q, items, ts);
    if id in selected && id !in stops && (stops == map[] || Before(ExpiryStamps(requests, agentId, q, ts), id, Earliest(stops)))
    then Staled(requests[id], ts)
    else if stops != map[] && id == Earliest(stops) && Judge(rootKey, requests[id], q, items).Current? then Claimed(requests[id])
    else requests[id]
  }

  lemma CandidatesFresh(requests: Requests, agentId: string, q: Query, ts: int)
    ensures Fresh(requests, Candidates(requests, agentId, q, ts), agentId, q, ts)
  {
    var stamps := ExpiryStamps(requests, agentId, q, ts);
    var cs := Candidates(requests, agentId, q, ts);
    InOrderAscending(stamps);
    forall i | 0 <= i < |cs| ensures cs[i].id in requests && requests[cs[i].id] == cs[i].row && Live(cs[i].row, agentId, q, ts) {
      assert InOrder(stamps)[i] in InOrder(stamps);
    }
    forall i, j | 0 <= i < j < |cs| ensures cs[i].id != cs[j].id {
      assert Before(stamps, InOrder(stamps)[i], InOrder(stamps)[j]);
      Text.LessAsymmetric(cs[i].id, cs[i].id);
    }
  }

  /** If no candidate stops the loop then no row does; otherwise the one it stops at is the earliest that does. */
  lemma FirstStopIsEarliest(rootKey: string, requests: Requests, agentId: string, q: Query, items: map<string, Item>, ts: int)
    ensures var cs := Candidates(requests, agentId, q, ts);
            var k := FirstStop(rootKey, cs, q, items);
            var stops := Stoppers(rootKey, requests, agentId, q, items, ts);
            && (k == |cs| <==> stops == map[])
            && (k < |cs| ==> cs[k].id == Earliest(stops))
  {
    hide Live, Stops, InOrder, FirstStop;
    var stamps := ExpiryStamps(requests, agentId, q, ts);
    var stops := Stoppers(rootKey, requests, agentId, q, items, ts);
    var cs := Candidates(requests, agentId, q, ts);
    var k := FirstStop(rootKey, cs, q, items);
    InOrderAscending(stamps);
    CandidatesFresh(requests, agentId, q, ts);
    FirstStopStops(rootKey, cs, q, items);
    forall i | 0 <= i < k ensures InOrder(stamps)[i] !in stops {
      assert !Stops(rootKey, cs[i].row, q, items) && cs[i].id == InOrder(stamps)[i];
    }
    if k < |cs| {
      assert cs[k].id in stops;
      FirstListedIsEarliest(stamps, stops, k);
    } else {
      forall id | id in stamps ensures id !in stops {
        assert id in InOrder(stamps);
        var i :| 0 <= i < |cs| && InOrder(stamps)[i] == id;
        assert cs[i].id == id && !Stops(rootKey, cs[i].row, q, items);
      }
      assert forall id :: id in stops ==> id in stamps;
    }
  }

  lemma PassedOverIsBefore(rootKey: string, requests: Requests, agentId: string, q: Query, items: map<string, Item>, ts: int, id: string)
    requires id in requests
    ensures var cs := Candidates(requests, agentId, q, ts);
            var k := FirstStop(rootKey, cs, q, items);
            var stops := Stoppers(rootKey, requests, agentId, q, items, ts);
            PassedOver(cs, k, q, id) <==>
              (id in Selected(requests, agentId, q, ts) && id !in stops
               && (stops == map[] || Before(ExpiryStamps(requests, agentId, q, ts), id, Earliest(stops))))
  {
    hide Live, Matches, Stops, FirstStop, InOrder;
    var stamps := ExpiryStamps(requests, agentId, q, ts);
    var stops := Stoppers(rootKey, requests, agentId, q, items, ts);
    var cs := Candidates(requests, agentId, q, ts);
    var k := FirstStop(rootKey, cs, q, items);
    InOrderAscending(stamps);
    CandidatesFresh(requests, agentId, q, ts);
    FirstStopStops(rootKey, cs, q, items);
    FirstStopIsEarliest(rootKey, requests, agentId, q, items, ts);
    if PassedOver(cs, k, q, id) {
      var i :| 0 <= i < k && cs[i].id == id && Matches(cs[i].row, q);
      assert !Stops(rootKey, cs[i].row, q, items);
      if k < |cs| { assert Before(stamps, InOrder(stamps)[i], InOrder(stamps)[k]); }
    }
    if id in Selected(requests, agentId, q, ts) && id !in stops && (stops == map[] || Before(stamps, id, Earliest(stops))) {
      assert id in InOrder(stamps);
      var i :| 0 <= i < |cs| && InOrder(stamps)[i] == id;
      assert cs[i].id == id;
      if k < |cs| && k <= i {
        if k < i { assert Before(stamps, InOrder(stamps)[k], InOrder(stamps)[i]); }
        Text.LessAsymmetric(id, cs[k].id);
        assert false;
      }
      assert i < k;
    }
  }

  /**
   The loop grants the first row in (expires_at, id) order that matches and is current, unless a
   row before it has lost its field; it has marked stale exactly the matching rows before that
   point, none of which is current, and has changed nothing else.
   */
  lemma ConsumeExact(rootKey: string, requests: Requests, agentId: string, q: Query, items: map<string, Item>, ts: int)
    ensures var (after, out) := Consume(rootKey, requests, agentId, q, items, ts);
            var stops := Stoppers(rootKey, requests, agentId, q, items, ts);
            && after.Keys == requests.Keys
            && (forall id :: id in requests ==> after[id] == RowAfter(rootKey, requests, agentId, q, items, ts, id))
            && out == (if stops == map[] then NoLease
                       else StopOutcome(rootKey, Earliest(stops), requests[Earliest(stops)], q, items))
  {
    hide Live, Matches, Judge, FirstStop, Scan, PassedOver, Stops, Candidates;
    var cs := Candidates(requests, agentId, q, ts);
    CandidatesFresh(requests, agentId, q, ts);
    ScanList(rootKey, requests, cs, agentId, q, items, ts);
    FirstStopIsEarliest(rootKey, requests, agentId, q, items, ts);
    forall id | id in requests
      ensures Consume(rootKey, requests, agentId, q, items, ts).0[id] == RowAfter(rootKey, requests, agentId, q, items, ts, id)
    {
      PassedOverIsBefore(rootKey, requests, agentId, q, items, ts, id);
    }
  }

  /** A refusal at the end of the loop leaves no live matching lease behind. */
  lemma RefusalLeavesNoLease(rootKey: string, requests: Requests, agentId: string, q: Query, items: map<string, Item>, ts: int)
    requires Consume(rootKey, requests, agentId, q, items, ts).1 == NoLease
    ensures Selected(Consume(rootKey, requests, agentId, q, items, ts).0, agentId, q, ts) == map[]
  {
    hide Judge, Consume;
    ConsumeExact(rootKey, requests, agentId, q, items, ts);
    var after := Consume(rootKey, requests, agentId, q, items, ts).0;
    forall id | id in after ensures !(Live(after[id], agentId, q, ts) && Matches(after[id], q)) {
      assert after[id] == RowAfter(rootKey, requests, agentId, q, items, ts, id);
    }
  }

  /** A granted use is taken from the budget of one live row, and from no other. */
  lemma GrantTakesOneUse(rootKey: string, requests: Requests, agentId: string, q: Query, items: map<string, Item>, ts: int)
    requires Consume(rootKey, requests, agentId, q, items, ts).1.Granted?
    ensures var (after, out) := Consume(rootKey, requests, agentId, q, items, ts);
            && after.Keys == requests.Keys && out.id in requests
            && Live(requests[out.id], agentId, q, ts) && Matches(requests[out.id], q)
            && Judge(rootKey, requests[out.id], q, items) == Current(out.secret)
            && after[out.id] == Claimed(requests[out.id])
            && forall id :: id in requests && id != out.id ==> after[id] == requests[id] || after[id] == Staled(requests[id], ts)
  {
    ConsumeExact(rootKey, requests, agentId, q, items, ts);
  }

  // ---------- three formulations of "active" ----------

  /** The remaining uses that the public view shows (service.py:733-735). */
  function RemainingShown(row: Row): Option<int> {
    if row.maxUses.None? then None else Some(Max(0, row.maxUses.value - row.uses))
  }

  /** The public view's `active` flag (service.py:736-742). */
  predicate ActiveShown(row: Row, clock: int) {
    && row.status == Approved && row.expiresAt.Some? && row.expiresAt.value > clock
    && RemainingShown(row).Some? && RemainingShown(row).value > 0
  }

  /** The WHERE clause of `_active_grant_rows` (service.py:932-939). */
  predicate ActiveGrant(row: Row, agentId: string, clock: int) {
    && row.agentId == agentId && row.status == Approved && row.expiresAt.Some? && row.expiresAt.value > clock
    && row.maxUses.Some? && row.uses < row.maxUses.value
  }

  lemma ActiveAgrees(row: Row, clock: int)
    ensures ActiveShown(row, clock) <==> ActiveGrant(row, row.agentId, clock)
    ensures ActiveShown(row, clock) <==> ClaimGuard(row, clock)
    ensures forall q :: Live(row, row.agentId, q, clock) <==> ActiveShown(row, clock) && row.action == QueryAction(q) && (q.SecretQuery? ==> row.targetHost == q.host)
  {
  }
}
