/**
 Which lease should serve a call? Leases with an expiry and a budget arrive over time, calls come
 at non-decreasing times, and each call is served by one live lease or refused. Serving from the
 lease that expires first, as `ORDER BY expires_at,id` does, serves as many calls as any other
 way of choosing.
 */
module Matching {
  import opened Wrappers
  import opened Ordering

  datatype Lease = Lease(expiry: int, left: nat)

  type Pool = map<string, Lease>

  datatype Event = Arrive(id: string, lease: Lease) | Invoke(ts: int)

  predicate Alive(pool: Pool, id: string, ts: int) {
    id in pool && pool[id].expiry > ts && pool[id].left > 0
  }

  function Spend(pool: Pool, id: string): Pool
    requires id in pool && pool[id].left > 0
  {
    pool[id := Lease(pool[id].expiry, pool[id].left - 1)]
  }

  function Add(pool: Pool, id: string, lease: Lease): Pool {
    if id in pool then pool else pool[id := lease]
  }

  function AliveStamps(pool: Pool, ts: int): map<string, int> {
    map id | id in pool && Alive(pool, id, ts) :: pool[id].expiry
  }

  /** The choice of the service: the live lease that expires first. */
  function EarliestAlive(pool: Pool, ts: int): (choice: Option<string>)
    ensures choice.Some? ==> Alive(pool, choice.value, ts)
  {
    if AliveStamps(pool, ts) == map[] then None else Some(Earliest(AliveStamps(pool, ts)))
  }

  /** Calls served when every call goes to the live lease that expires first. */
  function ServedEarliest(pool: Pool, events: seq<Event>): nat
    decreases |events|
  {
    if events == [] then 0
    else
      match events[0]
      case Arrive(id, lease) => ServedEarliest(Add(pool, id, lease), events[1..])
      case Invoke(ts) =>
        match EarliestAlive(pool, ts)
        case Some(id) => 1 + ServedEarliest(Spend(pool, id), events[1..])
        case None => ServedEarliest(pool, events[1..])
  }

  /** Calls served by any other policy: one choice for each event; a choice that is not live refuses the call. */
  function ServedBy(pool: Pool, events: seq<Event>, choices: seq<string>): nat
    requires |choices| == |events|
    decreases |events|
  {
    if events == [] then 0
    else
      match events[0]
      case Arrive(id, lease) => ServedBy(Add(pool, id, lease), events[1..], choices[1..])
      case Invoke(ts) =>
        if Alive(pool, choices[0], ts) then 1 + ServedBy(Spend(pool, choices[0]), events[1..], choices[1..])
        else ServedBy(pool, events[1..], choices[1..])
  }

  predicate NonDecreasing(events: seq<Event>, now: int) {
    events == [] ||
    match events[0]
    case Arrive(_, _) => NonDecreasing(events[1..], now)
    case Invoke(ts) => now <= ts && NonDecreasing(events[1..], ts)
  }

  // ---------- what remains beyond a deadline ----------

  function Weight(lease: Lease, d: int): nat {
    if lease.expiry > d then lease.left else 0
  }

  /** Budget left on the leases `ids` that expire after `d`. */
  ghost function Left(pool: Pool, ids: set<string>, d: int): nat
    requires ids <= pool.Keys
  {
    if ids == {} then 0
    else
      var id :| id in ids;
      Weight(pool[id], d) + Left(pool, ids - {id}, d)
  }

  ghost function Remaining(pool: Pool, d: int): nat {
    Left(pool, pool.Keys, d)
  }

  lemma {:induction false} LeftSplit(pool: Pool, ids: set<string>, x: string, d: int)
    requires ids <= pool.Keys && x in ids
    ensures Left(pool, ids, d) == Weight(pool[x], d) + Left(pool, ids - {x}, d)
  {
    var id :| id in ids && Left(pool, ids, d) == Weight(pool[id], d) + Left(pool, ids - {id}, d);
    if id != x {
      LeftSplit(pool, ids - {id}, x, d);
      LeftSplit(pool, ids - {x}, id, d);
      assert ids - {id} - {x} == ids - {x} - {id};
    }
  }

  /** Leases outside `ids` do not matter. */
  lemma {:induction false} LeftSame(pool: Pool, pool': Pool, ids: set<string>, d: int, d': int)
    requires ids <= pool.Keys && ids <= pool'.Keys
    requires forall id :: id in ids ==> Weight(pool[id], d) == Weight(pool'[id], d')
    ensures Left(pool, ids, d) == Left(pool', ids, d')
  {
    if ids != {} {
      var x :| x in ids;
      LeftSplit(pool, ids, x, d);
      LeftSplit(pool', ids, x, d');
      LeftSame(pool, pool', ids - {x}, d, d');
    }
  }

  lemma RemainingAfterSpend(pool: Pool, id: string, d: int)
    requires id in pool && pool[id].left > 0
    ensures Remaining(Spend(pool, id), d) == Remaining(pool, d) - if pool[id].expiry > d then 1 else 0
  {
    var after := Spend(pool, id);
    assert after.Keys == pool.Keys;
    LeftSplit(pool, pool.Keys, id, d);
    LeftSplit(after, pool.Keys, id, d);
    LeftSame(pool, after, pool.Keys - {id}, d, d);
  }

  lemma RemainingAfterAdd(pool: Pool, id: string, lease: Lease, d: int)
    requires id !in pool
    ensures Remaining(Add(pool, id, lease), d) == Remaining(pool, d) + Weight(lease, d)
  {
    var after := Add(pool, id, lease);
    LeftSplit(after, after.Keys, id, d);
    assert after.Keys - {id} == pool.Keys;
    LeftSame(pool, after, pool.Keys, d, d);
  }

  lemma {:induction false} LeftMonotone(pool: Pool, ids: set<string>, d: int, d': int)
    requires ids <= pool.Keys && d <= d'
    ensures Left(pool, ids, d') <= Left(pool, ids, d)
  {
    if ids != {} {
      var x :| x in ids;
      LeftSplit(pool, ids, x, d);
      LeftSplit(pool, ids, x, d');
      LeftMonotone(pool, ids - {x}, d, d');
    }
  }

  /** A lease with budget that expires between two deadlines counts for the earlier one only. */
  lemma RemainingDrops(pool: Pool, id: string, d: int, d': int)
    requires id in pool && pool[id].left > 0 && d < pool[id].expiry <= d'
    ensures Remaining(pool, d') + 1 <= Remaining(pool, d)
  {
    LeftSplit(pool, pool.Keys, id, d);
    LeftSplit(pool, pool.Keys, id, d');
    LeftMonotone(pool, pool.Keys - {id}, d, d');
  }

  /** With no such lease the two deadlines see the same. */
  lemma RemainingSteady(pool: Pool, d: int, d': int)
    requires d <= d' && forall id :: id in pool && pool[id].left > 0 ==> !(d < pool[id].expiry <= d')
    ensures Remaining(pool, d') == Remaining(pool, d)
  {
    LeftSame(pool, pool, pool.Keys, d', d);
  }

  lemma {:induction false} LeftHorizon(pool: Pool, ids: set<string>, now: int) returns (d: int)
    requires ids <= pool.Keys
    ensures d >= now && forall id :: id in ids ==> pool[id].expiry <= d
  {
    if ids == {} {
      d := now;
    } else {
      var x :| x in ids;
      d := LeftHorizon(pool, ids - {x}, now);
      if d < pool[x].expiry { d := pool[x].expiry; }
    }
  }

  /** After every expiry nothing remains. */
  lemma Horizon(pool: Pool, now: int) returns (d: int)
    ensures d >= now && Remaining(pool, d) == 0
  {
    d := LeftHorizon(pool, pool.Keys, now);
    NothingLeft(pool, pool.Keys, d);
  }

  lemma {:induction false} NothingLeft(pool: Pool, ids: set<string>, d: int)
    requires ids <= pool.Keys && forall id :: id in ids ==> pool[id].expiry <= d || pool[id].left == 0
    ensures Left(pool, ids, d) == 0
  {
    if ids != {} {
      var x :| x in ids;
      LeftSplit(pool, ids, x, d);
      NothingLeft(pool, ids - {x}, d);
    }
  }

  // ---------- the potential ----------

  /** For every deadline from now on: served plus remaining beyond the deadline. */
  ghost predicate Ahead(mine: Pool, served: nat, other: Pool, servedOther: nat, now: int) {
    forall d :: d >= now ==> servedOther + Remaining(other, d) <= served + Remaining(mine, d)
  }

  /** The same leases, with whatever budgets are left. */
  ghost predicate SameLeases(mine: Pool, other: Pool) {
    mine.Keys == other.Keys && forall id :: id in mine ==> mine[id].expiry == other[id].expiry
  }

  lemma AheadAfterArrival(mine: Pool, served: nat, other: Pool, servedOther: nat, now: int, id: string, lease: Lease)
    requires SameLeases(mine, other) && Ahead(mine, served, other, servedOther, now)
    ensures SameLeases(Add(mine, id, lease), Add(other, id, lease))
    ensures Ahead(Add(mine, id, lease), served, Add(other, id, lease), servedOther, now)
  {
    if id !in mine {
      forall d | d >= now ensures servedOther + Remaining(Add(other, id, lease), d) <= served + Remaining(Add(mine, id, lease), d) {
        RemainingAfterAdd(mine, id, lease, d);
        RemainingAfterAdd(other, id, lease, d);
      }
    }
  }

  /** The service serves a call from its earliest lease; the other policy may serve it too. */
  lemma AheadAfterServing(mine: Pool, served: nat, other: Pool, servedOther: nat, now: int, ts: int, choice: string)
    requires SameLeases(mine, other) && Ahead(mine, served, other, servedOther, now) && now <= ts
    requires EarliestAlive(mine, ts).Some?
    ensures var mine' := Spend(mine, EarliestAlive(mine, ts).value);
            && (Alive(other, choice, ts) ==> SameLeases(mine', Spend(other, choice)) && Ahead(mine', served + 1, Spend(other, choice), servedOther + 1, ts))
            && SameLeases(mine', other) && Ahead(mine', served + 1, other, servedOther, ts)
  {
    var first := EarliestAlive(mine, ts).value;
    var mine' := Spend(mine, first);
    forall d | d >= ts
      ensures servedOther + Remaining(other, d) <= served + 1 + Remaining(mine', d)
      ensures Alive(other, choice, ts) ==> servedOther + 1 + Remaining(Spend(other, choice), d) <= served + 1 + Remaining(mine', d)
    {
      RemainingAfterSpend(mine, first, d);
      if Alive(other, choice, ts) {
        RemainingAfterSpend(other, choice, d);
        if other[choice].expiry <= d < mine[first].expiry {
          NothingBeforeFirst(mine, ts, d);
          RemainingSteady(mine, ts, d);
          RemainingDrops(other, choice, ts, d);
        }
      }
    }
  }

  lemma NothingBeforeFirst(mine: Pool, ts: int, d: int)
    requires EarliestAlive(mine, ts).Some? && d < mine[EarliestAlive(mine, ts).value].expiry
    ensures forall id :: id in mine && mine[id].left > 0 ==> !(ts < mine[id].expiry <= d)
  {
    var stamps := AliveStamps(mine, ts);
    var first := Earliest(stamps);
    forall id | id in mine && mine[id].left > 0 && ts < mine[id].expiry ensures mine[id].expiry > d {
      assert id in stamps;
      if id != first { assert Before(stamps, first, id); }
    }
  }

  /** The service has no live lease; then it is ahead by everything the other policy can still serve. */
  lemma AheadAfterRefusing(mine: Pool, served: nat, other: Pool, servedOther: nat, now: int, ts: int, choice: string)
    requires SameLeases(mine, other) && Ahead(mine, served, other, servedOther, now) && now <= ts
    requires EarliestAlive(mine, ts).None?
    ensures Alive(other, choice, ts) ==> SameLeases(mine, Spend(other, choice)) && Ahead(mine, served, Spend(other, choice), servedOther + 1, ts)
    ensures Ahead(mine, served, other, servedOther, ts)
  {
    if Alive(other, choice, ts) {
      forall id | id in mine ensures mine[id].expiry <= ts || mine[id].left == 0 {
        assert id !in AliveStamps(mine, ts);
      }
      NothingLeft(mine, mine.Keys, ts);
      forall d | d >= ts ensures servedOther + 1 + Remaining(Spend(other, choice), d) <= served + Remaining(mine, d) {
        RemainingAfterSpend(other, choice, d);
        RemainingAfterSpend(other, choice, ts);
        LeftMonotone(Spend(other, choice), other.Keys, ts, d);
        assert Spend(other, choice).Keys == other.Keys;
      }
    }
  }

  /** Being ahead now, the service is not behind at the end. */
  lemma {:induction false} StaysAhead(mine: Pool, served: nat, other: Pool, servedOther: nat, now: int, events: seq<Event>, choices: seq<string>)
    requires |choices| == |events| && NonDecreasing(events, now)
    requires SameLeases(mine, other) && Ahead(mine, served, other, servedOther, now)
    ensures servedOther + ServedBy(other, events, choices) <= served + ServedEarliest(mine, events)
    decreases |events|
  {
    if events == [] {
      var d := Horizon(mine, now);
      assert servedOther + Remaining(other, d) <= served + Remaining(mine, d);
    } else {
      match events[0]
      case Arrive(id, lease) =>
        AheadAfterArrival(mine, served, other, servedOther, now, id, lease);
        StaysAhead(Add(mine, id, lease), served, Add(other, id, lease), servedOther, now, events[1..], choices[1..]);
      case Invoke(ts) =>
        var choice, first := choices[0], EarliestAlive(mine, ts);
        var other', servedOther' := if Alive(other, choice, ts) then Spend(other, choice) else other, if Alive(other, choice, ts) then servedOther + 1 else servedOther;
        if first.Some? {
          AheadAfterServing(mine, served, other, servedOther, now, ts, choice);
          StaysAhead(Spend(mine, first.value), served + 1, other', servedOther', ts, events[1..], choices[1..]);
        } else {
          AheadAfterRefusing(mine, served, other, servedOther, now, ts, choice);
          StaysAhead(mine, served, other', servedOther', ts, events[1..], choices[1..]);
        }
    }
  }

  /** The earliest-expiring-first choice serves at least as many calls as any other policy, whatever arrives and whenever calls come. */
  lemma EarliestFirstIsOptimal(pool: Pool, now: int, events: seq<Event>, choices: seq<string>)
    requires |choices| == |events| && NonDecreasing(events, now)
    ensures ServedBy(pool, events, choices) <= ServedEarliest(pool, events)
  {
    StaysAhead(pool, 0, pool, 0, now, events, choices);
  }
}
