/**
 Rows in `ORDER BY stamp, id` order. A map from ids to integer stamps is listed in ascending
 (stamp, id) order; with every stamp equal this is the order of `sorted(keys)`.
 */
module Ordering {
  import opened Text

  /** Row `a` comes strictly before row `b` in ORDER BY stamp, id. */
  predicate Before(stamps: map<string, int>, a: string, b: string)
    requires a in stamps && b in stamps
  {
    stamps[a] < stamps[b] || (stamps[a] == stamps[b] && Less(a, b))
  }

  /** `first` comes before every other row. */
  predicate IsEarliest(stamps: map<string, int>, first: string) {
    first in stamps && forall other :: other in stamps && other != first ==> Before(stamps, first, other)
  }

  lemma BeforeTransitive(stamps: map<string, int>, a: string, b: string, c: string)
    requires a in stamps && b in stamps && c in stamps
    requires Before(stamps, a, b) && Before(stamps, b, c)
    ensures Before(stamps, a, c)
  {
    if stamps[a] == stamps[b] == stamps[c] { LessTransitive(a, b, c); }
  }

  lemma {:induction false} EarliestExists(stamps: map<string, int>)
    requires stamps != map[]
    ensures exists first :: IsEarliest(stamps, first)
    decreases |stamps|
  {
    var some :| some in stamps;
    var rest := stamps - {some};
    if rest == map[] {
      assert forall other :: other in stamps && other != some ==> other in rest;
      assert IsEarliest(stamps, some);
    } else {
      EarliestExists(rest);
      var first :| IsEarliest(rest, first);
      LessTotal(some, first);
      if Before(stamps, some, first) {
        forall other | other in stamps && other != some ensures Before(stamps, some, other) {
          assert other in rest;
          if other != first { BeforeTransitive(stamps, some, first, other); }
        }
        assert IsEarliest(stamps, some);
      } else {
        forall other | other in stamps && other != first ensures Before(stamps, first, other) {
          if other != some { assert other in rest && Before(rest, first, other); }
        }
        assert IsEarliest(stamps, first);
      }
    }
  }

  lemma EarliestUnique(stamps: map<string, int>)
    ensures forall a, b :: IsEarliest(stamps, a) && IsEarliest(stamps, b) ==> a == b
  {
    forall a, b | IsEarliest(stamps, a) && IsEarliest(stamps, b) ensures a == b {
      if a != b {
        assert Before(stamps, a, b) && Before(stamps, b, a);
        LessAsymmetric(a, b);
      }
    }
  }

  function Earliest(stamps: map<string, int>): (first: string)
    requires stamps != map[]
    ensures IsEarliest(stamps, first)
  {
    EarliestExists(stamps);
    EarliestUnique(stamps);
    var first :| first in stamps && IsEarliest(stamps, first);
    first
  }

  /** All the ids in ORDER BY stamp, id. */
  function InOrder(stamps: map<string, int>): (ids: seq<string>)
    decreases |stamps|
  {
    if stamps == map[] then []
    else
      var first := Earliest(stamps);
      [first] + InOrder(stamps - {first})
  }

  /** Strictly ascending, hence without duplicates. */
  ghost predicate Ascending(stamps: map<string, int>, ids: seq<string>) {
    && (forall id :: id in ids ==> id in stamps)
    && (forall i, j :: 0 <= i < j < |ids| ==> Before(stamps, ids[i], ids[j]))
  }

  /** The list holds every id once and is ascending. */
  lemma {:induction false} InOrderAscending(stamps: map<string, int>)
    ensures Ascending(stamps, InOrder(stamps))
    ensures forall id :: id in InOrder(stamps) <==> id in stamps
    decreases |stamps|
  {
    if stamps != map[] {
      var first := Earliest(stamps);
      InOrderAscending(stamps - {first});
      AscendingCons(stamps, first, InOrder(stamps - {first}));
    }
  }

  lemma AscendingCons(stamps: map<string, int>, first: string, tail: seq<string>)
    requires first in stamps && IsEarliest(stamps, first)
    requires Ascending(stamps - {first}, tail)
    requires forall id :: id in tail <==> id in stamps - {first}
    ensures Ascending(stamps, [first] + tail)
    ensures forall id :: id in [first] + tail <==> id in stamps
  {
    var ids := [first] + tail;
    forall k | 0 <= k < |ids| ensures ids[k] in stamps {
      if k > 0 { assert ids[k] == tail[k - 1] && tail[k - 1] in tail; }
    }
    forall i, j | 0 <= i < j < |ids| ensures Before(stamps, ids[i], ids[j]) {
      assert ids[j] == tail[j - 1] && tail[j - 1] in tail;
      if i > 0 { assert Before(stamps - {first}, tail[i - 1], tail[j - 1]); }
    }
  }

  lemma AscendingHead(stamps: map<string, int>, ids: seq<string>)
    requires Ascending(stamps, ids) && ids != []
    requires forall id :: id in stamps ==> id in ids
    ensures ids[0] in stamps && IsEarliest(stamps, ids[0])
  {
    assert ids[0] in ids;
    forall other | other in stamps && other != ids[0] ensures Before(stamps, ids[0], other) {
      var k :| 0 <= k < |ids| && ids[k] == other;
    }
  }

  lemma AscendingTail(stamps: map<string, int>, ids: seq<string>)
    requires Ascending(stamps, ids) && ids != []
    requires forall id :: id in stamps ==> id in ids
    ensures Ascending(stamps - {ids[0]}, ids[1..])
    ensures forall id :: id in stamps - {ids[0]} ==> id in ids[1..]
  {
    var rest := stamps - {ids[0]};
    forall id | id in ids[1..] ensures id in rest {
      var k :| 0 < k < |ids| && ids[k] == id;
      assert ids[k] in ids && Before(stamps, ids[0], ids[k]);
      LessAsymmetric(id, id);
    }
    forall i, j | 0 <= i < j < |ids[1..]| ensures Before(rest, ids[1..][i], ids[1..][j]) {
      assert ids[1..][i] in ids[1..] && ids[1..][j] in ids[1..];
      assert Before(stamps, ids[i + 1], ids[j + 1]);
    }
    forall id | id in rest ensures id in ids[1..] {
      var k :| 0 <= k < |ids| && ids[k] == id;
      assert ids[1..][k - 1] == id;
    }
  }

  lemma InOrderStep(stamps: map<string, int>, first: string)
    requires first in stamps && IsEarliest(stamps, first)
    ensures InOrder(stamps) == [first] + InOrder(stamps - {first})
  {
    EarliestUnique(stamps);
  }

  lemma {:induction false} AscendingIsInOrder(stamps: map<string, int>, ids: seq<string>)
    requires Ascending(stamps, ids)
    requires forall id :: id in stamps ==> id in ids
    ensures ids == InOrder(stamps)
    decreases |ids|
  {
    if ids == [] {
      assert stamps == map[];
    } else {
      AscendingHead(stamps, ids);
      AscendingTail(stamps, ids);
      AscendingIsInOrder(stamps - {ids[0]}, ids[1..]);
      InOrderStep(stamps, ids[0]);
    }
  }

  /** The first listed row that belongs to a selection is the earliest row of the selection. */
  lemma FirstListedIsEarliest(stamps: map<string, int>, chosen: map<string, int>, k: nat)
    requires forall id :: id in chosen ==> id in stamps && chosen[id] == stamps[id]
    requires k < |InOrder(stamps)| && InOrder(stamps)[k] in chosen
    requires forall i :: 0 <= i < k ==> InOrder(stamps)[i] !in chosen
    ensures chosen != map[] && Earliest(chosen) == InOrder(stamps)[k]
  {
    var ids := InOrder(stamps);
    InOrderAscending(stamps);
    forall other | other in chosen && other != ids[k] ensures Before(chosen, ids[k], other) {
      assert other in ids;
      var j :| 0 <= j < |ids| && ids[j] == other;
      assert Before(stamps, ids[k], ids[j]);
    }
    assert IsEarliest(chosen, ids[k]);
    EarliestUnique(chosen);
  }

  /** One id of a non-empty set: the only one when the set is a singleton. */
  function Pick(ids: set<string>): (id: string)
    requires ids != {}
    ensures id in ids
  {
    assert Flat(ids) != map[] by {
      var some :| some in ids;
      assert some in Flat(ids);
    }
    Earliest(Flat(ids))
  }

  /** Insertion of one key into an ascending list of keys, and the sort built on it. */
  function Insert(key: string, keys: seq<string>): seq<string> {
    if keys == [] || Less(key, keys[0]) then [key] + keys else [keys[0]] + Insert(key, keys[1..])
  }

  function Sort(keys: seq<string>): seq<string> {
    if keys == [] then [] else Insert(keys[0], Sort(keys[1..]))
  }

  ghost predicate Distinct(keys: seq<string>) {
    forall i, j :: 0 <= i < j < |keys| ==> keys[i] != keys[j]
  }

  function Flat(keys: set<string>): map<string, int> {
    map key | key in keys :: 0
  }

  lemma {:induction false} InsertAscending(key: string, keys: seq<string>)
    requires forall i, j :: 0 <= i < j < |keys| ==> Less(keys[i], keys[j])
    requires key !in keys
    ensures forall i, j :: 0 <= i < j < |Insert(key, keys)| ==> Less(Insert(key, keys)[i], Insert(key, keys)[j])
    ensures forall k :: k in Insert(key, keys) <==> k == key || k in keys
  {
    if keys != [] {
      LessTotal(key, keys[0]);
      if Less(key, keys[0]) {
        forall k | 0 < k < |keys| ensures Less(key, keys[k]) { LessTransitive(key, keys[0], keys[k]); }
      } else {
        InsertAscending(key, keys[1..]);
        var tail := Insert(key, keys[1..]);
        forall k | 0 <= k < |tail| ensures Less(keys[0], tail[k]) {
          assert tail[k] in tail;
          if tail[k] != key {
            var i :| 0 < i < |keys| && keys[i] == tail[k];
          }
        }
        assert keys == [keys[0]] + keys[1..];
      }
    }
  }

  /** Whatever order the keys come in, sorting them gives the one ascending list. */
  lemma {:induction false} SortIsInOrder(keys: seq<string>)
    requires Distinct(keys)
    ensures Sort(keys) == InOrder(Flat(set k | k in keys))
  {
    SortAscending(keys);
    AscendingIsInOrder(Flat(set k | k in keys), Sort(keys));
  }

  lemma {:induction false} SortAscending(keys: seq<string>)
    requires Distinct(keys)
    ensures forall i, j :: 0 <= i < j < |Sort(keys)| ==> Less(Sort(keys)[i], Sort(keys)[j])
    ensures forall k :: k in Sort(keys) <==> k in keys
  {
    if keys != [] {
      assert Distinct(keys[1..]);
      SortAscending(keys[1..]);
      assert keys[0] !in keys[1..];
      InsertAscending(keys[0], Sort(keys[1..]));
      assert keys == [keys[0]] + keys[1..];
    }
  }
}
