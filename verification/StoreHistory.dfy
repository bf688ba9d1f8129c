/** Whole histories of the vault and item tables: the last payload put under an id is what is read. */
module StoreHistory {
  import opened Wrappers
  import opened Text
  import opened Store
  import opened Ordering

  datatype Write =
    | VaultWrite(name: string, description: string, source: Source)
    | ItemWrite(vaultRef: string, payload: ItemPayload)

  function Perform(p: Plain, call: Write): (Plain, Result<string>) {
    match call
    case VaultWrite(name, description, source) => PlainCreateVault(p, name, description, source)
    case ItemWrite(vaultRef, payload) => PlainPutItem(p, vaultRef, payload)
  }

  function After(p: Plain, calls: seq<Write>): Plain {
    if calls == [] then p else Perform(After(p, calls[..|calls| - 1]), calls[|calls| - 1]).0
  }

  /** What call `k` returned. */
  function Returned(p: Plain, calls: seq<Write>, k: nat): Result<string>
    requires k < |calls|
  {
    Perform(After(p, calls[..k]), calls[k]).1
  }

  /** Call `k` is the last one that put item `id`. */
  ghost predicate LastPut(p: Plain, calls: seq<Write>, k: nat, id: string) {
    && k < |calls| && calls[k].ItemWrite? && Returned(p, calls, k) == Ok(id)
    && forall j :: k < j < |calls| && calls[j].ItemWrite? ==> Returned(p, calls, j) != Ok(id)
  }

  /** A put writes one item, a refused put and a vault write none. */
  lemma PerformOnItems(p: Plain, call: Write)
    ensures var (q, r) := Perform(p, call);
            if call.ItemWrite? && r.Ok? then
              exists vaultId :: q.items == p.items[r.value := Item(vaultId, call.payload.(title := Strip(call.payload.title)))]
            else q.items == p.items
  {
    hide Strip, VaultsFrom, ItemsFrom, VaultsNamed, Linked, FindVault;
    if call.ItemWrite? {
      var (q, r) := Perform(p, call);
      var vault := FindVault(p.vaults, call.vaultRef);
      if r.Ok? {
        assert q.items == p.items[r.value := Item(vault.value, call.payload.(title := Strip(call.payload.title)))];
      }
    }
  }

  lemma ReturnedInit(p: Plain, calls: seq<Write>, k: nat)
    requires k + 1 < |calls|
    ensures Returned(p, calls[..|calls| - 1], k) == Returned(p, calls, k)
  {
    assert calls[..|calls| - 1][..k] == calls[..k];
  }

  lemma LastPutInit(p: Plain, calls: seq<Write>, k: nat, id: string)
    requires calls != [] && LastPut(p, calls, k, id) && k + 1 < |calls|
    ensures LastPut(p, calls[..|calls| - 1], k, id)
  {
    hide Returned;
    var init := calls[..|calls| - 1];
    ReturnedInit(p, calls, k);
    forall j | k < j < |init| && init[j].ItemWrite? ensures Returned(p, init, j) != Ok(id) {
      ReturnedInit(p, calls, j);
    }
  }

  /** No call puts item `id`. */
  ghost predicate NeverPut(p: Plain, calls: seq<Write>, id: string) {
    forall k: nat :: k < |calls| && calls[k].ItemWrite? ==> Returned(p, calls, k) != Ok(id)
  }

  lemma NeverPutInit(p: Plain, calls: seq<Write>, id: string)
    requires calls != [] && NeverPut(p, calls, id)
    ensures NeverPut(p, calls[..|calls| - 1], id)
  {
    hide Returned;
    var init := calls[..|calls| - 1];
    forall k: nat | k < |init| && init[k].ItemWrite? ensures Returned(p, init, k) != Ok(id) {
      ReturnedInit(p, calls, k);
    }
  }

  /** An id that no call put holds what it held before. */
  lemma {:induction false} NeverPutKept(p: Plain, calls: seq<Write>, id: string)
    requires NeverPut(p, calls, id)
    ensures id in After(p, calls).items <==> id in p.items
    ensures id in p.items ==> After(p, calls).items[id] == p.items[id]
  {
    hide Perform, NeverPut, Strip;
    if calls != [] {
      var n := |calls| - 1;
      NeverPutInit(p, calls, id);
      NeverPutKept(p, calls[..n], id);
      PerformOnItems(After(p, calls[..n]), calls[n]);
      if calls[n].ItemWrite? { NeverPutAt(p, calls, n, id); }
    }
  }

  lemma NeverPutAt(p: Plain, calls: seq<Write>, k: nat, id: string)
    requires NeverPut(p, calls, id) && k < |calls| && calls[k].ItemWrite?
    ensures Returned(p, calls, k) != Ok(id)
  {
  }

  /** After any calls, in any vaults and with any sources, the payload last put under an id is the one stored under it. */
  lemma {:induction false} LastPutWins(p: Plain, calls: seq<Write>, k: nat, id: string)
    requires LastPut(p, calls, k, id)
    ensures id in After(p, calls).items && After(p, calls).items[id].payload == calls[k].payload.(title := Strip(calls[k].payload.title))
  {
    hide Perform, Strip;
    var n := |calls| - 1;
    PerformOnItems(After(p, calls[..n]), calls[n]);
    if k < n {
      LastPutInit(p, calls, k, id);
      LastPutWins(p, calls[..n], k, id);
    }
  }

  /** Every row is still there, under the same id and source. */
  ghost predicate Grows(p: Plain, q: Plain) {
    && (forall id :: id in p.vaults ==> id in q.vaults && q.vaults[id].source == p.vaults[id].source)
    && (forall id :: id in p.items ==> id in q.items && q.items[id].payload.source == p.items[id].payload.source)
  }

  lemma CreateVaultKeeps(p: Plain, name: string, description: string, source: Source)
    requires PlainValid(p)
    ensures var after := PlainCreateVault(p, name, description, source).0;
            PlainValid(after) && Grows(p, after)
  {
    hide PlainValid, VaultId, Strip;
    var payload := VaultPayload(Strip(name), description, source);
    if payload.name != "" {
      if Linked(source) && VaultsFrom(p.vaults, source) != {} {
        SetVaultValid(p, Pick(VaultsFrom(p.vaults, source)), payload);
      } else if !exists id :: id in p.vaults && Clashing(source, p.vaults[id].source) {
        AddVaultValid(p, payload);
      }
    }
  }

  lemma PutItemKeeps(p: Plain, vaultRef: string, payload: ItemPayload)
    requires PlainValid(p)
    ensures var after := PlainPutItem(p, vaultRef, payload).0;
            PlainValid(after) && Grows(p, after)
  {
    hide PlainValid, ItemId, Strip, VaultsNamed, FindVault;
    var vault := FindVault(p.vaults, vaultRef);
    var stored := payload.(title := Strip(payload.title));
    if vault.Ok? && stored.title != "" {
      var item := Item(vault.value, stored);
      if Linked(stored.source) && ItemsFrom(p.items, stored.source) != {} {
        SetItemValid(p, Pick(ItemsFrom(p.items, stored.source)), item);
      } else if !exists id :: id in p.items && Clashing(stored.source, p.items[id].payload.source) {
        AddItemValid(p, item);
      }
    }
  }

  lemma GrowsBySelf(p: Plain)
    ensures Grows(p, p)
  {
  }

  /** Over every history no row disappears or changes its source, and ids, vaults and sources stay consistent. */
  lemma {:induction false} HistoryKeeps(p: Plain, calls: seq<Write>)
    requires PlainValid(p)
    ensures PlainValid(After(p, calls)) && Grows(p, After(p, calls))
  {
    hide PlainValid, PlainCreateVault, PlainPutItem;
    if calls != [] {
      var n := |calls| - 1;
      HistoryKeeps(p, calls[..n]);
      match calls[n]
      case VaultWrite(name, description, source) => CreateVaultKeeps(After(p, calls[..n]), name, description, source);
      case ItemWrite(vaultRef, payload) => PutItemKeeps(After(p, calls[..n]), vaultRef, payload);
    }
  }

  // ---------- the encrypted tables ----------

  /** Item `id` opens through its current vault, and yields this payload. */
  predicate Holds(store: VaultStore, id: string, payload: ItemPayload)
    reads store
  {
    id in store.items && OpenItem(store.vaults, id, store.items[id]) == Ok(payload)
  }

  method PerformOne(store: VaultStore, call: Write) returns (r: Result<string>)
    requires store.Valid()
    modifies store
    ensures store.Valid() && (store.Contents(), r) == Perform(old(store.Contents()), call)
  {
    match call {
      case VaultWrite(name, description, source) => r := store.CreateVault(name, description, source);
      case ItemWrite(vaultRef, payload) => r := store.PutItem(vaultRef, payload);
    }
  }

  lemma HeldPayload(store: VaultStore, id: string)
    requires store.Valid() && id in store.Contents().items
    ensures Holds(store, id, store.Contents().items[id].payload)
  {
    hide PlainValid, KeysOwned, OpenVault;
  }

  /**
   Any sequence of writes to the encrypted tables, moves between vaults included: every row still
   opens, and the payload last put under an id is what opening that row yields.
   */
  method PerformAll(store: VaultStore, calls: seq<Write>)
    requires store.Valid()
    modifies store
    ensures store.Valid() && store.Contents() == After(old(store.Contents()), calls)
    ensures forall k: nat, id :: LastPut(old(store.Contents()), calls, k, id) ==>
              Holds(store, id, calls[k].payload.(title := Strip(calls[k].payload.title)))
  {
    hide Perform, Returned, Holds, View, PlainValid, KeysOwned, Openable, Strip;
    ghost var start := store.Contents();
    for i := 0 to |calls|
      invariant store.Valid() && store.Contents() == After(start, calls[..i])
    {
      assert calls[..i + 1][..i] == calls[..i];
      var r := PerformOne(store, calls[i]);
    }
    assert calls[..|calls|] == calls;
    forall k: nat, id | LastPut(start, calls, k, id) ensures Holds(store, id, calls[k].payload.(title := Strip(calls[k].payload.title))) {
      LastPutWins(start, calls, k, id);
      HeldPayload(store, id);
    }
  }
}
