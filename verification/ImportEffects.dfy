/**
 What an import does to the store, over whole exports: nothing is deleted, the last write of each
 source decides, two export items share a row exactly when their joined ids are equal, and a
 lease stays current exactly when the value of its field did.
 */
module ImportEffects {
  import opened Wrappers
  import opened Text
  import opened Json
  import opened Authority
  import opened Store
  import opened StoreHistory
  import opened Leases
  import opened Outcomes
  import opened ProtonImport

  // ---------- nothing is deleted ----------

  lemma StepKeeps(s: Progress, op: Op)
    requires PlainValid(s.store)
    ensures PlainValid(Step(s, op).store) && Grows(s.store, Step(s, op).store)
  {
    hide PlainValid, Grows, PlainCreateVault, PlainPutItem;
    if s.error.Some? {
      assert Grows(s.store, s.store) by { GrowsBySelf(s.store); }
    } else if op.PutVault? {
      CreateVaultKeeps(s.store, op.name, op.description, op.source);
    } else {
      PutItemKeeps(s.store, s.vault, op.payload);
    }
  }

  lemma {:induction false} RunKeeps(s: Progress, ops: seq<Op>)
    requires PlainValid(s.store)
    ensures PlainValid(Run(s, ops).store) && Grows(s.store, Run(s, ops).store)
  {
    hide PlainValid, Step;
    if ops != [] {
      RunKeeps(s, ops[..|ops| - 1]);
      StepKeeps(Run(s, ops[..|ops| - 1]), ops[|ops| - 1]);
    }
  }

  /** Whatever the export holds and wherever it stops, an import deletes nothing and keeps the store valid. */
  lemma ImportDeletesNothing(p: Plain, vaults: Export, run: nat)
    requires PlainValid(p)
    ensures PlainValid(Import(p, vaults, run).store) && Grows(p, Import(p, vaults, run).store)
  {
    RunKeeps(Progress(p, "", None), Ops(vaults, run, |vaults|));
  }

  // ---------- the last write decides ----------

  datatype Written = Written(vault: Source, payload: ItemPayload)

  /** The source of the vault being filled after these writes. */
  function CurrentVault(ops: seq<Op>): Option<Source> {
    if ops == [] then None
    else if ops[|ops| - 1].PutVault? then Some(ops[|ops| - 1].source)
    else CurrentVault(ops[..|ops| - 1])
  }

  function StoredVault(op: Op): VaultPayload
    requires op.PutVault?
  {
    VaultPayload(Strip(op.name), op.description, op.source)
  }

  function StoredItem(op: Op): ItemPayload
    requires op.PutItem?
  {
    op.payload.(title := Strip(op.payload.title))
  }

  function LastVault(ops: seq<Op>, source: Source): Option<VaultPayload> {
    if ops == [] then None
    else
      var last := ops[|ops| - 1];
      if last.PutVault? && last.source == source then Some(StoredVault(last)) else LastVault(ops[..|ops| - 1], source)
  }

  function LastItem(ops: seq<Op>, source: Source): Option<Written> {
    if ops == [] then None
    else
      var last, current := ops[|ops| - 1], CurrentVault(ops);
      if last.PutItem? && last.payload.source == source && current.Some? then Some(Written(current.value, StoredItem(last)))
      else LastItem(ops[..|ops| - 1], source)
  }

  /** The vault with the empty string as its key has no source to be found by: it is looked up by name. */
  predicate ByName(op: Op) {
    op.PutVault? && !Linked(op.source)
  }

  ghost predicate EachOnce(ops: seq<Op>) {
    forall i, j :: 0 <= i < j < |ops| && ops[i].PutVault? && ops[j].PutVault? ==> ops[i].source != ops[j].source
  }

  /** Items have sources and come after a vault; every vault source is written once, and at most one vault goes by name. */
  ghost predicate WellFormed(ops: seq<Op>) {
    && (forall op :: op in ops && op.PutItem? ==> Linked(op.payload.source))
    && (forall op :: op in ops && ByName(op) ==> op.source == ProtonSource(""))
    && EachOnce(ops)
    && (ops != [] ==> ops[0].PutVault?)
  }

  /** The vault that the lookup by name found or made. */
  function VaultByName(start: Progress, ops: seq<Op>): string {
    if ops == [] then ""
    else if ByName(ops[|ops| - 1]) then Run(start, ops).vault
    else VaultByName(start, ops[..|ops| - 1])
  }

  ghost predicate VaultExplained(p: Plain, ops: seq<Op>, q: Plain, id: string)
    requires id in q.vaults
  {
    var source := q.vaults[id].source;
    if Linked(source) && LastVault(ops, source).Some? then q.vaults[id] == LastVault(ops, source).value
    else id in p.vaults ==> q.vaults[id] == p.vaults[id]
  }

  ghost predicate ItemExplained(p: Plain, ops: seq<Op>, byName: string, q: Plain, id: string)
    requires id in q.items
  {
    match LastItem(ops, q.items[id].payload.source)
    case Some(w) =>
      && q.items[id].payload == w.payload && q.items[id].vaultId in q.vaults
      && (if Linked(w.vault) then q.vaults[q.items[id].vaultId].source == w.vault else q.items[id].vaultId == byName)
    case None => id in p.items && q.items[id] == p.items[id]
  }

  /** Every row of `q` holds the last write of its source, or what it held in `p` if there was none. */
  ghost predicate Explained(p: Plain, ops: seq<Op>, byName: string, q: Plain) {
    && (forall id :: id in q.vaults ==> VaultExplained(p, ops, q, id))
    && (forall id :: id in q.items ==> ItemExplained(p, ops, byName, q, id))
  }

  /** Every source that is written has a row. */
  ghost predicate Present(ops: seq<Op>, q: Plain) {
    && (forall op :: op in ops && op.PutVault? && Linked(op.source) ==> VaultsFrom(q.vaults, op.source) != {})
    && (forall op :: op in ops && op.PutItem? ==> ItemsFrom(q.items, op.payload.source) != {})
  }

  ghost predicate SameIds(p: Plain, q: Plain) {
    p.vaults.Keys == q.vaults.Keys && p.items.Keys == q.items.Keys && p.draws == q.draws
  }

  /** The lookup by name, if the writes have one, finds a vault. */
  ghost predicate FindsByName(start: Progress, ops: seq<Op>) {
    ops != [] ==>
      var init, op := ops[..|ops| - 1], ops[|ops| - 1];
      FindsByName(start, init) && (ByName(op) ==> VaultsNamed(Run(start, init).store.vaults, Strip(op.name)) != {})
  }

  /** The import is under way, and fills the vault of the last vault write. */
  ghost predicate Going(start: Progress, ops: seq<Op>) {
    var s := Run(start, ops);
    && s.error.None? && PlainValid(s.store)
    && (ops != [] ==>
          && CurrentVault(ops).Some? && s.vault in s.store.vaults
          && (if Linked(CurrentVault(ops).value) then s.store.vaults[s.vault].source == CurrentVault(ops).value
              else s.vault == VaultByName(start, ops)))
  }

  lemma OnlyVaultFrom(p: Plain, id: string)
    requires PlainValid(p) && id in p.vaults && Linked(p.vaults[id].source)
    ensures VaultsFrom(p.vaults, p.vaults[id].source) == {id}
    ensures Ordering.Pick(VaultsFrom(p.vaults, p.vaults[id].source)) == id
  {
    forall other | other in VaultsFrom(p.vaults, p.vaults[id].source) ensures other == id {
      assert Clashing(p.vaults[other].source, p.vaults[id].source);
    }
    assert VaultsFrom(p.vaults, p.vaults[id].source) == {id};
  }

  lemma OnlyItemFrom(p: Plain, id: string)
    requires PlainValid(p) && id in p.items && Linked(p.items[id].payload.source)
    ensures ItemsFrom(p.items, p.items[id].payload.source) == {id}
    ensures Ordering.Pick(ItemsFrom(p.items, p.items[id].payload.source)) == id
  {
    forall other | other in ItemsFrom(p.items, p.items[id].payload.source) ensures other == id {
      assert Clashing(p.items[other].payload.source, p.items[id].payload.source);
    }
    assert ItemsFrom(p.items, p.items[id].payload.source) == {id};
  }

  // One write on top of `ops`.

  lemma LastOf(ops: seq<Op>, op: Op)
    ensures (ops + [op])[..|ops|] == ops && (ops + [op])[|ops|] == op
  {
  }

  lemma {:induction false} ByNameBefore(start: Progress, ops: seq<Op>, op: Op)
    ensures VaultByName(start, ops + [op]) == if ByName(op) then Run(start, ops + [op]).vault else VaultByName(start, ops)
  {
    LastOf(ops, op);
  }

  /** The vault of a last item write is one of the vaults written. */
  lemma {:induction false} CurrentVaultListed(ops: seq<Op>)
    ensures CurrentVault(ops).Some? ==> exists i :: 0 <= i < |ops| && ops[i].PutVault? && ops[i].source == CurrentVault(ops).value
  {
    if ops != [] && !ops[|ops| - 1].PutVault? {
      var init := ops[..|ops| - 1];
      CurrentVaultListed(init);
      if CurrentVault(init).Some? {
        var i :| 0 <= i < |init| && init[i].PutVault? && init[i].source == CurrentVault(init).value;
        assert ops[i] == init[i];
      }
    }
  }

  lemma {:induction false} LastItemListed(ops: seq<Op>, source: Source)
    requires LastItem(ops, source).Some?
    ensures exists i :: 0 <= i < |ops| && ops[i].PutVault? && ops[i].source == LastItem(ops, source).value.vault
  {
    hide CurrentVault, StoredItem;
    var init := ops[..|ops| - 1];
    if LastItem(ops, source) == LastItem(init, source) {
      LastItemListed(init, source);
      var i :| 0 <= i < |init| && init[i].PutVault? && init[i].source == LastItem(init, source).value.vault;
      assert ops[i] == init[i];
    } else {
      CurrentVaultListed(ops);
    }
  }

  /** Before the one vault that goes by name, every item was written into a vault with a source. */
  lemma LinkedBefore(ops: seq<Op>, op: Op, source: Source)
    requires WellFormed(ops + [op]) && ByName(op) && LastItem(ops, source).Some?
    ensures Linked(LastItem(ops, source).value.vault)
  {
    hide LastItem, Linked;
    LastItemListed(ops, source);
    var i :| 0 <= i < |ops| && ops[i].PutVault? && ops[i].source == LastItem(ops, source).value.vault;
    var all := ops + [op];
    assert all[i] == ops[i] && all[|ops|] == op && all[i] in all && all[|ops|] in all;
  }

  lemma LinkedVaultExplained(p: Plain, ops: seq<Op>, op: Op, byName: string, q: Plain, id: string, after: Plain)
    requires PlainValid(q) && Explained(p, ops, byName, q) && op.PutVault? && Linked(op.source)
    requires after.vaults == q.vaults[id := StoredVault(op)] && after.items == q.items
    requires if id in q.vaults then q.vaults[id].source == op.source else VaultsFrom(q.vaults, op.source) == {}
    ensures Explained(p, ops + [op], byName, after)
  {
    hide PlainValid, Strip, Linked;
    LastOf(ops, op);
    forall other | other in after.vaults ensures VaultExplained(p, ops + [op], after, other) {
      if other != id {
        assert VaultExplained(p, ops, q, other);
        if q.vaults[other].source == op.source {
          assert other in VaultsFrom(q.vaults, op.source);
          OnlyVaultFrom(q, other);
          OnlyVaultFrom(q, id);
        }
      }
    }
    forall item | item in after.items ensures ItemExplained(p, ops + [op], byName, after, item) {
      assert ItemExplained(p, ops, byName, q, item);
    }
  }

  lemma NamedVaultExplained(p: Plain, ops: seq<Op>, op: Op, byName: string, byName': string, q: Plain, after: Plain)
    requires Explained(p, ops, byName, q) && ByName(op) && WellFormed(ops + [op]) && Grows(p, q)
    requires after.items == q.items && q.vaults.Keys <= after.vaults.Keys && forall id :: id in q.vaults ==> after.vaults[id] == q.vaults[id]
    requires forall id :: id in after.vaults && id !in q.vaults ==> after.vaults[id].source == op.source
    ensures Explained(p, ops + [op], byName', after)
  {
    hide Strip, Linked, WellFormed;
    LastOf(ops, op);
    forall id | id in after.vaults ensures VaultExplained(p, ops + [op], after, id) {
      if id in q.vaults { assert VaultExplained(p, ops, q, id); }
    }
    forall item | item in after.items ensures ItemExplained(p, ops + [op], byName', after, item) {
      assert ItemExplained(p, ops, byName, q, item);
      if LastItem(ops, q.items[item].payload.source).Some? { LinkedBefore(ops, op, q.items[item].payload.source); }
    }
  }

  lemma PutItemExplained(p: Plain, ops: seq<Op>, op: Op, byName: string, q: Plain, id: string, vault: string, after: Plain)
    requires PlainValid(q) && Explained(p, ops, byName, q) && op.PutItem? && Linked(op.payload.source)
    requires CurrentVault(ops).Some? && vault in q.vaults
    requires if Linked(CurrentVault(ops).value) then q.vaults[vault].source == CurrentVault(ops).value else vault == byName
    requires after.items == q.items[id := Item(vault, StoredItem(op))] && after.vaults == q.vaults
    requires if id in q.items then q.items[id].payload.source == op.payload.source else ItemsFrom(q.items, op.payload.source) == {}
    ensures Explained(p, ops + [op], byName, after)
  {
    hide PlainValid, Strip, Linked;
    LastOf(ops, op);
    forall other | other in after.vaults ensures VaultExplained(p, ops + [op], after, other) {
      assert VaultExplained(p, ops, q, other);
    }
    forall other | other in after.items ensures ItemExplained(p, ops + [op], byName, after, other) {
      if other != id {
        assert ItemExplained(p, ops, byName, q, other);
        if q.items[other].payload.source == op.payload.source {
          assert other in ItemsFrom(q.items, op.payload.source);
          OnlyItemFrom(q, other);
          OnlyItemFrom(q, id);
        }
      }
    }
  }

  /** What one successful write adds to what is known of the run. */
  ghost predicate StepKnown(p: Plain, start: Progress, ops: seq<Op>, op: Op) {
    var s, t := Run(start, ops), Run(start, ops + [op]);
    && Going(start, ops + [op]) && Explained(p, ops + [op], VaultByName(start, ops + [op]), t.store)
    && Present([op], t.store)
    && (Present([op], s.store) && (ByName(op) ==> VaultsNamed(s.store.vaults, Strip(op.name)) != {}) ==> SameIds(s.store, t.store))
  }

  lemma ItemStep(p: Plain, start: Progress, ops: seq<Op>, op: Op)
    requires Going(start, ops) && ops != [] && Explained(p, ops, VaultByName(start, ops), Run(start, ops).store) && WellFormed(ops + [op])
    requires op.PutItem? && Run(start, ops + [op]).error.None?
    ensures StepKnown(p, start, ops, op)
  {
    hide PlainValid, Strip, Linked, Explained, PlainPutItem, WellFormed, Run, FindVault, VaultByName;
    RunOne(start, ops, op);
    LastOf(ops, op);
    ByNameBefore(start, ops, op);
    var s, t := Run(start, ops), Run(start, ops + [op]);
    assert op in ops + [op] && Linked(op.payload.source) by { LastLinked(ops, op); }
    assert FindVault(s.store.vaults, s.vault) == Ok(s.vault) by { FindVaultExactly(s.store.vaults, s.vault); }
    PutItemOutcome(s.store, s.vault, op.payload);
    var id := PlainPutItem(s.store, s.vault, op.payload).1.value;
    PutItemExplained(p, ops, op, VaultByName(start, ops), s.store, id, s.vault, t.store);
    assert id in ItemsFrom(t.store.items, op.payload.source);
    assert Present([op], s.store) ==> op in [op];
  }

  lemma LastLinked(ops: seq<Op>, op: Op)
    requires WellFormed(ops + [op]) && op.PutItem?
    ensures Linked(op.payload.source)
  {
    hide Linked;
    assert (ops + [op])[|ops|] == op;
  }

  lemma LinkedVaultStep(p: Plain, start: Progress, ops: seq<Op>, op: Op)
    requires Going(start, ops) && Explained(p, ops, VaultByName(start, ops), Run(start, ops).store)
    requires op.PutVault? && Linked(op.source) && Run(start, ops + [op]).error.None?
    ensures StepKnown(p, start, ops, op)
  {
    hide PlainValid, Strip, Linked, Explained, PlainCreateVault, Run, VaultByName;
    RunOne(start, ops, op);
    LastOf(ops, op);
    ByNameBefore(start, ops, op);
    var s, t := Run(start, ops), Run(start, ops + [op]);
    CreateVaultOutcome(s.store, op.name, op.description, op.source);
    var id := t.vault;
    LinkedVaultExplained(p, ops, op, VaultByName(start, ops), s.store, id, t.store);
    assert id in VaultsFrom(t.store.vaults, op.source);
    assert Present([op], s.store) ==> op in [op];
  }

  lemma NamedVaultStep(p: Plain, start: Progress, ops: seq<Op>, op: Op)
    requires Going(start, ops) && Explained(p, ops, VaultByName(start, ops), Run(start, ops).store) && WellFormed(ops + [op])
    requires Grows(p, Run(start, ops).store) && ByName(op) && Run(start, ops + [op]).error.None?
    ensures StepKnown(p, start, ops, op)
  {
    hide PlainValid, Strip, Linked, Explained, PlainCreateVault, Run, VaultByName, WellFormed, Grows;
    RunOne(start, ops, op);
    LastOf(ops, op);
    ByNameBefore(start, ops, op);
    var s, t := Run(start, ops), Run(start, ops + [op]);
    CreateVaultOutcome(s.store, op.name, op.description, op.source);
    NamedVaultExplained(p, ops, op, VaultByName(start, ops), t.vault, s.store, t.store);
  }

  lemma NothingWritten(p: Plain, vault: string)
    requires PlainValid(p)
    ensures Going(Progress(p, vault, None), []) && Explained(p, [], "", p) && Present([], p) && SameIds(p, p)
  {
    hide PlainValid;
  }

  lemma PresentGrows(ops: seq<Op>, p: Plain, q: Plain)
    requires Present(ops, p) && Grows(p, q)
    ensures Present(ops, q)
  {
    hide Linked;
    forall op | op in ops && op.PutVault? && Linked(op.source) ensures VaultsFrom(q.vaults, op.source) != {} {
      var id :| id in VaultsFrom(p.vaults, op.source);
      assert id in VaultsFrom(q.vaults, op.source);
    }
    forall op | op in ops && op.PutItem? ensures ItemsFrom(q.items, op.payload.source) != {} {
      var id :| id in ItemsFrom(p.items, op.payload.source);
      assert id in ItemsFrom(q.items, op.payload.source);
    }
  }

  lemma PresentBoth(init: seq<Op>, op: Op, p: Plain)
    ensures Present(init + [op], p) <==> Present(init, p) && Present([op], p)
  {
    assert forall other :: other in init || other in [op] <==> other in init + [op];
  }

  lemma InitWellFormed(ops: seq<Op>)
    requires WellFormed(ops) && ops != []
    ensures var init, op := ops[..|ops| - 1], ops[|ops| - 1];
            WellFormed(init) && (init == [] ==> op.PutVault?) && ops == init + [op] && op in ops
  {
    hide ByName, Linked;
    var init, op := ops[..|ops| - 1], ops[|ops| - 1];
    assert op in ops && forall other :: other in init ==> other in ops;
    assert init != [] ==> init[0] == ops[0];
  }

  lemma SuccessBefore(start: Progress, ops: seq<Op>)
    requires ops != [] && Run(start, ops).error.None?
    ensures Run(start, ops[..|ops| - 1]).error.None?
  {
    hide PlainCreateVault, PlainPutItem;
  }

  /** After any writes without an error: every row holds the last write of its source, and every source written has a row. */
  lemma {:induction false} RunExplained(p: Plain, vault: string, ops: seq<Op>)
    requires PlainValid(p) && WellFormed(ops) && Run(Progress(p, vault, None), ops).error.None?
    ensures var start := Progress(p, vault, None);
            var q := Run(start, ops).store;
            && Going(start, ops) && Explained(p, ops, VaultByName(start, ops), q) && Present(ops, q)
            && (Present(ops, p) && FindsByName(start, ops) ==> SameIds(p, q))
  {
    hide PlainValid, Going, Run, Explained, Present, WellFormed, Grows, VaultsNamed, VaultByName, ByName, Strip, Linked;
    var start := Progress(p, vault, None);
    if ops == [] {
      assert Run(start, []) == start && VaultByName(start, []) == "" by { RunStart(start); }
      NothingWritten(p, vault);
    } else {
      InitWellFormed(ops);
      SuccessBefore(start, ops);
      var init, op := ops[..|ops| - 1], ops[|ops| - 1];
      RunExplained(p, vault, init);
      RunKeeps(start, init);
      RunKeeps(Run(start, init), [op]);
      RunOnce(start, init, op);
      assert StepKnown(p, start, init, op) by { OneStep(p, start, init, op); }
      PresentBoth(init, op, p);
      PresentBoth(init, op, Run(start, ops).store);
      PresentGrows(init, Run(start, init).store, Run(start, ops).store);
      if Present(ops, p) { PresentGrows([op], p, Run(start, init).store); }
    }
  }

  lemma RunStart(start: Progress)
    ensures Run(start, []) == start && VaultByName(start, []) == ""
  {
  }

  lemma RunOnce(start: Progress, init: seq<Op>, op: Op)
    ensures Run(Run(start, init), [op]) == Run(start, init + [op])
  {
    RunOne(start, init, op);
    assert [op][..0] == [];
  }

  lemma OneStep(p: Plain, start: Progress, init: seq<Op>, op: Op)
    requires Going(start, init) && Explained(p, init, VaultByName(start, init), Run(start, init).store) && Grows(p, Run(start, init).store)
    requires WellFormed(init + [op]) && (init == [] ==> op.PutVault?) && Run(start, init + [op]).error.None?
    ensures StepKnown(p, start, init, op)
  {
    hide Going, Run, Explained, WellFormed, Grows, VaultByName, Linked, StepKnown;
    if op.PutItem? {
      ItemStep(p, start, init, op);
    } else if Linked(op.source) {
      LinkedVaultStep(p, start, init, op);
    } else {
      NamedVaultStep(p, start, init, op);
    }
  }

  // ---------- where an import stops ----------

  /** The writes before the first one that fails: the ones that take effect. */
  function Applied(start: Progress, ops: seq<Op>): seq<Op> {
    if ops == [] || Run(start, ops).error.None? then ops else Applied(start, ops[..|ops| - 1])
  }

  /** A write that fails changes nothing. */
  lemma FailedStep(s: Progress, op: Op)
    requires Step(s, op).error.Some?
    ensures Step(s, op) == s.(error := Step(s, op).error)
  {
    hide Strip, Linked, VaultsFrom, ItemsFrom, VaultsNamed, FindVault, Clashing;
  }

  lemma {:induction false} AppliedRun(start: Progress, ops: seq<Op>)
    requires start.error.None?
    ensures var applied := Applied(start, ops);
            && Run(start, applied).error.None? && applied <= ops
            && Run(start, ops) == Run(start, applied).(error := Run(start, ops).error)
            && (Run(start, ops).error.Some? <==> applied != ops)
            && (applied != ops ==> Run(start, applied + [ops[|applied|]]).error == Run(start, ops).error)
  {
    hide Step;
    if ops != [] && Run(start, ops).error.Some? {
      var init, op := ops[..|ops| - 1], ops[|ops| - 1];
      AppliedRun(start, init);
      if Run(start, init).error.None? {
        FailedStep(Run(start, init), op);
        assert init + [op] == ops;
      } else {
        StoppedStays(Run(start, init), op);
      }
    }
  }

  lemma StoppedStays(s: Progress, op: Op)
    requires s.error.Some?
    ensures Step(s, op) == s
  {
  }

  lemma {:induction false} PrefixWellFormed(ops: seq<Op>, more: seq<Op>)
    requires WellFormed(more) && ops <= more
    ensures WellFormed(ops)
  {
    hide ByName, Linked;
    assert forall i :: 0 <= i < |ops| ==> ops[i] == more[i] && more[i] in more;
  }

  // ---------- the writes of an export ----------

  lemma {:induction false} ItemOpsFrom(vault: ExportVault, run: nat, v: nat, n: nat, op: Op)
    requires n <= |vault.items| && op in ItemOps(vault, run, v, n)
    ensures exists i: nat :: i < n && vault.items[i].state == ACTIVE && op == ItemOp(vault, run, v, i)
  {
    hide ItemOp;
    if op in ItemOps(vault, run, v, n - 1) {
      ItemOpsFrom(vault, run, v, n - 1, op);
    } else {
      assert vault.items[n - 1].state == ACTIVE && op == ItemOp(vault, run, v, n - 1);
    }
  }

  /** Active item `i` of vault `v`. */
  predicate IsActive(vaults: Export, v: nat, i: nat) {
    v < |vaults| && i < |vaults[v].items| && vaults[v].items[i].state == 1
  }

  /** Every write is the one of a vault or of an active item. */
  lemma {:induction false} OpsFrom(vaults: Export, run: nat, n: nat, op: Op)
    requires n <= |vaults| && op in Ops(vaults, run, n)
    ensures op.PutVault? ==> exists v: nat :: v < n && op == VaultOp(vaults[v])
    ensures op.PutItem? ==> exists v: nat, i: nat :: v < n && IsActive(vaults, v, i) && op == ItemOp(vaults[v], run, v, i)
  {
    hide ItemOp, VaultOp;
    var vault := vaults[n - 1];
    if op in Ops(vaults, run, n - 1) {
      OpsFrom(vaults, run, n - 1, op);
    } else if op in ItemOps(vault, run, n - 1, |vault.items|) {
      ItemOpsFrom(vault, run, n - 1, |vault.items|, op);
      var i: nat :| i < |vault.items| && vault.items[i].state == ACTIVE && op == ItemOp(vault, run, n - 1, i);
      assert IsActive(vaults, n - 1, i);
    } else {
      assert op == VaultOp(vault);
      VaultOpShape(vault);
    }
  }

  lemma VaultOpShape(vault: ExportVault)
    ensures VaultOp(vault).PutVault? && VaultOp(vault).source == ProtonSource(vault.id)
    ensures ByName(VaultOp(vault)) <==> vault.id == ""
  {
  }

  lemma {:induction false} ItemOpListed(vault: ExportVault, run: nat, v: nat, i: nat, n: nat)
    requires i < n <= |vault.items| && vault.items[i].state == ACTIVE
    ensures ItemOp(vault, run, v, i) in ItemOps(vault, run, v, n)
  {
    hide ItemOp;
    if i < n - 1 { ItemOpListed(vault, run, v, i, n - 1); }
  }

  lemma {:induction false} OpListed(vaults: Export, run: nat, v: nat, i: nat, n: nat)
    requires v < n <= |vaults| && IsActive(vaults, v, i)
    ensures ItemOp(vaults[v], run, v, i) in Ops(vaults, run, n)
  {
    hide ItemOp, VaultOp;
    if v < n - 1 {
      OpListed(vaults, run, v, i, n - 1);
    } else {
      ItemOpListed(vaults[v], run, v, i, |vaults[v].items|);
    }
  }

  lemma ItemOpLinked(vault: ExportVault, run: nat, v: nat, i: nat)
    requires i < |vault.items|
    ensures Linked(ItemOp(vault, run, v, i).payload.source)
    ensures ItemOp(vault, run, v, i).payload.source == ItemSource(vault.id, Uuid(vault.items[i], run, v, i))
  {
    hide Uuid, Fields, Urls;
  }

  lemma {:induction false} OpsWellFormed(vaults: Export, run: nat, n: nat)
    requires n <= |vaults|
    ensures WellFormed(Ops(vaults, run, n))
  {
    hide ItemOp, VaultOp, Linked, ByName;
    var ops := Ops(vaults, run, n);
    forall op | op in ops && op.PutItem? ensures Linked(op.payload.source) {
      OpsFrom(vaults, run, n, op);
      var v: nat, i: nat :| v < n && IsActive(vaults, v, i) && op == ItemOp(vaults[v], run, v, i);
      ItemOpLinked(vaults[v], run, v, i);
    }
    forall op | op in ops && op.PutVault? && ByName(op) ensures op.source == ProtonSource("") {
      OpsFrom(vaults, run, n, op);
      var v: nat :| v < n && op == VaultOp(vaults[v]);
      VaultOpShape(vaults[v]);
    }
    assert forall op :: op in ops && ByName(op) ==> op.PutVault? by { forall op | ByName(op) ensures op.PutVault? { IsVault(op); } }
    OnceEach(vaults, run, n);
    if n > 0 { FirstIsVault(vaults, run, n); }
  }

  lemma IsVault(op: Op)
    requires ByName(op)
    ensures op.PutVault?
  {
  }

  lemma {:induction false} FirstIsVault(vaults: Export, run: nat, n: nat)
    requires 0 < n <= |vaults|
    ensures Ops(vaults, run, n) != [] && Ops(vaults, run, n)[0].PutVault?
  {
    hide ItemOp;
    if n > 1 { FirstIsVault(vaults, run, n - 1); }
  }

  lemma {:induction false} OnceEach(vaults: Export, run: nat, n: nat)
    requires n <= |vaults|
    ensures EachOnce(Ops(vaults, run, n))
  {
    hide ItemOp, VaultOp;
    if n > 0 {
      OnceEach(vaults, run, n - 1);
      var before, items := Ops(vaults, run, n - 1), ItemOps(vaults[n - 1], run, n - 1, |vaults[n - 1].items|);
      var ops := Ops(vaults, run, n);
      assert ops == before + ([VaultOp(vaults[n - 1])] + items);
      VaultOpShape(vaults[n - 1]);
      forall i, j | 0 <= i < j < |ops| && ops[i].PutVault? && ops[j].PutVault? ensures ops[i].source != ops[j].source {
        if j < |before| {
          assert ops[i] == before[i] && ops[j] == before[j];
        } else if j == |before| {
          assert ops[i] == before[i] && ops[j] == VaultOp(vaults[n - 1]);
          OtherVault(vaults, run, n, ops[i]);
        } else {
          NoVaultAmongItems(vaults[n - 1], run, n - 1, ops[j], items, j - |before| - 1);
        }
      }
    }
  }

  lemma OtherVault(vaults: Export, run: nat, n: nat, op: Op)
    requires 0 < n <= |vaults| && op in Ops(vaults, run, n - 1) && op.PutVault?
    ensures op.source != VaultOp(vaults[n - 1]).source
  {
    hide ItemOp, VaultOp, Ops;
    OpsFrom(vaults, run, n - 1, op);
    var v: nat :| v < n - 1 && op == VaultOp(vaults[v]);
    VaultOpShape(vaults[v]);
    VaultOpShape(vaults[n - 1]);
    assert vaults[v].id != vaults[n - 1].id;
  }

  lemma NoVaultAmongItems(vault: ExportVault, run: nat, v: nat, op: Op, items: seq<Op>, k: nat)
    requires items == ItemOps(vault, run, v, |vault.items|) && k < |items| && items[k] == op
    ensures op.PutItem?
  {
    hide ItemOp, ItemOps;
    assert op in items;
    ItemOpsFrom(vault, run, v, |vault.items|, op);
  }

  // ---------- rows of their own ----------

  function SourceOf(vaults: Export, run: nat, v: nat, i: nat): Source
    requires IsActive(vaults, v, i)
  {
    ItemSource(vaults[v].id, Uuid(vaults[v].items[i], run, v, i))
  }

  /** The row of a source after an import: the only one. */
  function RowOf(q: Plain, source: Source): string
    requires ItemsFrom(q.items, source) != {}
  {
    Ordering.Pick(ItemsFrom(q.items, source))
  }

  lemma {:induction false} LastItemFrom(ops: seq<Op>, source: Source)
    requires LastItem(ops, source).Some?
    ensures exists op :: op in ops && op.PutItem? && op.payload.source == source && LastItem(ops, source).value.payload == StoredItem(op)
  {
    hide CurrentVault, StoredItem;
    var init, last := ops[..|ops| - 1], ops[|ops| - 1];
    if LastItem(ops, source) == LastItem(init, source) {
      LastItemFrom(init, source);
      var op :| op in init && op.PutItem? && op.payload.source == source && LastItem(init, source).value.payload == StoredItem(op);
      assert op in ops;
    } else {
      assert last in ops;
    }
  }

  lemma {:induction false} WrittenHasLast(ops: seq<Op>, op: Op)
    requires WellFormed(ops) && op in ops && op.PutItem?
    ensures LastItem(ops, op.payload.source).Some?
  {
    hide WellFormed, StoredItem;
    InitWellFormed(ops);
    CurrentFromStart(ops);
    var init := ops[..|ops| - 1];
    if op in init { WrittenHasLast(init, op); }
  }

  lemma {:induction false} CurrentFromStart(ops: seq<Op>)
    requires WellFormed(ops) && ops != []
    ensures CurrentVault(ops).Some?
  {
    hide WellFormed;
    InitWellFormed(ops);
    if |ops| > 1 { CurrentFromStart(ops[..|ops| - 1]); }
  }

  /** What a completed import left behind. */
  lemma Completed(p: Plain, vaults: Export, run: nat)
    requires PlainValid(p) && Import(p, vaults, run).error.None?
    ensures var q, ops, start := Import(p, vaults, run).store, Ops(vaults, run, |vaults|), Progress(p, "", None);
            && PlainValid(q) && WellFormed(ops) && Present(ops, q) && Explained(p, ops, VaultByName(start, ops), q)
  {
    hide PlainValid, Run, Ops, WellFormed, Explained, Present, SameIds, Going, VaultByName;
    OpsWellFormed(vaults, run, |vaults|);
    RunExplained(p, "", Ops(vaults, run, |vaults|));
    ImportDeletesNothing(p, vaults, run);
  }

  /**
   After a completed import every active item has a row, and two items share one exactly when
   "vault id : uuid" is the same text for both.
   */
  lemma SharedRows(p: Plain, vaults: Export, run: nat, v: nat, i: nat, v': nat, i': nat)
    requires PlainValid(p) && Import(p, vaults, run).error.None? && IsActive(vaults, v, i) && IsActive(vaults, v', i')
    ensures var q := Import(p, vaults, run).store;
            var source, source' := SourceOf(vaults, run, v, i), SourceOf(vaults, run, v', i');
            && ItemsFrom(q.items, source) != {} && ItemsFrom(q.items, source') != {}
            && RowOf(q, source) in q.items && q.items[RowOf(q, source)].payload.source == source
            && (RowOf(q, source) == RowOf(q, source') <==> source == source')
  {
    hide PlainValid, Run, Ops, WellFormed, Explained, Fields, Urls, Uuid, ItemOp, ItemSource;
    Completed(p, vaults, run);
    OpListed(vaults, run, v, i, |vaults|);
    OpListed(vaults, run, v', i', |vaults|);
    ItemOpLinked(vaults[v], run, v, i);
    ItemOpLinked(vaults[v'], run, v', i');
  }

  ghost predicate DistinctSources(vaults: Export, run: nat) {
    forall v: nat, i: nat, v': nat, i': nat ::
      IsActive(vaults, v, i) && IsActive(vaults, v', i') && (v, i) != (v', i') ==> SourceOf(vaults, run, v, i) != SourceOf(vaults, run, v', i')
  }

  /** Item `i` of vault `v` is stored, as it was exported. */
  ghost predicate StoredAs(q: Plain, vaults: Export, run: nat, v: nat, i: nat)
    requires IsActive(vaults, v, i)
  {
    var source := SourceOf(vaults, run, v, i);
    && ItemsFrom(q.items, source) != {} && RowOf(q, source) in q.items
    && q.items[RowOf(q, source)].payload == StoredItem(ItemOp(vaults[v], run, v, i))
  }

  lemma OwnPayload(p: Plain, vaults: Export, run: nat, v: nat, i: nat)
    requires PlainValid(p) && Import(p, vaults, run).error.None? && IsActive(vaults, v, i) && DistinctSources(vaults, run)
    ensures StoredAs(Import(p, vaults, run).store, vaults, run, v, i)
  {
    hide PlainValid, Run, Ops, WellFormed, Present, Fields, Urls, Uuid, ItemOp, ItemSource, StoredItem, LastItem;
    var q, ops, source := Import(p, vaults, run).store, Ops(vaults, run, |vaults|), SourceOf(vaults, run, v, i);
    Completed(p, vaults, run);
    SharedRows(p, vaults, run, v, i, v, i);
    OpListed(vaults, run, v, i, |vaults|);
    ItemOpLinked(vaults[v], run, v, i);
    WrittenHasLast(ops, ItemOp(vaults[v], run, v, i));
    LastItemFrom(ops, source);
    var op :| op in ops && op.PutItem? && op.payload.source == source && LastItem(ops, source).value.payload == StoredItem(op);
    OpsFrom(vaults, run, |vaults|, op);
    var v': nat, i': nat :| v' < |vaults| && IsActive(vaults, v', i') && op == ItemOp(vaults[v'], run, v', i');
    ItemOpLinked(vaults[v'], run, v', i');
    assert SourceOf(vaults, run, v', i') == source;
    assert ItemExplained(p, ops, VaultByName(Progress(p, "", None), ops), q, RowOf(q, source));
  }

  /** Every active item keeps a row of its own, which holds that item, exactly when the joined ids are distinct. */
  lemma OwnRowsExactly(p: Plain, vaults: Export, run: nat)
    requires PlainValid(p) && Import(p, vaults, run).error.None?
    ensures var q := Import(p, vaults, run).store;
            DistinctSources(vaults, run) <==>
              && (forall v: nat, i: nat :: IsActive(vaults, v, i) ==> StoredAs(q, vaults, run, v, i))
              && (forall v: nat, i: nat, v': nat, i': nat ::
                    IsActive(vaults, v, i) && IsActive(vaults, v', i') && (v, i) != (v', i') && ItemsFrom(q.items, SourceOf(vaults, run, v, i)) != {}
                    && ItemsFrom(q.items, SourceOf(vaults, run, v', i')) != {} ==>
                      RowOf(q, SourceOf(vaults, run, v, i)) != RowOf(q, SourceOf(vaults, run, v', i')))
  {
    hide PlainValid, Import, SourceOf, RowOf, StoredAs, IsActive;
    forall v: nat, i: nat, v': nat, i': nat | IsActive(vaults, v, i) && IsActive(vaults, v', i')
      ensures var q := Import(p, vaults, run).store;
              && ItemsFrom(q.items, SourceOf(vaults, run, v, i)) != {} && ItemsFrom(q.items, SourceOf(vaults, run, v', i')) != {}
              && (RowOf(q, SourceOf(vaults, run, v, i)) == RowOf(q, SourceOf(vaults, run, v', i'))
                  <==> SourceOf(vaults, run, v, i) == SourceOf(vaults, run, v', i'))
    {
      SharedRows(p, vaults, run, v, i, v', i');
    }
    if DistinctSources(vaults, run) {
      forall v: nat, i: nat | IsActive(vaults, v, i) ensures StoredAs(Import(p, vaults, run).store, vaults, run, v, i) {
        OwnPayload(p, vaults, run, v, i);
      }
    }
  }

  /** Two different vaults and uuids whose joined ids are the same: the ':' between them is not escaped. */
  lemma JoinedIdsCollide()
    ensures ItemSource("a", "b:c") == ItemSource("a:b", "c")
  {
    assert "a" + ":" + "b:c" == "a:b:c" == "a:b" + ":" + "c";
  }

  // ---------- leases ----------

  /** What a lease that was current is found to be, once its item has other fields. */
  function Recheck(fields: map<string, Value>, field: string, secret: Value): Verdict {
    if field !in fields then FieldGone else if fields[field] == secret then Current(secret) else NotCurrent
  }

  lemma JudgeBinds(rootKey: string, row: Row, q: Query, items: map<string, Item>, secret: Value)
    requires Judge(rootKey, row, q, items) == Current(secret)
    ensures row.itemId.Some? && row.itemId.value in items && QueryField(q).Some?
    ensures var fields := items[row.itemId.value].payload.fields;
            QueryField(q).value in fields && fields[QueryField(q).value] == secret
  {
    hide CredentialVersion, QueryField;
  }

  /** The credential version tells exactly whether the value of the bound field is still the same. */
  lemma JudgeRechecks(rootKey: string, row: Row, q: Query, before: map<string, Item>, after: map<string, Item>, secret: Value)
    requires Judge(rootKey, row, q, before) == Current(secret) && row.itemId.value in after
    ensures Judge(rootKey, row, q, after) == Recheck(after[row.itemId.value].payload.fields, QueryField(q).value, secret)
  {
    hide CredentialVersion, QueryField;
    var id, field := row.itemId.value, QueryField(q).value;
    var fields := after[id].payload.fields;
    if field in fields && row.payload.credentialVersion == Some(CredentialVersion(rootKey, id, field, fields[field])) {
      CredentialVersionInjective(rootKey, id, field, fields[field], id, field, secret);
    }
  }

  /**
   A lease that was current before an import is current after it exactly when the last export item
   written to its item, if there is one, still has the approved value in the bound field. This
   holds of every export and wherever the import stops.
   */
  lemma LeaseAfterImport(p: Plain, vaults: Export, run: nat, rootKey: string, row: Row, q: Query, secret: Value)
    requires PlainValid(p) && Judge(rootKey, row, q, p.items) == Current(secret)
    ensures var id := row.itemId.value;
            var items := Import(p, vaults, run).store.items;
            var applied := Applied(Progress(p, "", None), Ops(vaults, run, |vaults|));
            id in items && Judge(rootKey, row, q, items) ==
              match LastItem(applied, p.items[id].payload.source)
              case None => Current(secret)
              case Some(w) => Recheck(w.payload.fields, QueryField(q).value, secret)
  {
    hide PlainValid, Run, Ops, WellFormed, Going, Present, SameIds, LastItem, Judge, QueryField, VaultExplained, VaultByName, FindsByName, Applied;
    JudgeBinds(rootKey, row, q, p.items, secret);
    var start, ops := Progress(p, "", None), Ops(vaults, run, |vaults|);
    var applied := Applied(start, ops);
    OpsWellFormed(vaults, run, |vaults|);
    AppliedRun(start, ops);
    PrefixWellFormed(applied, ops);
    RunExplained(p, "", applied);
    ImportDeletesNothing(p, vaults, run);
    var id := row.itemId.value;
    assert ItemExplained(p, applied, VaultByName(start, applied), Import(p, vaults, run).store, id);
    JudgeRechecks(rootKey, row, q, p.items, Import(p, vaults, run).store.items, secret);
  }
}
