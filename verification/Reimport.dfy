/**
 Importing the same export again: exactly when it changes nothing.
 */
module Reimport {
  import opened Wrappers
  import opened Text
  import opened Json
  import opened Ordering
  import opened Store
  import opened StoreHistory
  import opened Outcomes
  import opened ProtonImport
  import opened ImportEffects

  // ---------- the vault that goes by name ----------

  /** The name of the vault without a key still finds a vault in `q`. */
  ghost predicate NameStays(q: Plain, ops: seq<Op>) {
    forall op :: op in ops && ByName(op) ==> VaultsNamed(q.vaults, Strip(op.name)) != {}
  }

  /** The last write of the item's source was into the vault without a key. */
  ghost predicate FilledByName(ops: seq<Op>, item: Item) {
    LastItem(ops, item.payload.source).Some? && !Linked(LastItem(ops, item.payload.source).value.vault)
  }

  /** The items last written into the vault without a key lie where its name leads in `q`. */
  ghost predicate FillStays(q: Plain, ops: seq<Op>) {
    forall op, id :: op in ops && ByName(op) && id in q.items && VaultsNamed(q.vaults, Strip(op.name)) != {} && FilledByName(ops, q.items[id]) ==>
                       q.items[id].vaultId == Pick(VaultsNamed(q.vaults, Strip(op.name)))
  }

  ghost predicate Settled(q: Plain, ops: seq<Op>) {
    NameStays(q, ops) && FillStays(q, ops)
  }

  lemma KeyedIsSettled(vaults: Export, run: nat, n: nat, q: Plain)
    requires n <= |vaults| && forall v :: 0 <= v < |vaults| ==> vaults[v].id != ""
    ensures forall ops :: ops <= Ops(vaults, run, n) ==> Settled(q, ops)
  {
    hide Ops, VaultOp, ItemOp, ByName;
    forall ops, op | ops <= Ops(vaults, run, n) && op in ops ensures !ByName(op) {
      assert op in Ops(vaults, run, n);
      OpsFrom(vaults, run, n, op);
      if op.PutVault? {
        var v: nat :| v < n && op == VaultOp(vaults[v]);
        VaultOpShape(vaults[v]);
      } else {
        ItemNotByName(op);
      }
    }
  }

  lemma ItemNotByName(op: Op)
    requires op.PutItem?
    ensures !ByName(op)
  {
  }

  // ---------- the second run, write by write ----------

  lemma {:induction false} SuccessPrefix(start: Progress, b: seq<Op>, a: seq<Op>)
    requires b <= a && Run(start, a).error.None?
    ensures Run(start, b).error.None?
    decreases |a|
  {
    hide Step;
    if b == a {
    } else {
      SuccessBefore(start, a);
      assert b <= a[..|a| - 1];
      SuccessPrefix(start, b, a[..|a| - 1]);
    }
  }

  lemma SucceededNamed(s: Progress, op: Op)
    requires s.error.None? && Step(s, op).error.None?
    ensures Strip(if op.PutVault? then op.name else op.payload.title) != ""
  {
    hide Strip, Linked, VaultsFrom, ItemsFrom, VaultsNamed, FindVault, Clashing;
  }

  lemma {:induction false} LastVaultFrom(ops: seq<Op>, source: Source)
    ensures LastVault(ops, source).Some? ==> exists op :: op in ops && op.PutVault? && op.source == source && LastVault(ops, source) == Some(StoredVault(op))
    ensures (exists op :: op in ops && op.PutVault? && op.source == source) ==> LastVault(ops, source).Some?
  {
    hide StoredVault;
    if ops != [] {
      var init, last := ops[..|ops| - 1], ops[|ops| - 1];
      LastVaultFrom(init, source);
      assert ops == init + [last] && last in ops;
    }
  }

  lemma LastVaultIs(ops: seq<Op>, op: Op)
    requires EachOnce(ops) && op in ops && op.PutVault?
    ensures LastVault(ops, op.source) == Some(StoredVault(op))
  {
    hide StoredVault, LastVault;
    LastVaultFrom(ops, op.source);
    var other :| other in ops && other.PutVault? && other.source == op.source && LastVault(ops, op.source) == Some(StoredVault(other));
    var i :| 0 <= i < |ops| && ops[i] == op;
    var j :| 0 <= j < |ops| && ops[j] == other;
    assert i == j;
  }

  lemma SecondItem(t: Progress, op: Op)
    requires t.error.None? && PlainValid(t.store) && t.vault in t.store.vaults
    requires op.PutItem? && Linked(op.payload.source) && Strip(op.payload.title) != ""
    ensures Step(t, op).error.None? && Step(t, op).store.vaults == t.store.vaults && Step(t, op).vault == t.vault
  {
    hide PlainValid, Strip, Linked, PlainPutItem, FindVault;
    FindVaultExactly(t.store.vaults, t.vault);
    assert NamesVault(t.store.vaults, t.vault, t.vault);
    PutItemOutcome(t.store, t.vault, op.payload);
  }

  lemma SecondLinked(t: Progress, op: Op)
    requires t.error.None? && PlainValid(t.store)
    requires op.PutVault? && Linked(op.source) && Strip(op.name) != ""
    requires VaultsFrom(t.store.vaults, op.source) != {}
    requires forall id :: id in t.store.vaults && t.store.vaults[id].source == op.source ==> t.store.vaults[id] == StoredVault(op)
    ensures Step(t, op).error.None? && Step(t, op).store.vaults == t.store.vaults
  {
    hide PlainValid, Strip, Linked, PlainCreateVault;
    CreateVaultOutcome(t.store, op.name, op.description, op.source);
    var r := PlainCreateVault(t.store, op.name, op.description, op.source).1;
    assert t.store.vaults[r.value := StoredVault(op)] == t.store.vaults;
  }

  lemma SecondNamed(t: Progress, op: Op)
    requires t.error.None? && ByName(op) && Strip(op.name) != "" && VaultsNamed(t.store.vaults, Strip(op.name)) != {}
    ensures Step(t, op) == t.(vault := Pick(VaultsNamed(t.store.vaults, Strip(op.name))))
  {
    hide Strip, VaultsNamed, Linked, VaultsFrom, Clashing;
  }

  /** Where the second run stands after the writes `b`: it has gone well, and every vault is as it was. */
  ghost predicate SecondKnown(q: Plain, vault: string, b: seq<Op>) {
    var start := Progress(q, vault, None);
    && Run(start, b).error.None? && Run(start, b).store.vaults == q.vaults && FindsByName(start, b)
    && forall op :: op in b && ByName(op) && VaultsNamed(q.vaults, Strip(op.name)) != {} ==> VaultByName(start, b) == Pick(VaultsNamed(q.vaults, Strip(op.name)))
  }

  /** What the first run left. */
  ghost predicate FirstKnown(a: seq<Op>, q: Plain) {
    && PlainValid(q) && WellFormed(a) && Present(a, q)
    && (forall op :: op in a ==> Strip(if op.PutVault? then op.name else op.payload.title) != "")
    && (forall id, op :: id in q.vaults && op in a && op.PutVault? && Linked(op.source) && q.vaults[id].source == op.source ==> q.vaults[id] == StoredVault(op))
  }

  lemma {:induction false} AllNamed(start: Progress, a: seq<Op>, op: Op)
    requires Run(start, a).error.None? && op in a
    ensures Strip(if op.PutVault? then op.name else op.payload.title) != ""
  {
    hide Step, Strip;
    SuccessBefore(start, a);
    var init, last := a[..|a| - 1], a[|a| - 1];
    if op in init { AllNamed(start, init, op); } else { SucceededNamed(Run(start, init), last); }
  }

  lemma FirstIsKnown(p: Plain, vault: string, a: seq<Op>)
    requires PlainValid(p) && WellFormed(a) && Run(Progress(p, vault, None), a).error.None?
    ensures FirstKnown(a, Run(Progress(p, vault, None), a).store)
  {
    hide PlainValid, WellFormed, Present, Run, Strip, Linked, LastVault, StoredVault, ItemExplained, VaultByName, FindsByName, SameIds;
    var start := Progress(p, vault, None);
    var q := Run(start, a).store;
    RunExplained(p, vault, a);
    RunKeeps(start, a);
    forall op | op in a ensures Strip(if op.PutVault? then op.name else op.payload.title) != "" { AllNamed(start, a, op); }
    forall id, op | id in q.vaults && op in a && op.PutVault? && Linked(op.source) && q.vaults[id].source == op.source ensures q.vaults[id] == StoredVault(op) {
      assert VaultExplained(p, a, q, id);
      assert EachOnce(a) by { OnceIn(a); }
      LastVaultIs(a, op);
    }
  }

  lemma OnceIn(a: seq<Op>)
    requires WellFormed(a)
    ensures EachOnce(a)
  {
  }

  lemma {:induction false} SecondRun(q: Plain, vault: string, a: seq<Op>, b: seq<Op>)
    requires FirstKnown(a, q) && b <= a && NameStays(q, b)
    ensures SecondKnown(q, vault, b)
    decreases |b|
  {
    hide FirstKnown, SecondKnown, NameStays, Run;
    if b == [] {
      SecondStart(q, vault);
    } else {
      var init, op := b[..|b| - 1], b[|b| - 1];
      assert b == init + [op];
      NameStaysInit(q, init, op);
      SecondRun(q, vault, a, init);
      SecondStep(q, vault, a, init, op);
    }
  }

  lemma NamedAreVaults(ops: seq<Op>)
    ensures forall op :: op in ops && ByName(op) ==> op.PutVault?
  {
  }

  lemma NameStaysInit(q: Plain, init: seq<Op>, op: Op)
    requires NameStays(q, init + [op])
    ensures NameStays(q, init)
  {
    hide ByName, VaultsNamed, Strip;
    assert forall other :: other in init ==> other in init + [op];
  }

  lemma SecondStart(q: Plain, vault: string)
    ensures SecondKnown(q, vault, [])
  {
  }

  lemma SecondStep(q: Plain, vault: string, a: seq<Op>, init: seq<Op>, op: Op)
    requires FirstKnown(a, q) && init + [op] <= a && NameStays(q, init + [op]) && SecondKnown(q, vault, init)
    ensures SecondKnown(q, vault, init + [op])
  {
    hide FirstKnown, SecondKnown, NameStays;
    SecondStepRuns(q, vault, a, init, op);
    SecondStepKnown(q, vault, a, init, op);
  }

  /** The next write of the second run goes well and leaves the vaults alone. */
  lemma SecondStepRuns(q: Plain, vault: string, a: seq<Op>, init: seq<Op>, op: Op)
    requires FirstKnown(a, q) && init + [op] <= a && NameStays(q, init + [op]) && SecondKnown(q, vault, init)
    ensures var t, t' := Run(Progress(q, vault, None), init), Run(Progress(q, vault, None), init + [op]);
            && t'.error.None? && t'.store.vaults == q.vaults
            && (ByName(op) ==> VaultsNamed(q.vaults, Strip(op.name)) != {} && t'.vault == Pick(VaultsNamed(q.vaults, Strip(op.name))))
  {
    hide PlainValid, WellFormed, Present, Run, Step, Strip, Linked, ByName, VaultsNamed, StoredVault, Explained, SameIds, FindsByName, VaultByName;
    var start := Progress(q, vault, None);
    var t := Run(start, init);
    InitOf(init, op, a);
    RunOne(start, init, op);
    RunExplained(q, vault, init);
    RunKeeps(start, init);
    if op.PutItem? {
      FillsAVault(start, init);
      LinkedItem(a, op);
      SecondItem(t, op);
      ItemNotByName(op);
    } else {
      VaultKinds(op);
      if Linked(op.source) {
        HasRow(a, q, op);
        SecondLinked(t, op);
      } else {
        assert op in init + [op];
        SecondNamed(t, op);
      }
    }
  }

  lemma VaultKinds(op: Op)
    requires op.PutVault?
    ensures ByName(op) <==> !Linked(op.source)
  {
  }

  lemma HasRow(a: seq<Op>, q: Plain, op: Op)
    requires Present(a, q) && op in a && op.PutVault? && Linked(op.source)
    ensures VaultsFrom(q.vaults, op.source) != {}
  {
    hide Linked;
  }

  lemma LinkedItem(a: seq<Op>, op: Op)
    requires WellFormed(a) && op in a && op.PutItem?
    ensures Linked(op.payload.source)
  {
    hide Linked, ByName;
  }

  lemma FillsAVault(start: Progress, init: seq<Op>)
    requires Going(start, init) && init != []
    ensures Run(start, init).vault in Run(start, init).store.vaults && PlainValid(Run(start, init).store)
  {
    hide Run, PlainValid, Linked;
  }

  lemma InitOf(init: seq<Op>, op: Op, a: seq<Op>)
    requires WellFormed(a) && init + [op] <= a
    ensures WellFormed(init) && op in a && (init == [] ==> op.PutVault?) && WellFormed(init + [op])
  {
    hide ByName, Linked, EachOnce;
    PrefixWellFormed(init, a);
    PrefixWellFormed(init + [op], a);
    assert (init + [op])[|init|] == op && a[|init|] == op;
  }

  lemma SecondStepKnown(q: Plain, vault: string, a: seq<Op>, init: seq<Op>, op: Op)
    requires FirstKnown(a, q) && init + [op] <= a && SecondKnown(q, vault, init)
    requires var t, t' := Run(Progress(q, vault, None), init), Run(Progress(q, vault, None), init + [op]);
             && t'.error.None? && t'.store.vaults == q.vaults
             && (ByName(op) ==> VaultsNamed(q.vaults, Strip(op.name)) != {} && t'.vault == Pick(VaultsNamed(q.vaults, Strip(op.name))))
    ensures SecondKnown(q, vault, init + [op])
  {
    hide PlainValid, WellFormed, Present, Run, Step, Strip, Linked, ByName, VaultsNamed, StoredVault, VaultByName;
    var start := Progress(q, vault, None);
    LastOf(init, op);
    ByNameBefore(start, init, op);
    InitOf(init, op, a);
    NamedAreVaults(init + [op]);
    forall other | other in init + [op] && other.PutVault? && ByName(other) && VaultsNamed(q.vaults, Strip(other.name)) != {}
      ensures VaultByName(start, init + [op]) == Pick(VaultsNamed(q.vaults, Strip(other.name)))
    {
      if ByName(op) { OnlyOneByName(init, op, other); } else { assert other in init; }
    }
  }

  lemma OnlyOneByName(init: seq<Op>, op: Op, other: Op)
    requires WellFormed(init + [op]) && ByName(op) && other in init + [op] && ByName(other)
    ensures other == op
  {
    hide Linked;
    var ops := init + [op];
    assert ops[|init|] == op && op in ops;
    var i :| 0 <= i < |ops| && ops[i] == other;
    assert i == |init|;
  }

  // ---------- both runs ----------

  lemma ExplainedTwice(p: Plain, ops: seq<Op>, x: string, q: Plain, y: string, r: Plain)
    requires WellFormed(ops) && PlainValid(q) && Grows(q, r) && SameIds(q, r) && r.vaults == q.vaults
    requires Explained(p, ops, x, q) && Explained(q, ops, y, r)
    requires forall id :: id in q.items && FilledByName(ops, q.items[id]) ==> q.items[id].vaultId == y
    ensures r == q
  {
    hide PlainValid, Linked, WellFormed, LastItem, LastVault, VaultExplained;
    forall id | id in r.items ensures r.items[id] == q.items[id] {
      assert ItemExplained(p, ops, x, q, id) && ItemExplained(q, ops, y, r, id);
      var last := LastItem(ops, q.items[id].payload.source);
      if last.Some? && Linked(last.value.vault) {
        OnlyVaultFrom(q, q.items[id].vaultId);
        OnlyVaultFrom(q, r.items[id].vaultId);
      }
    }
    assert r.items == q.items;
  }

  /** An item was last written into a vault by name only if there is one, and then lies where its name leads. */
  lemma FillsByName(q: Plain, vault: string, ops: seq<Op>, id: string)
    requires WellFormed(ops) && Settled(q, ops) && SecondKnown(q, vault, ops) && id in q.items
    requires FilledByName(ops, q.items[id])
    ensures q.items[id].vaultId == VaultByName(Progress(q, vault, None), ops)
  {
    hide Linked, LastItem, VaultsNamed, Strip, Run, VaultByName, FindsByName, WellFormed;
    LastItemListed(ops, q.items[id].payload.source);
    var i :| 0 <= i < |ops| && ops[i].PutVault? && ops[i].source == LastItem(ops, q.items[id].payload.source).value.vault;
    assert ops[i] in ops && ByName(ops[i]);
  }

  /** A settled import that went well changes nothing when it is repeated. */
  lemma RepeatsExactly(p: Plain, vault: string, vault': string, a: seq<Op>)
    requires PlainValid(p) && WellFormed(a) && Run(Progress(p, vault, None), a).error.None?
    requires Settled(Run(Progress(p, vault, None), a).store, a)
    ensures var q := Run(Progress(p, vault, None), a).store;
            var s := Run(Progress(q, vault', None), a);
            s.error.None? && s.store == q && Going(Progress(q, vault', None), a)
  {
    hide PlainValid, WellFormed, Present, Run, Linked, LastItem, Explained, Going, FirstKnown, FindsByName, VaultByName, Settled, SameIds;
    var start := Progress(p, vault, None);
    var q := Run(start, a).store;
    var start' := Progress(q, vault', None);
    FirstIsKnown(p, vault, a);
    SettledNames(q, a);
    SecondRun(q, vault', a, a);
    RunExplained(p, vault, a);
    RunKeeps(start, a);
    RunExplained(q, vault', a);
    RunKeeps(start', a);
    forall id | id in q.items && FilledByName(a, q.items[id])
      ensures q.items[id].vaultId == VaultByName(start', a)
    {
      FillsByName(q, vault', a, id);
    }
    ExplainedTwice(p, a, VaultByName(start, a), q, VaultByName(start', a), Run(start', a).store);
  }

  lemma SettledNames(q: Plain, a: seq<Op>)
    requires Settled(q, a)
    ensures NameStays(q, a)
  {
  }

  /** Where the first import failed the second one fails in the same way. */
  lemma FailsAlike(s: Progress, s': Progress, op: Op)
    requires s.error.None? && s'.error.None? && s'.store == s.store && PlainValid(s.store) && Step(s, op).error.Some?
    requires op.PutItem? ==> Linked(op.payload.source) && s.vault in s.store.vaults && s'.vault in s.store.vaults
    ensures Step(s', op).error == Step(s, op).error
  {
    hide PlainValid, Strip, Linked, PlainPutItem, PlainCreateVault, FindVault;
    if op.PutItem? {
      FindVaultExactly(s.store.vaults, s.vault);
      FindVaultExactly(s.store.vaults, s'.vault);
      assert NamesVault(s.store.vaults, s.vault, s.vault) && NamesVault(s.store.vaults, s'.vault, s'.vault);
      PutItemOutcome(s.store, s.vault, op.payload);
      PutItemOutcome(s.store, s'.vault, op.payload);
    }
  }

  lemma RunAgain(p: Plain, vault: string, vault': string, ops: seq<Op>)
    requires PlainValid(p) && WellFormed(ops)
    requires var start := Progress(p, vault, None); Settled(Run(start, ops).store, Applied(start, ops))
    ensures var once := Run(Progress(p, vault, None), ops);
            var twice := Run(Progress(once.store, vault', None), ops);
            twice.store == once.store && twice.error == once.error
  {
    hide PlainValid, WellFormed, Run, Settled, Applied, Step, Explained, Present, FindsByName, VaultByName, SameIds;
    var start := Progress(p, vault, None);
    var a := Applied(start, ops);
    AppliedRun(start, ops);
    PrefixWellFormed(a, ops);
    var q := Run(start, a).store;
    var start' := Progress(q, vault', None);
    RepeatsExactly(p, vault, vault', a);
    if a != ops {
      var op, rest := ops[|a|], ops[|a| + 1..];
      RunOne(start, a, op);
      RunOne(start', a, op);
      RunExplained(p, vault, a);
      FailsWhere(start, start', a, op, ops);
      FailsAlike(Run(start, a), Run(start', a), op);
      FailedStep(Run(start', a), op);
      RunStopped(start', a + [op], rest);
      assert ops == a + [op] + rest;
    }
  }

  lemma FailsWhere(start: Progress, start': Progress, a: seq<Op>, op: Op, ops: seq<Op>)
    requires WellFormed(ops) && a + [op] <= ops && Going(start, a) && Going(start', a) && Run(start', a).store == Run(start, a).store
    ensures PlainValid(Run(start, a).store)
    ensures op.PutItem? ==> Linked(op.payload.source) && Run(start, a).vault in Run(start, a).store.vaults && Run(start', a).vault in Run(start, a).store.vaults
  {
    hide PlainValid, Linked, Run, WellFormed;
    InitOf(a, op, ops);
    if op.PutItem? { LinkedItem(ops, op); }
  }

  // ---------- whole exports ----------

  predicate AllHaveUuid(vaults: Export) {
    forall v, i :: 0 <= v < |vaults| && 0 <= i < |vaults[v].items| && vaults[v].items[i].state == ACTIVE ==> HasUuid(vaults[v].items[i])
  }

  lemma {:induction false} SameItemOps(vault: ExportVault, run: nat, run': nat, v: nat, n: nat)
    requires n <= |vault.items| && forall i :: 0 <= i < n && vault.items[i].state == ACTIVE ==> HasUuid(vault.items[i])
    ensures ItemOps(vault, run, v, n) == ItemOps(vault, run', v, n)
  {
    hide Fields, Urls, RandomUuid;
    if n > 0 { SameItemOps(vault, run, run', v, n - 1); }
  }

  lemma {:induction false} SameOps(vaults: Export, run: nat, run': nat, n: nat)
    requires AllHaveUuid(vaults) && n <= |vaults|
    ensures Ops(vaults, run, n) == Ops(vaults, run', n)
  {
    if n > 0 {
      SameOps(vaults, run, run', n - 1);
      SameItemOps(vaults[n - 1], run, run', n - 1, |vaults[n - 1].items|);
    }
  }

  /** The vault without a key, if the export has one, is settled after the import. */
  ghost predicate ExportSettled(p: Plain, vaults: Export, run: nat) {
    Settled(Import(p, vaults, run).store, Applied(Progress(p, "", None), Ops(vaults, run, |vaults|)))
  }

  /**
   Importing the same export again leaves every vault and item as it was, and ends the same way,
   even if the import stops half-way. The item ids and payloads, hence every credential version,
   are the same. (An export all of whose vaults have a key is always settled: KeyedExportSettled.)
   */
  lemma ReimportChangesNothing(p: Plain, vaults: Export, run: nat, run': nat)
    requires PlainValid(p) && AllHaveUuid(vaults) && ExportSettled(p, vaults, run)
    ensures var once := Import(p, vaults, run);
            var twice := Import(once.store, vaults, run');
            twice.store == once.store && twice.error == once.error
  {
    hide PlainValid, Run, Ops, WellFormed, Settled, Applied;
    OpsWellFormed(vaults, run, |vaults|);
    SameOps(vaults, run, run', |vaults|);
    RunAgain(p, "", "", Ops(vaults, run, |vaults|));
  }

  /** An export whose vaults all have a key is settled after any import, completed or not. */
  lemma KeyedExportSettled(p: Plain, vaults: Export, run: nat)
    requires forall v :: 0 <= v < |vaults| ==> vaults[v].id != ""
    ensures ExportSettled(p, vaults, run) && Settled(Import(p, vaults, run).store, Ops(vaults, run, |vaults|))
  {
    hide Run, Settled, Applied, Ops;
    AppliedRun(Progress(p, "", None), Ops(vaults, run, |vaults|));
    KeyedIsSettled(vaults, run, |vaults|, Import(p, vaults, run).store);
  }

  /** No row has a uuid that the second run makes up. */
  ghost predicate MadeUpIsNew(q: Plain, vaults: Export, run: nat) {
    forall v: nat, i: nat :: v < |vaults| && i < |vaults[v].items| && !HasUuid(vaults[v].items[i]) ==>
      ItemsFrom(q.items, ItemSource(vaults[v].id, RandomUuid(run, v, i))) == {}
  }

  /** A second run that changes nothing finds the vault without a key settled. */
  lemma UnchangedIsSettled(p: Plain, vault: string, vault': string, ops: seq<Op>)
    requires PlainValid(p) && WellFormed(ops) && Run(Progress(p, vault, None), ops).error.None?
    requires var q := Run(Progress(p, vault, None), ops).store;
             Run(Progress(q, vault', None), ops).error.None? && Run(Progress(q, vault', None), ops).store == q
    ensures Settled(Run(Progress(p, vault, None), ops).store, ops)
  {
    hide PlainValid, WellFormed, Run, Linked, Explained, VaultByName, ByName, VaultsNamed, FirstKnown, Going, Present, SameIds, FindsByName, LastItem, Strip;
    var q := Run(Progress(p, vault, None), ops).store;
    var start' := Progress(q, vault', None);
    FirstIsKnown(p, vault, ops);
    RunKeeps(Progress(p, vault, None), ops);
    NamedAreVaults(ops);
    forall op | op in ops && op.PutVault? && ByName(op) ensures VaultsNamed(q.vaults, Strip(op.name)) != {} {
      NameIsFound(q, vault', ops, op);
    }
    SecondRun(q, vault', ops, ops);
    RunExplained(q, vault', ops);
    forall op, id | op in ops && op.PutVault? && ByName(op) && id in q.items && VaultsNamed(q.vaults, Strip(op.name)) != {} && FilledByName(ops, q.items[id])
      ensures q.items[id].vaultId == Pick(VaultsNamed(q.vaults, Strip(op.name)))
    {
      assert ItemExplained(q, ops, VaultByName(start', ops), q, id) by { ExplainedAt(q, ops, VaultByName(start', ops), q, id); }
    }
  }

  lemma ExplainedAt(p: Plain, ops: seq<Op>, byName: string, q: Plain, id: string)
    requires Explained(p, ops, byName, q) && id in q.items
    ensures ItemExplained(p, ops, byName, q, id)
  {
    hide ItemExplained, VaultExplained;
  }

  /** If the name were not found, the second run would make another vault. */
  lemma NameIsFound(q: Plain, vault: string, ops: seq<Op>, op: Op)
    requires FirstKnown(ops, q) && op in ops && ByName(op)
    requires Run(Progress(q, vault, None), ops).error.None? && Run(Progress(q, vault, None), ops).store == q
    ensures VaultsNamed(q.vaults, Strip(op.name)) != {}
  {
    hide PlainValid, Present, Run, Linked, VaultsNamed, StoredVault, SecondKnown, PlainCreateVault, FindsByName, VaultByName, Strip;
    var start := Progress(q, vault, None);
    var n :| 0 <= n < |ops| && ops[n] == op;
    var init := ops[..n];
    assert init + [op] <= ops && ops == init + [op] + ops[n + 1..];
    assert NameStays(q, init) by { NoneByName(init, op, ops); }
    SecondRun(q, vault, ops, init);
    SuccessPrefix(start, init + [op], ops);
    RunKeeps(start, init);
    RunOne(start, init, op);
    var t := Run(start, init);
    assert t.store.vaults == q.vaults && t.error.None? by { SecondVaults(q, vault, init); }
    CreateVaultOutcome(t.store, op.name, op.description, op.source);
    RunOn(start, init + [op], ops[n + 1..]);
    RunKeeps(t, [op]);
    RunKeeps(Run(start, init + [op]), ops[n + 1..]);
  }

  lemma SecondVaults(q: Plain, vault: string, b: seq<Op>)
    requires SecondKnown(q, vault, b)
    ensures Run(Progress(q, vault, None), b).store.vaults == q.vaults && Run(Progress(q, vault, None), b).error.None?
  {
  }

  lemma NoneByName(init: seq<Op>, op: Op, ops: seq<Op>)
    requires WellFormed(ops) && init + [op] <= ops && ByName(op)
    ensures forall other :: other in init ==> !ByName(other)
  {
    hide Linked, WellFormed;
    forall i | 0 <= i < |init| ensures !ByName(init[i]) { NotByName(ops, i, |init|); }
  }

  lemma NotByName(ops: seq<Op>, i: nat, j: nat)
    requires WellFormed(ops) && i < j < |ops| && ByName(ops[j])
    ensures !ByName(ops[i])
  {
    hide Linked;
    assert ops[i] in ops && ops[j] in ops;
  }

  lemma {:induction false} RunOn(start: Progress, ops: seq<Op>, more: seq<Op>)
    ensures Run(start, ops + more) == Run(Run(start, ops), more)
  {
    hide Step;
    if more == [] {
      assert ops + more == ops;
    } else {
      var init, op := more[..|more| - 1], more[|more| - 1];
      RunOn(start, ops, init);
      assert ops + more == (ops + init) + [op] && more == init + [op];
      RunOne(start, ops + init, op);
    }
  }

  /**
   After an import that went well, importing again changes nothing and goes well if and only if
   every active item has a uuid and the vault without a key, if there is one, is settled.
   */
  lemma ReimportIdempotentExactly(p: Plain, vaults: Export, run: nat, run': nat)
    requires PlainValid(p) && Import(p, vaults, run).error.None? && MadeUpIsNew(Import(p, vaults, run).store, vaults, run')
    ensures var once := Import(p, vaults, run);
            var twice := Import(once.store, vaults, run');
            twice.store == once.store && twice.error.None? <==> AllHaveUuid(vaults) && Settled(once.store, Ops(vaults, run, |vaults|))
  {
    hide PlainValid, Run, Ops, WellFormed, Settled, Explained, SameIds, Grows, ItemsFrom, RandomUuid, Fields, Urls, MadeUpIsNew;
    var once := Import(p, vaults, run);
    var ops, ops' := Ops(vaults, run, |vaults|), Ops(vaults, run', |vaults|);
    OpsWellFormed(vaults, run, |vaults|);
    ImportDeletesNothing(p, vaults, run);
    if AllHaveUuid(vaults) {
      SameOps(vaults, run, run', |vaults|);
      if Settled(once.store, ops) { RepeatsExactly(p, "", "", ops); }
      if Run(Progress(once.store, "", None), ops').store == once.store && Run(Progress(once.store, "", None), ops').error.None? {
        UnchangedIsSettled(p, "", "", ops);
      }
    } else if Run(Progress(once.store, "", None), ops').error.None? {
      AnonymousAdds(once.store, vaults, run');
    }
  }

  /** An active item without a uuid gets a new row in every run. */
  lemma AnonymousAdds(q: Plain, vaults: Export, run: nat)
    requires PlainValid(q) && !AllHaveUuid(vaults) && MadeUpIsNew(q, vaults, run) && Import(q, vaults, run).error.None?
    ensures Import(q, vaults, run).store != q
  {
    hide PlainValid, Run, Ops, WellFormed, Explained, ItemsFrom, RandomUuid, Fields, Urls, VaultByName;
    var v: nat, i: nat :| v < |vaults| && i < |vaults[v].items| && vaults[v].items[i].state == ACTIVE && !HasUuid(vaults[v].items[i]);
    Completed(q, vaults, run);
    OpListed(vaults, run, v, i, |vaults|);
    assert ItemOp(vaults[v], run, v, i).payload.source == ItemSource(vaults[v].id, RandomUuid(run, v, i));
  }

  // ---------- the smallest exports that are not idempotent ----------

  function Anonymous(): Export {
    [ExportVault("v", Some("Agents"), None,
                 [ExportItem(ACTIVE, Some("login"), Some("A"), None, None, None, None, map["password" := Str("p")], [], Null)])]
  }

  /** One active item without any uuid: the second import adds a second item. */
  lemma AnonymousItemDuplicates()
    ensures var once := Import(Plain(map[], map[], 0), Anonymous(), 0);
            Import(once.store, Anonymous(), 1).store != once.store
  {
    hide PlainValid, Explained, Run, Ops, Fields, Urls, WellFormed, Present, VaultByName;
    var none, vaults := Plain(map[], map[], 0), Anonymous();
    NothingStored();
    AnonymousOps(0);
    AnonymousGoes(none, 0);
    Completed(none, vaults, 0);
    var once := Import(none, vaults, 0).store;
    OnlyFirstUuid(none, Ops(vaults, 0, 1), VaultByName(Progress(none, "", None), Ops(vaults, 0, 1)), once);
    AnonymousGoes(once, 1);
    assert vaults[0].items[0].state == ACTIVE && !HasUuid(vaults[0].items[0]);
    AnonymousAdds(once, vaults, 1);
  }

  lemma NothingStored()
    ensures PlainValid(Plain(map[], map[], 0))
  {
  }

  lemma AnonymousOps(run: nat)
    ensures var ops := Ops(Anonymous(), run, 1);
            && ops == [PutVault("Agents", "", ProtonSource("v")), ItemOp(Anonymous()[0], run, 0, 0)] && ops[1].PutItem?
            && ops[1].payload.source == ItemSource("v", RandomUuid(run, 0, 0)) && Strip(ops[1].payload.title) != ""
    ensures Strip("Agents") != ""
  {
    hide RandomUuid, Fields, Urls, Strip, ItemSource;
    var vault := Anonymous()[0];
    assert ItemOps(vault, run, 0, 0) == [];
    assert ItemOps(vault, run, 0, 1) == [ItemOp(vault, run, 0, 0)];
    assert Ops(Anonymous(), run, 0) == [];
    StripPlain("Agents");
    StripPlain("A");
  }

  lemma AnonymousGoes(q: Plain, run: nat)
    requires PlainValid(q)
    ensures Import(q, Anonymous(), run).error.None?
  {
    hide PlainValid, Step, Fields, Urls, Strip, Ops, ItemOp;
    AnonymousOps(run);
    var ops := Ops(Anonymous(), run, 1);
    var start := Progress(q, "", None);
    RunNone(start);
    RunOne(start, [], ops[0]);
    RunOne(start, [ops[0]], ops[1]);
    assert ops == [ops[0]] + [ops[1]] && [] + [ops[0]] == [ops[0]];
    FirstGoes(start, ops[0]);
    ItemSourceLinked(RandomUuid(run, 0, 0));
    SecondItem(Step(start, ops[0]), ops[1]);
  }

  lemma RunNone(start: Progress)
    ensures Run(start, []) == start
  {
  }

  lemma ItemSourceLinked(uuid: string)
    ensures Linked(ItemSource("v", uuid))
  {
  }

  lemma FirstGoes(start: Progress, op: Op)
    requires start.error.None? && PlainValid(start.store) && op.PutVault? && Linked(op.source) && Strip(op.name) != ""
    ensures Step(start, op).error.None? && PlainValid(Step(start, op).store) && Step(start, op).vault in Step(start, op).store.vaults
  {
    hide PlainValid, PlainCreateVault, Strip, Linked;
    CreateVaultOutcome(start.store, op.name, op.description, op.source);
  }

  lemma UuidsDiffer()
    ensures ItemSource("v", RandomUuid(0, 0, 0)) != ItemSource("v", RandomUuid(1, 0, 0))
  {
    assert Digits(0) == "0" && Digits(1) == "1";
    assert RandomUuid(0, 0, 0)[6] == '0' && RandomUuid(1, 0, 0)[6] == '1';
    assert ItemSource("v", RandomUuid(0, 0, 0)).id.value[2..] == RandomUuid(0, 0, 0);
    assert ItemSource("v", RandomUuid(1, 0, 0)).id.value[2..] == RandomUuid(1, 0, 0);
  }

  lemma OneItemWritten(ops: seq<Op>, source: Source)
    requires |ops| == 2 && ops[0].PutVault? && ops[1].PutItem? && ops[1].payload.source != source
    ensures LastItem(ops, source).None?
  {
    assert LastItem(ops[..1], source).None?;
  }

  lemma OnlyFirstUuid(none: Plain, ops: seq<Op>, byName: string, q: Plain)
    requires none.items == map[] && Explained(none, ops, byName, q) && |ops| == 2 && ops[0].PutVault? && ops[1].PutItem?
    requires ops[1].payload.source == ItemSource("v", RandomUuid(0, 0, 0))
    ensures MadeUpIsNew(q, Anonymous(), 1)
  {
    hide ItemSource, RandomUuid, LastItem;
    var other := ItemSource("v", RandomUuid(1, 0, 0));
    UuidsDiffer();
    OneItemWritten(ops, other);
    forall id | id in q.items ensures q.items[id].payload.source != other {
      assert ItemExplained(none, ops, byName, q, id);
    }
    assert ItemsFrom(q.items, other) == {};
  }

  function Keyless(): Export {
    [ExportVault("", Some("A"), None, []), ExportVault("b", Some("B"), None, [])]
  }

  /** A vault "A" with the key "b", which the export calls "B". */
  function Renamed(): Plain {
    Plain(map[VaultId(0) := VaultPayload("A", "", ProtonSource("b"))], map[], 1)
  }

  /** Every item has a uuid (there is none), but the second import finds no vault "A" any more and makes one. */
  lemma KeylessVaultDuplicates()
    ensures PlainValid(Renamed()) && AllHaveUuid(Keyless())
    ensures var once := Import(Renamed(), Keyless(), 0);
            once.error.None? && Import(once.store, Keyless(), 1).store != once.store
  {
    hide Step, Strip, PlainValid, VaultId, Ops;
    assert PlainValid(Renamed()) by { RenamedValid(); }
    KeylessOps(0);
    KeylessOps(1);
    var first, second := PutVault("A", "", ProtonSource("")), PutVault("B", "", ProtonSource("b"));
    var start := Progress(Renamed(), "", None);
    StripPlain("A");
    StripPlain("B");
    RunTwo(start, first, second);
    FindsRenamed(start, first);
    RenamesVault(Step(start, first), second);
    var start' := Progress(Import(Renamed(), Keyless(), 0).store, "", None);
    RunTwo(start', first, second);
    NameGone(start', first);
    StepKeeps(Step(start', first), second);
  }

  lemma RenamedValid()
    ensures PlainValid(Renamed())
  {
    assert VaultId(0) == "vlt_0";
  }

  lemma KeylessOps(run: nat)
    ensures Ops(Keyless(), run, 2) == [PutVault("A", "", ProtonSource("")), PutVault("B", "", ProtonSource("b"))]
  {
    assert Ops(Keyless(), run, 0) == [] && Ops(Keyless(), run, 1) == [VaultOp(Keyless()[0])];
  }

  lemma RunTwo(start: Progress, first: Op, second: Op)
    ensures Run(start, [first, second]) == Step(Step(start, first), second)
  {
    hide Step;
    RunOne(start, [], first);
    RunOne(start, [first], second);
    assert [] + [first] == [first] && [first] + [second] == [first, second];
  }

  lemma FindsRenamed(start: Progress, op: Op)
    requires start.store == Renamed() && start.error.None? && op == PutVault("A", "", ProtonSource("")) && Strip("A") == "A"
    ensures Step(start, op) == Progress(Renamed(), VaultId(0), None)
  {
    hide VaultId, Strip, Clashing;
    assert VaultId(0) in VaultsNamed(Renamed().vaults, "A");
  }

  lemma RenamesVault(start: Progress, op: Op)
    requires start.store == Renamed() && start.error.None? && op == PutVault("B", "", ProtonSource("b")) && Strip("B") == "B"
    ensures Step(start, op) == Progress(Plain(map[VaultId(0) := VaultPayload("B", "", ProtonSource("b"))], map[], 1), VaultId(0), None)
    ensures PlainValid(Step(start, op).store)
  {
    hide VaultId, Strip, Clashing, PlainValid;
    assert VaultId(0) in VaultsFrom(Renamed().vaults, ProtonSource("b"));
    assert PlainValid(Renamed()) by { RenamedValid(); }
    CreateVaultOutcome(start.store, op.name, op.description, op.source);
  }

  lemma NameGone(start: Progress, op: Op)
    requires start.store.vaults == map[VaultId(0) := VaultPayload("B", "", ProtonSource("b"))] && start.error.None? && PlainValid(start.store)
    requires op == PutVault("A", "", ProtonSource("")) && Strip("A") == "A"
    ensures PlainValid(Step(start, op).store)
    ensures exists id :: id in Step(start, op).store.vaults && id !in start.store.vaults
  {
    hide VaultId, Strip, PlainValid;
    CreateVaultOutcome(start.store, op.name, op.description, op.source);
    NewVault(start.store, op.description, op.source);
  }

  lemma NewVault(p: Plain, description: string, source: Source)
    requires p.vaults == map[VaultId(0) := VaultPayload("B", "", ProtonSource("b"))] && PlainValid(p) && source == ProtonSource("") && Strip("A") == "A"
    ensures PlainCreateVault(p, "A", description, source).1.Ok?
    ensures VaultsNamed(p.vaults, "A") == {}
  {
    hide VaultId, Strip, PlainValid;
    assert !Linked(source);
  }
}
