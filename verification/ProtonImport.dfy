/**
 The one-way import of a Proton Pass export (passd/proton_import.py): the field mapping, and
 the upsert loop over every vault and item of the export.
 */
module ProtonImport {
  import opened Wrappers
  import opened Text
  import opened Json
  import opened Store

  const ACTIVE := 1

  // One entry of `extraFields`; an absent or null `data` has neither value.
  datatype Extra = Extra(fieldName: Option<string>, content: Option<Value>, totpUri: Option<Value>)

  datatype ExportItem = ExportItem(
    state: int, itemType: Option<string>, name: Option<string>, note: Option<string>,
    metaUuid: Option<string>, itemUuid: Option<string>, id: Option<string>,
    content: map<string, Value>, extras: seq<Extra>, raw: Value)

  datatype ExportVault = ExportVault(id: string, name: Option<string>, description: Option<string>, items: seq<ExportItem>)

  predicate DistinctKeys(vaults: seq<ExportVault>) {
    forall a, b :: 0 <= a < b < |vaults| ==> vaults[a].id != vaults[b].id
  }

  // The `vaults` dictionary, in the order in which the loop visits it.
  type Export = vaults: seq<ExportVault> | DistinctKeys(vaults)

  datatype Summary = Summary(imported: nat, skipped: nat, vaults: nat)

  // ---------- fields ----------

  const LOGIN := map["username" := "itemUsername", "email" := "itemEmail", "password" := "password", "totp" := "totpUri"]

  const CARD := map["cardholder_name" := "cardholderName", "number" := "number", "expiration_date" := "expirationDate",
                    "cvv" := "verificationNumber", "pin" := "pin"]

  function Renamed(content: map<string, Value>, names: map<string, string>): map<string, Value> {
    map k | k in names && names[k] in content && content[names[k]] != Null :: content[names[k]]
  }

  /** `not in (None, "", [], {})`: unlike a truth test, this keeps `false` and `0`. */
  predicate Worth(v: Value) {
    v != Null && v != Str("") && v != Arr([]) && v != Obj(map[])
  }

  function Kept(content: map<string, Value>): map<string, Value> {
    map k | k in content && Worth(content[k]) :: content[k]
  }

  function Mapped(item: ExportItem): map<string, Value> {
    if item.itemType == Some("login") then Renamed(item.content, LOGIN)
    else if item.itemType == Some("creditCard") then Renamed(item.content, CARD)
    else Kept(item.content)
  }

  function ExtraValue(e: Extra): Option<Value> {
    var content := if e.content == Some(Null) then None else e.content;
    var totp := if e.totpUri == Some(Null) then None else e.totpUri;
    if content.Some? then content else totp
  }

  function ExtraName(e: Extra): string {
    Or(e.fieldName, "field")
  }

  function Overlay(base: map<string, Value>, extras: seq<Extra>): map<string, Value> {
    if extras == [] then base
    else
      var last := extras[|extras| - 1];
      var before := Overlay(base, extras[..|extras| - 1]);
      if ExtraValue(last).Some? then before[ExtraName(last) := ExtraValue(last).value] else before
  }

  /** Extra `i` is the last one that has a value for its name. */
  predicate Decides(extras: seq<Extra>, i: nat, name: string) {
    && i < |extras| && ExtraValue(extras[i]).Some? && ExtraName(extras[i]) == name
    && forall j :: i < j < |extras| && ExtraName(extras[j]) == name ==> ExtraValue(extras[j]).None?
  }

  /** A field holds the value of the last extra of that name, or the mapped value if no extra has one. */
  lemma {:induction false} LastExtraWins(base: map<string, Value>, extras: seq<Extra>, name: string)
    ensures forall i: nat :: Decides(extras, i, name) ==> name in Overlay(base, extras) && Overlay(base, extras)[name] == ExtraValue(extras[i]).value
    ensures (forall i: nat :: !Decides(extras, i, name)) ==>
              (name in Overlay(base, extras) <==> name in base) && (name in base ==> Overlay(base, extras)[name] == base[name])
  {
    if extras != [] {
      var n := |extras| - 1;
      var init := extras[..n];
      LastExtraWins(base, init, name);
      if ExtraName(extras[n]) == name && ExtraValue(extras[n]).Some? {
        assert Decides(extras, n, name);
        assert forall i: nat :: Decides(extras, i, name) ==> i == n;
      } else {
        forall i: nat ensures Decides(extras, i, name) <==> Decides(init, i, name) {
          assert i < n ==> extras[i] == init[i];
          if Decides(init, i, name) {
            forall j | i < j < |extras| && ExtraName(extras[j]) == name ensures ExtraValue(extras[j]).None? {
              if j < n { assert init[j] == extras[j]; }
            }
          }
          if Decides(extras, i, name) {
            forall j | i < j < n && ExtraName(init[j]) == name ensures ExtraValue(init[j]).None? {
              assert init[j] == extras[j];
            }
          }
        }
      }
    }
  }

  function Fields(item: ExportItem): map<string, Value> {
    Overlay(Mapped(item), item.extras)
  }

  /** The field `key` is the entry `from` of the content, unless that is missing or null. */
  ghost predicate TakenFrom(fields: map<string, Value>, key: string, content: map<string, Value>, from: string) {
    && (key in fields <==> from in content && content[from] != Null)
    && (key in fields ==> fields[key] == content[from])
  }

  /** Which fields an item has before its extra fields, entry by entry. */
  ghost predicate MappedFrom(fields: map<string, Value>, itemType: Option<string>, content: map<string, Value>) {
    if itemType == Some("login") then
      && fields.Keys <= {"username", "email", "password", "totp"}
      && TakenFrom(fields, "username", content, "itemUsername") && TakenFrom(fields, "email", content, "itemEmail")
      && TakenFrom(fields, "password", content, "password") && TakenFrom(fields, "totp", content, "totpUri")
    else if itemType == Some("creditCard") then
      && fields.Keys <= {"cardholder_name", "number", "expiration_date", "cvv", "pin"}
      && TakenFrom(fields, "cardholder_name", content, "cardholderName") && TakenFrom(fields, "number", content, "number")
      && TakenFrom(fields, "expiration_date", content, "expirationDate") && TakenFrom(fields, "cvv", content, "verificationNumber")
      && TakenFrom(fields, "pin", content, "pin")
    else
      && (forall key :: key in fields <==> key in content && content[key] !in [Null, Str(""), Arr([]), Obj(map[])])
      && forall key :: key in fields ==> fields[key] == content[key]
  }

  lemma MappedExactly(item: ExportItem)
    ensures MappedFrom(Mapped(item), item.itemType, item.content)
  {
    if item.itemType == Some("login") {
      RenamedKey(item.content, LOGIN, "username");
      RenamedKey(item.content, LOGIN, "email");
      RenamedKey(item.content, LOGIN, "password");
      RenamedKey(item.content, LOGIN, "totp");
    } else if item.itemType == Some("creditCard") {
      RenamedKey(item.content, CARD, "cardholder_name");
      RenamedKey(item.content, CARD, "number");
      RenamedKey(item.content, CARD, "expiration_date");
      RenamedKey(item.content, CARD, "cvv");
      RenamedKey(item.content, CARD, "pin");
    }
  }

  lemma RenamedKey(content: map<string, Value>, names: map<string, string>, key: string)
    requires key in names
    ensures TakenFrom(Renamed(content, names), key, content, names[key])
  {
  }

  /** An extra field is named by its name or "field", and holds its content, else its one-time-password URI. */
  lemma ExtraExactly(e: Extra)
    ensures ExtraName(e) == if e.fieldName.Some? && e.fieldName.value != "" then e.fieldName.value else "field"
    ensures forall v :: v != Null && e.content == Some(v) ==> ExtraValue(e) == Some(v)
    ensures (e.content == None || e.content == Some(Null)) ==> forall v :: v != Null && e.totpUri == Some(v) ==> ExtraValue(e) == Some(v)
    ensures (e.content == None || e.content == Some(Null)) && (e.totpUri == None || e.totpUri == Some(Null)) ==> ExtraValue(e) == None
  {
  }

  /** The fields of an item: those of its type, and over them the last extra of each name that has a value. */
  ghost predicate FieldsFrom(fields: map<string, Value>, item: ExportItem) {
    exists base :: MappedFrom(base, item.itemType, item.content)
                   && (forall i: nat, name :: Decides(item.extras, i, name) ==> name in fields && ExtraValue(item.extras[i]) == Some(fields[name]))
                   && forall name :: (forall i: nat :: !Decides(item.extras, i, name)) ==>
                        (name in fields <==> name in base) && (name in base ==> fields[name] == base[name])
  }

  lemma FieldsExactly(item: ExportItem)
    ensures FieldsFrom(Fields(item), item)
  {
    hide MappedFrom, Mapped, Overlay;
    MappedExactly(item);
    forall name ensures
      && (forall i: nat :: Decides(item.extras, i, name) ==> name in Fields(item) && Fields(item)[name] == ExtraValue(item.extras[i]).value)
      && ((forall i: nat :: !Decides(item.extras, i, name)) ==>
           (name in Fields(item) <==> name in Mapped(item)) && (name in Mapped(item) ==> Fields(item)[name] == Mapped(item)[name]))
    {
      LastExtraWins(Mapped(item), item.extras, name);
    }
  }

  method MapFields(item: ExportItem) returns (fields: map<string, Value>)
    ensures fields == Fields(item) && FieldsFrom(fields, item)
  {
    hide FieldsFrom, Mapped;
    FieldsExactly(item);
    fields := Mapped(item);
    for i := 0 to |item.extras|
      invariant fields == Overlay(Mapped(item), item.extras[..i])
    {
      var extra := item.extras[i];
      assert item.extras[..i + 1][..i] == item.extras[..i];
      var value := ExtraValue(extra);
      if value.Some? {
        fields := fields[ExtraName(extra) := value.value];
      }
    }
    assert item.extras[..|item.extras|] == item.extras;
  }

  // ---------- what is written ----------

  datatype Op =
    | PutVault(name: string, description: string, source: Source)
    | PutItem(payload: ItemPayload)

  function ProtonSource(id: string): Source {
    Source(Some("proton"), Some(id))
  }

  /** `uuid4()` for item `i` of vault `v` in one run of the importer. */
  function RandomUuid(run: nat, v: nat, i: nat): string {
    "uuid4-" + Digits(run) + "-" + Digits(v) + "-" + Digits(i)
  }

  predicate HasUuid(item: ExportItem) {
    Or(item.metaUuid, Or(item.itemUuid, Or(item.id, ""))) != ""
  }

  function Uuid(item: ExportItem, run: nat, v: nat, i: nat): string {
    var own := Or(item.metaUuid, Or(item.itemUuid, Or(item.id, "")));
    if own == "" then RandomUuid(run, v, i) else own
  }

  function Urls(item: ExportItem): Value {
    if "urls" in item.content && Truthy(item.content["urls"]) then item.content["urls"] else Arr([])
  }

  function ItemSource(vaultId: string, uuid: string): Source {
    ProtonSource(vaultId + ":" + uuid)
  }

  function Payload(vaultId: string, item: ExportItem, uuid: string, fields: map<string, Value>): ItemPayload {
    ItemPayload(Or(item.itemType, "custom"), Or(item.name, "Untitled"), fields, Urls(item), Or(item.note, ""),
                ItemSource(vaultId, uuid), item.raw)
  }

  function VaultOp(vault: ExportVault): Op {
    PutVault(Or(vault.name, "Imported"), Or(vault.description, ""), ProtonSource(vault.id))
  }

  function ItemOp(vault: ExportVault, run: nat, v: nat, i: nat): (op: Op)
    requires i < |vault.items|
    ensures op.PutItem?
  {
    PutItem(Payload(vault.id, vault.items[i], Uuid(vault.items[i], run, v, i), Fields(vault.items[i])))
  }

  /** The writes for the first `n` items of a vault: one for each active item. */
  function ItemOps(vault: ExportVault, run: nat, v: nat, n: nat): seq<Op>
    requires n <= |vault.items|
  {
    if n == 0 then []
    else ItemOps(vault, run, v, n - 1) + if vault.items[n - 1].state == ACTIVE then [ItemOp(vault, run, v, n - 1)] else []
  }

  /** The writes for the first `n` vaults. */
  function Ops(vaults: Export, run: nat, n: nat): seq<Op>
    requires n <= |vaults|
  {
    if n == 0 then []
    else Ops(vaults, run, n - 1) + ([VaultOp(vaults[n - 1])] + ItemOps(vaults[n - 1], run, n - 1, |vaults[n - 1].items|))
  }

  /** What is written for a vault and for an item of the export, entry by entry. */
  lemma WrittenExactly(vaults: Export, run: nat, v: nat, i: nat)
    requires v < |vaults| && i < |vaults[v].items|
    ensures var vault, op := vaults[v], VaultOp(vaults[v]);
            && op.PutVault? && op.name == (if vault.name.Some? && vault.name.value != "" then vault.name.value else "Imported")
            && op.description == (if vault.description.Some? then vault.description.value else "") && op.source == Source(Some("proton"), Some(vault.id))
    ensures var vault, item, payload := vaults[v], vaults[v].items[i], ItemOp(vaults[v], run, v, i).payload;
            && payload.title == (if item.name.Some? && item.name.value != "" then item.name.value else "Untitled")
            && payload.itemType == (if item.itemType.Some? && item.itemType.value != "" then item.itemType.value else "custom")
            && payload.note == (if item.note.Some? then item.note.value else "") && payload.raw == item.raw && FieldsFrom(payload.fields, item)
            && ("urls" in item.content && Truthy(item.content["urls"]) ==> payload.urls == item.content["urls"])
            && (!("urls" in item.content && Truthy(item.content["urls"])) ==> payload.urls == Arr([]))
            && exists uuid :: payload.source == Source(Some("proton"), Some(vault.id + ":" + uuid)) && OwnUuid(item, uuid)
  {
    hide FieldsFrom, Fields, RandomUuid;
    FieldsExactly(vaults[v].items[i]);
    assert OwnUuid(vaults[v].items[i], Uuid(vaults[v].items[i], run, v, i));
  }

  predicate IsGiven(text: Option<string>) {
    text.Some? && text.value != ""
  }

  /** The first of the three uuids that is there; any uuid if none is. */
  predicate OwnUuid(item: ExportItem, uuid: string) {
    if IsGiven(item.metaUuid) then uuid == item.metaUuid.value
    else if IsGiven(item.itemUuid) then uuid == item.itemUuid.value
    else IsGiven(item.id) ==> uuid == item.id.value
  }

  // The store, the id of the vault being filled, and the error that stopped the import.
  datatype Progress = Progress(store: Plain, vault: string, error: Option<Error>)

  function Step(s: Progress, op: Op): Progress {
    if s.error.Some? then s
    else
      match op
      case PutVault(name, description, source) =>
        var (after, r) := PlainCreateVault(s.store, name, description, source);
        if r.Ok? then Progress(after, r.value, None) else Progress(after, s.vault, Some(r.error))
      case PutItem(payload) =>
        var (after, r) := PlainPutItem(s.store, s.vault, payload);
        Progress(after, s.vault, if r.Ok? then None else Some(r.error))
  }

  function Run(s: Progress, ops: seq<Op>): Progress {
    if ops == [] then s else Step(Run(s, ops[..|ops| - 1]), ops[|ops| - 1])
  }

  lemma RunOne(s: Progress, ops: seq<Op>, op: Op)
    ensures Run(s, ops + [op]) == Step(Run(s, ops), op)
  {
    assert (ops + [op])[..|ops|] == ops;
  }

  /** An error ends the import: later writes do not happen. */
  lemma {:induction false} RunStopped(s: Progress, ops: seq<Op>, more: seq<Op>)
    requires Run(s, ops).error.Some?
    ensures Run(s, ops + more) == Run(s, ops)
  {
    if more == [] {
      assert ops + more == ops;
    } else {
      var n := |more| - 1;
      assert (ops + more)[..|ops| + n] == ops + more[..n];
      RunStopped(s, ops, more[..n]);
    }
  }

  function Import(store: Plain, vaults: Export, run: nat): Progress {
    Run(Progress(store, "", None), Ops(vaults, run, |vaults|))
  }

  function ActiveItems(items: seq<ExportItem>, n: nat): (k: nat)
    requires n <= |items|
    ensures k <= n
  {
    if n == 0 then 0 else ActiveItems(items, n - 1) + if items[n - 1].state == ACTIVE then 1 else 0
  }

  function Totals(vaults: Export, n: nat): Summary
    requires n <= |vaults|
  {
    if n == 0 then Summary(0, 0, |vaults|)
    else
      var before, items := Totals(vaults, n - 1), vaults[n - 1].items;
      var active := ActiveItems(items, |items|);
      before.(imported := before.imported + active, skipped := before.skipped + |items| - active)
  }

  // ---------- what is counted ----------

  function ItemWrites(ops: seq<Op>): (k: nat)
    ensures k <= |ops|
  {
    if ops == [] then 0 else ItemWrites(ops[..|ops| - 1]) + if ops[|ops| - 1].PutItem? then 1 else 0
  }

  function AllItems(vaults: Export, n: nat): nat
    requires n <= |vaults|
  {
    if n == 0 then 0 else AllItems(vaults, n - 1) + |vaults[n - 1].items|
  }

  lemma {:induction false} ItemWritesConcat(a: seq<Op>, b: seq<Op>)
    ensures ItemWrites(a + b) == ItemWrites(a) + ItemWrites(b)
  {
    if b == [] {
      assert a + b == a;
    } else {
      var n := |b| - 1;
      assert (a + b)[..|a| + n] == a + b[..n];
      ItemWritesConcat(a, b[..n]);
    }
  }

  lemma WritesOfOne(op: Op)
    ensures ItemWrites([]) == 0 && ItemWrites([op]) == if op.PutItem? then 1 else 0
  {
    assert [op][..0] == [];
  }

  lemma {:induction false} ItemsCounted(vault: ExportVault, run: nat, v: nat, n: nat)
    requires n <= |vault.items|
    ensures ActiveItems(vault.items, n) == ItemWrites(ItemOps(vault, run, v, n))
  {
    hide ItemOp, ItemWrites;
    if n == 0 {
      WritesOfOne(VaultOp(vault));
    } else {
      ItemsCounted(vault, run, v, n - 1);
      var op := ItemOp(vault, run, v, n - 1);
      var more := if vault.items[n - 1].state == ACTIVE then [op] else [];
      WritesOfOne(op);
      ItemWritesConcat(ItemOps(vault, run, v, n - 1), more);
    }
  }

  /** As many items are reported imported as are written, the others as skipped, and all vaults are counted. */
  lemma {:induction false} TotalsExactly(vaults: Export, run: nat, n: nat)
    requires n <= |vaults|
    ensures var totals := Totals(vaults, n);
            && totals.imported == ItemWrites(Ops(vaults, run, n)) && totals.imported + totals.skipped == AllItems(vaults, n)
            && totals.vaults == |vaults|
  {
    hide VaultOp, ItemOps, ItemWrites, ActiveItems;
    if n == 0 {
      WritesOfOne(PutVault("", "", ProtonSource("")));
    } else {
      TotalsExactly(vaults, run, n - 1);
      var items := ItemOps(vaults[n - 1], run, n - 1, |vaults[n - 1].items|);
      ItemsCounted(vaults[n - 1], run, n - 1, |vaults[n - 1].items|);
      ItemWritesConcat(Ops(vaults, run, n - 1), [VaultOp(vaults[n - 1])] + items);
      ItemWritesConcat([VaultOp(vaults[n - 1])], items);
      VaultIsNoItem(vaults[n - 1]);
    }
  }

  lemma VaultIsNoItem(vault: ExportVault)
    ensures ItemWrites([VaultOp(vault)]) == 0
  {
    WritesOfOne(VaultOp(vault));
  }

  // ---------- the loop ----------

  method ImportItem(store: VaultStore, vault: ExportVault, localId: string, run: nat, v: nat, i: nat) returns (r: Result<string>)
    requires store.Valid() && i < |vault.items|
    modifies store
    ensures store.Valid()
    ensures (store.Contents(), r) == PlainPutItem(old(store.Contents()), localId, ItemOp(vault, run, v, i).payload)
  {
    var item := vault.items[i];
    var fields := MapFields(item);
    r := store.PutItem(localId, Payload(vault.id, item, Uuid(item, run, v, i), fields));
  }

  lemma {:induction false} ItemOpsPrefix(vault: ExportVault, run: nat, v: nat, i: nat, n: nat)
    requires i <= n <= |vault.items|
    ensures ItemOps(vault, run, v, i) <= ItemOps(vault, run, v, n)
  {
    if i < n { ItemOpsPrefix(vault, run, v, i, n - 1); }
  }

  lemma {:induction false} OpsPrefix(vaults: Export, run: nat, v: nat, n: nat)
    requires v <= n <= |vaults|
    ensures Ops(vaults, run, v) <= Ops(vaults, run, n)
  {
    if v < n { OpsPrefix(vaults, run, v, n - 1); }
  }

  /** What has been written when item `i` of vault `v` is reached. */
  function Reached(vaults: Export, run: nat, v: nat, i: nat): seq<Op>
    requires v < |vaults| && i <= |vaults[v].items|
  {
    Ops(vaults, run, v) + ([VaultOp(vaults[v])] + ItemOps(vaults[v], run, v, i))
  }

  lemma ReachedStops(start: Progress, vaults: Export, run: nat, v: nat, i: nat)
    requires v < |vaults| && i <= |vaults[v].items|
    requires Run(start, Reached(vaults, run, v, i)).error.Some?
    ensures Run(start, Ops(vaults, run, |vaults|)) == Run(start, Reached(vaults, run, v, i))
  {
    hide VaultOp, Run;
    var reached, all := Reached(vaults, run, v, i), Ops(vaults, run, |vaults|);
    ItemOpsPrefix(vaults[v], run, v, i, |vaults[v].items|);
    assert reached <= Ops(vaults, run, v + 1);
    OpsPrefix(vaults, run, v + 1, |vaults|);
    assert all == reached + all[|reached|..];
    RunStopped(start, reached, all[|reached|..]);
  }

  lemma ReachItem(start: Progress, vaults: Export, run: nat, v: nat, i: nat)
    requires v < |vaults| && i < |vaults[v].items|
    ensures Run(start, Reached(vaults, run, v, i + 1)) ==
              if vaults[v].items[i].state == ACTIVE then Step(Run(start, Reached(vaults, run, v, i)), ItemOp(vaults[v], run, v, i))
              else Run(start, Reached(vaults, run, v, i))
  {
    hide VaultOp, Run, Step, ItemOp;
    var reached := Reached(vaults, run, v, i);
    if vaults[v].items[i].state == ACTIVE {
      assert Reached(vaults, run, v, i + 1) == reached + [ItemOp(vaults[v], run, v, i)];
      RunOne(start, reached, ItemOp(vaults[v], run, v, i));
    } else {
      assert Reached(vaults, run, v, i + 1) == reached;
    }
  }

  lemma ReachVault(start: Progress, vaults: Export, run: nat, v: nat)
    requires v < |vaults|
    ensures Run(start, Reached(vaults, run, v, 0)) == Step(Run(start, Ops(vaults, run, v)), VaultOp(vaults[v]))
    ensures Reached(vaults, run, v, |vaults[v].items|) == Ops(vaults, run, v + 1)
  {
    hide VaultOp, Run, Step;
    assert Reached(vaults, run, v, 0) == Ops(vaults, run, v) + [VaultOp(vaults[v])];
    RunOne(start, Ops(vaults, run, v), VaultOp(vaults[v]));
  }

  method ImportExport(store: VaultStore, vaults: Export, run: nat) returns (r: Result<Summary>)
    requires store.Valid()
    modifies store
    ensures store.Valid()
    ensures var after := Import(old(store.Contents()), vaults, run);
            store.Contents() == after.store && r == if after.error.Some? then Err(after.error.value) else Ok(Totals(vaults, |vaults|))
  {
    hide PlainCreateVault, PlainPutItem, ItemOp, Run, Ops, Reached, Urls, Fields, Uuid, View, PlainValid, KeysOwned, KeptOrRekeyed, Openable;
    ghost var start := Progress(store.Contents(), "", None);
    RunNothing(start, vaults, run);
    var imported, skipped, localId := 0, 0, "";
    for v := 0 to |vaults|
      invariant store.Valid()
      invariant Run(start, Ops(vaults, run, v)) == Progress(store.Contents(), localId, None)
      invariant Totals(vaults, v) == Summary(imported, skipped, |vaults|)
    {
      var vault := vaults[v];
      var created := store.CreateVault(Or(vault.name, "Imported"), Or(vault.description, ""), ProtonSource(vault.id));
      ReachVault(start, vaults, run, v);
      if created.Err? {
        ReachedStops(start, vaults, run, v, 0);
        return Err(created.error);
      }
      localId := created.value;
      ghost var before := Totals(vaults, v);
      for i := 0 to |vault.items|
        invariant store.Valid()
        invariant Run(start, Reached(vaults, run, v, i)) == Progress(store.Contents(), localId, None)
        invariant imported == before.imported + ActiveItems(vault.items, i)
        invariant skipped == before.skipped + i - ActiveItems(vault.items, i)
      {
        ReachItem(start, vaults, run, v, i);
        if vault.items[i].state != ACTIVE {
          skipped := skipped + 1;
          continue;
        }
        var put := ImportItem(store, vault, localId, run, v, i);
        if put.Err? {
          ReachedStops(start, vaults, run, v, i + 1);
          return Err(put.error);
        }
        imported := imported + 1;
      }
    }
    return Ok(Summary(imported, skipped, |vaults|));
  }

  lemma RunNothing(start: Progress, vaults: Export, run: nat)
    ensures Run(start, Ops(vaults, run, 0)) == start
  {
  }
}
