/**
 The encrypted vault and item tables (passd/service.py: `create_vault`, `put_item`,
 `_item_payload`, `find_vault`, `find_item`), and the plain map that they refine.

 Random ids and keys are drawn from a counter, so that no value is drawn twice.
 */
module Store {
  import opened Wrappers
  import opened Text
  import opened Json
  import opened Crypto
  import opened Ordering

  datatype Source = Source(kind: Option<string>, id: Option<string>)

  datatype VaultPayload = VaultPayload(name: string, description: string, source: Source)

  datatype ItemPayload = ItemPayload(
    itemType: string, title: string, fields: map<string, Value>, urls: Value, note: string,
    source: Source, raw: Value)

  // ---------- the plain store ----------

  datatype Item = Item(vaultId: string, payload: ItemPayload)

  datatype Plain = Plain(vaults: map<string, VaultPayload>, items: map<string, Item>, draws: nat)

  function VaultId(draw: nat): string { "vlt_" + Digits(draw) }

  function ItemId(draw: nat): string { "itm_" + Digits(draw) }

  /** Both halves are present and non-empty: only then is an existing row looked up. */
  predicate Linked(source: Source) {
    source.kind.Some? && source.kind.value != "" && source.id.Some? && source.id.value != ""
  }

  function VaultsFrom(vaults: map<string, VaultPayload>, source: Source): set<string> {
    set id | id in vaults && vaults[id].source == source
  }

  function ItemsFrom(items: map<string, Item>, source: Source): set<string> {
    set id | id in items && items[id].payload.source == source
  }

  function VaultsNamed(vaults: map<string, VaultPayload>, name: string): set<string> {
    set id | id in vaults && vaults[id].name == name
  }

  /** UNIQUE(source_kind, source_id): a NULL in either column never clashes. */
  predicate Clashing(source: Source, other: Source) {
    source == other && source.kind.Some? && source.id.Some?
  }

  function PlainCreateVault(p: Plain, name: string, description: string, source: Source): (Plain, Result<string>) {
    var payload := VaultPayload(Strip(name), description, source);
    if payload.name == "" then (p, Err(ValidationError))
    else if Linked(source) && VaultsFrom(p.vaults, source) != {} then
      var id := Pick(VaultsFrom(p.vaults, source));
      (SetVault(p, id, payload), Ok(id))
    else if !Linked(source) && VaultsNamed(p.vaults, payload.name) != {} then
      (p, Ok(Pick(VaultsNamed(p.vaults, payload.name))))
    else if exists id :: id in p.vaults && Clashing(source, p.vaults[id].source) then (p, Err(Internal))
    else (AddVault(p, payload), Ok(VaultId(p.draws)))
  }

  function FindVault(vaults: map<string, VaultPayload>, ref: string): (r: Result<string>)
    ensures r.Ok? ==> r.value in vaults
  {
    if ref in vaults then Ok(ref)
    else
      var matches := VaultsNamed(vaults, ref);
      if matches == {} then Err(NotFound)
      else if |matches| > 1 then Err(Conflict)
      else Ok(Pick(matches))
  }

  function FindItem(p: Plain, vaultRef: string, itemRef: string): (r: Result<string>)
    ensures r.Ok? ==> r.value in p.items
  {
    var vault := FindVault(p.vaults, vaultRef);
    if vault.Err? then Err(vault.error)
    else if itemRef in p.items && p.items[itemRef].vaultId == vault.value then Ok(itemRef)
    else
      var matches := set id | id in p.items && p.items[id].vaultId == vault.value && p.items[id].payload.title == itemRef;
      if matches == {} then Err(NotFound)
      else if |matches| > 1 then Err(Conflict)
      else Ok(Pick(matches))
  }

  function PlainPutItem(p: Plain, vaultRef: string, payload: ItemPayload): (Plain, Result<string>) {
    var vault := FindVault(p.vaults, vaultRef);
    if vault.Err? then (p, Err(vault.error))
    else
      var stored := payload.(title := Strip(payload.title));
      if stored.title == "" then (p, Err(ValidationError))
      else if Linked(stored.source) && ItemsFrom(p.items, stored.source) != {} then
        var id := Pick(ItemsFrom(p.items, stored.source));
        (SetItem(p, id, Item(vault.value, stored)), Ok(id))
      else if exists id :: id in p.items && Clashing(stored.source, p.items[id].payload.source) then (p, Err(Internal))
      else (AddItem(p, Item(vault.value, stored)), Ok(ItemId(p.draws)))
  }

  predicate VaultDrawn(id: string, draws: nat) {
    exists k :: 0 <= k < draws && id == VaultId(k)
  }

  predicate ItemDrawn(id: string, draws: nat) {
    exists k :: 0 <= k < draws && id == ItemId(k)
  }

  ghost predicate VaultsValid(vaults: map<string, VaultPayload>, draws: nat) {
    && (forall id :: id in vaults ==> VaultDrawn(id, draws))
    && (forall a, b :: a in vaults && b in vaults && Clashing(vaults[a].source, vaults[b].source) ==> a == b)
  }

  ghost predicate ItemsValid(items: map<string, Item>, vaults: map<string, VaultPayload>, draws: nat) {
    && (forall id :: id in items ==> ItemDrawn(id, draws) && items[id].vaultId in vaults)
    && (forall a, b :: a in items && b in items && Clashing(items[a].payload.source, items[b].payload.source) ==> a == b)
  }

  /** What every operation keeps: ids were drawn, items are in vaults, sources are unique. */
  ghost predicate PlainValid(p: Plain) {
    VaultsValid(p.vaults, p.draws) && ItemsValid(p.items, p.vaults, p.draws)
  }

  lemma DrawFresh(p: Plain)
    requires PlainValid(p)
    ensures VaultId(p.draws) !in p.vaults && ItemId(p.draws) !in p.items
  {
    forall k: nat | VaultId(k) == VaultId(p.draws) || ItemId(k) == ItemId(p.draws) ensures k == p.draws {
      assert VaultId(k)[4..] == Digits(k) && VaultId(p.draws)[4..] == Digits(p.draws);
      assert ItemId(k)[4..] == Digits(k) && ItemId(p.draws)[4..] == Digits(p.draws);
      ReadDigits(k);
      ReadDigits(p.draws);
    }
  }

  function SetVault(p: Plain, id: string, payload: VaultPayload): Plain {
    p.(vaults := p.vaults[id := payload])
  }

  function AddVault(p: Plain, payload: VaultPayload): Plain {
    p.(vaults := p.vaults[VaultId(p.draws) := payload], draws := p.draws + 1)
  }

  function SetItem(p: Plain, id: string, item: Item): Plain {
    p.(items := p.items[id := item])
  }

  function AddItem(p: Plain, item: Item): Plain {
    p.(items := p.items[ItemId(p.draws) := item], draws := p.draws + 1)
  }

  lemma DrawMore(p: Plain)
    requires PlainValid(p)
    ensures PlainValid(p.(draws := p.draws + 1))
    ensures VaultDrawn(VaultId(p.draws), p.draws + 1) && ItemDrawn(ItemId(p.draws), p.draws + 1)
  {
    forall id | id in p.vaults ensures VaultDrawn(id, p.draws + 1) {
      var k :| 0 <= k < p.draws && id == VaultId(k);
    }
    forall id | id in p.items ensures ItemDrawn(id, p.draws + 1) {
      var k :| 0 <= k < p.draws && id == ItemId(k);
    }
  }

  lemma SetVaultValid(p: Plain, id: string, payload: VaultPayload)
    requires PlainValid(p) && id in p.vaults && payload.source == p.vaults[id].source
    ensures PlainValid(SetVault(p, id, payload))
  {
  }

  lemma AddVaultValid(p: Plain, payload: VaultPayload)
    requires PlainValid(p) && forall id :: id in p.vaults ==> !Clashing(payload.source, p.vaults[id].source)
    ensures PlainValid(AddVault(p, payload)) && VaultId(p.draws) !in p.vaults
  {
    DrawFresh(p);
    DrawMore(p);
  }

  lemma SetItemValid(p: Plain, id: string, item: Item)
    requires PlainValid(p) && id in p.items && item.payload.source == p.items[id].payload.source && item.vaultId in p.vaults
    ensures PlainValid(SetItem(p, id, item))
  {
  }

  lemma ItemsInsert(items: map<string, Item>, vaults: map<string, VaultPayload>, draws: nat, id: string, item: Item)
    requires ItemsValid(items, vaults, draws) && ItemDrawn(id, draws) && item.vaultId in vaults
    requires forall other :: other in items && other != id ==> !Clashing(item.payload.source, items[other].payload.source)
    ensures ItemsValid(items[id := item], vaults, draws)
  {
    var after := items[id := item];
    forall a, b | a in after && b in after && Clashing(after[a].payload.source, after[b].payload.source) ensures a == b {
      if a != id && b != id { assert a in items && b in items; }
    }
  }

  lemma AddItemValid(p: Plain, item: Item)
    requires PlainValid(p) && item.vaultId in p.vaults
    requires forall id :: id in p.items ==> !Clashing(item.payload.source, p.items[id].payload.source)
    ensures PlainValid(AddItem(p, item)) && ItemId(p.draws) !in p.items
  {
    DrawFresh(p);
    DrawMore(p);
    ItemsInsert(p.items, p.vaults, p.draws + 1, ItemId(p.draws), item);
  }

  // ---------- what a reference names ----------

  predicate Called(vaults: map<string, VaultPayload>, name: string, id: string) {
    id in vaults && vaults[id].name == name
  }

  /** The vault of this id, or the only vault of this name. */
  ghost predicate NamesVault(vaults: map<string, VaultPayload>, ref: string, id: string) {
    && id in vaults
    && (id == ref
        || (ref !in vaults && Called(vaults, ref, id) && forall other :: Called(vaults, ref, other) ==> other == id))
  }

  predicate InVault(p: Plain, vaultId: string, id: string) {
    id in p.items && p.items[id].vaultId == vaultId
  }

  predicate TitledIn(p: Plain, vaultId: string, title: string, id: string) {
    InVault(p, vaultId, id) && p.items[id].payload.title == title
  }

  /** The item of this id in the vault, or the only item of this title in the vault. */
  ghost predicate NamesItem(p: Plain, vaultId: string, ref: string, id: string) {
    && InVault(p, vaultId, id)
    && (id == ref
        || (!InVault(p, vaultId, ref) && TitledIn(p, vaultId, ref, id) && forall other :: TitledIn(p, vaultId, ref, other) ==> other == id))
  }

  predicate Ambiguous(vaults: map<string, VaultPayload>, name: string) {
    exists a, b :: a in vaults && b in vaults && a != b && Called(vaults, name, a) && Called(vaults, name, b)
  }

  predicate AmbiguousIn(p: Plain, vaultId: string, title: string) {
    exists a, b :: a in p.items && b in p.items && a != b && TitledIn(p, vaultId, title, a) && TitledIn(p, vaultId, title, b)
  }

  lemma OnlyMember(ids: set<string>, id: string)
    requires id in ids
    ensures |ids| == 1 <==> forall other :: other in ids ==> other == id
    ensures |ids| > 1 <==> exists other :: other in ids && other != id
  {
    var rest := ids - {id};
    assert |ids| == |rest| + 1;
    if rest != {} {
      var other :| other in rest;
      assert other in ids && other != id;
    } else {
      assert forall other :: other in ids ==> other == id || other in rest;
    }
  }

  /** A lookup finds a vault exactly if the reference names one; no name and an ambiguous name are told apart. */
  lemma FindVaultExactly(vaults: map<string, VaultPayload>, ref: string)
    ensures forall id :: FindVault(vaults, ref) == Ok(id) <==> NamesVault(vaults, ref, id)
    ensures FindVault(vaults, ref) == Err(NotFound) <==> ref !in vaults && forall id :: !Called(vaults, ref, id)
    ensures FindVault(vaults, ref) == Err(Conflict) <==>
              ref !in vaults && Ambiguous(vaults, ref)
    ensures FindVault(vaults, ref).Err? ==> FindVault(vaults, ref).error in {NotFound, Conflict}
  {
    var named := VaultsNamed(vaults, ref);
    assert forall id :: id in named <==> Called(vaults, ref, id);
    if ref !in vaults && named != {} {
      var id := Pick(named);
      OnlyMember(named, id);
      if |named| > 1 {
        var other :| other in named && other != id;
        assert Called(vaults, ref, other) && Called(vaults, ref, id);
      }
    }
  }

  /** The same for an item, within the vault that the first part names. */
  lemma FindItemExactly(p: Plain, vaultRef: string, itemRef: string)
    ensures FindVault(p.vaults, vaultRef).Err? ==> FindItem(p, vaultRef, itemRef) == Err(FindVault(p.vaults, vaultRef).error)
    ensures forall vaultId :: FindVault(p.vaults, vaultRef) == Ok(vaultId) ==>
              && (forall id :: FindItem(p, vaultRef, itemRef) == Ok(id) <==> NamesItem(p, vaultId, itemRef, id))
              && (FindItem(p, vaultRef, itemRef) == Err(NotFound) <==>
                    !InVault(p, vaultId, itemRef) && forall id :: !TitledIn(p, vaultId, itemRef, id))
              && (FindItem(p, vaultRef, itemRef) == Err(Conflict) <==>
                    !InVault(p, vaultId, itemRef) && AmbiguousIn(p, vaultId, itemRef))
              && (FindItem(p, vaultRef, itemRef).Err? ==> FindItem(p, vaultRef, itemRef).error in {NotFound, Conflict})
  {
    hide FindVault;
    var vault := FindVault(p.vaults, vaultRef);
    if vault.Ok? && !InVault(p, vault.value, itemRef) {
      var titled := set id | id in p.items && p.items[id].vaultId == vault.value && p.items[id].payload.title == itemRef;
      assert forall id :: id in titled <==> TitledIn(p, vault.value, itemRef, id);
      if titled != {} {
        var id := Pick(titled);
        OnlyMember(titled, id);
        if |titled| > 1 {
          var other :| other in titled && other != id;
          assert TitledIn(p, vault.value, itemRef, other) && TitledIn(p, vault.value, itemRef, id);
        }
      }
    }
  }

  lemma ItemsNamed(p: Plain, vaultRef: string, itemRef: string)
    ensures forall vaultId, id :: NamesItem(p, vaultId, itemRef, id) ==> id in p.items && p.items[id].vaultId == vaultId
  {
  }

  // ---------- the encrypted tables ----------

  datatype Doc = VaultDoc(vault: VaultPayload) | ItemDoc(item: ItemPayload)

  datatype VaultRow = VaultRow(wrappedKey: Sealed<Doc>, payload: Sealed<Doc>, source: Source)

  datatype ItemRow = ItemRow(vaultId: string, wrappedKey: Sealed<Doc>, payload: Sealed<Doc>, source: Source)

  function VaultKeyAad(id: string): string { "passd/vault/" + id + "/key" }

  function VaultPayloadAad(id: string): string { "passd/vault/" + id + "/payload" }

  function ItemKeyAad(id: string): string { "passd/item/" + id + "/key" }

  function ItemPayloadAad(id: string): string { "passd/item/" + id + "/payload" }

  function OpenKey(key: Key, sealed: Sealed<Doc>, aad: string): Result<Key> {
    var plain := Open(key, sealed, aad);
    if plain.Ok? && plain.value.KeyMaterial? then Ok(plain.value.key) else Err(Internal)
  }

  function OpenVaultKey(id: string, row: VaultRow): Result<Key> {
    OpenKey(RootKey, row.wrappedKey, VaultKeyAad(id))
  }

  function OpenVault(id: string, row: VaultRow): Result<VaultPayload> {
    var key := OpenVaultKey(id, row);
    if key.Err? then Err(key.error)
    else
      var plain := Open(key.value, row.payload, VaultPayloadAad(id));
      if plain.Ok? && plain.value.Document? && plain.value.document.VaultDoc? then Ok(plain.value.document.vault)
      else Err(Internal)
  }

  function OpenItemKey(id: string, row: ItemRow, vaultKey: Key): Result<Key> {
    OpenKey(vaultKey, row.wrappedKey, ItemKeyAad(id))
  }

  /** Opening a row through the vault it names. */
  function OpenItem(vaults: map<string, VaultRow>, id: string, row: ItemRow): Result<ItemPayload> {
    if row.vaultId !in vaults then Err(NotFound)
    else
      var vaultKey := OpenVaultKey(row.vaultId, vaults[row.vaultId]);
      if vaultKey.Err? then Err(vaultKey.error)
      else
        var itemKey := OpenItemKey(id, row, vaultKey.value);
        if itemKey.Err? then Err(itemKey.error)
        else
          var plain := Open(itemKey.value, row.payload, ItemPayloadAad(id));
          if plain.Ok? && plain.value.Document? && plain.value.document.ItemDoc? then Ok(plain.value.document.item)
          else Err(Internal)
  }

  /** Every row opens through its current vault, and its plaintext columns repeat the sealed source. */
  ghost predicate Openable(vaults: map<string, VaultRow>, items: map<string, ItemRow>) {
    && (forall id :: id in vaults ==> OpenVault(id, vaults[id]).Ok? && OpenVault(id, vaults[id]).value.source == vaults[id].source)
    && (forall id :: id in items ==> OpenItem(vaults, id, items[id]).Ok? && OpenItem(vaults, id, items[id]).value.source == items[id].source)
  }

  ghost function View(vaults: map<string, VaultRow>, items: map<string, ItemRow>, draws: nat): (p: Plain)
    requires Openable(vaults, items)
    ensures p.vaults.Keys == vaults.Keys && p.items.Keys == items.Keys && p.draws == draws
  {
    Plain(map id | id in vaults :: OpenVault(id, vaults[id]).value,
          map id | id in items :: Item(items[id].vaultId, OpenItem(vaults, id, items[id]).value),
          draws)
  }

  // ---------- keys ----------

  /** The key that a wrapped key holds. */
  function SealedKey(sealed: Sealed<Doc>): Option<Key> {
    if sealed.plaintext.KeyMaterial? then Some(sealed.plaintext.key) else None
  }

  /** A random key among the first `drawn`. */
  predicate Drawn(key: Option<Key>, drawn: nat) {
    key.Some? && key.value.RandomKey? && key.value.draw < drawn
  }

  /** Every vault and every item has a key of its own, which was drawn. */
  ghost predicate KeysOwned(vaults: map<string, VaultRow>, items: map<string, ItemRow>, drawn: nat) {
    && (forall id :: id in vaults ==> Drawn(SealedKey(vaults[id].wrappedKey), drawn))
    && (forall id :: id in items ==> Drawn(SealedKey(items[id].wrappedKey), drawn))
    && (forall a, b :: a in vaults && b in vaults && SealedKey(vaults[a].wrappedKey) == SealedKey(vaults[b].wrappedKey) ==> a == b)
    && (forall a, b :: a in items && b in items && SealedKey(items[a].wrappedKey) == SealedKey(items[b].wrappedKey) ==> a == b)
    && (forall a, b :: a in vaults && b in items ==> SealedKey(vaults[a].wrappedKey) != SealedKey(items[b].wrappedKey))
  }

  /** An item that stays in its vault keeps its wrapped key; one that moves gets a key drawn only then. */
  predicate KeptOrRekeyed(before: ItemRow, after: ItemRow, drawn: nat, drawn': nat) {
    if after.vaultId == before.vaultId then after.wrappedKey == before.wrappedKey
    else Drawn(SealedKey(after.wrappedKey), drawn') && !Drawn(SealedKey(after.wrappedKey), drawn)
  }

  /** Neither the old key of the item nor the key of its old vault opens any part of the row any more. */
  ghost predicate LockedOut(vaults: map<string, VaultRow>, before: ItemRow, after: ItemRow, id: string)
    requires before.vaultId in vaults
  {
    && (forall key :: SealedKey(before.wrappedKey) == Some(key) ==> Open(key, after.payload, ItemPayloadAad(id)).Err?)
    && (forall key :: SealedKey(vaults[before.vaultId].wrappedKey) == Some(key) ==> OpenKey(key, after.wrappedKey, ItemKeyAad(id)).Err?)
  }

  class VaultStore {
    var vaults: map<string, VaultRow>
    var items: map<string, ItemRow>
    var draws: nat
    var keysDrawn: nat

    ghost predicate Valid()
      reads this
    {
      Openable(vaults, items) && PlainValid(View(vaults, items, draws)) && KeysOwned(vaults, items, keysDrawn)
    }

    /** What a reader of the store sees. */
    ghost function Contents(): Plain
      reads this
      requires Valid()
    {
      View(vaults, items, draws)
    }

    constructor ()
      ensures Valid() && Contents() == Plain(map[], map[], 0)
    {
      vaults, items, draws, keysDrawn := map[], map[], 0, 0;
    }

    method SelectVault(source: Source) returns (row: Option<string>)
      requires Valid()
      ensures row == if VaultsFrom(Contents().vaults, source) == {} then None else Some(Pick(VaultsFrom(Contents().vaults, source)))
    {
      var matches := set id | id in vaults && vaults[id].source == source;
      assert matches == VaultsFrom(Contents().vaults, source);
      row := if matches == {} then None else Some(Pick(matches));
    }

    method SelectItem(source: Source) returns (row: Option<string>)
      requires Valid()
      ensures row == if ItemsFrom(Contents().items, source) == {} then None else Some(Pick(ItemsFrom(Contents().items, source)))
    {
      var matches := set id | id in items && items[id].source == source;
      assert matches == ItemsFrom(Contents().items, source);
      row := if matches == {} then None else Some(Pick(matches));
    }

    /** The scan over all vaults that decrypts each name. */
    method SelectVaultNamed(name: string) returns (row: Option<string>)
      requires Valid()
      ensures row == if VaultsNamed(Contents().vaults, name) == {} then None else Some(Pick(VaultsNamed(Contents().vaults, name)))
    {
      hide View, PlainValid, KeysOwned, OpenItem, VaultsNamed, InOrder;
      ghost var matches := VaultsNamed(Contents().vaults, name);
      NamedRows(vaults, items, draws, name);
      var ids := InOrder(Flat(vaults.Keys));
      InOrderAscending(Flat(vaults.Keys));
      for i := 0 to |ids|
        invariant forall k :: 0 <= k < i ==> ids[k] !in matches
      {
        assert ids[i] in ids;
        if OpenVault(ids[i], vaults[ids[i]]).value.name == name {
          FirstListedIsEarliest(Flat(vaults.Keys), Flat(matches), i);
          return Some(ids[i]);
        }
      }
      assert forall id :: id in matches ==> id in ids;
      return None;
    }

    // The four statements that write rows.

    method UpdateVault(id: string, payload: VaultPayload)
      requires Valid() && id in vaults && payload.source == vaults[id].source
      modifies this`vaults
      ensures Valid() && Contents() == SetVault(old(Contents()), id, payload)
      ensures vaults.Keys == old(vaults.Keys) && forall other :: other in vaults ==> vaults[other].wrappedKey == old(vaults)[other].wrappedKey
    {
      hide View, PlainValid, KeysOwned, OpenItem, VaultKeyAad, VaultPayloadAad;
      PlainRows(vaults, items, draws);
      SetVaultValid(Contents(), id, payload);
      var key := OpenVaultKey(id, vaults[id]).value;
      var row := vaults[id].(payload := Seal(key, Document(VaultDoc(payload)), VaultPayloadAad(id)));
      SameVaultKeyStillOpens(vaults, items, draws, id, row, payload);
      SameVaultKeyOwned(vaults, items, keysDrawn, id, row);
      vaults := vaults[id := row];
    }

    method InsertVault(payload: VaultPayload) returns (id: string)
      requires Valid() && forall other :: other in vaults ==> !Clashing(payload.source, vaults[other].source)
      modifies this
      ensures Valid() && Contents() == AddVault(old(Contents()), payload) && id == VaultId(old(draws))
      ensures id !in old(vaults) && vaults == old(vaults)[id := vaults[id]] && items == old(items)
      ensures SealedKey(vaults[id].wrappedKey) == Some(RandomKey(old(keysDrawn))) && keysDrawn == old(keysDrawn) + 1
    {
      hide View, PlainValid, KeysOwned, OpenItem, VaultKeyAad, VaultPayloadAad, VaultId;
      PlainRows(vaults, items, draws);
      AddVaultValid(Contents(), payload);
      id := VaultId(draws);
      var key := RandomKey(keysDrawn);
      var row := VaultRow(Seal(RootKey, KeyMaterial(key), VaultKeyAad(id)), Seal(key, Document(VaultDoc(payload)), VaultPayloadAad(id)), payload.source);
      NewVaultOpens(vaults, items, draws, id, row, payload);
      NewVaultKeyOwned(vaults, items, keysDrawn, id, row);
      vaults, draws, keysDrawn := vaults[id := row], draws + 1, keysDrawn + 1;
    }

    /** An item that moves to another vault gets a fresh item key, wrapped under the key of its new vault. */
    method ItemKeyFor(id: string, vaultId: string) returns (itemKey: Key, wrapped: Sealed<Doc>)
      requires Valid() && id in items && vaultId in vaults
      modifies this`keysDrawn
      ensures OpenKey(OpenVaultKey(vaultId, vaults[vaultId]).value, wrapped, ItemKeyAad(id)) == Ok(itemKey)
      ensures if items[id].vaultId == vaultId then wrapped == items[id].wrappedKey && keysDrawn == old(keysDrawn)
              else itemKey == RandomKey(old(keysDrawn)) && keysDrawn == old(keysDrawn) + 1
    {
      hide View, PlainValid, KeysOwned, Openable, OpenVaultKey, VaultKeyAad, ItemKeyAad;
      VaultKeyOpens(vaults, items, vaultId);
      var row, vaultKey := items[id], OpenVaultKey(vaultId, vaults[vaultId]).value;
      KeysOpen(vaults, items, id);
      if row.vaultId != vaultId {
        itemKey, keysDrawn := RandomKey(keysDrawn), keysDrawn + 1;
        wrapped := Seal(vaultKey, KeyMaterial(itemKey), ItemKeyAad(id));
      } else {
        itemKey, wrapped := OpenItemKey(id, row, vaultKey).value, row.wrappedKey;
      }
    }

    method UpdateItem(id: string, vaultId: string, payload: ItemPayload)
      requires Valid() && id in items && payload.source == items[id].source && vaultId in vaults
      modifies this`items, this`keysDrawn
      ensures Valid() && Contents() == SetItem(old(Contents()), id, Item(vaultId, payload))
      ensures items == old(items)[id := items[id]] && items[id].vaultId == vaultId
      ensures KeptOrRekeyed(old(items)[id], items[id], old(keysDrawn), keysDrawn) && keysDrawn >= old(keysDrawn)
      ensures old(items)[id].vaultId in vaults
      ensures old(items)[id].vaultId != vaultId ==> LockedOut(vaults, old(items)[id], items[id], id)
    {
      hide View, PlainValid, KeysOwned, Openable, OpenItem, OpenKey, ItemKeyAad, ItemPayloadAad, LockedOut, KeptOrRekeyed;
      PlainRows(vaults, items, draws);
      VaultKeyOpens(vaults, items, vaultId);
      KeysOpen(vaults, items, id);
      SetItemValid(Contents(), id, Item(vaultId, payload));
      var itemKey, wrapped := ItemKeyFor(id, vaultId);
      var updated := ItemRow(vaultId, wrapped, Seal(itemKey, Document(ItemDoc(payload)), ItemPayloadAad(id)), payload.source);
      SealedItemOpens(vaults, id, updated, OpenVaultKey(vaultId, vaults[vaultId]).value, itemKey, payload);
      PutItemOpens(vaults, items, draws, id, updated, payload);
      UpdatedKeyOwned(vaults, items, old(keysDrawn), keysDrawn, id, updated, itemKey);
      items := items[id := updated];
    }

    method InsertItem(vaultId: string, payload: ItemPayload) returns (id: string)
      requires Valid() && vaultId in vaults && forall other :: other in items ==> !Clashing(payload.source, items[other].source)
      modifies this
      ensures Valid() && Contents() == AddItem(old(Contents()), Item(vaultId, payload)) && id == ItemId(old(draws))
      ensures id !in old(items) && items == old(items)[id := items[id]] && vaults == old(vaults)
      ensures SealedKey(items[id].wrappedKey) == Some(RandomKey(old(keysDrawn))) && keysDrawn == old(keysDrawn) + 1
    {
      hide View, PlainValid, KeysOwned, Openable, OpenItem, ItemId;
      PlainRows(vaults, items, draws);
      VaultKeyOpens(vaults, items, vaultId);
      AddItemValid(Contents(), Item(vaultId, payload));
      var vaultKey := OpenVaultKey(vaultId, vaults[vaultId]).value;
      id := ItemId(draws);
      var itemKey := RandomKey(keysDrawn);
      var row := ItemRow(vaultId, Seal(vaultKey, KeyMaterial(itemKey), ItemKeyAad(id)),
                         Seal(itemKey, Document(ItemDoc(payload)), ItemPayloadAad(id)), payload.source);
      SealedItemOpens(vaults, id, row, vaultKey, itemKey, payload);
      PutItemOpens(vaults, items, draws, id, row, payload);
      NewItemKeyOwned(vaults, items, keysDrawn, id, row);
      items, draws, keysDrawn := items[id := row], draws + 1, keysDrawn + 1;
    }

    method CreateVault(name: string, description: string, source: Source) returns (r: Result<string>)
      requires Valid()
      modifies this
      ensures Valid()
      ensures (Contents(), r) == PlainCreateVault(old(Contents()), name, description, source)
      ensures items == old(items) && forall id :: id in old(vaults) ==> id in vaults && vaults[id].wrappedKey == old(vaults)[id].wrappedKey
    {
      hide View, PlainValid, KeysOwned, Openable, OpenVault, OpenItem, Strip, Clashing;
      PlainRows(vaults, items, draws);
      var payload := VaultPayload(Strip(name), description, source);
      if payload.name == "" {
        return Err(ValidationError);
      }
      if Linked(source) {
        var existing := SelectVault(source);
        if existing.Some? {
          UpdateVault(existing.value, payload);
          return Ok(existing.value);
        }
      } else {
        var existing := SelectVaultNamed(payload.name);
        if existing.Some? {
          return Ok(existing.value);
        }
      }
      if SourceTakenByVault(source) {
        return Err(Internal);
      }
      var id := InsertVault(payload);
      return Ok(id);
    }

    method PutItem(vaultRef: string, payload: ItemPayload) returns (r: Result<string>)
      requires Valid()
      modifies this
      ensures Valid()
      ensures (Contents(), r) == PlainPutItem(old(Contents()), vaultRef, payload)
      ensures vaults == old(vaults)
      ensures forall id :: id in old(items) ==> id in items && KeptOrRekeyed(old(items)[id], items[id], old(keysDrawn), keysDrawn)
    {
      hide View, PlainValid, KeysOwned, Openable, OpenVault, OpenItem, Strip, Clashing, FindVault, Drawn;
      PlainRows(vaults, items, draws);
      var vault := ResolveVault(vaultRef);
      if vault.Err? {
        return Err(vault.error);
      }
      var stored := payload.(title := Strip(payload.title));
      if stored.title == "" {
        return Err(ValidationError);
      }
      if Linked(stored.source) {
        var existing := SelectItem(stored.source);
        if existing.Some? {
          UpdateItem(existing.value, vault.value, stored);
          return Ok(existing.value);
        }
      }
      if SourceTakenByItem(stored.source) {
        return Err(Internal);
      }
      var id := InsertItem(vault.value, stored);
      return Ok(id);
    }

    /** The UNIQUE constraint of the vaults table would refuse a row with this source. */
    predicate SourceTakenByVault(source: Source)
      reads this
      requires Valid()
      ensures SourceTakenByVault(source) <==> exists id :: id in Contents().vaults && Clashing(source, Contents().vaults[id].source)
    {
      assert forall id :: id in vaults <==> id in Contents().vaults;
      assert forall id :: id in vaults ==> Contents().vaults[id].source == vaults[id].source;
      exists id :: id in vaults && Clashing(source, vaults[id].source)
    }

    predicate SourceTakenByItem(source: Source)
      reads this
      requires Valid()
      ensures SourceTakenByItem(source) <==> exists id :: id in Contents().items && Clashing(source, Contents().items[id].payload.source)
    {
      assert forall id :: id in items <==> id in Contents().items;
      assert forall id :: id in items ==> Contents().items[id].payload.source == items[id].source;
      exists id :: id in items && Clashing(source, items[id].source)
    }

    method ResolveVault(ref: string) returns (r: Result<string>)
      requires Valid()
      ensures r == FindVault(Contents().vaults, ref)
      ensures forall id :: r == Ok(id) <==> NamesVault(Contents().vaults, ref, id)
      ensures r == Err(Conflict) <==> ref !in Contents().vaults && Ambiguous(Contents().vaults, ref)
    {
      hide PlainValid, KeysOwned, OpenItem, NamesVault, Ambiguous;
      FindVaultExactly(Contents().vaults, ref);
      if ref in vaults {
        return Ok(ref);
      }
      var matches := set id | id in vaults && OpenVault(id, vaults[id]).Ok? && OpenVault(id, vaults[id]).value.name == ref;
      assert matches == VaultsNamed(Contents().vaults, ref);
      r := if matches == {} then Err(NotFound) else if |matches| > 1 then Err(Conflict) else Ok(Pick(matches));
    }

    /** `find_item`: an id in the vault, or the only title in the vault that equals the reference. */
    method ResolveItem(vaultRef: string, itemRef: string) returns (r: Result<string>)
      requires Valid()
      ensures r == FindItem(Contents(), vaultRef, itemRef)
      ensures forall id :: r == Ok(id) ==> NamesItem(Contents(), Contents().items[id].vaultId, itemRef, id)
                                           && NamesVault(Contents().vaults, vaultRef, Contents().items[id].vaultId)
      ensures forall vaultId :: NamesVault(Contents().vaults, vaultRef, vaultId) ==>
                && (forall id :: r == Ok(id) <==> NamesItem(Contents(), vaultId, itemRef, id))
                && (r == Err(Conflict) <==> !InVault(Contents(), vaultId, itemRef) && AmbiguousIn(Contents(), vaultId, itemRef))
    {
      hide View, OpenItem, OpenVault, PlainValid, KeysOwned, VaultsNamed, FindVault, NamesVault, NamesItem, InVault, AmbiguousIn;
      RowsShown(vaults, items, draws);
      FindVaultExactly(Contents().vaults, vaultRef);
      FindItemExactly(Contents(), vaultRef, itemRef);
      ItemsNamed(Contents(), vaultRef, itemRef);
      var vault := ResolveVault(vaultRef);
      if vault.Err? {
        return Err(vault.error);
      }
      if itemRef in items && items[itemRef].vaultId == vault.value {
        return Ok(itemRef);
      }
      var matches := set id | id in items && items[id].vaultId == vault.value && OpenItem(vaults, id, items[id]).value.title == itemRef;
      assert matches == set id | id in Contents().items && Contents().items[id].vaultId == vault.value && Contents().items[id].payload.title == itemRef;
      r := if matches == {} then Err(NotFound) else if |matches| > 1 then Err(Conflict) else Ok(Pick(matches));
    }

    method ReadItem(id: string) returns (r: Result<ItemPayload>)
      requires Valid() && id in items
      ensures r == Ok(Contents().items[id].payload)
    {
      r := OpenItem(vaults, id, items[id]);
    }
  }

  // ---------- sealing keeps every row openable ----------

  lemma NamedRows(vaults: map<string, VaultRow>, items: map<string, ItemRow>, draws: nat, name: string)
    requires Openable(vaults, items)
    ensures forall id :: id in VaultsNamed(View(vaults, items, draws).vaults, name) <==> id in vaults && OpenVault(id, vaults[id]).value.name == name
  {
  }

  // ---------- every row keeps a key of its own ----------

  lemma SameVaultKeyOwned(vaults: map<string, VaultRow>, items: map<string, ItemRow>, drawn: nat, id: string, row: VaultRow)
    requires KeysOwned(vaults, items, drawn) && id in vaults && row.wrappedKey == vaults[id].wrappedKey
    ensures KeysOwned(vaults[id := row], items, drawn)
  {
  }

  lemma NewVaultKeyOwned(vaults: map<string, VaultRow>, items: map<string, ItemRow>, drawn: nat, id: string, row: VaultRow)
    requires KeysOwned(vaults, items, drawn) && id !in vaults && SealedKey(row.wrappedKey) == Some(RandomKey(drawn))
    ensures KeysOwned(vaults[id := row], items, drawn + 1)
  {
  }

  lemma NewItemKeyOwned(vaults: map<string, VaultRow>, items: map<string, ItemRow>, drawn: nat, id: string, row: ItemRow)
    requires KeysOwned(vaults, items, drawn) && SealedKey(row.wrappedKey) == Some(RandomKey(drawn))
    ensures KeysOwned(vaults, items[id := row], drawn + 1)
  {
  }

  lemma SameItemKeyOwned(vaults: map<string, VaultRow>, items: map<string, ItemRow>, drawn: nat, id: string, row: ItemRow)
    requires KeysOwned(vaults, items, drawn) && id in items && row.wrappedKey == items[id].wrappedKey
    ensures KeysOwned(vaults, items[id := row], drawn)
  {
  }

  lemma OpenedIsSealed(key: Key, sealed: Sealed<Doc>, aad: string)
    requires OpenKey(key, sealed, aad).Ok?
    ensures SealedKey(sealed) == Some(OpenKey(key, sealed, aad).value) && sealed.key == key && sealed.aad == aad
  {
  }

  lemma UpdatedKeyOwned(vaults: map<string, VaultRow>, items: map<string, ItemRow>, drawn: nat, drawn': nat, id: string, row: ItemRow, itemKey: Key)
    requires KeysOwned(vaults, items, drawn) && id in items && row.vaultId in vaults && items[id].vaultId in vaults
    requires OpenVaultKey(row.vaultId, vaults[row.vaultId]).Ok?
    requires OpenKey(OpenVaultKey(row.vaultId, vaults[row.vaultId]).value, row.wrappedKey, ItemKeyAad(id)) == Ok(itemKey)
    requires if items[id].vaultId == row.vaultId then row.wrappedKey == items[id].wrappedKey && drawn' == drawn
             else itemKey == RandomKey(drawn) && drawn' == drawn + 1
    requires row.payload.key == itemKey
    ensures KeysOwned(vaults, items[id := row], drawn') && KeptOrRekeyed(items[id], row, drawn, drawn')
    ensures items[id].vaultId != row.vaultId ==> LockedOut(vaults, items[id], row, id)
  {
    hide KeysOwned, OpenKey, ItemKeyAad, ItemPayloadAad, VaultKeyAad;
    OpenedIsSealed(OpenVaultKey(row.vaultId, vaults[row.vaultId]).value, row.wrappedKey, ItemKeyAad(id));
    if items[id].vaultId == row.vaultId {
      SameItemKeyOwned(vaults, items, drawn, id, row);
    } else {
      NewItemKeyOwned(vaults, items, drawn, id, row);
      OpenedIsSealed(RootKey, vaults[row.vaultId].wrappedKey, VaultKeyAad(row.vaultId));
      OldKeysDiffer(vaults, items, drawn, id, row.vaultId);
      MovedIsLockedOut(vaults, items[id], row, id, itemKey);
    }
  }

  lemma OldKeysDiffer(vaults: map<string, VaultRow>, items: map<string, ItemRow>, drawn: nat, id: string, vaultId: string)
    requires KeysOwned(vaults, items, drawn) && id in items && items[id].vaultId in vaults && vaultId in vaults && items[id].vaultId != vaultId
    ensures SealedKey(items[id].wrappedKey) != Some(RandomKey(drawn))
    ensures SealedKey(vaults[items[id].vaultId].wrappedKey) != SealedKey(vaults[vaultId].wrappedKey)
  {
  }

  lemma MovedIsLockedOut(vaults: map<string, VaultRow>, before: ItemRow, after: ItemRow, id: string, itemKey: Key)
    requires before.vaultId in vaults && after.payload.key == itemKey && SealedKey(before.wrappedKey) != Some(itemKey)
    requires SealedKey(vaults[before.vaultId].wrappedKey) != Some(after.wrappedKey.key)
    ensures LockedOut(vaults, before, after, id)
  {
    hide ItemKeyAad, ItemPayloadAad;
  }

  /** The plaintext columns of the rows, read off the plain store. */
  lemma PlainRows(vaults: map<string, VaultRow>, items: map<string, ItemRow>, draws: nat)
    requires Openable(vaults, items)
    ensures forall id :: id in vaults ==> View(vaults, items, draws).vaults[id].source == vaults[id].source
    ensures forall id :: id in items ==> View(vaults, items, draws).items[id].payload.source == items[id].source
    ensures forall id :: id in items ==> View(vaults, items, draws).items[id].vaultId == items[id].vaultId
  {
    hide OpenVault, OpenItem;
  }

  lemma RowsShown(vaults: map<string, VaultRow>, items: map<string, ItemRow>, draws: nat)
    requires Openable(vaults, items)
    ensures forall id :: id in items ==> View(vaults, items, draws).items[id] == Item(items[id].vaultId, OpenItem(vaults, id, items[id]).value)
  {
    hide OpenVault, OpenItem;
  }

  lemma VaultKeyOpens(vaults: map<string, VaultRow>, items: map<string, ItemRow>, id: string)
    requires Openable(vaults, items) && id in vaults
    ensures OpenVaultKey(id, vaults[id]).Ok?
  {
    assert OpenVault(id, vaults[id]).Ok?;
  }

  lemma KeysOpen(vaults: map<string, VaultRow>, items: map<string, ItemRow>, id: string)
    requires Openable(vaults, items) && id in items
    ensures items[id].vaultId in vaults && OpenVaultKey(items[id].vaultId, vaults[items[id].vaultId]).Ok?
    ensures OpenItemKey(id, items[id], OpenVaultKey(items[id].vaultId, vaults[items[id].vaultId]).value).Ok?
  {
    assert OpenItem(vaults, id, items[id]).Ok?;
  }

  lemma AadsDiffer(id: string, other: string)
    requires id != other
    ensures ItemKeyAad(id) != ItemKeyAad(other) && VaultKeyAad(id) != VaultKeyAad(other)
  {
    assert ItemKeyAad(id)[11..|ItemKeyAad(id)| - 4] == id && ItemKeyAad(other)[11..|ItemKeyAad(other)| - 4] == other;
    assert VaultKeyAad(id)[12..|VaultKeyAad(id)| - 4] == id && VaultKeyAad(other)[12..|VaultKeyAad(other)| - 4] == other;
  }

  /** What is sealed for one row opens under no other id: rows cannot be exchanged. */
  lemma RowsAreBound(vaults: map<string, VaultRow>, items: map<string, ItemRow>, id: string, other: string)
    requires Openable(vaults, items) && id != other
    ensures id in vaults ==> OpenVault(other, vaults[id]).Err?
    ensures id in items ==> OpenItem(vaults, other, items[id]).Err?
  {
    hide ItemKeyAad, VaultKeyAad, ItemPayloadAad, VaultPayloadAad;
    AadsDiffer(id, other);
    if id in vaults { assert OpenVault(id, vaults[id]).Ok?; }
    if id in items { assert OpenItem(vaults, id, items[id]).Ok?; }
  }

  /** A row whose item key is wrapped under the key of the vault it names opens through that vault. */
  lemma SealedItemOpens(vaults: map<string, VaultRow>, id: string, row: ItemRow, vaultKey: Key, itemKey: Key, payload: ItemPayload)
    requires row.vaultId in vaults && OpenVaultKey(row.vaultId, vaults[row.vaultId]) == Ok(vaultKey)
    requires OpenItemKey(id, row, vaultKey) == Ok(itemKey)
    requires row.payload == Seal(itemKey, Document(ItemDoc(payload)), ItemPayloadAad(id))
    ensures OpenItem(vaults, id, row) == Ok(payload)
  {
  }

  /** Only the wrapped key of the vault matters for opening an item. */
  lemma SameKeyOpensAlike(vaults: map<string, VaultRow>, vaults': map<string, VaultRow>, id: string, row: ItemRow)
    requires row.vaultId in vaults && row.vaultId in vaults' && vaults[row.vaultId].wrappedKey == vaults'[row.vaultId].wrappedKey
    ensures OpenItem(vaults, id, row) == OpenItem(vaults', id, row)
  {
    hide OpenKey, Open, VaultKeyAad, ItemKeyAad, ItemPayloadAad;
  }

  /** Rows of other vaults, and items in every vault, still open when a vault's payload is sealed anew under its own key. */
  lemma SameVaultKeyStillOpens(vaults: map<string, VaultRow>, items: map<string, ItemRow>, draws: nat, id: string, row: VaultRow, payload: VaultPayload)
    requires Openable(vaults, items) && id in vaults
    requires row.wrappedKey == vaults[id].wrappedKey && row.source == vaults[id].source == payload.source
    requires OpenVault(id, row) == Ok(payload)
    ensures Openable(vaults[id := row], items)
    ensures var v := View(vaults, items, draws);
            View(vaults[id := row], items, draws) == v.(vaults := v.vaults[id := payload])
  {
    hide OpenItem, OpenVault;
    forall i | i in items ensures OpenItem(vaults[id := row], i, items[i]) == OpenItem(vaults, i, items[i]) {
      KeysOpen(vaults, items, i);
      SameKeyOpensAlike(vaults, vaults[id := row], i, items[i]);
    }
    var after := vaults[id := row];
    assert View(after, items, draws).vaults == View(vaults, items, draws).vaults[id := payload];
    assert View(after, items, draws).items == View(vaults, items, draws).items;
  }

  lemma NewVaultOpens(vaults: map<string, VaultRow>, items: map<string, ItemRow>, draws: nat, id: string, row: VaultRow, payload: VaultPayload)
    requires Openable(vaults, items) && id !in vaults
    requires row.source == payload.source && OpenVault(id, row) == Ok(payload)
    ensures Openable(vaults[id := row], items)
    ensures var v := View(vaults, items, draws);
            View(vaults[id := row], items, draws + 1) == v.(vaults := v.vaults[id := payload], draws := draws + 1)
  {
    hide OpenItem, OpenVault;
    forall i | i in items ensures OpenItem(vaults[id := row], i, items[i]) == OpenItem(vaults, i, items[i]) {
      KeysOpen(vaults, items, i);
      SameKeyOpensAlike(vaults, vaults[id := row], i, items[i]);
    }
    var after := vaults[id := row];
    assert View(after, items, draws + 1).vaults == View(vaults, items, draws).vaults[id := payload];
    assert View(after, items, draws + 1).items == View(vaults, items, draws).items;
  }

  lemma PutItemOpens(vaults: map<string, VaultRow>, items: map<string, ItemRow>, draws: nat, id: string, row: ItemRow, payload: ItemPayload)
    requires Openable(vaults, items)
    requires row.source == payload.source && OpenItem(vaults, id, row) == Ok(payload)
    ensures Openable(vaults, items[id := row])
    ensures var v := View(vaults, items, draws);
            && View(vaults, items[id := row], draws) == v.(items := v.items[id := Item(row.vaultId, payload)])
            && View(vaults, items[id := row], draws + 1) == v.(items := v.items[id := Item(row.vaultId, payload)], draws := draws + 1)
  {
    hide OpenVault, OpenItem;
    var after := items[id := row];
    assert View(vaults, after, draws).items == View(vaults, items, draws).items[id := Item(row.vaultId, payload)];
  }
}
