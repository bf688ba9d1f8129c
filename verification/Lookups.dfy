/**
 What a reference names, said apart from how it is looked up (passd/service.py: `find_vault`,
 `find_item`, `resolve_item_ref`, `_extract_field`, `_host_allowed`).
 */
module Lookups {
  import opened Wrappers
  import opened Text
  import opened Ordering
  import opened Refs
  import opened Capabilities
  import opened Store
  import opened Leases

  // ---------- the value that a reference names ----------

  /** The vault, the item in it, the field and its value, as the three parts of the selector name them. */
  ghost predicate NamesBound(store: Plain, selector: Selector, bound: Bound) {
    && (exists vaultId :: NamesVault(store.vaults, selector.vault, vaultId) && NamesItem(store, vaultId, selector.item, bound.itemId))
    && selector.field == Some(bound.field) && bound.itemId in store.items && bound.field in store.items[bound.itemId].payload.fields
    && store.items[bound.itemId].payload.fields[bound.field] == bound.secret
  }

  /** The value that an operation asks for: of its own selector, or of the backing reference of its definition. */
  ghost predicate QueryNames(store: Plain, q: Query, bound: Bound) {
    match q
    case SecretQuery(_, selector, _) => NamesBound(store, selector, bound)
    case CallQuery(_, _, d, _, _) => ParsePassRef(d.backingUri).Ok? && NamesBound(store, ParsePassRef(d.backingUri).value, bound)
  }

  /** Why the selector names nothing: one of its names is ambiguous, it has no field, or something is not there. */
  ghost predicate NamesNothing(store: Plain, selector: Selector, e: Error) {
    if (selector.vault !in store.vaults && Ambiguous(store.vaults, selector.vault))
       || (exists vaultId :: NamesVault(store.vaults, selector.vault, vaultId) && !InVault(store, vaultId, selector.item) && AmbiguousIn(store, vaultId, selector.item))
    then e == Conflict
    else if selector.field.None? && (exists vaultId, id :: NamesVault(store.vaults, selector.vault, vaultId) && NamesItem(store, vaultId, selector.item, id))
    then e == ValidationError
    else e == NotFound
  }

  lemma ResolveExactly(store: Plain, selector: Selector)
    ensures forall bound :: ResolveSelector(store, selector) == Ok(bound) <==> NamesBound(store, selector, bound)
    ensures ResolveSelector(store, selector).Err? ==> NamesNothing(store, selector, ResolveSelector(store, selector).error)
  {
    hide FindVault, FindItem, NamesVault, NamesItem, Ambiguous, AmbiguousIn, InVault, Called, TitledIn;
    FindVaultExactly(store.vaults, selector.vault);
    FindItemExactly(store, selector.vault, selector.item);
  }

  /** A selector names at most one value. */
  lemma NamesOneValue(store: Plain, selector: Selector, a: Bound, b: Bound)
    requires NamesBound(store, selector, a) && NamesBound(store, selector, b)
    ensures a == b
  {
    hide NamesBound, ResolveSelector;
    ResolveExactly(store, selector);
  }

  ghost predicate QueryNamesNothing(store: Plain, q: Query, e: Error) {
    match q
    case SecretQuery(_, selector, _) => NamesNothing(store, selector, e)
    case CallQuery(_, _, d, _, _) =>
      if ParsePassRef(d.backingUri).Ok? then NamesNothing(store, ParsePassRef(d.backingUri).value, e) else e == ParsePassRef(d.backingUri).error
  }

  lemma ResolveQueryExactly(store: Plain, q: Query)
    ensures var r := if q.SecretQuery? then ResolveSelector(store, q.selector) else ResolveBacking(store, q.definition);
            (forall bound :: r == Ok(bound) <==> QueryNames(store, q, bound)) && (r.Err? ==> QueryNamesNothing(store, q, r.error))
  {
    hide ResolveSelector, NamesBound, NamesNothing, ParsePassRef;
    match q
    case SecretQuery(_, selector, _) => ResolveExactly(store, selector);
    case CallQuery(_, _, d, _, _) =>
      if ParsePassRef(d.backingUri).Ok? { ResolveExactly(store, ParsePassRef(d.backingUri).value); }
  }

  // ---------- hosts ----------

  function Labels(host: string): seq<string> {
    Split(RStripChar(Lower(host), '.'), '.')
  }

  /** `short` is a proper suffix of `long`. */
  predicate ProperSuffix(short: seq<string>, long: seq<string>) {
    |short| < |long| && long[|long| - |short|..] == short
  }

  lemma SuffixHasLabels(head: string, base: string)
    ensures ProperSuffix(Split(base, '.'), Split(head + "." + base, '.'))
  {
    SplitConcat(head, base, '.');
  }

  lemma LabelsGiveSuffix(h: string, base: string) returns (head: string)
    requires ProperSuffix(Split(base, '.'), Split(h, '.'))
    ensures h == head + "." + base
  {
    hide Split, Join;
    var long, short := Split(h, '.'), Split(base, '.');
    var front := long[..|long| - |short|];
    assert long == front + short;
    JoinSplit(h, '.');
    JoinSplit(base, '.');
    JoinConcat(front, short, ".");
    head := Join(front, ".");
  }

  predicate EndsWith(s: string, tail: string) {
    |tail| <= |s| && s[|s| - |tail|..] == tail
  }

  lemma EndsWithParts(s: string, tail: string) returns (head: string)
    requires EndsWith(s, tail)
    ensures s == head + tail
  {
    head := s[..|s| - |tail|];
  }

  lemma Append(head: string, base: string)
    ensures head + "." + base == head + ("." + base) && EndsWith(head + ("." + base), "." + base)
  {
  }

  lemma SuffixLabels(h: string, base: string)
    ensures EndsWith(h, "." + base) <==> ProperSuffix(Split(base, '.'), Split(h, '.'))
  {
    hide Split, ProperSuffix, EndsWith;
    if EndsWith(h, "." + base) {
      var head := EndsWithParts(h, "." + base);
      Append(head, base);
      SuffixHasLabels(head, base);
    }
    if ProperSuffix(Split(base, '.'), Split(h, '.')) {
      var head := LabelsGiveSuffix(h, base);
      Append(head, base);
    }
  }

  /**
   Trailing dots and letter case aside, a plain pattern allows exactly the host with the same
   labels, and "*.x" exactly the hosts whose labels properly extend those of x to the left.
   */
  lemma PatternLabels(host: string, pattern: string)
    ensures var p := RStripChar(Lower(pattern), '.');
            PatternAllows(host, pattern) <==>
              if StartsWith(p, "*.") then ProperSuffix(Split(p[2..], '.'), Labels(host)) else Labels(pattern) == Labels(host)
  {
    hide Split, Join, ProperSuffix, Lower, RStripChar;
    var h, p := RStripChar(Lower(host), '.'), RStripChar(Lower(pattern), '.');
    if StartsWith(p, "*.") {
      SuffixLabels(h, p[2..]);
      assert p[1..] == "." + p[2..];
      assert |p[1..]| <= |h| && h[|h| - |p[1..]|..] == p[1..] ==> |h| > |p[2..]|;
    } else {
      JoinSplit(h, '.');
      JoinSplit(p, '.');
    }
  }

  /** The pattern is the host itself, or "*.x" for a host whose labels properly extend those of x. */
  ghost predicate AdmitsHost(pattern: string, host: string) {
    var p := RStripChar(Lower(pattern), '.');
    || (!StartsWith(p, "*.") && Labels(pattern) == Labels(host))
    || exists base :: p == "*." + base && ProperSuffix(Split(base, '.'), Labels(host))
  }

  /** The host ceiling of an agent: an empty list is no ceiling. */
  ghost predicate Within(host: string, patterns: seq<string>) {
    patterns == [] || exists i :: 0 <= i < |patterns| && AdmitsHost(patterns[i], host)
  }

  lemma AdmitsHostExactly(host: string, pattern: string)
    ensures PatternAllows(host, pattern) <==> AdmitsHost(pattern, host)
  {
    hide Split, ProperSuffix, Lower, RStripChar, PatternAllows;
    var p := RStripChar(Lower(pattern), '.');
    PatternLabels(host, pattern);
    if StartsWith(p, "*.") { assert p == "*." + p[2..]; }
    forall base | p == "*." + base ensures StartsWith(p, "*.") && base == p[2..] { WildcardBase(p, base); }
  }

  lemma WildcardBase(p: string, base: string)
    requires p == "*." + base
    ensures StartsWith(p, "*.") && base == p[2..]
  {
  }

  /** A host is refused exactly if there is a ceiling and no pattern of it covers the host. */
  lemma CeilingExactly(host: string, patterns: seq<string>)
    ensures patterns == [] || HostAllowed(host, patterns) <==> Within(host, patterns)
  {
    hide AdmitsHost, PatternAllows;
    forall i | 0 <= i < |patterns| ensures PatternAllows(host, patterns[i]) <==> AdmitsHost(patterns[i], host) {
      AdmitsHostExactly(host, patterns[i]);
    }
  }
}
