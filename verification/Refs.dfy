/** `pass://VAULT/ITEM[/FIELD]` references (passd/refs.py) and the printer of the approval card. */
module Refs {
  import opened Wrappers
  import opened Text
  import opened Urls

  datatype Selector = Selector(vault: string, item: string, field: Option<string>)

  function NonEmpty(parts: seq<string>): seq<string> {
    if parts == [] then []
    else if parts[0] == "" then NonEmpty(parts[1..])
    else [parts[0]] + NonEmpty(parts[1..])
  }

  function UnquoteAll(parts: seq<string>): seq<string> {
    seq(|parts|, i requires 0 <= i < |parts| => Unquote(parts[i]))
  }

  function ParsePassRef(value: string): Result<Selector> {
    if !StartsWith(value, "pass://") then Err(ValidationError)
    else
      var parsed := UrlSplit(value);
      var vault := Unquote(parsed.netloc);
      var parts := UnquoteAll(NonEmpty(Split(parsed.path, '/')));
      if vault == "" || parts == [] then Err(ValidationError)
      else Ok(Selector(vault, parts[0], if |parts| > 1 then Some(Join(parts[1..], "/")) else None))
  }

  /** The reference shown to the person who approves: every part percent-encoded on its own. */
  function PrintRef(vault: string, item: string, field: string): string
    requires IsBytes(vault) && IsBytes(item) && IsBytes(field)
  {
    "pass://" + Quote(vault) + "/" + Quote(item) + "/" + Quote(field)
  }

  /** The reference reads back as the stored selector, even when its parts hold '/', '%', '?' or '#'. */
  lemma ParsePrintRef(vault: string, item: string, field: string)
    requires IsBytes(vault) && IsBytes(item) && IsBytes(field)
    requires vault != "" && item != "" && field != ""
    ensures ParsePassRef(PrintRef(vault, item, field)) == Ok(Selector(vault, item, Some(field)))
  {
    hide Quote, Unquote, UrlSplit, Split, NonEmpty, PlainScheme, PlainAuthority, PlainPath, IsQuoted;
    UnquoteQuote(vault);
    UnquoteQuote(item);
    UnquoteQuote(field);
    var v, i, f := Quote(vault), Quote(item), Quote(field);
    var path := "/" + i + "/" + f;
    QuotedPlain(v, i, f);
    SplitBuilt("pass", v, path);
    assert PrintRef(vault, item, field) == "pass" + (":" + ("//" + (v + path)));
    SplitPath(i, f);
    NonEmptyThree(i, f);
    assert UnquoteAll([i, f]) == [item, field];
  }

  lemma QuotedPlain(v: string, i: string, f: string)
    requires IsQuoted(v) && IsQuoted(i) && IsQuoted(f)
    ensures PlainScheme("pass") && PlainAuthority(v) && PlainPath("/" + i + "/" + f)
  {
    hide Lower;
    LowerPlain("pass");
  }

  lemma NonEmptyThree(i: string, f: string)
    requires i != "" && f != ""
    ensures NonEmpty(["", i, f]) == [i, f]
  {
    assert NonEmpty([f]) == [f] by { assert [f][1..] == []; }
    assert NonEmpty([i, f]) == [i, f] by { assert [i, f][1..] == [f]; }
    assert ["", i, f][1..] == [i, f];
  }

  lemma SplitPath(i: string, f: string)
    requires IsQuoted(i) && IsQuoted(f)
    ensures Split("/" + i + "/" + f, '/') == ["", i, f]
  {
    SplitPlain(i, '/');
    SplitPlain(f, '/');
    SplitConcat(i, f, '/');
    SplitConcat("", i + "/" + f, '/');
    assert "" + "/" + (i + "/" + f) == "/" + i + "/" + f;
    assert Split("", '/') == [""];
  }

  // ---------- references with any number of parts ----------

  predicate Parts(parts: seq<string>) {
    forall i :: 0 <= i < |parts| ==> IsBytes(parts[i]) && parts[i] != ""
  }

  /** Each part percent-encoded behind its own slash. */
  function QuotedPath(parts: seq<string>): string
    requires Parts(parts)
  {
    if parts == [] then "" else "/" + Quote(parts[0]) + QuotedPath(parts[1..])
  }

  function QuoteAll(parts: seq<string>): seq<string>
    requires Parts(parts)
  {
    seq(|parts|, i requires 0 <= i < |parts| => Quote(parts[i]))
  }

  lemma {:induction false} QuotedPathSplit(parts: seq<string>)
    requires Parts(parts)
    ensures Split(QuotedPath(parts), '/') == [""] + QuoteAll(parts)
    ensures PlainPath(QuotedPath(parts))
  {
    hide Quote, Split, IsQuoted;
    if parts == [] {
      assert Split("", '/') == [""] by { SplitPlain("", '/'); }
    } else {
      var first, rest := Quote(parts[0]), QuotedPath(parts[1..]);
      UnquoteQuote(parts[0]);
      QuotedPathSplit(parts[1..]);
      QuotedNoSlash(first);
      SplitFirst(first, rest, QuoteAll(parts[1..]));
      assert QuotedPath(parts) == "/" + (first + rest);
      assert QuoteAll(parts) == [first] + QuoteAll(parts[1..]);
    }
  }

  lemma QuotedNoSlash(q: string)
    requires IsQuoted(q)
    ensures forall c :: c in q ==> c != '/' && c != '?' && c != '#' && !IsLineBreak(c)
  {
  }

  lemma SplitFirst(first: string, rest: string, others: seq<string>)
    requires '/' !in first && Split(rest, '/') == [""] + others && PlainPath(rest)
    ensures Split("/" + (first + rest), '/') == [""] + ([first] + others)
  {
    hide PlainPath;
    SplitPlain(first, '/');
    SplitPlain("", '/');
    assert "" + ['/'] + (first + rest) == "/" + (first + rest);
    SplitConcat("", first + rest, '/');
    if rest == "" {
      assert first + rest == first && others == [] by { SplitPlain("", '/'); }
    } else {
      SlashFirst(rest);
      assert rest == "" + ['/'] + rest[1..];
      SplitConcat("", rest[1..], '/');
      assert Split(rest[1..], '/') == Split(rest, '/')[1..] == others;
      SplitConcat(first, rest[1..], '/');
      assert first + rest == first + ['/'] + rest[1..];
    }
  }

  lemma SlashFirst(path: string)
    requires PlainPath(path) && path != ""
    ensures path[0] == '/'
  {
  }

  lemma {:induction false} NonEmptyAll(parts: seq<string>)
    requires forall i :: 0 <= i < |parts| ==> parts[i] != ""
    ensures NonEmpty(parts) == parts && NonEmpty([""] + parts) == parts
  {
    if parts != [] { NonEmptyAll(parts[1..]); }
    assert ([""] + parts)[1..] == parts;
  }

  /**
   A reference of any number of percent-encoded parts: the first is the vault, the second the item,
   and all others together, joined by slashes, the field; without an item it is refused.
   */
  lemma ParseParts(vault: string, parts: seq<string>)
    requires IsBytes(vault) && vault != "" && Parts(parts)
    ensures ParsePassRef("pass://" + Quote(vault) + QuotedPath(parts)) ==
              if parts == [] then Err(ValidationError)
              else Ok(Selector(vault, parts[0], if |parts| > 1 then Some(Join(parts[1..], "/")) else None))
  {
    hide Quote, Unquote, UrlSplit, Split, NonEmpty, PlainScheme, PlainAuthority, PlainPath, IsQuoted, Join, ParsePassRef, QuotedPath, QuoteAll, UnquoteAll;
    QuotedPathSplit(parts);
    QuotedVault(vault);
    SplitBuilt("pass", Quote(vault), QuotedPath(parts));
    RefText(Quote(vault), QuotedPath(parts));
    QuotedBack(parts);
    ParseSplit("pass://" + Quote(vault) + QuotedPath(parts), Quote(vault), QuotedPath(parts), parts);
  }

  lemma QuotedVault(vault: string)
    requires IsBytes(vault)
    ensures PlainScheme("pass") && PlainAuthority(Quote(vault)) && Unquote(Quote(vault)) == vault
  {
    hide Quote, Unquote, PlainScheme, PlainPath, PlainAuthority, IsQuoted;
    UnquoteQuote(vault);
    UnquoteQuote("");
    QuotedPlain(Quote(vault), Quote(""), Quote(""));
  }

  lemma QuotedBack(parts: seq<string>)
    requires Parts(parts)
    ensures UnquoteAll(NonEmpty([""] + QuoteAll(parts))) == parts
  {
    hide Quote, Unquote, NonEmpty, IsQuoted;
    forall i | 0 <= i < |parts| ensures QuoteAll(parts)[i] != "" && Unquote(QuoteAll(parts)[i]) == parts[i] { UnquoteQuote(parts[i]); }
    NonEmptyAll(QuoteAll(parts));
  }

  lemma RefText(netloc: string, path: string)
    ensures "pass://" + netloc + path == "pass" + (":" + ("//" + (netloc + path)))
    ensures StartsWith("pass://" + netloc + path, "pass://")
  {
  }

  lemma ParseSplit(value: string, netloc: string, path: string, parts: seq<string>)
    requires StartsWith(value, "pass://") && UrlSplit(value) == SplitUrl("pass", netloc, path, "", "")
    requires Unquote(netloc) != "" && UnquoteAll(NonEmpty(Split(path, '/'))) == parts
    ensures ParsePassRef(value) ==
              if parts == [] then Err(ValidationError)
              else Ok(Selector(Unquote(netloc), parts[0], if |parts| > 1 then Some(Join(parts[1..], "/")) else None))
  {
    hide Unquote, UrlSplit, Split, NonEmpty, Join;
  }

  /** Nothing else is accepted: the scheme must be there, and the vault and the item are never empty. */
  lemma ParseRefuses(value: string)
    ensures !StartsWith(value, "pass://") ==> ParsePassRef(value).Err?
    ensures ParsePassRef(value).Err? ==> ParsePassRef(value).error == ValidationError
    ensures ParsePassRef(value).Ok? ==> ParsePassRef(value).value.vault != "" && ParsePassRef(value).value.item != ""
  {
    hide UrlSplit, Split;
    var parts := NonEmpty(Split(UrlSplit(value).path, '/'));
    NonEmptyParts(Split(UrlSplit(value).path, '/'));
    if parts != [] { assert parts[0] in parts; }
  }

  /** Two selectors are never shown as the same reference. */
  lemma PrintRefInjective(v: string, i: string, f: string, v': string, i': string, f': string)
    requires IsBytes(v) && IsBytes(i) && IsBytes(f) && v != "" && i != "" && f != ""
    requires IsBytes(v') && IsBytes(i') && IsBytes(f') && v' != "" && i' != "" && f' != ""
    requires PrintRef(v, i, f) == PrintRef(v', i', f')
    ensures v == v' && i == i' && f == f'
  {
    ParsePrintRef(v, i, f);
    ParsePrintRef(v', i', f');
  }

  // ---------- the parts of a parsed reference ----------

  lemma {:induction false} UnquoteBytes(s: string)
    requires IsBytes(s)
    ensures IsBytes(Unquote(s)) && (s != "" ==> Unquote(s) != "")
  {
    if s != "" {
      UnquoteBytes(s[1..]);
      if |s| >= 3 { UnquoteBytes(s[3..]); }
    }
  }

  lemma {:induction false} SplitBytes(s: string, sep: char)
    requires IsBytes(s)
    ensures forall part :: part in Split(s, sep) ==> IsBytes(part)
  {
    if s != "" {
      SplitBytes(s[1..], sep);
      var rest := Split(s[1..], sep);
      assert rest[0] in rest && IsBytes([s[0]] + rest[0]);
    }
  }

  lemma {:induction false} NonEmptyParts(parts: seq<string>)
    ensures forall p :: p in NonEmpty(parts) ==> p != "" && p in parts
  {
    if parts != [] { NonEmptyParts(parts[1..]); }
  }

  lemma {:induction false} JoinBytes(parts: seq<string>)
    requires forall p :: p in parts ==> IsBytes(p) && p != ""
    ensures IsBytes(Join(parts, "/")) && (parts != [] ==> Join(parts, "/") != "")
  {
    if parts != [] {
      assert parts[0] in parts;
      if |parts| > 1 { JoinBytes(parts[1..]); }
    }
  }

  /** Every selector the parser stores has three non-empty parts, so it survives being shown and read back. */
  lemma StoredSelectorRoundTrip(value: string)
    requires IsBytes(value)
    requires ParsePassRef(value).Ok? && ParsePassRef(value).value.field.Some?
    ensures var s := ParsePassRef(value).value;
            && IsBytes(s.vault) && IsBytes(s.item) && IsBytes(s.field.value)
            && ParsePassRef(PrintRef(s.vault, s.item, s.field.value)) == ParsePassRef(value)
  {
    var parsed := UrlSplit(value);
    UrlSplitBytes(value);
    UnquoteBytes(parsed.netloc);
    SplitBytes(parsed.path, '/');
    var raw := NonEmpty(Split(parsed.path, '/'));
    NonEmptyParts(Split(parsed.path, '/'));
    forall i | 0 <= i < |raw| ensures IsBytes(Unquote(raw[i])) && Unquote(raw[i]) != "" {
      assert raw[i] in raw;
      UnquoteBytes(raw[i]);
    }
    JoinBytes(UnquoteAll(raw)[1..]);
    var s := ParsePassRef(value).value;
    ParsePrintRef(s.vault, s.item, s.field.value);
  }
}
