/**
 What an administrator may store as a capability (passd/service.py: `_normalize_capability_definition`):
 what every accepted definition guarantees, and when storing it again leaves its version alone.
 */
module Definitions {
  import opened Wrappers
  import opened Text
  import opened Urls
  import opened Refs
  import opened Json
  import opened Ordering
  import opened Capabilities

  // A float: its text, and the number it stands for.
  datatype Number = Number(repr: FloatRepr, value: real)

  // The dictionary that is passed in; a missing entry is None.
  datatype RawDefinition = RawDefinition(
    id: Option<string>, kind: Option<string>, description: Option<string>, backingUri: Option<string>,
    scheme: Option<string>, host: Option<string>, port: Option<int>, methods: seq<string>, pathPrefix: Option<string>,
    injectHeader: Option<string>, injectPrefix: Option<string>, staticHeaders: seq<(string, string)>, timeout: Option<Number>)

  const METHODS := ["GET", "POST", "PUT", "PATCH", "DELETE"]

  const ROUTING_HEADERS := ["host", ":authority", "proxy-authorization"]

  predicate IsIdStart(c: char) { 'a' <= c <= 'z' || IsDigit(c) }

  /** `[a-z0-9][a-z0-9._-]{0,127}` */
  predicate IsCapabilityId(id: string) {
    1 <= |id| <= 128 && IsIdStart(id[0]) && forall i :: 0 <= i < |id| ==> IsIdStart(id[i]) || id[i] in "._-"
  }

  predicate ValidHeaderName(name: string) {
    name != "" && Strip(name) == name && '\r' !in name && '\n' !in name && ':' !in name
  }

  predicate ValidHeaderValue(value: string) {
    '\r' !in value && '\n' !in value
  }

  /** The static headers; of two names that differ only in surrounding blanks the later one wins. */
  function StaticHeaders(pairs: seq<(string, string)>): Option<map<string, string>> {
    if pairs == [] then Some(map[])
    else
      var (name, value) := pairs[|pairs| - 1];
      match StaticHeaders(pairs[..|pairs| - 1])
      case None => None
      case Some(before) =>
        if ValidHeaderName(Strip(name)) && ValidHeaderValue(value) then Some(before[Strip(name) := value]) else None
  }

  predicate OverridesHeader(headers: map<string, string>, name: string) {
    exists key :: key in headers && Lower(key) == Lower(name)
  }

  predicate ValidStaticHeaders(headers: map<string, string>, injected: string) {
    && (forall key :: key in headers ==> ValidHeaderName(key) && ValidHeaderValue(headers[key]))
    && !OverridesHeader(headers, injected)
    && forall key :: key in headers ==> Lower(key) !in ROUTING_HEADERS
  }

  function MethodSet(methods: seq<string>): set<string> {
    set m | m in methods :: Upper(Strip(m))
  }

  function Timeout(raw: RawDefinition): Number {
    if raw.timeout.None? then Number("20.0", 20.0) else raw.timeout.value
  }

  function Port(raw: RawDefinition, scheme: string): int {
    if raw.port.None? || raw.port.value == 0 then (if scheme == "https" then 443 else 80) else raw.port.value
  }

  predicate HasField(uri: string) {
    ParsePassRef(uri).Ok? && ParsePassRef(uri).value.field.Some?
  }

  /** Id, kind, description, backing reference and scheme, in the order in which they are looked at. */
  function CheckHead(raw: RawDefinition, allowPrivate: bool): Option<Error> {
    var scheme := Lower(Strip(Or(raw.scheme, "https")));
    if !IsCapabilityId(Lower(Strip(Or(raw.id, "")))) || Strip(Or(raw.kind, "http_secret")) != "http_secret"
       || |Strip(Or(raw.description, ""))| > 300 || !HasField(Strip(Or(raw.backingUri, "")))
       || (scheme != "http" && scheme != "https") then Some(ValidationError)
    else if scheme == "http" && !allowPrivate then Some(PermissionDenied)
    else None
  }

  /** Everything after the scheme; every refusal here is a validation error. */
  predicate CheckTail(raw: RawDefinition, scheme: string) {
    var methods := MethodSet(raw.methods);
    var header := Strip(Or(raw.injectHeader, "Authorization"));
    var headers := StaticHeaders(raw.staticHeaders);
    && NormalizeHost(Or(raw.host, "")).Ok? && 1 <= Port(raw, scheme) <= 65535
    && methods != {} && (forall m :: m in methods ==> m in METHODS)
    && ValidPrefix(Strip(Or(raw.pathPrefix, "/")))
    && ValidHeaderName(header) && ValidHeaderValue(Or(raw.injectPrefix, ""))
    && headers.Some? && ValidStaticHeaders(headers.value, header)
    && 0.0 < Timeout(raw).value <= 60.0
  }

  function NormalizeDefinition(raw: RawDefinition, allowPrivate: bool): Result<Definition> {
    var scheme := Lower(Strip(Or(raw.scheme, "https")));
    var refused := CheckHead(raw, allowPrivate);
    if refused.Some? then Err(refused.value)
    else if !CheckTail(raw, scheme) then Err(ValidationError)
    else Ok(Definition(
      Lower(Strip(Or(raw.id, ""))), Strip(Or(raw.description, "")), Strip(Or(raw.backingUri, "")), scheme,
      NormalizeHost(Or(raw.host, "")).value, Port(raw, scheme), InOrder(Flat(MethodSet(raw.methods))),
      Strip(Or(raw.pathPrefix, "/")), Strip(Or(raw.injectHeader, "Authorization")), Or(raw.injectPrefix, ""),
      StaticHeaders(raw.staticHeaders).value, Timeout(raw).repr))
  }

  // ---------- what an accepted definition guarantees ----------

  /**
   The definition names exactly one field to inject; its prefix and headers are well-formed, no
   header value can start a new line, no static header replaces the injected or a routing header,
   and plain HTTP is possible only where private targets are.
   */
  lemma AcceptedDefinition(raw: RawDefinition, allowPrivate: bool)
    requires NormalizeDefinition(raw, allowPrivate).Ok?
    ensures var d := NormalizeDefinition(raw, allowPrivate).value;
            && IsCapabilityId(d.id) && BackingField(d).Some? && ValidPrefix(d.pathPrefix)
            && (d.scheme == "https" || (d.scheme == "http" && allowPrivate)) && 1 <= d.port <= 65535
            && d.methods != [] && (forall i, j :: 0 <= i < j < |d.methods| ==> Less(d.methods[i], d.methods[j]))
            && (forall m :: m in d.methods ==> m in METHODS)
            && ValidHeaderName(d.injectHeader) && ValidHeaderValue(d.injectPrefix) && ValidStaticHeaders(d.staticHeaders, d.injectHeader)
  {
    hide ParsePassRef, ValidPrefix, ValidStaticHeaders, StaticHeaders, NormalizeHost, IsCapabilityId, ValidHeaderName, ValidHeaderValue, InOrder, Strip;
    var d, methods := NormalizeDefinition(raw, allowPrivate).value, MethodSet(raw.methods);
    InOrderAscending(Flat(methods));
    forall i, j | 0 <= i < j < |d.methods| ensures Less(d.methods[i], d.methods[j]) {
      assert Before(Flat(methods), d.methods[i], d.methods[j]);
    }
    assert exists m :: m in methods && m in d.methods;
  }

  // ---------- exactly what is accepted, and what is stored ----------

  /** A name that may stand before the colon of a header line. */
  predicate HeaderName(name: string) {
    name != "" && Strip(name) == name && forall c :: c in name ==> c != '\r' && c != '\n' && c != ':'
  }

  predicate HeaderValue(value: string) {
    forall c :: c in value ==> c != '\r' && c != '\n'
  }

  /** Id, kind, description, backing reference and scheme are as they must be. */
  predicate ProperHead(raw: RawDefinition) {
    var id, scheme := Lower(Strip(Or(raw.id, ""))), Lower(Strip(Or(raw.scheme, "https")));
    && 1 <= |id| <= 128 && (forall c :: c in id ==> 'a' <= c <= 'z' || '0' <= c <= '9' || c == '.' || c == '_' || c == '-') && id[0] !in "._-"
    && Strip(Or(raw.kind, "http_secret")) == "http_secret" && |Strip(Or(raw.description, ""))| <= 300
    && ParsePassRef(Strip(Or(raw.backingUri, ""))).Ok? && ParsePassRef(Strip(Or(raw.backingUri, ""))).value.field.Some?
    && (scheme == "https" || scheme == "http")
  }

  /** The prefix is one absolute path without query, fragment and "..". */
  predicate ProperPrefix(prefix: string) {
    && prefix != "" && prefix[0] == '/' && (|prefix| > 1 ==> prefix[1] != '/') && |prefix| <= 2048
    && (forall c :: c in prefix ==> c != '\r' && c != '\n' && c != '?' && c != '#')
    && ".." !in Split(Unquote(prefix), '/')
  }

  /** Every name and value is well-formed, and no name is the injected or a routing header in any spelling. */
  predicate ProperHeaders(pairs: seq<(string, string)>, injected: string) {
    forall i :: 0 <= i < |pairs| ==>
      var name := Strip(pairs[i].0);
      && HeaderName(name) && HeaderValue(pairs[i].1) && Lower(name) != Lower(injected)
      && Lower(name) != "host" && Lower(name) != ":authority" && Lower(name) != "proxy-authorization"
  }

  /** Host, port, methods, prefix, headers and timeout are as they must be. */
  predicate ProperTail(raw: RawDefinition) {
    var header := Strip(Or(raw.injectHeader, "Authorization"));
    && NormalizeHost(Or(raw.host, "")).Ok? && (raw.port.Some? ==> 0 <= raw.port.value <= 65535)
    && raw.methods != [] && (forall i :: 0 <= i < |raw.methods| ==> Upper(Strip(raw.methods[i])) in ["GET", "POST", "PUT", "PATCH", "DELETE"])
    && ProperPrefix(Strip(Or(raw.pathPrefix, "/")))
    && HeaderName(header) && HeaderValue(Or(raw.injectPrefix, "")) && ProperHeaders(raw.staticHeaders, header)
    && (raw.timeout.Some? ==> 0.0 < raw.timeout.value.value <= 60.0)
  }

  /** Pair `i` is the last one of its name. */
  predicate LastOfName(pairs: seq<(string, string)>, i: nat)
    requires i < |pairs|
  {
    forall j :: i < j < |pairs| ==> Strip(pairs[j].0) != Strip(pairs[i].0)
  }

  ghost predicate HeadersStored(headers: map<string, string>, pairs: seq<(string, string)>) {
    && (forall i: nat :: i < |pairs| && LastOfName(pairs, i) ==> Strip(pairs[i].0) in headers && headers[Strip(pairs[i].0)] == pairs[i].1)
    && forall name :: name in headers ==> exists i: nat :: i < |pairs| && LastOfName(pairs, i) && Strip(pairs[i].0) == name
  }

  /** The stored definition, entry by entry; a missing, empty or zero entry stands for its default. */
  ghost predicate StoredFrom(d: Definition, raw: RawDefinition) {
    && d.id == Lower(Strip(Or(raw.id, ""))) && d.description == Strip(Or(raw.description, "")) && d.backingUri == Strip(Or(raw.backingUri, ""))
    && d.scheme == Lower(Strip(Or(raw.scheme, "https"))) && Ok(d.host) == NormalizeHost(Or(raw.host, ""))
    && (if raw.port.Some? && raw.port.value != 0 then d.port == raw.port.value
        else (d.scheme == "https" ==> d.port == 443) && (d.scheme == "http" ==> d.port == 80))
    && (forall m :: m in d.methods <==> exists i :: 0 <= i < |raw.methods| && Upper(Strip(raw.methods[i])) == m)
    && (forall i, j :: 0 <= i < j < |d.methods| ==> Less(d.methods[i], d.methods[j]))
    && d.pathPrefix == Strip(Or(raw.pathPrefix, "/"))
    && d.injectHeader == Strip(Or(raw.injectHeader, "Authorization")) && d.injectPrefix == Or(raw.injectPrefix, "")
    && HeadersStored(d.staticHeaders, raw.staticHeaders)
    && d.timeoutSeconds == if raw.timeout.Some? then raw.timeout.value.repr else "20.0"
  }

  lemma HeaderExactly(name: string, value: string)
    ensures ValidHeaderName(name) <==> HeaderName(name)
    ensures ValidHeaderValue(value) <==> HeaderValue(value)
  {
    hide Strip;
  }

  lemma IdExactly(id: string)
    ensures IsCapabilityId(id) <==>
              1 <= |id| <= 128 && (forall c :: c in id ==> 'a' <= c <= 'z' || '0' <= c <= '9' || c == '.' || c == '_' || c == '-') && id[0] !in "._-"
  {
    if forall c :: c in id ==> 'a' <= c <= 'z' || '0' <= c <= '9' || c == '.' || c == '_' || c == '-' {
      assert forall i :: 0 <= i < |id| ==> id[i] in id;
    }
  }

  lemma HeadExactly(raw: RawDefinition, allowPrivate: bool)
    ensures CheckHead(raw, allowPrivate) ==
              if !ProperHead(raw) then Some(ValidationError)
              else if Lower(Strip(Or(raw.scheme, "https"))) == "http" && !allowPrivate then Some(PermissionDenied) else None
  {
    hide Strip, Lower, ParsePassRef, IsCapabilityId;
    IdExactly(Lower(Strip(Or(raw.id, ""))));
  }

  lemma PrefixExactly(prefix: string)
    ensures ValidPrefix(prefix) <==> ProperPrefix(prefix)
  {
    hide Unquote, Split;
    assert |prefix| > 1 && prefix[0] == '/' && prefix[1] == '/' ==> prefix[..2] == "//";
    assert prefix != "" && prefix[0] == '/' ==> prefix[..1] == "/";
  }

  predicate ProperPairs(pairs: seq<(string, string)>) {
    forall i :: 0 <= i < |pairs| ==> HeaderName(Strip(pairs[i].0)) && HeaderValue(pairs[i].1)
  }

  lemma ProperInit(pairs: seq<(string, string)>)
    requires pairs != []
    ensures var n := |pairs| - 1; ProperPairs(pairs) <==> ProperPairs(pairs[..n]) && HeaderName(Strip(pairs[n].0)) && HeaderValue(pairs[n].1)
  {
    hide Strip, HeaderName, HeaderValue;
    assert forall i :: 0 <= i < |pairs| - 1 ==> pairs[..|pairs| - 1][i] == pairs[i];
  }

  lemma {:induction false} StaticHeadersExactly(pairs: seq<(string, string)>)
    ensures StaticHeaders(pairs).Some? <==> ProperPairs(pairs)
    ensures StaticHeaders(pairs).Some? ==> HeadersStored(StaticHeaders(pairs).value, pairs)
  {
    hide Strip, HeaderName, HeaderValue, ValidHeaderName, ValidHeaderValue, HeadersStored, ProperPairs;
    if pairs == [] {
      assert ProperPairs(pairs) && HeadersStored(map[], pairs) by { NoHeaders(pairs); }
    } else {
      var n := |pairs| - 1;
      StaticHeadersExactly(pairs[..n]);
      ProperInit(pairs);
      HeaderExactly(Strip(pairs[n].0), pairs[n].1);
      if StaticHeaders(pairs).Some? { LastPairStored(StaticHeaders(pairs[..n]).value, pairs); }
    }
  }

  lemma NoHeaders(pairs: seq<(string, string)>)
    requires pairs == []
    ensures ProperPairs(pairs) && HeadersStored(map[], pairs)
  {
  }

  lemma LastInInit(pairs: seq<(string, string)>, i: nat)
    requires i < |pairs| - 1
    ensures LastOfName(pairs, i) <==> LastOfName(pairs[..|pairs| - 1], i) && Strip(pairs[i].0) != Strip(pairs[|pairs| - 1].0)
  {
    hide Strip;
    var init := pairs[..|pairs| - 1];
    assert forall j :: 0 <= j < |init| ==> init[j] == pairs[j];
  }

  lemma LastIsLast(pairs: seq<(string, string)>)
    requires pairs != []
    ensures LastOfName(pairs, |pairs| - 1)
  {
  }

  lemma LastPairStored(before: map<string, string>, pairs: seq<(string, string)>)
    requires pairs != [] && HeadersStored(before, pairs[..|pairs| - 1])
    ensures HeadersStored(before[Strip(pairs[|pairs| - 1].0) := pairs[|pairs| - 1].1], pairs)
  {
    hide Strip, LastOfName;
    var n := |pairs| - 1;
    var init, name := pairs[..n], Strip(pairs[n].0);
    var after := before[name := pairs[n].1];
    LastIsLast(pairs);
    forall i: nat | i < |pairs| && LastOfName(pairs, i) ensures Strip(pairs[i].0) in after && after[Strip(pairs[i].0)] == pairs[i].1 {
      if i < n {
        LastInInit(pairs, i);
        assert init[i] == pairs[i];
      }
    }
    forall other | other in after ensures exists i: nat :: i < |pairs| && LastOfName(pairs, i) && Strip(pairs[i].0) == other {
      if other != name {
        var i: nat :| i < |init| && LastOfName(init, i) && Strip(init[i].0) == other;
        assert init[i] == pairs[i];
        LastInInit(pairs, i);
      }
    }
  }

  lemma {:induction false} EveryNameHasLast(pairs: seq<(string, string)>, i: nat) returns (last: nat)
    requires i < |pairs|
    ensures last < |pairs| && LastOfName(pairs, last) && Strip(pairs[last].0) == Strip(pairs[i].0)
    decreases |pairs| - i
  {
    hide Strip;
    if j :| i < j < |pairs| && Strip(pairs[j].0) == Strip(pairs[i].0) {
      last := EveryNameHasLast(pairs, j);
    } else {
      last := i;
    }
  }

  lemma HeadersExactly(pairs: seq<(string, string)>, injected: string)
    ensures StaticHeaders(pairs).Some? && ValidStaticHeaders(StaticHeaders(pairs).value, injected) <==> ProperHeaders(pairs, injected)
  {
    hide Strip, Lower, HeaderName, HeaderValue, ValidHeaderName, ValidHeaderValue, StaticHeaders;
    StaticHeadersExactly(pairs);
    if StaticHeaders(pairs).Some? {
      var headers := StaticHeaders(pairs).value;
      forall i | 0 <= i < |pairs| ensures Strip(pairs[i].0) in headers {
        var last := EveryNameHasLast(pairs, i);
      }
      forall key | key in headers ensures exists i :: 0 <= i < |pairs| && Strip(pairs[i].0) == key && headers[key] == pairs[i].1 {
        var i: nat :| i < |pairs| && LastOfName(pairs, i) && Strip(pairs[i].0) == key;
      }
      forall key | key in headers ensures ValidHeaderName(key) && ValidHeaderValue(headers[key]) { HeaderExactly(key, headers[key]); var i :| 0 <= i < |pairs| && Strip(pairs[i].0) == key && headers[key] == pairs[i].1; }
    }
  }

  lemma TailExactly(raw: RawDefinition, scheme: string)
    ensures CheckTail(raw, scheme) <==> ProperTail(raw)
  {
    hide Strip, Upper, NormalizeHost, ValidPrefix, ProperPrefix, ValidHeaderName, ValidHeaderValue, HeaderName, HeaderValue, StaticHeaders, ValidStaticHeaders, ProperHeaders;
    var header := Strip(Or(raw.injectHeader, "Authorization"));
    PrefixExactly(Strip(Or(raw.pathPrefix, "/")));
    HeaderExactly(header, Or(raw.injectPrefix, ""));
    HeadersExactly(raw.staticHeaders, header);
    MethodsExactly(raw.methods);
  }

  lemma MethodsExactly(names: seq<string>)
    ensures MethodSet(names) != {} <==> names != []
    ensures (forall m :: m in MethodSet(names) ==> m in METHODS)
            <==> forall i :: 0 <= i < |names| ==> Upper(Strip(names[i])) in ["GET", "POST", "PUT", "PATCH", "DELETE"]
    ensures forall m :: m in MethodSet(names) <==> exists i :: 0 <= i < |names| && Upper(Strip(names[i])) == m
  {
    hide Strip, Upper;
    forall i | 0 <= i < |names| ensures Upper(Strip(names[i])) in MethodSet(names) {
      assert names[i] in names;
    }
    if names != [] { assert Upper(Strip(names[0])) in MethodSet(names); }
  }

  /**
   A definition is accepted exactly if every entry is as it must be and plain HTTP is allowed; only
   the latter is a matter of permission. What is stored comes from the entries one by one.
   */
  lemma NormalizedExactly(raw: RawDefinition, allowPrivate: bool)
    ensures var r := NormalizeDefinition(raw, allowPrivate);
            var plain := Lower(Strip(Or(raw.scheme, "https"))) == "http";
            && (r.Ok? <==> ProperHead(raw) && ProperTail(raw) && (plain ==> allowPrivate))
            && (r.Err? ==> r.error == if ProperHead(raw) && plain && !allowPrivate then PermissionDenied else ValidationError)
            && (r.Ok? ==> StoredFrom(r.value, raw))
  {
    hide CheckHead, CheckTail, ProperHead, ProperTail, NormalizeHost, Strip, Lower, Upper, StaticHeaders, InOrder, HeadersStored;
    HeadExactly(raw, allowPrivate);
    TailExactly(raw, Lower(Strip(Or(raw.scheme, "https"))));
    if NormalizeDefinition(raw, allowPrivate).Ok? { EntriesStored(raw, allowPrivate); }
  }

  lemma StoredId(raw: RawDefinition, allowPrivate: bool)
    ensures NormalizeDefinition(raw, allowPrivate).Ok? ==> NormalizeDefinition(raw, allowPrivate).value.id == Lower(Strip(Or(raw.id, "")))
  {
    hide CheckHead, CheckTail, Strip, Lower;
  }

  lemma EntriesStored(raw: RawDefinition, allowPrivate: bool)
    requires NormalizeDefinition(raw, allowPrivate).Ok?
    ensures StoredFrom(NormalizeDefinition(raw, allowPrivate).value, raw)
  {
    hide CheckHead, ParsePassRef, ValidPrefix, ValidStaticHeaders, StaticHeaders, NormalizeHost, ValidHeaderName, ValidHeaderValue, InOrder, Strip, Lower, Upper, HeadersStored, MethodSet;
    var d, methods := NormalizeDefinition(raw, allowPrivate).value, MethodSet(raw.methods);
    MethodsExactly(raw.methods);
    StaticHeadersExactly(raw.staticHeaders);
    InOrderAscending(Flat(methods));
    forall i, j | 0 <= i < j < |d.methods| ensures Less(d.methods[i], d.methods[j]) {
      assert Before(Flat(methods), d.methods[i], d.methods[j]);
    }
    assert forall m :: m in d.methods <==> m in methods;
  }

  // ---------- storing a definition again ----------

  /** The pairs of a dictionary, in some order. */
  ghost predicate Lists(pairs: seq<(string, string)>, m: map<string, string>) {
    && (forall i :: 0 <= i < |pairs| ==> pairs[i].0 in m && m[pairs[i].0] == pairs[i].1)
    && (forall key :: key in m ==> exists i :: 0 <= i < |pairs| && pairs[i].0 == key)
  }

  /** The definition as `get_capability` returns it, ready to be stored again. */
  function Again(d: Definition, pairs: seq<(string, string)>, timeout: Number): RawDefinition {
    RawDefinition(Some(d.id), Some("http_secret"), Some(d.description), Some(d.backingUri), Some(d.scheme), Some(d.host),
                  Some(d.port), d.methods, Some(d.pathPrefix), Some(d.injectHeader), Some(d.injectPrefix), pairs, Some(timeout))
  }

  function Names(pairs: seq<(string, string)>): set<string> {
    if pairs == [] then {} else Names(pairs[..|pairs| - 1]) + {pairs[|pairs| - 1].0}
  }

  lemma {:induction false} NamesListed(pairs: seq<(string, string)>, i: nat)
    requires i < |pairs|
    ensures pairs[i].0 in Names(pairs)
  {
    if i < |pairs| - 1 { NamesListed(pairs[..|pairs| - 1], i); }
  }

  lemma {:induction false} StaticHeadersAgain(pairs: seq<(string, string)>, m: map<string, string>)
    requires forall key :: key in m ==> ValidHeaderName(key) && ValidHeaderValue(m[key])
    requires forall i :: 0 <= i < |pairs| ==> pairs[i].0 in m && m[pairs[i].0] == pairs[i].1
    ensures StaticHeaders(pairs).Some? && StaticHeaders(pairs).value.Keys == Names(pairs)
    ensures forall key :: key in StaticHeaders(pairs).value ==> key in m && StaticHeaders(pairs).value[key] == m[key]
  {
    hide ValidHeaderValue, ValidHeaderName, Strip;
    if pairs != [] {
      var n := |pairs| - 1;
      var init := pairs[..n];
      assert forall i :: 0 <= i < |init| ==> init[i] == pairs[i];
      StaticHeadersAgain(init, m);
      assert pairs[n].0 in m && m[pairs[n].0] == pairs[n].1;
      ValidNameStripped(pairs[n].0);
    }
  }

  lemma ValidNameStripped(name: string)
    requires ValidHeaderName(name)
    ensures Strip(name) == name && name != ""
  {
  }

  lemma MethodsAgain(raw: RawDefinition)
    requires forall m :: m in MethodSet(raw.methods) ==> m in METHODS
    ensures MethodSet(InOrder(Flat(MethodSet(raw.methods)))) == MethodSet(raw.methods)
  {
    hide Strip, Upper, InOrder;
    var methods := MethodSet(raw.methods);
    InOrderAscending(Flat(methods));
    forall m | m in methods ensures Upper(Strip(m)) == m { KnownMethod(m); }
    assert forall m :: m in InOrder(Flat(methods)) <==> m in methods;
  }

  lemma KnownMethod(m: string)
    requires m in METHODS
    ensures Upper(Strip(m)) == m
  {
    hide Strip;
    StripPlain(m);
    assert forall i :: 0 <= i < |m| ==> UpperChar(m[i]) == m[i];
  }

  lemma IdAgain(id: string)
    requires IsCapabilityId(id)
    ensures Lower(Strip(id)) == id
  {
    hide Strip, Lower;
    StripPlain(id);
    LowerPlain(id);
  }

  lemma StripTwice(s: string)
    ensures Strip(Strip(s)) == Strip(s)
  {
    StripPlain(Strip(s));
  }

  lemma SchemeAgain(scheme: string)
    requires scheme == "http" || scheme == "https"
    ensures Lower(Strip(scheme)) == scheme
  {
    hide Strip, Lower;
    StripPlain(scheme);
    LowerPlain(scheme);
  }

  lemma HeadAgain(raw: RawDefinition, allowPrivate: bool, pairs: seq<(string, string)>)
    requires NormalizeDefinition(raw, allowPrivate).Ok?
    ensures var d := NormalizeDefinition(raw, allowPrivate).value;
            var again := Again(d, pairs, Timeout(raw));
            && CheckHead(again, allowPrivate).None?
            && Lower(Strip(again.id.value)) == d.id && Strip(again.description.value) == d.description
            && Strip(again.backingUri.value) == d.backingUri && Lower(Strip(Or(again.scheme, "https"))) == d.scheme
  {
    hide ParsePassRef, IsCapabilityId, CheckTail, Strip, Lower, StaticHeaders, MethodSet, InOrder;
    var d := NormalizeDefinition(raw, allowPrivate).value;
    IdAgain(d.id);
    StripTwice(Or(raw.description, ""));
    StripTwice(Or(raw.backingUri, ""));
    SchemeAgain(d.scheme);
    KindAgain();
  }

  lemma TailAgain(raw: RawDefinition, allowPrivate: bool, pairs: seq<(string, string)>)
    requires NormalizeDefinition(raw, allowPrivate).Ok?
    requires Lists(pairs, NormalizeDefinition(raw, allowPrivate).value.staticHeaders)
    ensures var d := NormalizeDefinition(raw, allowPrivate).value;
            var again := Again(d, pairs, Timeout(raw));
            && (CheckTail(again, d.scheme) <==> NormalizeHost(d.host).Ok?)
            && Port(again, d.scheme) == d.port && InOrder(Flat(MethodSet(again.methods))) == d.methods
            && Strip(Or(again.pathPrefix, "/")) == d.pathPrefix && Strip(Or(again.injectHeader, "Authorization")) == d.injectHeader
            && StaticHeaders(again.staticHeaders) == Some(d.staticHeaders)
  {
    hide ValidPrefix, ValidStaticHeaders, NormalizeHost, ValidHeaderName, ValidHeaderValue, InOrder, Strip, StaticHeaders, MethodSet, Lower, CheckHead, Lists;
    var d := NormalizeDefinition(raw, allowPrivate).value;
    StripTwice(Or(raw.pathPrefix, "/"));
    StripTwice(Or(raw.injectHeader, "Authorization"));
    MethodsAgain(raw);
    HeadersListed(pairs, d.staticHeaders, d.injectHeader);
    PrefixNotEmpty(d.pathPrefix);
    ValidNameStripped(d.injectHeader);
  }

  /** Everything but the host is unchanged by a second normalisation. */
  lemma AllButHostAgain(raw: RawDefinition, allowPrivate: bool, pairs: seq<(string, string)>)
    requires NormalizeDefinition(raw, allowPrivate).Ok?
    requires Lists(pairs, NormalizeDefinition(raw, allowPrivate).value.staticHeaders)
    ensures var d := NormalizeDefinition(raw, allowPrivate).value;
            var again := Again(d, pairs, Timeout(raw));
            NormalizeDefinition(again, allowPrivate) ==
              if NormalizeHost(d.host).Ok? then Ok(d.(host := NormalizeHost(d.host).value)) else Err(ValidationError)
  {
    hide CheckHead, CheckTail, NormalizeHost, InOrder, Strip, StaticHeaders, MethodSet, Lower, Lists, Port;
    HeadAgain(raw, allowPrivate, pairs);
    TailAgain(raw, allowPrivate, pairs);
  }

  lemma KindAgain()
    ensures Strip("http_secret") == "http_secret"
  {
    StripPlain("http_secret");
  }

  lemma PrefixNotEmpty(prefix: string)
    requires ValidPrefix(prefix)
    ensures prefix != ""
  {
  }

  lemma HeadersListed(pairs: seq<(string, string)>, m: map<string, string>, injected: string)
    requires Lists(pairs, m) && ValidStaticHeaders(m, injected)
    ensures StaticHeaders(pairs) == Some(m)
  {
    hide StaticHeaders, ValidHeaderName, ValidHeaderValue;
    StaticHeadersAgain(pairs, m);
    var listed := StaticHeaders(pairs).value;
    forall key | key in m ensures key in Names(pairs) {
      var i :| 0 <= i < |pairs| && pairs[i].0 == key;
      NamesListed(pairs, i);
    }
    assert listed.Keys == m.Keys;
    assert listed == m;
  }

  // ---------- the host ----------

  lemma NetlocOf(raw: string)
    ensures var w := RemoveLineBreaks(raw);
            UrlSplit("//" + raw).netloc == w[..IndexOfAny(w, "/?#")]
  {
    hide RemoveLineBreaks, DropLeadingControls, IsScheme, SplitTail, IndexOfAny, Lower;
    var w := RemoveLineBreaks(raw);
    PlainSlashes(raw);
    var u := "//" + w;
    var colon := IndexOfAny(u, ":");
    NoSchemeFirst(u, colon);
    assert u[2..] == w;
    var end := IndexOfAny(w, "/?#");
    assert u[2..2 + end] == w[..end];
    TailNetloc(w[..end], u[2 + end..]);
  }

  lemma TailNetloc(netloc: string, rest: string)
    ensures SplitTail("", netloc, rest).netloc == netloc
  {
  }

  lemma NoSchemeFirst(u: string, colon: nat)
    requires u != "" && u[0] == '/' && colon <= |u|
    ensures !IsScheme(u[..colon])
  {
    assert colon > 0 ==> u[..colon][0] == '/';
  }

  lemma PlainSlashes(raw: string)
    ensures RemoveLineBreaks(DropLeadingControls("//" + raw)) == "//" + RemoveLineBreaks(raw)
  {
    var url := "//" + raw;
    assert url[0] == '/' && url[1..] == "/" + raw && ("/" + raw)[1..] == raw;
    assert RemoveLineBreaks("/" + raw) == "/" + RemoveLineBreaks(raw);
  }

  /** A host that normalisation returned: lower case, and none of the characters that end or extend a host. */
  predicate CleanHost(h: string) {
    && h != "" && h[0] != '.' && h[|h| - 1] != '.' && !IsSpace(h[0])
    && forall c :: c in h ==> LowerChar(c) == c && c !in "/?#:@" && !IsLineBreak(c)
  }

  lemma LowerChars(s: string)
    ensures |Lower(s)| == |s| && forall i :: 0 <= i < |s| ==> Lower(s)[i] == LowerChar(s[i])
    ensures forall c :: c in Lower(s) ==> LowerChar(c) == c
  {
  }

  /** The text of a host before '.' is stripped, and the name inside it. */
  function HostText(host: string): string {
    RStripChar(Lower(Strip(host)), '.')
  }

  function HostName(text: string): string {
    var w := RemoveLineBreaks(text);
    var netloc := w[..IndexOfAny(w, "/?#")];
    netloc[..IndexOfAny(netloc, ":")]
  }

  /**
   A host is accepted exactly if, stripped of blanks and final dots, it is not empty, does not begin
   with a dot, has no '/' and no '@', and has a name and no port; the name is what is kept.
   */
  lemma NormalizeHostExactly(host: string)
    ensures var text := HostText(host);
            var r := NormalizeHost(host);
            && (r.Ok? <==> text != "" && text[0] != '.' && '/' !in text && '@' !in text && HostName(text) != "" && !HasPort(text))
            && (r.Ok? ==> r.value == RStripChar(Lower(HostName(text)), '.')) && (r.Err? ==> r.error == ValidationError)
  {
    hide RemoveLineBreaks, IndexOfAny, Lower, Strip, UrlSplit;
    var text := HostText(host);
    NetlocOf(text);
    var w := RemoveLineBreaks(text);
    var netloc := w[..IndexOfAny(w, "/?#")];
    var colon := IndexOfAny(netloc, ":");
    assert colon < |netloc| ==> netloc == netloc[..colon] + [netloc[colon]] + netloc[colon + 1..];
  }

  /** Something follows the colon of the authority. */
  predicate HasPort(text: string) {
    var w := RemoveLineBreaks(text);
    var netloc := w[..IndexOfAny(w, "/?#")];
    IndexOfAny(netloc, ":") + 1 < |netloc|
  }

  lemma NormalizeHostName(host: string)
    requires NormalizeHost(host).Ok?
    ensures var text := HostText(host);
            && text != "" && text[0] != '.' && !IsSpace(text[0]) && '@' !in text && HostName(text) != ""
            && (forall c :: c in text ==> LowerChar(c) == c)
            && NormalizeHost(host).value == RStripChar(Lower(HostName(text)), '.') && |text| <= |Strip(host)|
  {
    hide RemoveLineBreaks, IndexOfAny, Lower, Strip, UrlSplit;
    var text := HostText(host);
    NetlocOf(text);
    LowerChars(Strip(host));
    assert text[0] == LowerChar(Strip(host)[0]);
  }

  lemma HostNameChars(text: string)
    ensures |HostName(text)| <= |text|
    ensures forall c :: c in HostName(text) ==> c in text && c !in "/?#:" && !IsLineBreak(c)
    ensures HostName(text) != "" && text != "" && !IsLineBreak(text[0]) ==> HostName(text)[0] == text[0]
  {
    RemoveLineBreaksKeeps(text);
    var w := RemoveLineBreaks(text);
    var netloc := w[..IndexOfAny(w, "/?#")];
    forall c | c in HostName(text) ensures c in w && c !in "/?#:" {
      var i :| 0 <= i < |HostName(text)| && HostName(text)[i] == c;
      assert w[i] == netloc[i] == c;
    }
  }

  lemma StripDotsKeepsHead(s: string)
    requires s != "" && s[0] != '.'
    ensures RStripChar(s, '.') != "" && RStripChar(s, '.')[0] == s[0]
  {
  }

  lemma NormalizedHostClean(host: string)
    requires NormalizeHost(host).Ok?
    ensures CleanHost(NormalizeHost(host).value) && |NormalizeHost(host).value| <= |Strip(host)|
  {
    hide NormalizeHost, HostText, HostName;
    var text := HostText(host);
    var name := HostName(text);
    NormalizeHostName(host);
    HostNameChars(text);
    LowerPlain(name);
    StripDotsKeepsHead(name);
    assert forall c :: c in RStripChar(name, '.') ==> c in name;
  }

  /** A clean host without a trailing blank is its own normal form. */
  lemma CleanHostStays(h: string)
    requires CleanHost(h) && !IsSpace(h[|h| - 1])
    ensures NormalizeHost(h) == Ok(h)
  {
    StripPlain(h);
    LowerPlain(h);
    assert HostText(h) == h;
    NetlocOf(h);
    RemoveLineBreaksKeeps(h);
    WholeIndex(h, "/?#");
    WholeIndex(h, ":");
    assert h[..|h|] == h;
  }

  lemma {:induction false} WholeIndex(s: string, stops: string)
    requires forall c :: c in s ==> c !in stops
    ensures IndexOfAny(s, stops) == |s|
  {
    if s != "" { WholeIndex(s[1..], stops); }
  }

  /** Normalising a normalised host changes it exactly when it ends in a blank (left in front of a port colon). */
  lemma NormalizeHostAgain(host: string)
    requires NormalizeHost(host).Ok?
    ensures var h := NormalizeHost(host).value;
            h != "" && (NormalizeHost(h) == Ok(h) <==> !IsSpace(h[|h| - 1]))
  {
    hide NormalizeHost;
    NormalizedHostClean(host);
    var h := NormalizeHost(host).value;
    if IsSpace(h[|h| - 1]) {
      StripShorter(h);
      if NormalizeHost(h).Ok? { NormalizedHostClean(h); }
    } else {
      CleanHostStays(h);
    }
  }

  /** The smallest host that is not stable. */
  lemma UnstableHost()
    ensures NormalizeHost("a :") == Ok("a ") && NormalizeHost("a ") == Ok("a")
  {
    hide Strip;
    BlankBeforeColon();
    TrailingBlank();
    StripPlain("a");
    CleanHostStays("a");
  }

  lemma BlankBeforeColon()
    ensures NormalizeHost("a :") == Ok("a ")
  {
    hide RStripChar, RemoveLineBreaks, Strip, UrlSplit, IndexOfAny, Lower;
    StripPlain("a :");
    LowerPlain("a :");
    LowerPlain("a ");
    NetlocOf("a :");
    RemoveLineBreaksKeeps("a :");
    WholeIndex("a :", "/?#");
    IndexOfAnyConcat("a ", ":", ":");
    RStripCharPlain("a :", '.');
    RStripCharPlain("a ", '.');
    assert "a " + ":" == "a :" && "a :"[..3] == "a :" && "a :"[..2] == "a ";
  }

  lemma TrailingBlank()
    ensures Strip("a ") == "a"
  {
    assert LStrip("a ") == "a " && "a "[..1] == "a";
  }

  /**
   Storing a definition again, as the service returned it, keeps the version (and with it every
   lease and pending request) exactly when its host does not end in a blank.
   */
  lemma PutAgainKeepsVersion(rootKey: string, raw: RawDefinition, allowPrivate: bool, pairs: seq<(string, string)>)
    requires NormalizeDefinition(raw, allowPrivate).Ok?
    requires Lists(pairs, NormalizeDefinition(raw, allowPrivate).value.staticHeaders)
    ensures var d := NormalizeDefinition(raw, allowPrivate).value;
            var again := NormalizeDefinition(Again(d, pairs, Timeout(raw)), allowPrivate);
            d.host != "" &&
            ((again.Ok? && DefinitionVersion(rootKey, again.value) == DefinitionVersion(rootKey, d)) <==> !IsSpace(d.host[|d.host| - 1]))
  {
    hide DefinitionVersion, NormalizeHost, CheckHead, StaticHeaders, Again, Strip, Lower, InOrder;
    var d := NormalizeDefinition(raw, allowPrivate).value;
    var again := NormalizeDefinition(Again(d, pairs, Timeout(raw)), allowPrivate);
    AllButHostAgain(raw, allowPrivate, pairs);
    NormalizeHostAgain(Or(raw.host, ""));
    if again.Ok? && DefinitionVersion(rootKey, again.value) == DefinitionVersion(rootKey, d) {
      DefinitionVersionInjective(rootKey, again.value, d);
    }
  }
}
