/**
 Capability definitions and the gates on method, path and host
 (passd/service.py: `_validate_capability_invocation`, `_path_in_capability`, `_normalize_host`,
 `_host_allowed`). A definition is what `_normalize_capability_definition` returns.
 */
module Capabilities {
  import opened Wrappers
  import opened Text
  import opened Urls
  import opened Refs
  import opened Json
  import opened Authority

  datatype Definition = Definition(
    id: string, description: string, backingUri: string, scheme: string, host: string, port: int,
    methods: seq<string>, pathPrefix: string, injectHeader: string, injectPrefix: string,
    staticHeaders: map<string, string>, timeoutSeconds: FloatRepr)

  function StrArr(items: seq<string>): Value {
    Arr(seq(|items|, i requires 0 <= i < |items| => Str(items[i])))
  }

  function StrObj(members: map<string, string>): Value {
    Obj(map key | key in members :: Str(members[key]))
  }

  /** The dictionary that is hashed into the version and sealed at rest. */
  function DefinitionJson(d: Definition): Value {
    Obj(map[
      "id" := Str(d.id), "description" := Str(d.description), "kind" := Str("http_secret"),
      "backing_uri" := Str(d.backingUri), "scheme" := Str(d.scheme), "host" := Str(d.host),
      "port" := Int(d.port), "methods" := StrArr(d.methods), "path_prefix" := Str(d.pathPrefix),
      "inject_header" := Str(d.injectHeader), "inject_prefix" := Str(d.injectPrefix),
      "static_headers" := StrObj(d.staticHeaders), "timeout_seconds" := Float(d.timeoutSeconds)])
  }

  function DefinitionVersion(rootKey: string, d: Definition): string {
    CapabilityVersion(rootKey, DefinitionJson(d))
  }

  lemma StrArrInjective(a: seq<string>, b: seq<string>)
    requires StrArr(a) == StrArr(b)
    ensures a == b
  {
    assert |a| == |StrArr(a).items| && |b| == |StrArr(b).items|;
    forall i | 0 <= i < |a| ensures a[i] == b[i] {
      assert StrArr(a).items[i] == Str(a[i]) && StrArr(b).items[i] == Str(b[i]);
    }
  }

  lemma StrObjInjective(a: map<string, string>, b: map<string, string>)
    requires StrObj(a) == StrObj(b)
    ensures a == b
  {
    assert StrObj(a).members.Keys == a.Keys && StrObj(b).members.Keys == b.Keys;
    forall key | key in a ensures key in b && a[key] == b[key] {
      assert key in StrObj(b).members && StrObj(a).members[key] == Str(a[key]) && StrObj(b).members[key] == Str(b[key]);
    }
    forall key | key in b ensures key in a {
      assert key in StrObj(a).members;
    }
  }

  lemma DefinitionMembers(d: Definition)
    ensures var m := DefinitionJson(d).members;
            && "id" in m && "description" in m && "backing_uri" in m && "scheme" in m && "host" in m && "port" in m
            && "methods" in m && "path_prefix" in m && "inject_header" in m && "inject_prefix" in m
            && "static_headers" in m && "timeout_seconds" in m
            && m["id"] == Str(d.id) && m["description"] == Str(d.description) && m["backing_uri"] == Str(d.backingUri)
            && m["scheme"] == Str(d.scheme) && m["host"] == Str(d.host) && m["port"] == Int(d.port)
            && m["methods"] == StrArr(d.methods) && m["path_prefix"] == Str(d.pathPrefix)
            && m["inject_header"] == Str(d.injectHeader) && m["inject_prefix"] == Str(d.injectPrefix)
            && m["static_headers"] == StrObj(d.staticHeaders) && m["timeout_seconds"] == Float(d.timeoutSeconds)
  {
  }

  lemma DefinitionJsonInjective(d: Definition, e: Definition)
    requires DefinitionJson(d) == DefinitionJson(e)
    ensures d == e
  {
    DefinitionMembers(d);
    DefinitionMembers(e);
    StrArrInjective(d.methods, e.methods);
    StrObjInjective(d.staticHeaders, e.staticHeaders);
  }

  /** Every field of a definition, public or private, is bound by its version. */
  lemma DefinitionVersionInjective(rootKey: string, d: Definition, e: Definition)
    requires DefinitionVersion(rootKey, d) == DefinitionVersion(rootKey, e)
    ensures d == e
  {
    KeyedVersionInjective(rootKey, "passd/capability/version/v1", DefinitionJson(d),
                          rootKey, "passd/capability/version/v1", DefinitionJson(e), "cv1_");
    DefinitionJsonInjective(d, e);
  }

  /** The one field that a capability injects; normalisation refuses a reference without one. */
  function BackingField(d: Definition): Option<string> {
    match ParsePassRef(d.backingUri)
    case Ok(selector) => selector.field
    case Err(_) => None
  }

  // ---------- method and path ----------

  function PathInCapability(path: string, prefix: string): bool {
    if prefix == "/" then true
    else
      var base := RStripChar(prefix, '/');
      path == base || StartsWith(path, base + "/")
  }

  predicate HasParent(path: string) {
    ".." in Split(path, '/')
  }

  predicate IsOnePath(path: string) {
    StartsWith(path, "/") && !StartsWith(path, "//") && '\r' !in path && '\n' !in path
  }

  /** The path that is sent, or the reason why it is refused. */
  function ValidatePath(prefix: string, path: string): Result<string> {
    if !IsOnePath(Strip(path)) then Err(ValidationError)
    else
      var parsed := UrlSplit(Strip(path));
      if parsed.scheme != "" || parsed.netloc != "" || parsed.query != "" || parsed.fragment != "" then Err(ValidationError)
      else if HasParent(Unquote(parsed.path)) then Err(ValidationError)
      else if !PathInCapability(Unquote(parsed.path), Unquote(prefix)) then Err(PermissionDenied)
      else Ok(parsed.path)
  }

  function ValidateInvocation(d: Definition, verb: string, path: string): Result<(string, string)> {
    if Upper(Strip(verb)) !in d.methods then Err(PermissionDenied)
    else
      match ValidatePath(d.pathPrefix, path)
      case Ok(sent) => Ok((Upper(Strip(verb)), sent))
      case Err(e) => Err(e)
  }

  /** What normalisation accepts as a path prefix. */
  predicate ValidPrefix(prefix: string) {
    && StartsWith(prefix, "/") && !StartsWith(prefix, "//")
    && '\r' !in prefix && '\n' !in prefix && '?' !in prefix && '#' !in prefix
    && !HasParent(Unquote(prefix)) && |prefix| <= 2048
  }

  // ---------- containment is containment of segments ----------

  function Segments(path: string): seq<string> {
    Split(path, '/')
  }

  /** For an absolute or empty path, the string test is exactly the prefix order on segment lists. */
  lemma PathInCapabilitySegments(path: string, prefix: string)
    requires path == "" || StartsWith(path, "/")
    ensures PathInCapability(path, prefix) <==> Segments(RStripChar(prefix, '/')) <= Segments(path)
  {
    var base := RStripChar(prefix, '/');
    if prefix == "/" {
      assert base == "";
      RootSegments(path);
    } else if PathInCapability(path, prefix) {
      if path != base {
        var rest := path[|base| + 1..];
        assert path == base + "/" + rest;
        SplitConcat(base, rest, '/');
      }
    } else if Segments(base) <= Segments(path) {
      SegmentsPrefix(base, path);
    }
  }

  lemma RootSegments(path: string)
    requires path == "" || StartsWith(path, "/")
    ensures Segments("") <= Segments(path)
  {
    assert Segments("") == [""];
    if path != "" {
      assert path == "" + "/" + path[1..];
      SplitConcat("", path[1..], '/');
    }
  }

  lemma SegmentsPrefix(base: string, path: string)
    requires Segments(base) <= Segments(path)
    ensures path == base || StartsWith(path, base + "/")
  {
    var rest := Segments(path)[|Segments(base)|..];
    assert Segments(path) == Segments(base) + rest;
    JoinSplit(base, '/');
    JoinSplit(path, '/');
    if rest == [] {
      assert Segments(path) == Segments(base);
    } else {
      JoinConcat(Segments(base), rest, "/");
      assert path == base + "/" + Join(rest, "/");
    }
  }

  /**
   The segments left by the dot-segment removal of section 5.2.4 of RFC 3986: "." is dropped and
   ".." removes the segment before it. (The empty segment that the RFC leaves after a final dot
   segment is not kept.)
   */
  function RemoveDots(segments: seq<string>): seq<string> {
    if segments == [] then []
    else
      var before := RemoveDots(segments[..|segments| - 1]);
      var last := segments[|segments| - 1];
      if last == "." then before
      else if last == ".." then (if before == [] then [] else before[..|before| - 1])
      else before + [last]
  }

  lemma {:induction false} RemoveDotsPrefix(base: seq<string>, segments: seq<string>)
    requires base <= segments && ".." !in segments
    ensures RemoveDots(base) <= RemoveDots(segments)
    decreases |segments|
  {
    if base != segments {
      RemoveDotsPrefix(base, segments[..|segments| - 1]);
    }
  }

  lemma AcceptedPath(prefix: string, path: string)
    requires ValidatePath(prefix, path).Ok?
    ensures var sent := ValidatePath(prefix, path).value;
            && StartsWith(Strip(path), "/") && sent == UrlSplit(Strip(path)).path
            && ".." !in Segments(Unquote(sent)) && PathInCapability(Unquote(sent), Unquote(prefix))
  {
  }

  /** An accepted path lies inside the prefix, segment by segment, and stays there once dot segments are removed. */
  lemma AcceptedPathStaysInside(prefix: string, path: string)
    requires ValidatePath(prefix, path).Ok?
    ensures var sent := Segments(Unquote(ValidatePath(prefix, path).value));
            var base := Segments(RStripChar(Unquote(prefix), '/'));
            base <= sent && ".." !in sent && RemoveDots(base) <= RemoveDots(sent)
  {
    var sent := ValidatePath(prefix, path).value;
    AcceptedPath(prefix, path);
    SplitAbsolutePath(Strip(path));
    UnquoteAbsolute(sent);
    PathInCapabilitySegments(Unquote(sent), Unquote(prefix));
    RemoveDotsPrefix(Segments(RStripChar(Unquote(prefix), '/')), Segments(Unquote(sent)));
  }

  /**
   The call is within the definition: its method is listed, its path is one absolute path without
   authority, query and fragment, and its decoded segments extend those of the prefix without "..".
   `name` and `sent` are what is then sent.
   */
  predicate Permits(d: Definition, verb: string, path: string, name: string, sent: string) {
    && name == Upper(Strip(verb)) && name in d.methods && PathText(path, sent)
    && Segments(RStripChar(Unquote(d.pathPrefix), '/')) <= Segments(Unquote(sent))
  }

  predicate PathText(path: string, sent: string) {
    var p := Strip(path);
    && p != "" && p[0] == '/' && (|p| > 1 ==> p[1] != '/') && (forall c :: c in p ==> c != '\r' && c != '\n')
    && UrlSplit(p) == SplitUrl("", "", sent, "", "") && ".." !in Segments(Unquote(sent))
  }

  lemma PathTextExactly(path: string, sent: string)
    ensures PathText(path, sent) <==>
              IsOnePath(Strip(path)) && UrlSplit(Strip(path)) == SplitUrl("", "", sent, "", "") && !HasParent(Unquote(sent))
  {
    hide Strip, UrlSplit, Unquote, Split, IsOnePath;
    OnePathChars(Strip(path));
  }

  lemma OnePathChars(p: string)
    ensures IsOnePath(p) <==> p != "" && p[0] == '/' && (|p| > 1 ==> p[1] != '/') && forall c :: c in p ==> c != '\r' && c != '\n'
  {
    assert |p| > 1 && p[0] == '/' && p[1] == '/' ==> p[..2] == "//";
    assert p != "" && p[0] == '/' ==> p[..1] == "/";
  }

  /** A call is accepted exactly if the definition permits it; a listed method outside the prefix and an unlisted one are not allowed, all else is malformed. */
  lemma InvocationExactly(d: Definition, verb: string, path: string)
    ensures forall name, sent :: ValidateInvocation(d, verb, path) == Ok((name, sent)) <==> Permits(d, verb, path, name, sent)
    ensures ValidateInvocation(d, verb, path).Err? ==>
              ValidateInvocation(d, verb, path).error ==
                if Upper(Strip(verb)) !in d.methods || (exists sent :: PathText(path, sent)) then PermissionDenied else ValidationError
  {
    hide Strip, Upper, UrlSplit, Unquote, PathInCapability, PathText, RStripChar, Split, IsOnePath, HasParent;
    var p := Strip(path);
    var sent := UrlSplit(p).path;
    PathTextExactly(path, sent);
    forall other | PathText(path, other) ensures other == sent && UrlSplit(p) == SplitUrl("", "", sent, "", "") { PathTextExactly(path, other); }
    if PathText(path, sent) {
      OnePathAbsolute(p);
      SplitAbsolutePath(p);
      UnquoteAbsolute(sent);
      PathInCapabilitySegments(Unquote(sent), Unquote(d.pathPrefix));
    }
  }

  lemma OnePathAbsolute(p: string)
    requires IsOnePath(p)
    ensures StartsWith(p, "/")
  {
  }

  lemma UnquoteAbsolute(path: string)
    requires path == "" || StartsWith(path, "/")
    ensures Unquote(path) == "" || StartsWith(Unquote(path), "/")
  {
  }

  lemma SplitAbsolutePath(p: string)
    requires StartsWith(p, "/")
    ensures UrlSplit(p).path == "" || StartsWith(UrlSplit(p).path, "/")
  {
    var u := RemoveLineBreaks(DropLeadingControls(p));
    assert u[0] == '/';
    var colon := IndexOfAny(u, ":");
    assert !(colon < |u| && IsScheme(u[..colon]));
    if StartsWith(u, "//") {
      var end := IndexOfAny(u[2..], "/?#");
      SplitTailPath(u[2..2 + end], u[2 + end..]);
    } else {
      SplitTailPath("", u);
    }
  }

  lemma SplitTailPath(netloc: string, rest: string)
    requires rest != "" ==> rest[0] in "/?#"
    ensures SplitTail("", netloc, rest).path == "" || StartsWith(SplitTail("", netloc, rest).path, "/")
  {
  }

  // ---------- hosts ----------

  /** `_normalize_host`, for names without brackets. */
  function NormalizeHost(host: string): Result<string> {
    var raw := RStripChar(Lower(Strip(host)), '.');
    if raw == "" || '/' in raw || '@' in raw || raw[0] == '.' then Err(ValidationError)
    else
      var netloc := UrlSplit("//" + raw).netloc;
      var colon := IndexOfAny(netloc, ":");
      if colon == 0 || colon + 1 < |netloc| then Err(ValidationError)
      else Ok(RStripChar(Lower(netloc[..colon]), '.'))
  }

  predicate PatternAllows(host: string, pattern: string) {
    var h := RStripChar(Lower(host), '.');
    var p := RStripChar(Lower(pattern), '.');
    if StartsWith(p, "*.") then
      var suffix := p[1..];
      |suffix| <= |h| && h[|h| - |suffix|..] == suffix && h != suffix[1..]
    else h == p
  }

  predicate HostAllowed(host: string, patterns: seq<string>) {
    exists i :: 0 <= i < |patterns| && PatternAllows(host, patterns[i])
  }
}
