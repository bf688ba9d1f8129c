/**
 The HTTP request that an invocation sends (passd/service.py: `invoke_capability`): its URL and
 headers are rebuilt from the definition, and mean exactly the approved target.
 */
module Outbound {
  import opened Wrappers
  import opened Text
  import opened Urls
  import opened Refs
  import opened Json
  import opened Capabilities
  import opened Definitions
  import opened Lookups
  import opened Redaction

  // One request that leaves the service.
  datatype Request = Request(leaseId: string, agentId: string, url: string, verb: string, headers: map<string, string>, body: Option<string>)

  function PortSuffix(d: Definition): string {
    if d.port == (if d.scheme == "https" then 443 else 80) then "" else ":" + PrintInt(d.port)
  }

  function Url(d: Definition, path: string): string {
    d.scheme + "://" + d.host + PortSuffix(d) + path
  }

  function Headers(d: Definition, secret: string): map<string, string> {
    d.staticHeaders[d.injectHeader := d.injectPrefix + secret]
  }

  /** What every stored definition satisfies. */
  predicate Stored(d: Definition) {
    CleanHost(d.host) && (d.scheme == "http" || d.scheme == "https") && 1 <= d.port <= 65535 && ValidStaticHeaders(d.staticHeaders, d.injectHeader)
  }

  lemma AcceptedIsStored(raw: RawDefinition, allowPrivate: bool)
    requires NormalizeDefinition(raw, allowPrivate).Ok?
    ensures Stored(NormalizeDefinition(raw, allowPrivate).value)
  {
    hide ParsePassRef, ValidPrefix, ValidStaticHeaders, StaticHeaders, NormalizeHost, IsCapabilityId, ValidHeaderName, ValidHeaderValue, Strip, MethodSet, Lower, CleanHost;
    NormalizedHostClean(Or(raw.host, ""));
  }

  lemma TailPathPlain(rest: string, netloc: string)
    requires rest != "" ==> rest[0] in "/?#"
    requires forall c :: c in rest ==> !IsLineBreak(c)
    ensures PlainPath(SplitTail("", netloc, rest).path)
  {
    var hash := IndexOfAny(rest, "#");
    var mark := IndexOfAny(rest[..hash], "?");
    forall c | c in rest[..mark] ensures c != '?' && c != '#' && c in rest {
      var i :| 0 <= i < mark && rest[i] == c;
      assert rest[..hash][i] == c;
    }
  }

  lemma SentPathPlain(d: Definition, verb: string, path: string)
    requires ValidateInvocation(d, verb, path).Ok?
    ensures PlainPath(ValidateInvocation(d, verb, path).value.1)
  {
    hide IndexOfAny, Strip, Unquote, HasParent, PathInCapability, IsOnePath, RemoveLineBreaks, DropLeadingControls, SplitTail, PlainPath;
    AcceptedPath(d.pathPrefix, path);
    AbsolutePathPlain(Strip(path));
  }

  lemma AbsolutePathPlain(p: string)
    requires StartsWith(p, "/")
    ensures PlainPath(UrlSplit(p).path)
  {
    hide PlainPath, SplitTail, IndexOfAny;
    var u := RemoveLineBreaks(DropLeadingControls(p));
    RemoveLineBreaksKeeps(p);
    assert u[0] == '/';
    NoSchemeFirst(u, IndexOfAny(u, ":"));
    if StartsWith(u, "//") {
      var end := IndexOfAny(u[2..], "/?#");
      TailPathPlain(u[2 + end..], u[2..2 + end]);
    } else {
      TailPathPlain(u, "");
    }
  }

  lemma UrlAuthority(d: Definition)
    requires Stored(d)
    ensures PlainAuthority(d.host + PortSuffix(d))
  {
    hide Digits, ValidStaticHeaders;
    ReadDigits(d.port);
    forall c | c in d.host + PortSuffix(d) ensures c !in "/?#" && !IsLineBreak(c) {
      if c !in d.host && c != ':' {
        var i :| 0 <= i < |Digits(d.port)| && Digits(d.port)[i] == c;
      }
    }
  }

  lemma HttpScheme(scheme: string)
    requires scheme == "http" || scheme == "https"
    ensures PlainScheme(scheme)
  {
    hide Lower;
    LowerPlain(scheme);
  }

  /** The host, and the port where it is not the one of the scheme. */
  function AuthorityText(d: Definition): string {
    if (d.scheme == "https" && d.port == 443) || (d.scheme == "http" && d.port == 80) then d.host else d.host + ":" + PrintInt(d.port)
  }

  lemma AuthorityExactly(d: Definition)
    requires Stored(d)
    ensures d.host + PortSuffix(d) == AuthorityText(d)
  {
    hide CleanHost, ValidStaticHeaders, PrintInt;
    assert "http" != "https" by { assert |"http"| != |"https"|; }
    assert d.host + "" == d.host;
    assert d.host + (":" + PrintInt(d.port)) == d.host + ":" + PrintInt(d.port);
  }

  /**
   The URL that is sent parses back to exactly the scheme, host and port of the definition and the
   validated path, without query or fragment: no accepted path can move the request elsewhere.
   */
  lemma UrlIsExact(d: Definition, verb: string, path: string)
    requires Stored(d) && ValidateInvocation(d, verb, path).Ok?
    ensures var sent := ValidateInvocation(d, verb, path).value.1;
            && Url(d, sent) == d.scheme + "://" + AuthorityText(d) + sent
            && UrlSplit(Url(d, sent)) == SplitUrl(d.scheme, AuthorityText(d), sent, "", "")
  {
    AuthorityExactly(d);
    hide AuthorityText;
    hide UrlSplit, ValidateInvocation, PortSuffix, PlainPath, PlainAuthority, PlainScheme, ValidStaticHeaders, CleanHost;
    var sent, netloc := ValidateInvocation(d, verb, path).value.1, d.host + PortSuffix(d);
    SentPathPlain(d, verb, path);
    UrlAuthority(d);
    HttpScheme(d.scheme);
    SplitBuilt(d.scheme, netloc, sent);
    UrlGrouped(d.scheme, d.host, PortSuffix(d), sent);
  }

  lemma UrlGrouped(scheme: string, host: string, port: string, path: string)
    ensures scheme + "://" + host + port + path == scheme + (":" + ("//" + (host + port + path)))
    ensures scheme + "://" + host + port + path == scheme + "://" + (host + port) + path
  {
  }

  // ---------- the text that is injected ----------

  /** `str(value)` of the values that may be injected; anything else is refused. */
  function SecretText(value: Value): Result<string> {
    match value
    case Str(s) => Ok(s)
    case Int(n) => Ok(PrintInt(n))
    case Float(repr) => Ok(repr)
    case Bool(b) => Ok(if b then "True" else "False")
    case _ => Err(ValidationError)
  }

  /** The text stands for the stored value: itself, its decimal digits, its shortest float text, or its name. */
  predicate TextOf(value: Value, text: string) {
    && (value.Str? ==> text == value.s) && (value.Int? ==> text == if value.n < 0 then "-" + Digits(-value.n) else Digits(value.n))
    && (value.Float? ==> text == value.repr) && (value == Bool(true) ==> text == "True") && (value == Bool(false) ==> text == "False")
  }

  /** A value is refused exactly if it is null, a list or an object; any other is injected as its text. */
  lemma SecretTextExactly(value: Value)
    ensures SecretText(value).Ok? <==> !value.Null? && !value.Arr? && !value.Obj?
    ensures SecretText(value).Ok? ==> TextOf(value, SecretText(value).value)
    ensures SecretText(value).Err? ==> SecretText(value).error == ValidationError
  {
  }

  // ---------- what the agent gets back ----------

  // What the target sends back, and what of it is passed on.
  datatype Response = Response(status: int, headers: seq<(string, string)>, body: string)

  datatype Answer = Answer(status: int, headers: map<string, string>, body: string)

  const SHOWN := ["content-type", "content-length", "date", "etag", "location"]

  const MAX_RESPONSE := 1024 * 1024

  /** The headers that are passed on, redacted; of two with the same name the later one wins. */
  function ShownHeaders(headers: seq<(string, string)>, text: string): map<string, string> {
    if headers == [] then map[]
    else
      var (name, value) := headers[|headers| - 1];
      var before := ShownHeaders(headers[..|headers| - 1], text);
      if Lower(name) in SHOWN then before[name := Redact(value, text)] else before
  }

  function Conceal(response: Response, text: string): Result<Answer> {
    if |response.body| > MAX_RESPONSE then Err(ValidationError)
    else Ok(Answer(response.status, ShownHeaders(response.headers, text), Redact(response.body, text)))
  }

  predicate LastNamed(headers: seq<(string, string)>, i: nat)
    requires i < |headers|
  {
    forall j :: i < j < |headers| ==> headers[j].0 != headers[i].0
  }

  predicate IsShown(name: string) {
    Lower(name) in ["content-type", "content-length", "date", "etag", "location"]
  }

  lemma LastNamedInit(headers: seq<(string, string)>, i: nat)
    requires i < |headers| - 1
    ensures LastNamed(headers, i) <==> LastNamed(headers[..|headers| - 1], i) && headers[i].0 != headers[|headers| - 1].0
  {
    assert forall j :: 0 <= j < |headers| - 1 ==> headers[..|headers| - 1][j] == headers[j];
  }

  /** Header `name` is passed on exactly if it is one of the five, with the redacted last value it was sent with. */
  lemma {:induction false} ShownExactly(headers: seq<(string, string)>, text: string, name: string)
    ensures name in ShownHeaders(headers, text) <==> IsShown(name) && exists i: nat :: i < |headers| && headers[i].0 == name
    ensures forall i: nat :: i < |headers| && LastNamed(headers, i) && headers[i].0 == name && IsShown(name) ==> ShownHeaders(headers, text)[name] == Redact(headers[i].1, text)
  {
    hide Redact, Lower;
    if headers != [] {
      var n := |headers| - 1;
      var init := headers[..n];
      ShownExactly(init, text, name);
      forall i: nat | i < |headers| && LastNamed(headers, i) && headers[i].0 == name && IsShown(name)
        ensures ShownHeaders(headers, text)[name] == Redact(headers[i].1, text)
      {
        if i < n {
          LastNamedInit(headers, i);
          assert init[i] == headers[i];
        }
      }
      if exists i: nat :: i < n && headers[i].0 == name {
        var i: nat :| i < n && headers[i].0 == name;
        assert init[i].0 == name;
      }
      if exists i: nat :: i < n && init[i].0 == name {
        var i: nat :| i < n && init[i].0 == name;
        assert headers[i].0 == name;
      }
    }
  }

  /**
   An answer longer than 1 MiB is refused. Otherwise the status is passed on, five kinds of header
   and the body are passed on redacted, and if the secret overlaps the marker in neither way then
   none of them holds it.
   */
  lemma ConcealExactly(response: Response, text: string)
    ensures var r := Conceal(response, text);
            && (r.Ok? <==> |response.body| <= 1048576) && (r.Err? ==> r.error == ValidationError)
            && (r.Ok? ==>
                  && r.value.status == response.status && r.value.body == Redact(response.body, text)
                  && (forall name :: name in r.value.headers <==> IsShown(name) && exists i: nat :: i < |response.headers| && response.headers[i].0 == name)
                  && (forall i: nat :: i < |response.headers| && LastNamed(response.headers, i) && IsShown(response.headers[i].0) ==>
                        response.headers[i].0 in r.value.headers && r.value.headers[response.headers[i].0] == Redact(response.headers[i].1, text)))
    ensures var r := Conceal(response, text);
            text != "" && !Clashes(text) && !Overhangs(text) && r.Ok? ==>
              !Contains(r.value.body, text) && forall name :: name in r.value.headers ==> !Contains(r.value.headers[name], text)
  {
    hide Redact, Lower, Contains, Clashes, Overhangs, ShownHeaders, LastNamed, IsShown;
    forall name ensures name in ShownHeaders(response.headers, text) <==> IsShown(name) && exists i: nat :: i < |response.headers| && response.headers[i].0 == name {
      ShownExactly(response.headers, text, name);
    }
    forall i: nat | i < |response.headers| && LastNamed(response.headers, i) && IsShown(response.headers[i].0)
      ensures ShownHeaders(response.headers, text)[response.headers[i].0] == Redact(response.headers[i].1, text)
    {
      ShownExactly(response.headers, text, response.headers[i].0);
    }
    if text != "" && !Clashes(text) && !Overhangs(text) {
      RedactComplete(response.body, text);
      ShownConceal(response.headers, text);
    }
  }

  lemma {:induction false} ShownConceal(headers: seq<(string, string)>, text: string)
    requires text != "" && !Clashes(text) && !Overhangs(text)
    ensures forall name :: name in ShownHeaders(headers, text) ==> !Contains(ShownHeaders(headers, text)[name], text)
  {
    hide Redact, Lower, Contains, Clashes, Overhangs;
    if headers != [] {
      ShownConceal(headers[..|headers| - 1], text);
      RedactComplete(headers[|headers| - 1].1, text);
    }
  }

  /** The injected header carries the secret and no other header has its name in any spelling; the rest is as approved. */
  lemma HeadersAreExact(d: Definition, secret: string)
    requires Stored(d)
    ensures var h := Headers(d, secret);
            && d.injectHeader in h && h[d.injectHeader] == d.injectPrefix + secret
            && (forall name :: name in h && Lower(name) == Lower(d.injectHeader) ==> name == d.injectHeader)
            && (forall name :: name in h && name != d.injectHeader ==> name in d.staticHeaders && h[name] == d.staticHeaders[name])
            && (forall name :: name in d.staticHeaders ==> name in h && h[name] == d.staticHeaders[name])
  {
    hide Lower, ValidHeaderName, ValidHeaderValue, CleanHost;
  }

  // ---------- the last check before a request leaves ----------

  // What resolving a host name gives: nothing, or one address after another, each global or not.
  datatype Resolution = Unresolvable | Addresses(global: seq<bool>)

  function HostOf(url: SplitUrl): string {
    Lower(url.netloc[..IndexOfAny(url.netloc, ":")])
  }

  /** `_validate_target`: the reason for which a URL is refused, if there is one. */
  function ValidateTarget(url: string, allowedHosts: seq<string>, allowPrivate: bool, resolve: string -> Resolution): Option<Error> {
    var parsed := UrlSplit(url);
    if (parsed.scheme != "http" && parsed.scheme != "https") || HostOf(parsed) == "" then Some(ValidationError)
    else if parsed.scheme != "https" && !allowPrivate then Some(PermissionDenied)
    else if '@' in parsed.netloc then Some(ValidationError)
    else if allowedHosts != [] && !HostAllowed(HostOf(parsed), allowedHosts) then Some(PermissionDenied)
    else
      match resolve(HostOf(parsed))
      case Unresolvable => Some(ValidationError)
      case Addresses(global) => if !allowPrivate && exists i :: 0 <= i < |global| && !global[i] then Some(PermissionDenied) else None
  }

  lemma NetlocHost(d: Definition)
    requires Stored(d)
    ensures var netloc := d.host + PortSuffix(d);
            netloc[..IndexOfAny(netloc, ":")] == d.host && Lower(d.host) == d.host && '@' !in netloc
  {
    hide Digits, ValidStaticHeaders, Lower;
    ReadDigits(d.port);
    LowerPlain(d.host);
    assert forall i :: 0 <= i < |d.host| ==> d.host[i] in d.host;
    IndexOfAnyConcat(d.host, PortSuffix(d), ":");
    var netloc := d.host + PortSuffix(d);
    assert netloc[..|d.host|] == d.host;
  }

  /** Why a call to the definition's target is refused, if it is: plain HTTP, a host outside the ceiling, an unknown name, or an address that is not global. */
  ghost function Refusal(d: Definition, allowedHosts: seq<string>, allowPrivate: bool, resolve: string -> Resolution): Option<Error> {
    if d.scheme == "http" && !allowPrivate then Some(PermissionDenied)
    else if !Within(d.host, allowedHosts) then Some(PermissionDenied)
    else if resolve(d.host).Unresolvable? then Some(ValidationError)
    else if !allowPrivate && false in resolve(d.host).global then Some(PermissionDenied)
    else None
  }

  /** The check is made on the URL, and decides exactly by the host and scheme of the approved definition and by the agent's ceiling. */
  lemma TargetIsChecked(d: Definition, verb: string, path: string, allowedHosts: seq<string>, allowPrivate: bool, resolve: string -> Resolution)
    requires Stored(d) && ValidateInvocation(d, verb, path).Ok?
    ensures ValidateTarget(Url(d, ValidateInvocation(d, verb, path).value.1), allowedHosts, allowPrivate, resolve) == Refusal(d, allowedHosts, allowPrivate, resolve)
  {
    hide UrlSplit, ValidateInvocation, Url, AuthorityText, HostAllowed, Within, ValidStaticHeaders, Lower, IndexOfAny;
    UrlIsExact(d, verb, path);
    NetlocHost(d);
    AuthorityExactly(d);
    CeilingExactly(d.host, allowedHosts);
  }
}
