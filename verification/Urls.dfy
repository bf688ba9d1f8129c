/** Percent encoding and `urlsplit` (RFC 3986), on the inputs the service hands to them. */
module Urls {
  import opened Text
  import opened Json
  import opened Ordering

  /** Every character is one byte of a UTF-8 encoding. */
  predicate IsBytes(s: string) {
    forall i :: 0 <= i < |s| ==> s[i] as int < 256
  }

  // ---------- percent encoding ----------

  predicate IsUnreserved(c: char) {
    'a' <= c <= 'z' || 'A' <= c <= 'Z' || IsDigit(c) || c == '_' || c == '.' || c == '-' || c == '~'
  }

  function UpperHexDigit(n: int): char
    requires 0 <= n < 16
  {
    "0123456789ABCDEF"[n]
  }

  function QuoteChar(c: char): string
    requires c as int < 256
  {
    if IsUnreserved(c) then [c] else ['%', UpperHexDigit(c as int / 16), UpperHexDigit(c as int % 16)]
  }

  /** `quote(s, safe="")` */
  function Quote(s: string): string
    requires IsBytes(s)
  {
    if s == "" then "" else QuoteChar(s[0]) + Quote(s[1..])
  }

  /** `unquote(s)`; an escape that is not two hexadecimal digits stays as it is. */
  function Unquote(s: string): string {
    if s == "" then ""
    else if s[0] == '%' && |s| >= 3 && HexValue(s[1]) >= 0 && HexValue(s[2]) >= 0 then
      [(16 * HexValue(s[1]) + HexValue(s[2])) as char] + Unquote(s[3..])
    else [s[0]] + Unquote(s[1..])
  }

  /** The characters `Quote` may produce. */
  predicate IsQuoted(s: string) {
    forall i :: 0 <= i < |s| ==> IsUnreserved(s[i]) || s[i] == '%'
  }

  lemma {:induction false} UnquoteQuote(s: string)
    requires IsBytes(s)
    ensures Unquote(Quote(s)) == s
    ensures IsQuoted(Quote(s))
    ensures Quote(s) == "" <==> s == ""
  {
    if s != "" {
      UnquoteQuote(s[1..]);
      QuoteCharStep(s[0], Quote(s[1..]));
      assert s == [s[0]] + s[1..];
    }
  }

  lemma QuoteCharStep(c: char, tail: string)
    requires c as int < 256
    ensures Unquote(QuoteChar(c) + tail) == [c] + Unquote(tail)
    ensures IsQuoted(QuoteChar(c))
  {
    if IsUnreserved(c) {
      assert ([c] + tail)[1..] == tail;
    } else {
      var hi, lo := c as int / 16, c as int % 16;
      HexDigitValue(hi);
      HexDigitValue(lo);
      UnquoteEscape(UpperHexDigit(hi), UpperHexDigit(lo), tail);
    }
  }

  lemma HexDigitValue(n: int)
    requires 0 <= n < 16
    ensures HexValue(UpperHexDigit(n)) == n && IsUnreserved(UpperHexDigit(n))
  {
  }

  lemma UnquoteEscape(hi: char, lo: char, tail: string)
    requires HexValue(hi) >= 0 && HexValue(lo) >= 0
    ensures Unquote(['%', hi, lo] + tail) == [(16 * HexValue(hi) + HexValue(lo)) as char] + Unquote(tail)
  {
    var t := ['%', hi, lo] + tail;
    assert t[0] == '%' && t[1] == hi && t[2] == lo && t[3..] == tail;
  }

  // ---------- urlsplit ----------

  datatype SplitUrl = SplitUrl(scheme: string, netloc: string, path: string, query: string, fragment: string)

  /** Index of the first character of `s` that is one of `stops`, or the length of `s`. */
  function IndexOfAny(s: string, stops: string): (n: nat)
    ensures n <= |s| && (n < |s| ==> s[n] in stops)
    ensures forall i :: 0 <= i < n ==> s[i] !in stops
  {
    if s == "" || s[0] in stops then 0 else 1 + IndexOfAny(s[1..], stops)
  }

  // Leading control characters and blanks are dropped, tabs and line ends are removed everywhere.
  function DropLeadingControls(s: string): string {
    if s != "" && s[0] <= ' ' then DropLeadingControls(s[1..]) else s
  }

  function RemoveLineBreaks(s: string): string {
    if s == "" then ""
    else if s[0] == '\t' || s[0] == '\r' || s[0] == '\n' then RemoveLineBreaks(s[1..])
    else [s[0]] + RemoveLineBreaks(s[1..])
  }

  predicate IsSchemeChar(c: char) {
    'a' <= c <= 'z' || 'A' <= c <= 'Z' || IsDigit(c) || c == '+' || c == '-' || c == '.'
  }

  predicate IsScheme(s: string) {
    s != "" && !IsDigit(s[0]) && s[0] !in "+-." && forall i :: 0 <= i < |s| ==> IsSchemeChar(s[i])
  }

  function UrlSplit(url: string): SplitUrl {
    var u := RemoveLineBreaks(DropLeadingControls(url));
    var colon := IndexOfAny(u, ":");
    if colon < |u| && IsScheme(u[..colon])
    then SplitHierarchy(Lower(u[..colon]), u[colon + 1..])
    else SplitHierarchy("", u)
  }

  function SplitHierarchy(scheme: string, rest: string): SplitUrl {
    if StartsWith(rest, "//") then
      var end := IndexOfAny(rest[2..], "/?#");
      SplitTail(scheme, rest[2..2 + end], rest[2 + end..])
    else SplitTail(scheme, "", rest)
  }

  function SplitTail(scheme: string, netloc: string, rest: string): SplitUrl {
    var hash := IndexOfAny(rest, "#");
    var mark := IndexOfAny(rest[..hash], "?");
    SplitUrl(scheme, netloc, rest[..mark],
             if mark < hash then rest[mark + 1..hash] else "",
             if hash < |rest| then rest[hash + 1..] else "")
  }

  lemma {:induction false} IndexOfAnyConcat(a: string, b: string, stops: string)
    requires forall i :: 0 <= i < |a| ==> a[i] !in stops
    requires b != "" ==> b[0] in stops
    ensures IndexOfAny(a + b, stops) == |a|
  {
    if a == "" {
      assert a + b == b;
    } else {
      assert (a + b)[1..] == a[1..] + b;
      IndexOfAnyConcat(a[1..], b, stops);
    }
  }

  lemma {:induction false} RemoveLineBreaksBytes(s: string)
    requires IsBytes(s)
    ensures IsBytes(RemoveLineBreaks(s)) && IsBytes(DropLeadingControls(s))
  {
    if s != "" { RemoveLineBreaksBytes(s[1..]); }
  }

  lemma SplitHierarchyBytes(scheme: string, rest: string)
    requires IsBytes(rest)
    ensures IsBytes(SplitHierarchy(scheme, rest).netloc) && IsBytes(SplitHierarchy(scheme, rest).path)
  {
  }

  lemma UrlSplitBytes(url: string)
    requires IsBytes(url)
    ensures IsBytes(UrlSplit(url).netloc) && IsBytes(UrlSplit(url).path)
  {
    RemoveLineBreaksBytes(url);
    RemoveLineBreaksBytes(DropLeadingControls(url));
    var u := RemoveLineBreaks(DropLeadingControls(url));
    var colon := IndexOfAny(u, ":");
    if colon < |u| && IsScheme(u[..colon]) {
      SplitHierarchyBytes(Lower(u[..colon]), u[colon + 1..]);
    } else {
      SplitHierarchyBytes("", u);
    }
  }

  predicate IsLineBreak(c: char) { c == '\t' || c == '\r' || c == '\n' }

  lemma {:induction false} RemoveLineBreaksKeeps(s: string)
    ensures |RemoveLineBreaks(s)| <= |s|
    ensures forall c :: c in RemoveLineBreaks(s) ==> c in s && !IsLineBreak(c)
    ensures s != "" && !IsLineBreak(s[0]) ==> RemoveLineBreaks(s) != "" && RemoveLineBreaks(s)[0] == s[0]
    ensures (forall c :: c in s ==> !IsLineBreak(c)) ==> RemoveLineBreaks(s) == s
  {
    if s != "" {
      RemoveLineBreaksKeeps(s[1..]);
      assert s == [s[0]] + s[1..];
      assert s[0] in s && forall c :: c in s[1..] ==> c in s;
    }
  }

  // ---------- splitting a URL that was built from its parts ----------

  predicate PlainScheme(scheme: string) {
    IsScheme(scheme) && Lower(scheme) == scheme && forall c :: c in scheme ==> c != ':' && c > ' '
  }

  /** Nothing that ends the authority, and nothing that is dropped. */
  predicate PlainAuthority(s: string) {
    forall c :: c in s ==> c !in "/?#" && !IsLineBreak(c)
  }

  predicate PlainPath(path: string) {
    (path == "" || path[0] == '/') && forall c :: c in path ==> c != '?' && c != '#' && !IsLineBreak(c)
  }

  lemma NoBreaks(scheme: string, netloc: string, path: string)
    requires PlainScheme(scheme) && PlainAuthority(netloc) && PlainPath(path)
    ensures var url := scheme + (":" + ("//" + (netloc + path)));
            RemoveLineBreaks(DropLeadingControls(url)) == url
  {
    hide RemoveLineBreaks, Lower, IsScheme;
    var url := scheme + (":" + ("//" + (netloc + path)));
    SchemeNotEmpty(scheme);
    assert url[0] == scheme[0] && scheme[0] in scheme;
    RemoveLineBreaksKeeps(url);
    assert forall c :: c in url ==> c in scheme || c in netloc || c in path || c == ':' || c == '/';
  }

  lemma SchemeNotEmpty(scheme: string)
    requires IsScheme(scheme)
    ensures scheme != ""
  {
  }

  lemma SplitBuilt(scheme: string, netloc: string, path: string)
    requires PlainScheme(scheme) && PlainAuthority(netloc) && PlainPath(path)
    ensures UrlSplit(scheme + (":" + ("//" + (netloc + path)))) == SplitUrl(scheme, netloc, path, "", "")
  {
    hide SplitHierarchy, IndexOfAny, RemoveLineBreaks, DropLeadingControls, Lower, IsScheme, PlainAuthority, PlainPath;
    var rest := "//" + (netloc + path);
    var url := scheme + (":" + rest);
    NoBreaks(scheme, netloc, path);
    assert forall i :: 0 <= i < |scheme| ==> scheme[i] in scheme;
    IndexOfAnyConcat(scheme, ":" + rest, ":");
    assert url[..|scheme|] == scheme && url[|scheme| + 1..] == rest;
    SplitBuiltRest(scheme, netloc, path);
  }

  lemma SplitBuiltRest(scheme: string, netloc: string, path: string)
    requires PlainAuthority(netloc) && PlainPath(path)
    ensures SplitHierarchy(scheme, "//" + (netloc + path)) == SplitUrl(scheme, netloc, path, "", "")
  {
    hide IndexOfAny, SplitTail;
    var rest := "//" + (netloc + path);
    assert rest[2..] == netloc + path;
    assert forall i :: 0 <= i < |netloc| ==> netloc[i] in netloc;
    IndexOfAnyConcat(netloc, path, "/?#");
    assert rest[2..2 + |netloc|] == netloc && rest[2 + |netloc|..] == path;
    SplitPlainPath(scheme, netloc, path);
  }

  lemma SplitPlainPath(scheme: string, netloc: string, path: string)
    requires '#' !in path && '?' !in path
    ensures SplitTail(scheme, netloc, path) == SplitUrl(scheme, netloc, path, "", "")
  {
    assert path + "" == path && path[..|path|] == path;
    IndexOfAnyConcat(path, "", "#");
    IndexOfAnyConcat(path, "", "?");
  }

  // ---------- splitting loses nothing ----------

  /** Path, query and fragment with their separators; an empty query or fragment may or may not have its own. */
  function TailText(p: SplitUrl, query: bool, fragment: bool): string {
    p.path + ((if query then "?" + p.query else "") + (if fragment then "#" + p.fragment else ""))
  }

  function HierarchyText(p: SplitUrl, authority: bool, query: bool, fragment: bool): string {
    if authority then "//" + (p.netloc + TailText(p, query, fragment)) else TailText(p, query, fragment)
  }

  function UrlText(scheme: string, p: SplitUrl, authority: bool, query: bool, fragment: bool): string {
    if scheme == "" then HierarchyText(p, authority, query, fragment) else scheme + (":" + HierarchyText(p, authority, query, fragment))
  }

  /** No part holds a separator that would end it, and a part without its separator is empty. */
  predicate Separated(p: SplitUrl, authority: bool, query: bool, fragment: bool) {
    && (forall c :: c in p.netloc ==> c !in "/?#") && (forall c :: c in p.path ==> c !in "?#") && '#' !in p.query
    && (if authority then p.path == "" || p.path[0] == '/' else p.netloc == "" && !StartsWith(p.path, "//"))
    && (!query ==> p.query == "") && (!fragment ==> p.fragment == "")
  }

  lemma Cut(s: string, n: nat)
    requires n <= |s|
    ensures s == s[..n] + s[n..]
    ensures n < |s| ==> s[n..] == [s[n]] + s[n + 1..]
  {
  }

  lemma TailRebuilds(scheme: string, netloc: string, rest: string) returns (query: bool, fragment: bool)
    ensures var p := SplitTail(scheme, netloc, rest); rest == TailText(p, query, fragment)
  {
    hide IndexOfAny;
    var p := SplitTail(scheme, netloc, rest);
    var hash := IndexOfAny(rest, "#");
    var mark := IndexOfAny(rest[..hash], "?");
    query, fragment := mark < hash, hash < |rest|;
    QueryCut(rest, hash, mark);
    Cut(rest, hash);
    Regrouped(p.path, if query then "?" + p.query else "", if fragment then "#" + p.fragment else "");
  }

  lemma QueryCut(rest: string, hash: nat, mark: nat)
    requires hash <= |rest| && mark <= hash && (mark < hash ==> rest[mark] == '?')
    ensures rest[..hash] == rest[..mark] + (if mark < hash then "?" + rest[mark + 1..hash] else "")
  {
  }

  lemma Regrouped(a: string, b: string, c: string)
    ensures a + b + c == a + (b + c)
  {
  }

  lemma TailSeparated(scheme: string, netloc: string, rest: string)
    ensures var p := SplitTail(scheme, netloc, rest);
            && p.scheme == scheme && p.netloc == netloc && (forall c :: c in p.path ==> c !in "?#") && '#' !in p.query && p.path <= rest
  {
    var hash := IndexOfAny(rest, "#");
    var front := rest[..hash];
    var mark := IndexOfAny(front, "?");
    assert forall i :: 0 <= i < hash ==> front[i] != '#';
    assert forall i :: 0 <= i < mark ==> front[i] != '?';
    assert front[..mark] == rest[..mark];
  }

  lemma NoMark(scheme: string, netloc: string, rest: string, query: bool, fragment: bool)
    requires rest == TailText(SplitTail(scheme, netloc, rest), query, fragment)
    ensures (!query ==> SplitTail(scheme, netloc, rest).query == "") && (!fragment ==> SplitTail(scheme, netloc, rest).fragment == "")
  {
    var p := SplitTail(scheme, netloc, rest);
    var hash := IndexOfAny(rest, "#");
    assert |rest| == |p.path| + (if query then 1 + |p.query| else 0) + (if fragment then 1 + |p.fragment| else 0);
  }

  lemma PathHead(path: string, tail: string)
    requires path <= tail && (tail != "" ==> tail[0] in "/?#") && forall c :: c in path ==> c !in "?#"
    ensures path == "" || path[0] == '/'
  {
    if path != "" { assert path[0] in path && path[0] == tail[0]; }
  }

  lemma HierarchyRebuilds(scheme: string, rest: string) returns (authority: bool, query: bool, fragment: bool)
    ensures var p := SplitHierarchy(scheme, rest);
            rest == HierarchyText(p, authority, query, fragment) && Separated(p, authority, query, fragment) && p.scheme == scheme
  {
    hide SplitTail, IndexOfAny, TailText;
    authority := StartsWith(rest, "//");
    if authority {
      var end := IndexOfAny(rest[2..], "/?#");
      var netloc, tail := rest[2..][..end], rest[2..][end..];
      assert netloc == rest[2..2 + end] && tail == rest[2 + end..];
      query, fragment := TailRebuilds(scheme, netloc, tail);
      TailSeparated(scheme, netloc, tail);
      NoMark(scheme, netloc, tail, query, fragment);
      Cut(rest[2..], end);
      assert forall i :: 0 <= i < |netloc| ==> netloc[i] == rest[2..][i];
      assert tail != "" ==> tail[0] == rest[2..][end];
      PathHead(SplitTail(scheme, netloc, tail).path, tail);
    } else {
      query, fragment := TailRebuilds(scheme, "", rest);
      TailSeparated(scheme, "", rest);
      NoMark(scheme, "", rest, query, fragment);
    }
  }

  /**
   The five parts, put together again with their separators, are the text of the URL without the
   characters that are dropped; only the case of the scheme and an empty query or fragment are lost.
   */
  lemma UrlSplitRebuilds(url: string) returns (scheme: string, authority: bool, query: bool, fragment: bool)
    ensures var p := UrlSplit(url);
            && RemoveLineBreaks(DropLeadingControls(url)) == UrlText(scheme, p, authority, query, fragment)
            && Separated(p, authority, query, fragment) && p.scheme == Lower(scheme) && (scheme != "" ==> IsScheme(scheme))
  {
    hide SplitHierarchy, IndexOfAny, RemoveLineBreaks, DropLeadingControls, Lower, IsScheme, HierarchyText, Separated;
    var u := RemoveLineBreaks(DropLeadingControls(url));
    var colon := IndexOfAny(u, ":");
    if colon < |u| && IsScheme(u[..colon]) {
      scheme := u[..colon];
      SchemeNotEmpty(scheme);
      authority, query, fragment := HierarchyRebuilds(Lower(scheme), u[colon + 1..]);
      Cut(u, colon);
    } else {
      scheme := "";
      assert Lower("") == "" by { LowerPlain(""); }
      authority, query, fragment := HierarchyRebuilds("", u);
    }
  }

  /** Text without '%' is its own decoding. */
  lemma {:induction false} UnquotePlain(s: string)
    requires '%' !in s
    ensures Unquote(s) == s
  {
    if s != "" {
      UnquotePlain(s[1..]);
      assert s == [s[0]] + s[1..];
    }
  }
}
