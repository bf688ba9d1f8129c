/** Redaction of the injected secret in whatever the target sends back (passd/service.py: `_redact`). */
module Redaction {
  import opened Text

  const MARKER := "<concealed by passd>"

  /** `s.replace(old, new)`: leftmost occurrences first, never overlapping. */
  function Replace(s: string, old_: string, new_: string): string
    requires old_ != ""
  {
    if |s| < |old_| then s
    else if StartsWith(s, old_) then new_ + Replace(s[|old_|..], old_, new_)
    else [s[0]] + Replace(s[1..], old_, new_)
  }

  function Redact(value: string, secret: string): string {
    if secret == "" then value else Replace(value, secret, MARKER)
  }

  // ---------- text outside the secret is kept ----------

  /** `s.split(old)`: the text between the replaced occurrences. */
  function Pieces(s: string, old_: string): (parts: seq<string>)
    requires old_ != ""
    ensures parts != []
  {
    if |s| < |old_| then [s]
    else if StartsWith(s, old_) then [""] + Pieces(s[|old_|..], old_)
    else
      var rest := Pieces(s[1..], old_);
      [[s[0]] + rest[0]] + rest[1..]
  }

  lemma JoinPush(c: char, parts: seq<string>, sep: string)
    requires parts != []
    ensures Join([[c] + parts[0]] + parts[1..], sep) == [c] + Join(parts, sep)
  {
    var pushed := [[c] + parts[0]] + parts[1..];
    assert pushed[1..] == parts[1..];
  }

  lemma JoinEmptyFirst(parts: seq<string>, sep: string)
    requires parts != []
    ensures Join([""] + parts, sep) == sep + Join(parts, sep)
  {
    assert ([""] + parts)[1..] == parts;
  }

  lemma {:induction false} PiecesFirst(s: string, old_: string)
    requires old_ != ""
    ensures Pieces(s, old_)[0] <= s
  {
    if |s| >= |old_| && !StartsWith(s, old_) {
      PiecesFirst(s[1..], old_);
      assert s == [s[0]] + s[1..];
    }
  }

  /**
   The value is its pieces joined by the secret, the redacted text is the same pieces, in the
   same order, joined by the marker, and no piece holds the secret.
   */
  lemma {:induction false} RedactKeepsPieces(s: string, old_: string, new_: string)
    requires old_ != ""
    ensures s == Join(Pieces(s, old_), old_)
    ensures Replace(s, old_, new_) == Join(Pieces(s, old_), new_)
    ensures forall part :: part in Pieces(s, old_) ==> !Contains(part, old_)
  {
    if |s| >= |old_| {
      if StartsWith(s, old_) {
        var rest := s[|old_|..];
        RedactKeepsPieces(rest, old_, new_);
        JoinEmptyFirst(Pieces(rest, old_), old_);
        JoinEmptyFirst(Pieces(rest, old_), new_);
        assert s == old_ + rest;
      } else {
        var rest := Pieces(s[1..], old_);
        RedactKeepsPieces(s[1..], old_, new_);
        JoinPush(s[0], rest, old_);
        JoinPush(s[0], rest, new_);
        assert s == [s[0]] + s[1..];
        FirstPieceClean(s, old_);
      }
    }
  }

  lemma OccursAfter(head: string, tail: string, sub: string, at: int)
    requires OccursAt(head + tail, sub, at) && at >= |head|
    ensures OccursAt(tail, sub, at - |head|)
  {
    assert (head + tail)[at..at + |sub|] == tail[at - |head|..at - |head| + |sub|];
  }

  lemma OccursCopied(s: string, out: string, k: nat, sub: string)
    requires |sub| <= k <= |s| && k <= |out| && out[..k] == s[..k] && OccursAt(out, sub, 0)
    ensures StartsWith(s, sub)
  {
    assert out[..k][..|sub|] == out[..|sub|] && s[..k][..|sub|] == s[..|sub|];
  }

  lemma FirstPieceClean(s: string, old_: string)
    requires old_ != "" && |s| >= |old_| && !StartsWith(s, old_)
    requires !Contains(Pieces(s[1..], old_)[0], old_)
    ensures !Contains(Pieces(s, old_)[0], old_)
  {
    var tail := Pieces(s[1..], old_)[0];
    var piece := [s[0]] + tail;
    PiecesFirst(s, old_);
    forall at ensures !OccursAt(piece, old_, at) {
      if OccursAt(piece, old_, at) {
        if at == 0 { OccursCopied(s, piece, |piece|, old_); } else { OccursAfter([s[0]], tail, old_, at); }
      }
    }
  }

  // ---------- exactly what is replaced ----------

  /**
   The pieces of `value` between the occurrences of the secret that a scan from the left meets:
   no occurrence begins earlier than the end of a piece, and none is in the last one.
   */
  ghost predicate LeftmostPieces(value: string, secret: string, parts: seq<string>) {
    && parts != [] && value == Join(parts, secret) && !Contains(parts[|parts| - 1], secret)
    && forall i, at :: 0 <= i < |parts| - 1 && 0 <= at < |parts[i]| ==> !OccursAt(parts[i] + secret, secret, at)
  }

  lemma JoinFirst(parts: seq<string>, sep: string)
    requires |parts| > 1
    ensures Join(parts, sep) == parts[0] + sep + Join(parts[1..], sep)
    ensures Join(parts, sep)[..|parts[0]| + |sep|] == parts[0] + sep
    ensures Join(parts, sep)[|parts[0]| + |sep|..] == Join(parts[1..], sep)
  {
  }

  lemma NoEarlierStart(s: string, old_: string)
    requires old_ != "" && |s| >= |old_| && !StartsWith(s, old_) && |Pieces(s, old_)| > 1
    requires s == Join(Pieces(s, old_), old_)
    requires forall at :: 0 <= at < |Pieces(s[1..], old_)[0]| ==> !OccursAt(Pieces(s[1..], old_)[0] + old_, old_, at)
    ensures forall at :: 0 <= at < |Pieces(s, old_)[0]| ==> !OccursAt(Pieces(s, old_)[0] + old_, old_, at)
  {
    hide Join;
    var tail := Pieces(s[1..], old_)[0];
    var piece := Pieces(s, old_)[0];
    assert piece == [s[0]] + tail;
    JoinFirst(Pieces(s, old_), old_);
    forall at | 0 <= at < |piece| ensures !OccursAt(piece + old_, old_, at) {
      if at == 0 { NotAtStart(s, piece + old_, old_); } else { NotLater(s[0], tail, old_, at); }
    }
  }

  lemma NotAtStart(s: string, front: string, sub: string)
    requires front <= s && !StartsWith(s, sub)
    ensures !OccursAt(front, sub, 0)
  {
    assert |sub| <= |front| ==> front[..|sub|] == s[..|sub|];
  }

  lemma NotLater(c: char, tail: string, old_: string, at: nat)
    requires at > 0 && !OccursAt(tail + old_, old_, at - 1)
    ensures !OccursAt(([c] + tail) + old_, old_, at)
  {
    assert ([c] + tail) + old_ == [c] + (tail + old_);
    assert at + |old_| <= 1 + |tail + old_| ==> ([c] + (tail + old_))[at..at + |old_|] == (tail + old_)[at - 1..at - 1 + |old_|];
  }

  lemma {:induction false} PiecesLeftmost(s: string, old_: string)
    requires old_ != ""
    ensures LeftmostPieces(s, old_, Pieces(s, old_))
  {
    hide Contains;
    var parts := Pieces(s, old_);
    RedactKeepsPieces(s, old_, "");
    assert parts[|parts| - 1] in parts;
    if |s| >= |old_| {
      if StartsWith(s, old_) {
        PiecesLeftmost(s[|old_|..], old_);
        EarlierPieces(s, old_, "", Pieces(s[|old_|..], old_));
      } else {
        PiecesLeftmost(s[1..], old_);
        var rest := Pieces(s[1..], old_);
        if |parts| > 1 { NoEarlierStart(s, old_); }
        forall i, at | 0 <= i < |parts| - 1 && 0 <= at < |parts[i]| ensures !OccursAt(parts[i] + old_, old_, at) {
          if i > 0 { assert parts[i] == rest[i]; }
        }
      }
    }
  }

  lemma EarlierPieces(s: string, old_: string, first: string, rest: seq<string>)
    requires rest != [] && first == ""
    requires forall i, at :: 0 <= i < |rest| - 1 && 0 <= at < |rest[i]| ==> !OccursAt(rest[i] + old_, old_, at)
    ensures var parts := [first] + rest;
            forall i, at :: 0 <= i < |parts| - 1 && 0 <= at < |parts[i]| ==> !OccursAt(parts[i] + old_, old_, at)
  {
    var parts := [first] + rest;
    forall i, at | 0 <= i < |parts| - 1 && 0 <= at < |parts[i]| ensures !OccursAt(parts[i] + old_, old_, at) {
      assert parts[i] == rest[i - 1];
    }
  }

  lemma FirstAtMost(value: string, secret: string, a: seq<string>, b: seq<string>)
    requires secret != "" && |a| > 1 && LeftmostPieces(value, secret, a) && LeftmostPieces(value, secret, b)
    ensures |b| > 1 && |b[0]| <= |a[0]|
  {
    hide Join;
    JoinFirst(a, secret);
    assert OccursAt(value, secret, |a[0]|) by { Here(a[0], secret, value); }
    if |b| == 1 {
      assert value == b[0] by { JoinOne(b, secret); }
    } else {
      JoinFirst(b, secret);
      if |a[0]| < |b[0]| {
        assert OccursAt(b[0] + secret, secret, |a[0]|) by { InFront(value, b[0] + secret, secret, |a[0]|); }
      }
    }
  }

  lemma JoinOne(parts: seq<string>, sep: string)
    requires |parts| == 1
    ensures Join(parts, sep) == parts[0]
  {
  }

  lemma Here(head: string, secret: string, value: string)
    requires head + secret <= value
    ensures OccursAt(value, secret, |head|)
  {
    assert value[..|head| + |secret|] == head + secret;
    assert value[|head|..|head| + |secret|] == (head + secret)[|head|..];
  }

  lemma InFront(value: string, front: string, secret: string, at: nat)
    requires front <= value && at + |secret| <= |front| && OccursAt(value, secret, at)
    ensures OccursAt(front, secret, at)
  {
    assert value[..|front|] == front;
    assert front[at..at + |secret|] == value[at..at + |secret|];
  }

  lemma LeftmostTail(value: string, secret: string, parts: seq<string>)
    requires |parts| > 1 && LeftmostPieces(value, secret, parts)
    ensures |parts[0]| + |secret| <= |value| && LeftmostPieces(value[|parts[0]| + |secret|..], secret, parts[1..])
    ensures value[..|parts[0]|] == parts[0]
  {
    hide Join, Contains;
    JoinFirst(parts, secret);
    var rest := parts[1..];
    forall i, at | 0 <= i < |rest| - 1 && 0 <= at < |rest[i]| ensures !OccursAt(rest[i] + secret, secret, at) {
      assert rest[i] == parts[i + 1];
    }
  }

  /** There is only one such list of pieces. */
  lemma {:induction false} OnePieces(value: string, secret: string, a: seq<string>, b: seq<string>)
    requires secret != "" && LeftmostPieces(value, secret, a) && LeftmostPieces(value, secret, b)
    ensures a == b
    decreases |value|
  {
    hide LeftmostPieces;
    assert a != [] && b != [] by { SomePiece(value, secret, a); SomePiece(value, secret, b); }
    if |a| > 1 { FirstAtMost(value, secret, a, b); }
    if |b| > 1 { FirstAtMost(value, secret, b, a); }
    if |a| > 1 {
      LeftmostTail(value, secret, a);
      LeftmostTail(value, secret, b);
      OnePieces(value[|a[0]| + |secret|..], secret, a[1..], b[1..]);
      assert a == [a[0]] + a[1..] && b == [b[0]] + b[1..];
    } else {
      OnlyPiece(value, secret, a);
      OnlyPiece(value, secret, b);
    }
  }

  lemma SomePiece(value: string, secret: string, parts: seq<string>)
    requires LeftmostPieces(value, secret, parts)
    ensures parts != []
  {
  }

  lemma OnlyPiece(value: string, secret: string, parts: seq<string>)
    requires LeftmostPieces(value, secret, parts) && |parts| == 1
    ensures parts == [value]
  {
  }

  /**
   Redaction replaces exactly the occurrences that a scan from the left meets, each by the marker,
   and keeps everything else in order; without a secret it changes nothing.
   */
  lemma RedactExactly(value: string, secret: string)
    ensures secret == "" ==> Redact(value, secret) == value
    ensures secret != "" ==> exists parts :: LeftmostPieces(value, secret, parts) && Redact(value, secret) == Join(parts, "<concealed by passd>")
    ensures secret != "" ==> forall parts :: LeftmostPieces(value, secret, parts) ==> Redact(value, secret) == Join(parts, "<concealed by passd>")
  {
    hide LeftmostPieces, Join, Replace;
    if secret != "" {
      PiecesLeftmost(value, secret);
      RedactKeepsPieces(value, secret, MARKER);
      forall parts | LeftmostPieces(value, secret, parts) ensures parts == Pieces(value, secret) { OnePieces(value, secret, parts, Pieces(value, secret)); }
    }
  }

  // ---------- no occurrence of the secret is left ----------

  /** The secret, laid at position `at` of the marker, agrees with it as far as the marker goes. */
  predicate ClashesAt(secret: string, at: int) {
    0 <= at < |MARKER| && forall i :: 0 <= i < |secret| && at + i < |MARKER| ==> secret[i] == MARKER[at + i]
  }

  /** The marker, laid at position `k` of the secret, agrees with it as far as the secret goes. */
  predicate OverhangsAt(secret: string, k: int) {
    1 <= k < |secret| && forall i :: 0 <= i < |MARKER| && k + i < |secret| ==> secret[k + i] == MARKER[i]
  }

  /** After the first `k` characters of the secret, the secret itself is first found at `k`. */
  predicate FoundAt(secret: string, k: int)
    requires 0 <= k <= |secret|
  {
    forall j :: 0 <= j < k ==> !OccursAt(secret[..k] + secret, secret, j)
  }

  predicate Clashes(secret: string) {
    exists at :: 0 <= at < |MARKER| && ClashesAt(secret, at)
  }

  predicate Overhangs(secret: string) {
    exists k :: 1 <= k < |secret| && OverhangsAt(secret, k) && FoundAt(secret, k)
  }

  // One unfolding of Replace at a time; elsewhere its body stays hidden.

  lemma ReplaceShort(s: string, secret: string)
    requires secret != "" && |s| < |secret|
    ensures Replace(s, secret, MARKER) == s
  {
  }

  lemma ReplaceHere(s: string, secret: string)
    requires secret != "" && OccursAt(s, secret, 0)
    ensures Replace(s, secret, MARKER) == MARKER + Replace(s[|secret|..], secret, MARKER)
  {
  }

  lemma ReplaceLater(s: string, secret: string)
    requires secret != "" && s != "" && !OccursAt(s, secret, 0)
    ensures Replace(s, secret, MARKER) == [s[0]] + Replace(s[1..], secret, MARKER)
  {
    if |s| < |secret| {
      ReplaceShort(s[1..], secret);
      assert s == [s[0]] + s[1..];
    }
  }

  /** The first occurrence of the secret, if it has one. */
  lemma FirstOccurrence(s: string, secret: string) returns (k: nat)
    requires secret != ""
    ensures k <= |s| && forall j :: 0 <= j < k ==> !OccursAt(s, secret, j)
    ensures k < |s| ==> OccursAt(s, secret, k)
  {
    k := 0;
    while k < |s| && !OccursAt(s, secret, k)
      invariant k <= |s| && forall j :: 0 <= j < k ==> !OccursAt(s, secret, j)
    {
      k := k + 1;
    }
  }

  lemma NoneEarlier(s: string, secret: string, k: nat)
    requires s != "" && forall j :: 0 <= j < k + 1 ==> !OccursAt(s, secret, j)
    ensures forall j :: 0 <= j < k ==> !OccursAt(s[1..], secret, j)
  {
    forall j | 0 <= j < k ensures !OccursAt(s[1..], secret, j) {
      if OccursAt(s[1..], secret, j) { OccursLater(s, secret, j); }
    }
  }

  /** Text without the secret is kept. */
  lemma {:induction false} ReplaceNone(s: string, secret: string)
    requires secret != "" && forall j :: 0 <= j < |s| ==> !OccursAt(s, secret, j)
    ensures Replace(s, secret, MARKER) == s
  {
    hide Replace, OccursAt;
    if s == "" {
      ReplaceShort(s, secret);
    } else {
      NoneEarlier(s, secret, |s| - 1);
      ReplaceNone(s[1..], secret);
      ReplaceLater(s, secret);
      assert s == [s[0]] + s[1..];
    }
  }

  /** Text is kept up to the first occurrence of the secret, which becomes the marker. */
  lemma {:induction false} ReplaceFirst(s: string, secret: string, k: nat)
    requires secret != "" && k + |secret| <= |s| && OccursAt(s, secret, k) && forall j :: 0 <= j < k ==> !OccursAt(s, secret, j)
    ensures Replace(s, secret, MARKER) == s[..k] + (MARKER + Replace(s[k + |secret|..], secret, MARKER))
  {
    hide Replace, OccursAt;
    var rest := MARKER + Replace(s[k + |secret|..], secret, MARKER);
    if k == 0 {
      ReplaceHere(s, secret);
      assert s[..0] + rest == rest;
    } else {
      assert [s[0]] + s[1..] == s;
      OccursAfter([s[0]], s[1..], secret, k);
      NoneEarlier(s, secret, k - 1);
      ReplaceFirst(s[1..], secret, k - 1);
      ReplaceLater(s, secret);
      assert s[1..][k - 1 + |secret|..] == s[k + |secret|..];
      CopyOne(s, k, rest);
    }
  }

  lemma CopyOne(s: string, k: nat, rest: string)
    requires 1 <= k <= |s|
    ensures [s[0]] + (s[1..][..k - 1] + rest) == s[..k] + rest
  {
    assert [s[0]] + s[1..][..k - 1] == s[..k];
  }

  lemma OccursLater(s: string, sub: string, at: int)
    requires s != "" && OccursAt(s[1..], sub, at)
    ensures OccursAt(s, sub, at + 1)
  {
    assert s[at + 1..at + 1 + |sub|] == s[1..][at..at + |sub|];
  }

  lemma {:induction false} NoOccurrenceLeft(s: string, secret: string, p: int)
    requires secret != "" && !Clashes(secret) && !Overhangs(secret)
    ensures !OccursAt(Replace(s, secret, MARKER), secret, p)
    decreases |s|
  {
    hide Clashes, Overhangs;
    if |s| >= |secret| {
      if StartsWith(s, secret) {
        NoOccurrenceLeft(s[|secret|..], secret, p - |MARKER|);
        MarkerStep(Replace(s[|secret|..], secret, MARKER), secret, p);
      } else if p <= 0 {
        NotAtCopiedHead(s, secret);
      } else {
        var tail := Replace(s[1..], secret, MARKER);
        NoOccurrenceLeft(s[1..], secret, p - 1);
        if OccursAt([s[0]] + tail, secret, p) { OccursAfter([s[0]], tail, secret, p); }
      }
    }
  }

  lemma MarkerStep(tail: string, secret: string, p: int)
    requires secret != "" && !Clashes(secret)
    requires !OccursAt(tail, secret, p - |MARKER|)
    ensures !OccursAt(MARKER + tail, secret, p)
  {
    if OccursAt(MARKER + tail, secret, p) {
      if p >= |MARKER| { OccursAfter(MARKER, tail, secret, p); } else { OccursOnMarker(tail, secret, p); }
    }
  }

  lemma OccursOnMarker(tail: string, secret: string, at: int)
    requires OccursAt(MARKER + tail, secret, at) && at < |MARKER|
    ensures ClashesAt(secret, at)
  {
    var out := MARKER + tail;
    forall i | 0 <= i < |secret| && at + i < |MARKER| ensures secret[i] == MARKER[at + i] {
      assert out[at..at + |secret|][i] == out[at + i];
    }
  }

  lemma OccursAcrossMarker(out: string, secret: string, k: int)
    requires OccursAt(out, secret, 0) && 1 <= k < |secret| && MARKER <= out[k..]
    ensures OverhangsAt(secret, k)
  {
    forall i | 0 <= i < |MARKER| && k + i < |secret| ensures secret[k + i] == MARKER[i] {
      assert out[k..][i] == out[k + i] == out[..|secret|][k + i];
    }
  }

  lemma NotAtCopiedHead(s: string, secret: string)
    requires secret != "" && !Overhangs(secret)
    requires |s| >= |secret| && !StartsWith(s, secret)
    ensures !OccursAt(Replace(s, secret, MARKER), secret, 0)
  {
    hide Replace, Overhangs;
    var out := Replace(s, secret, MARKER);
    var k := FirstOccurrence(s, secret);
    if k == |s| {
      ReplaceNone(s, secret);
    } else {
      ReplaceFirst(s, secret, k);
      var rest := MARKER + Replace(s[k + |secret|..], secret, MARKER);
      assert out == s[..k] + rest;
      AtCopiedHead(s, secret, k, rest);
    }
  }

  lemma AtCopiedHead(s: string, secret: string, k: nat, rest: string)
    requires secret != "" && !Overhangs(secret) && !StartsWith(s, secret)
    requires k + |secret| <= |s| && OccursAt(s, secret, k) && forall j :: 0 <= j < k ==> !OccursAt(s, secret, j)
    requires MARKER <= rest
    ensures !OccursAt(s[..k] + rest, secret, 0)
  {
    var out := s[..k] + rest;
    assert out[..k] == s[..k] && out[k..] == rest;
    if OccursAt(out, secret, 0) {
      if k >= |secret| {
        OccursCopied(s, out, k, secret);
      } else if k > 0 {
        OccursAcrossMarker(out, secret, k);
        FirstOccurrenceFound(s, out, secret, k);
      }
    }
  }

  lemma SameWindow(a: string, b: string, n: nat, sub: string, at: nat)
    requires n <= |a| && n <= |b| && a[..n] == b[..n] && at + |sub| <= n
    ensures OccursAt(a, sub, at) <==> OccursAt(b, sub, at)
  {
    assert a[..n][at..at + |sub|] == a[at..at + |sub|] && b[..n][at..at + |sub|] == b[at..at + |sub|];
  }

  lemma FirstOccurrenceFound(s: string, out: string, secret: string, k: nat)
    requires k < |secret| && k <= |out| && k <= |s| && out[..k] == s[..k] && OccursAt(out, secret, 0) && OccursAt(s, secret, k)
    requires forall j :: 0 <= j < k ==> !OccursAt(s, secret, j)
    ensures FoundAt(secret, k)
  {
    var text := secret[..k] + secret;
    assert secret[..k] == out[..|secret|][..k] == s[..k];
    assert s[..k + |secret|] == s[..k] + s[k..k + |secret|] == text;
    forall j | 0 <= j < k ensures !OccursAt(text, secret, j) { SameWindow(text, s, |text|, secret, j); }
  }

  /** Redaction is complete for every secret that overlaps the marker in no alignment. */
  lemma RedactComplete(value: string, secret: string)
    requires secret != "" && !Clashes(secret) && !Overhangs(secret)
    ensures !Contains(Redact(value, secret), secret)
  {
    forall at ensures !OccursAt(Redact(value, secret), secret, at) {
      NoOccurrenceLeft(value, secret, at);
    }
  }

  /** A value whose redaction still shows a secret that begins inside the marker. */
  function Leak(secret: string, at: int): string
    requires ClashesAt(secret, at)
  {
    if at + |secret| <= |MARKER| then secret else secret + secret[|MARKER| - at..]
  }

  lemma ClashLeaks(secret: string, at: int)
    requires secret != "" && ClashesAt(secret, at)
    ensures Contains(Redact(Leak(secret, at), secret), secret)
  {
    var value := Leak(secret, at);
    var rest := value[|secret|..];
    assert StartsWith(value, secret);
    assert Replace(rest, secret, MARKER) == rest;
    var out := MARKER + rest;
    assert OccursAt(out, secret, at) by {
      forall i | 0 <= i < |secret| ensures out[at + i] == secret[i] {}
      assert out[at..at + |secret|] == secret;
    }
  }

  lemma OverhangHasBracket(secret: string, k: int)
    requires OverhangsAt(secret, k)
    ensures '<' in secret
  {
    assert secret[k + 0] == MARKER[0];
  }

  lemma LongClashHasBracket(secret: string, at: int)
    requires ClashesAt(secret, at) && at + |secret| >= |MARKER|
    ensures '>' in secret
  {
    assert secret[|MARKER| - 1 - at] == MARKER[|MARKER| - 1];
  }

  /** A value whose redaction puts together a secret that ends like the marker begins. */
  function Overlap(secret: string, k: int): string
    requires OverhangsAt(secret, k)
  {
    secret[..k] + (secret + Rest(secret, k))
  }

  /** What follows the marker when the secret is longer than the overlap. */
  function Rest(secret: string, k: int): string
    requires OverhangsAt(secret, k)
  {
    if k + |MARKER| < |secret| then secret[k + |MARKER|..] else ""
  }

  lemma PutTogether(secret: string, k: int)
    requires OverhangsAt(secret, k)
    ensures OccursAt(secret[..k] + (MARKER + Rest(secret, k)), secret, 0)
  {
    var out := secret[..k] + (MARKER + Rest(secret, k));
    forall i | 0 <= i < |secret| ensures out[i] == secret[i] {
      if i >= k && i - k < |MARKER| { assert secret[k + (i - k)] == MARKER[i - k]; }
    }
    assert out[0..|secret|] == secret;
  }

  lemma OverlapParts(secret: string, k: int)
    requires 1 <= k < |secret| && OverhangsAt(secret, k) && FoundAt(secret, k)
    ensures var value := Overlap(secret, k);
            && k + |secret| <= |value| && OccursAt(value, secret, k) && value[..k] == secret[..k] && value[k + |secret|..] == Rest(secret, k)
            && forall j :: 0 <= j < k ==> !OccursAt(value, secret, j)
  {
    hide OverhangsAt;
    var value, front := Overlap(secret, k), secret[..k] + secret;
    assert value[k..k + |secret|] == secret && value[k + |secret|..] == Rest(secret, k);
    assert value[..|front|] == front == front[..|front|];
    forall j | 0 <= j < k ensures !OccursAt(value, secret, j) { SameWindow(value, front, |front|, secret, j); }
  }

  lemma OverlapLeaks(secret: string, k: int)
    requires 1 <= k < |secret| && OverhangsAt(secret, k) && FoundAt(secret, k)
    ensures Contains(Redact(Overlap(secret, k), secret), secret)
  {
    hide Overlap, OverhangsAt, FoundAt, Replace, OccursAt;
    OverlapParts(secret, k);
    ReplaceFirst(Overlap(secret, k), secret, k);
    ReplaceShort(Rest(secret, k), secret);
    PutTogether(secret, k);
  }

  /** The condition is exact: every value is redacted completely if and only if the secret overlaps the marker in neither way. */
  lemma RedactCompleteExactly(secret: string)
    requires secret != ""
    ensures (forall value :: !Contains(Redact(value, secret), secret)) <==> !Clashes(secret) && !Overhangs(secret)
  {
    hide Redact, Contains, OverhangsAt, FoundAt, ClashesAt;
    if Clashes(secret) {
      var at :| 0 <= at < |MARKER| && ClashesAt(secret, at);
      ClashLeaks(secret, at);
    } else if Overhangs(secret) {
      var k :| 1 <= k < |secret| && OverhangsAt(secret, k) && FoundAt(secret, k);
      OverlapLeaks(secret, k);
    } else {
      forall value ensures !Contains(Redact(value, secret), secret) {
        RedactComplete(value, secret);
      }
    }
  }

  /** Without '<' and '>' a clash is an occurrence inside the marker. */
  lemma ClashIsSubstring(secret: string)
    requires secret != "" && '<' !in secret && '>' !in secret
    ensures Clashes(secret) <==> Contains(MARKER, secret)
  {
    if Clashes(secret) {
      var at :| 0 <= at < |MARKER| && ClashesAt(secret, at);
      if at + |secret| >= |MARKER| {
        LongClashHasBracket(secret, at);
      } else {
        assert MARKER[at..at + |secret|] == secret;
        assert OccursAt(MARKER, secret, at);
      }
    }
    if Contains(MARKER, secret) {
      var at :| OccursAt(MARKER, secret, at);
      forall i | 0 <= i < |secret| ensures secret[i] == MARKER[at + i] {
        assert MARKER[at..at + |secret|][i] == MARKER[at + i];
      }
      assert ClashesAt(secret, at);
    }
  }

  /** The promised case: without '<' and '>' the secret leaks nowhere exactly when it is not part of the marker. */
  lemma PlainSecretConcealed(secret: string)
    requires secret != "" && '<' !in secret && '>' !in secret
    ensures (forall value :: !Contains(Redact(value, secret), secret)) <==> !Contains(MARKER, secret)
  {
    hide Redact;
    RedactCompleteExactly(secret);
    ClashIsSubstring(secret);
    forall k ensures !OverhangsAt(secret, k) {
      if OverhangsAt(secret, k) { OverhangHasBracket(secret, k); }
    }
  }

  /** The smallest secret that two markers cannot conceal. */
  lemma OverhangLeaks()
    ensures Contains(Redact("xx<", "x<"), "x<")
  {
    assert OverhangsAt("x<", 1);
    assert forall j :: 0 <= j < 1 ==> !OccursAt("x<"[..1] + "x<", "x<", j) by {
      assert ("x<"[..1] + "x<")[0..2] == "xx";
    }
    OverlapLeaks("x<", 1);
    assert Overlap("x<", 1) == "xx<";
  }
}
