/**
 Strings as the service sees them: lexicographic order (Python's `sorted` and SQLite's binary
 collation), splitting and joining, stripping, and the small ASCII case functions.

 A `string` here is the UTF-8 encoding of the program's text, one `char` below 256 per byte.
 */
module Text {

  /** Strict lexicographic order. */
  predicate Less(a: string, b: string) {
    if b == "" then false
    else if a == "" then true
    else if a[0] != b[0] then a[0] < b[0]
    else Less(a[1..], b[1..])
  }

  lemma {:induction false} LessTotal(a: string, b: string)
    ensures a == b || Less(a, b) || Less(b, a)
  {
    if a != "" && b != "" && a[0] == b[0] {
      LessTotal(a[1..], b[1..]);
      assert a == [a[0]] + a[1..] && b == [b[0]] + b[1..];
    }
  }

  lemma {:induction false} LessAsymmetric(a: string, b: string)
    ensures !(Less(a, b) && Less(b, a))
  {
    if a != "" && b != "" && a[0] == b[0] {
      LessAsymmetric(a[1..], b[1..]);
    }
  }

  lemma {:induction false} LessTransitive(a: string, b: string, c: string)
    requires Less(a, b) && Less(b, c)
    ensures Less(a, c)
  {
    if a != "" && a[0] == b[0] && b[0] == c[0] {
      LessTransitive(a[1..], b[1..], c[1..]);
    }
  }

  /** The texts agree before position `k`, and `a` has the smaller character there. */
  predicate SmallerAt(a: string, b: string, k: nat) {
    k < |a| && k < |b| && a[..k] == b[..k] && a[k] < b[k]
  }

  lemma SmallerLater(a: string, b: string, k: nat)
    requires a != "" && b != "" && a[0] == b[0]
    ensures SmallerAt(a, b, k + 1) <==> SmallerAt(a[1..], b[1..], k)
    ensures !SmallerAt(a, b, 0)
  {
    if k + 1 < |a| && k + 1 < |b| {
      assert a[..k + 1] == [a[0]] + a[1..][..k] && b[..k + 1] == [b[0]] + b[1..][..k];
      assert a[1..][..k] == a[..k + 1][1..] && b[1..][..k] == b[..k + 1][1..];
    }
  }

  lemma SmallerFirst(a: string, b: string, k: nat)
    requires a != "" && b != "" && a[0] != b[0]
    ensures SmallerAt(a, b, k) <==> k == 0 && a[0] < b[0]
  {
    if 0 < k && k < |a| && k < |b| { assert a[..k][0] == a[0] && b[..k][0] == b[0]; }
  }

  /** One text comes before another exactly if it is a proper beginning of it, or is smaller in the first character that differs. */
  lemma {:induction false} LessExactly(a: string, b: string)
    ensures Less(a, b) <==> (a <= b && a != b) || exists k: nat :: SmallerAt(a, b, k)
  {
    hide SmallerAt;
    if a == "" || b == "" {
      NoneSmaller(a, b);
    } else if a[0] == b[0] {
      LessExactly(a[1..], b[1..]);
      assert a == [a[0]] + a[1..] && b == [b[0]] + b[1..];
      forall k: nat ensures SmallerAt(a, b, k + 1) <==> SmallerAt(a[1..], b[1..], k) { SmallerLater(a, b, k); }
      SmallerLater(a, b, 0);
      forall k: nat | SmallerAt(a, b, k) ensures SmallerAt(a[1..], b[1..], k - 1) { assert SmallerAt(a, b, (k - 1) + 1); }
    } else {
      forall k: nat ensures SmallerAt(a, b, k) <==> k == 0 && a[0] < b[0] { SmallerFirst(a, b, k); }
      assert SmallerAt(a, b, 0) <==> a[0] < b[0];
    }
  }

  lemma NoneSmaller(a: string, b: string)
    requires a == "" || b == ""
    ensures forall k: nat :: !SmallerAt(a, b, k)
  {
  }

  /** `sub` occurs in `s` at position `at`. */
  predicate OccursAt(s: string, sub: string, at: int) {
    0 <= at && at + |sub| <= |s| && s[at..at + |sub|] == sub
  }

  ghost predicate Contains(s: string, sub: string) {
    exists at :: OccursAt(s, sub, at)
  }

  predicate StartsWith(s: string, prefix: string) {
    prefix <= s
  }

  /** `s.split(sep)` for a one-character separator: always at least one part. */
  function Split(s: string, sep: char): (parts: seq<string>)
    ensures parts != []
  {
    if s == "" then [""]
    else
      var rest := Split(s[1..], sep);
      if s[0] == sep then [""] + rest else [[s[0]] + rest[0]] + rest[1..]
  }

  /** `sep.join(parts)`. */
  function Join(parts: seq<string>, sep: string): string {
    if parts == [] then ""
    else if |parts| == 1 then parts[0]
    else parts[0] + sep + Join(parts[1..], sep)
  }

  lemma {:induction false} SplitPlain(s: string, sep: char)
    requires sep !in s
    ensures Split(s, sep) == [s]
  {
    if s != "" {
      SplitPlain(s[1..], sep);
      assert s == [s[0]] + s[1..];
    }
  }

  lemma {:induction false} SplitConcat(a: string, b: string, sep: char)
    ensures Split(a + [sep] + b, sep) == Split(a, sep) + Split(b, sep)
  {
    if a == "" {
      SplitCons(sep, b, sep);
      assert a + [sep] + b == [sep] + b;
      assert Split(a, sep) == [""];
    } else {
      var rest := a[1..] + [sep] + b;
      SplitConcat(a[1..], b, sep);
      SplitCons(a[0], rest, sep);
      SplitCons(a[0], a[1..], sep);
      assert a + [sep] + b == [a[0]] + rest;
      assert a == [a[0]] + a[1..];
      SplitHead(a[0], Split(a[1..], sep), Split(b, sep));
    }
  }

  lemma SplitCons(c: char, s: string, sep: char)
    ensures Split([c] + s, sep) == if c == sep then [""] + Split(s, sep) else [[c] + Split(s, sep)[0]] + Split(s, sep)[1..]
  {
    assert ([c] + s)[1..] == s;
  }

  lemma SplitHead(c: char, left: seq<string>, right: seq<string>)
    requires left != []
    ensures [[c] + (left + right)[0]] + (left + right)[1..] == ([[c] + left[0]] + left[1..]) + right
    ensures [""] + (left + right) == ([""] + left) + right
  {
  }

  lemma {:induction false} JoinSplit(s: string, sep: char)
    ensures Join(Split(s, sep), [sep]) == s
  {
    if s != "" {
      JoinSplit(s[1..], sep);
      var rest := Split(s[1..], sep);
      if s[0] == sep {
        assert ([""] + rest)[1..] == rest;
      } else {
        var parts := [[s[0]] + rest[0]] + rest[1..];
        assert parts[1..] == rest[1..];
      }
    }
  }

  lemma {:induction false} JoinConcat(a: seq<string>, b: seq<string>, sep: string)
    requires a != [] && b != []
    ensures Join(a + b, sep) == Join(a, sep) + sep + Join(b, sep)
  {
    assert (a + b)[1..] == a[1..] + b;
    if |a| > 1 {
      JoinConcat(a[1..], b, sep);
    } else {
      assert a[1..] + b == b;
    }
  }

  // Whitespace that `str.strip()` removes, within ASCII.
  predicate IsSpace(c: char) {
    9 as char <= c <= 13 as char || 28 as char <= c <= 32 as char
  }

  function LStrip(s: string): (r: string)
    ensures r != "" ==> !IsSpace(r[0])
    ensures |r| <= |s| && r == s[|s| - |r|..]
  {
    if s != "" && IsSpace(s[0]) then LStrip(s[1..]) else s
  }

  function RStrip(s: string): (r: string)
    ensures r != "" ==> !IsSpace(r[|r| - 1])
    ensures r <= s
  {
    if s != "" && IsSpace(s[|s| - 1]) then RStrip(s[..|s| - 1]) else s
  }

  /** `s.strip()`. */
  function Strip(s: string): (r: string)
    ensures r != "" ==> !IsSpace(r[0]) && !IsSpace(r[|r| - 1])
  {
    RStrip(LStrip(s))
  }

  lemma StripPlain(s: string)
    requires s != "" ==> !IsSpace(s[0]) && !IsSpace(s[|s| - 1])
    ensures Strip(s) == s
  {
  }

  lemma {:induction false} StripShorter(s: string)
    ensures |Strip(s)| <= |s| && (s != "" && IsSpace(s[|s| - 1]) ==> |Strip(s)| < |s|)
  {
    var l := LStrip(s);
    if l != "" { assert l[|l| - 1] == s[|s| - 1]; }
  }

  /** `s.rstrip(c)` for one character. */
  function RStripChar(s: string, c: char): (r: string)
    ensures r <= s && (r != "" ==> r[|r| - 1] != c)
    ensures forall i :: |r| <= i < |s| ==> s[i] == c
  {
    if s != "" && s[|s| - 1] == c then RStripChar(s[..|s| - 1], c) else s
  }

  lemma RStripCharPlain(s: string, c: char)
    requires s == "" || s[|s| - 1] != c
    ensures RStripChar(s, c) == s
  {
  }

  function UpperChar(c: char): char {
    if 'a' <= c <= 'z' then c - 32 as char else c
  }

  function LowerChar(c: char): char {
    if 'A' <= c <= 'Z' then c + 32 as char else c
  }

  function Upper(s: string): string {
    seq(|s|, i requires 0 <= i < |s| => UpperChar(s[i]))
  }

  function Lower(s: string): string {
    seq(|s|, i requires 0 <= i < |s| => LowerChar(s[i]))
  }

  lemma {:induction false} LStripped(s: string)
    ensures forall i :: 0 <= i < |s| - |LStrip(s)| ==> IsSpace(s[i])
  {
    if s != "" && IsSpace(s[0]) {
      LStripped(s[1..]);
      forall i | 0 <= i < |s| - |LStrip(s)| ensures IsSpace(s[i]) {
        if i > 0 { assert s[i] == s[1..][i - 1]; }
      }
    }
  }

  lemma {:induction false} RStripped(s: string)
    ensures forall i :: |RStrip(s)| <= i < |s| ==> IsSpace(s[i])
  {
    if s != "" && IsSpace(s[|s| - 1]) {
      var init := s[..|s| - 1];
      RStripped(init);
      forall i | |RStrip(s)| <= i < |s| ensures IsSpace(s[i]) {
        if i < |s| - 1 { assert s[i] == init[i]; }
      }
    }
  }

  /** Stripping removes the blanks at both ends and nothing else: `s[from..to]` is what is left. */
  lemma StripExactly(s: string) returns (from: nat, to: nat)
    ensures from <= to <= |s| && Strip(s) == s[from..to]
    ensures forall i :: 0 <= i < from || to <= i < |s| ==> IsSpace(s[i])
  {
    hide LStrip, RStrip, IsSpace;
    var l := LStrip(s);
    from := |s| - |l|;
    to := from + |Strip(s)|;
    LStripped(s);
    RStripped(l);
    assert l == s[from..] && Strip(s) == l[..|Strip(s)|] == s[from..to];
    forall i | to <= i < |s| ensures IsSpace(s[i]) { assert s[i] == l[i - from]; }
  }

  /** The two case functions leave no letter of the other case, undo each other's effect, and keep everything that is no letter. */
  lemma CaseExactly(s: string)
    ensures |Lower(s)| == |s| == |Upper(s)| && Lower(Upper(s)) == Lower(s) && Upper(Lower(s)) == Upper(s)
    ensures forall c :: c in Lower(s) ==> !('A' <= c <= 'Z')
    ensures forall c :: c in Upper(s) ==> !('a' <= c <= 'z')
    ensures forall i :: 0 <= i < |s| && !('A' <= s[i] <= 'Z') && !('a' <= s[i] <= 'z') ==> Lower(s)[i] == s[i] == Upper(s)[i]
    ensures forall i :: 0 <= i < |s| ==> ('a' <= s[i] <= 'z' ==> Lower(s)[i] == s[i]) && ('A' <= s[i] <= 'Z' ==> Upper(s)[i] == s[i])
  {
  }

  lemma LowerPlain(s: string)
    requires forall c :: c in s ==> LowerChar(c) == c
    ensures Lower(s) == s
  {
    assert forall i :: 0 <= i < |s| ==> s[i] in s;
  }
}
