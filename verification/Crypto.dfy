/**
 passd/crypto.py: unpadded base64url (RFC 4648), the JSON envelope, and authenticated encryption
 as a free symbolic term.
 */
module Crypto {
  import opened Wrappers
  import opened Text
  import opened Json
  import opened JsonDocs
  import opened Ordering

  type Byte = b: int | 0 <= b < 256

  // ---------- base64url ----------

  function Sextet(n: int): char
    requires 0 <= n < 64
  {
    if n < 26 then (n + 'A' as int) as char
    else if n < 52 then (n - 26 + 'a' as int) as char
    else if n < 62 then (n - 52 + '0' as int) as char
    else if n == 62 then '-'
    else '_'
  }

  function SextetValue(c: char): (n: int)
    ensures -1 <= n < 64
  {
    if 'A' <= c <= 'Z' then c as int - 'A' as int
    else if 'a' <= c <= 'z' then c as int - 'a' as int + 26
    else if '0' <= c <= '9' then c as int - '0' as int + 52
    else if c == '-' then 62
    else if c == '_' then 63
    else -1
  }

  /** `urlsafe_b64encode`: groups of four characters, the last one padded with '='. */
  function UrlsafeEncode(bytes: seq<Byte>): string {
    if bytes == [] then ""
    else if |bytes| == 1 then EncodeOne(bytes[0])
    else if |bytes| == 2 then EncodeTwo(bytes[0], bytes[1])
    else EncodeGroup(bytes[0], bytes[1], bytes[2]) + UrlsafeEncode(bytes[3..])
  }

  function EncodeOne(a: Byte): string {
    [Sextet(a / 4), Sextet(a % 4 * 16), '=', '=']
  }

  function EncodeTwo(a: Byte, b: Byte): string {
    [Sextet(a / 4), Sextet(a % 4 * 16 + b / 16), Sextet(b % 16 * 4), '=']
  }

  function EncodeGroup(a: Byte, b: Byte, c: Byte): string {
    [Sextet(a / 4), Sextet(a % 4 * 16 + b / 16), Sextet(b % 16 * 4 + c / 64), Sextet(c % 64)]
  }

  /** `urlsafe_b64decode`, for text made of the alphabet and final padding. */
  function UrlsafeDecode(text: string): Option<seq<Byte>> {
    if text == "" then Some([])
    else if |text| < 4 then None
    else
      var p, q, r, s := SextetValue(text[0]), SextetValue(text[1]), SextetValue(text[2]), SextetValue(text[3]);
      if p < 0 || q < 0 then None
      else if |text| == 4 && text[2] == '=' && text[3] == '=' then Some([p * 4 + q / 16])
      else if r < 0 then None
      else if |text| == 4 && text[3] == '=' then Some([p * 4 + q / 16, q % 16 * 16 + r / 4])
      else if s < 0 then None
      else
        match UrlsafeDecode(text[4..])
        case Some(rest) => Some([p * 4 + q / 16, q % 16 * 16 + r / 4, r % 4 * 64 + s] + rest)
        case None => None
  }

  function B64e(bytes: seq<Byte>): string {
    RStripChar(UrlsafeEncode(bytes), '=')
  }

  /** The padding that `b64d` adds back: `"=" * (-len(value) % 4)`. */
  function Padding(length: nat): string {
    seq((4 - length % 4) % 4, _ => '=')
  }

  function B64d(text: string): Option<seq<Byte>> {
    UrlsafeDecode(text + Padding(|text|))
  }

  lemma SextetRoundTrip(n: int)
    requires 0 <= n < 64
    ensures SextetValue(Sextet(n)) == n && Sextet(n) != '='
  {
  }

  lemma {:induction false} DecodeEncode(bytes: seq<Byte>)
    ensures UrlsafeDecode(UrlsafeEncode(bytes)) == Some(bytes)
  {
    hide EncodeOne, EncodeTwo, EncodeGroup, UrlsafeDecode;
    if bytes == [] {
      DecodeEmpty();
    } else if |bytes| == 1 {
      DecodeOne(bytes[0]);
      assert bytes == [bytes[0]];
    } else if |bytes| == 2 {
      DecodeTwo(bytes[0], bytes[1]);
      assert bytes == [bytes[0], bytes[1]];
    } else if |bytes| >= 3 {
      DecodeEncode(bytes[3..]);
      DecodeGroup(bytes[0], bytes[1], bytes[2], UrlsafeEncode(bytes[3..]));
      assert bytes == [bytes[0], bytes[1], bytes[2]] + bytes[3..];
    }
  }

  lemma DecodeEmpty()
    ensures UrlsafeDecode("") == Some([])
  {
  }

  lemma DecodeOne(a: Byte)
    ensures UrlsafeDecode(EncodeOne(a)) == Some([a])
  {
    SextetRoundTrip(a / 4);
    SextetRoundTrip(a % 4 * 16);
    var text := EncodeOne(a);
    assert |text| == 4 && text[2] == '=' && text[3] == '=';
  }

  lemma DecodeTwo(a: Byte, b: Byte)
    ensures UrlsafeDecode(EncodeTwo(a, b)) == Some([a, b])
  {
    SextetRoundTrip(a / 4);
    SextetRoundTrip(a % 4 * 16 + b / 16);
    SextetRoundTrip(b % 16 * 4);
    var text := EncodeTwo(a, b);
    assert |text| == 4 && text[3] == '=' && text[2] != '=';
  }

  lemma DecodeGroup(a: Byte, b: Byte, c: Byte, tail: string)
    requires UrlsafeDecode(tail).Some?
    ensures UrlsafeDecode(EncodeGroup(a, b, c) + tail) == Some([a, b, c] + UrlsafeDecode(tail).value)
  {
    hide Sextet, SextetValue, UrlsafeDecode;
    var p, q, r, s := a / 4, a % 4 * 16 + b / 16, b % 16 * 4 + c / 64, c % 64;
    DecodeFour(p, q, r, s, tail);
    BitsRejoin(a, b, c);
  }

  lemma BitsRejoin(a: Byte, b: Byte, c: Byte)
    ensures var p, q, r, s := a / 4, a % 4 * 16 + b / 16, b % 16 * 4 + c / 64, c % 64;
            p * 4 + q / 16 == a && q % 16 * 16 + r / 4 == b && r % 4 * 64 + s == c
  {
  }

  lemma DecodeFour(p: int, q: int, r: int, s: int, tail: string)
    requires 0 <= p < 64 && 0 <= q < 64 && 0 <= r < 64 && 0 <= s < 64
    requires UrlsafeDecode(tail).Some?
    ensures UrlsafeDecode([Sextet(p), Sextet(q), Sextet(r), Sextet(s)] + tail)
         == Some([p * 4 + q / 16, q % 16 * 16 + r / 4, r % 4 * 64 + s] + UrlsafeDecode(tail).value)
  {
    var text := [Sextet(p), Sextet(q), Sextet(r), Sextet(s)] + tail;
    SextetRoundTrip(p);
    SextetRoundTrip(q);
    SextetRoundTrip(r);
    SextetRoundTrip(s);
    assert text[0] == Sextet(p) && text[1] == Sextet(q) && text[2] == Sextet(r) && text[3] == Sextet(s);
    assert text[4..] == tail;
  }

  /** How many '=' end the encoding of `n` bytes. */
  function PadCount(n: nat): nat {
    (3 - n % 3) % 3
  }

  /** `t` is whole groups of four, and exactly its last `p` characters are '='. */
  ghost predicate Padded(t: string, p: nat) {
    && |t| % 4 == 0 && p < 3 && (t == "" ==> p == 0)
    && (forall i :: 0 <= i < |t| && |t| - p <= i ==> t[i] == '=')
    && (t != "" ==> |t| >= 4 && t[|t| - p - 1] != '=')
  }

  lemma {:induction false} EncodeShape(bytes: seq<Byte>)
    ensures Padded(UrlsafeEncode(bytes), PadCount(|bytes|))
  {
    hide Padded, EncodeOne, EncodeTwo, EncodeGroup;
    if bytes == [] {
      PaddedEmpty();
    } else if |bytes| == 1 {
      PaddedOne(bytes[0]);
    } else if |bytes| == 2 {
      PaddedTwo(bytes[0], bytes[1]);
    } else {
      GroupShape(bytes[0], bytes[1], bytes[2]);
      EncodeShape(bytes[3..]);
      PaddedGroup(EncodeGroup(bytes[0], bytes[1], bytes[2]), UrlsafeEncode(bytes[3..]), PadCount(|bytes|));
    }
  }

  lemma PaddedEmpty()
    ensures Padded("", 0)
  {
  }

  lemma PaddedOne(a: Byte)
    ensures Padded(EncodeOne(a), 2)
  {
    hide Sextet;
    SextetRoundTrip(a % 4 * 16);
  }

  lemma PaddedTwo(a: Byte, b: Byte)
    ensures Padded(EncodeTwo(a, b), 1)
  {
    hide Sextet;
    SextetRoundTrip(b % 16 * 4);
  }

  lemma GroupShape(a: Byte, b: Byte, c: Byte)
    ensures |EncodeGroup(a, b, c)| == 4 && EncodeGroup(a, b, c)[3] != '='
  {
    hide Sextet;
    SextetRoundTrip(c % 64);
  }

  lemma PaddedGroup(group: string, t: string, p: nat)
    requires |group| == 4 && group[3] != '=' && Padded(t, p)
    ensures Padded(group + t, p)
  {
  }

  /** What `b64e` strips is exactly what `b64d` adds back, for every length modulo 3. */
  lemma PaddingRestored(bytes: seq<Byte>)
    ensures B64e(bytes) + Padding(|B64e(bytes)|) == UrlsafeEncode(bytes)
    ensures |Padding(|B64e(bytes)|)| == PadCount(|bytes|)
  {
    EncodeShape(bytes);
    StripPadded(UrlsafeEncode(bytes), PadCount(|bytes|));
  }

  lemma StripPadded(t: string, p: nat)
    requires Padded(t, p)
    ensures var r := RStripChar(t, '=');
            |r| == |t| - p && |Padding(|r|)| == p && r + Padding(|r|) == t
  {
    var r := RStripChar(t, '=');
    assert |r| == |t| - p;
    assert t == r + t[|r|..];
  }

  lemma B64RoundTrip(bytes: seq<Byte>)
    ensures B64d(B64e(bytes)) == Some(bytes)
  {
    PaddingRestored(bytes);
    DecodeEncode(bytes);
  }

  // ---------- the envelope ----------

  datatype Envelope = Envelope(nonce: seq<Byte>, ciphertext: seq<Byte>)

  function EnvelopeDoc(e: Envelope): Doc {
    Dict([Entry("v", Leaf(Int(1))), Entry("n", Leaf(Str(B64e(e.nonce)))), Entry("c", Leaf(Str(B64e(e.ciphertext))))])
  }

  function Dumps(e: Envelope): string {
    PrintDoc(EnvelopeDoc(e))
  }

  /** `v == 1` in Python, where `True` and `1.0` are equal to 1. */
  predicate IsOne(v: Value) {
    v == Int(1) || v == Bool(true) || v == Float("1.0")
  }

  function EnvelopeLoads(raw: string): Result<Envelope> {
    var parsed := Loads(raw);
    if parsed.None? || !parsed.value.Obj? then Err(Internal)
    else
      var members := parsed.value.members;
      if "v" !in members || !IsOne(members["v"]) then Err(Internal)
      else if "n" !in members || "c" !in members || !members["n"].Str? || !members["c"].Str? then Err(Internal)
      else
        var nonce, ciphertext := B64d(members["n"].s), B64d(members["c"].s);
        if nonce.None? || ciphertext.None? then Err(Internal)
        else Ok(Envelope(nonce.value, ciphertext.value))
  }

  lemma EnvelopeMembers(e: Envelope)
    ensures ToValue(EnvelopeDoc(e)) == Obj(map["v" := Int(1), "n" := Str(B64e(e.nonce)), "c" := Str(B64e(e.ciphertext))])
  {
    hide B64e, EntryValues;
    var d := EnvelopeDoc(e);
    LastEntries(d, 2);
    LastEntries(d, 1);
    LastEntries(d, 0);
    assert "v"[0] == 'v' && "n"[0] == 'n' && "c"[0] == 'c';
  }

  /** A text is an envelope exactly if it is an object of version 1 with two encoded entries, and then holds their bytes. */
  lemma EnvelopeExactly(raw: string, e: Envelope)
    ensures EnvelopeLoads(raw) == Ok(e) <==>
              && Loads(raw).Some? && Loads(raw).value.Obj?
              && var members := Loads(raw).value.members;
              && {"v", "n", "c"} <= members.Keys && members["v"] in [Int(1), Bool(true), Float("1.0")] && members["n"].Str? && members["c"].Str?
              && B64d(members["n"].s) == Some(e.nonce) && B64d(members["c"].s) == Some(e.ciphertext)
  {
    hide B64d, Loads;
  }

  lemma EnvelopeRoundTrip(e: Envelope)
    ensures EnvelopeLoads(Dumps(e)) == Ok(e)
  {
    hide B64e, B64d, Loads, PrintDoc, ToValue, EnvelopeDoc;
    LoadsPrintDoc(EnvelopeDoc(e));
    EnvelopeMembers(e);
    assert "v"[0] == 'v' && "n"[0] == 'n' && "c"[0] == 'c';
    B64RoundTrip(e.nonce);
    B64RoundTrip(e.ciphertext);
  }

  // ---------- authenticated encryption ----------

  // A key is the root key or the n-th random key drawn.
  datatype Key = RootKey | RandomKey(draw: nat)

  // What is sealed: a wrapped key or a document.
  datatype Plaintext<D> = KeyMaterial(key: Key) | Document(document: D)

  // The sealed text opens only under the same key and the same associated data.
  datatype Sealed<D> = Sealed(key: Key, aad: string, plaintext: Plaintext<D>)

  function Seal<D>(key: Key, plaintext: Plaintext<D>, aad: string): Sealed<D> {
    Sealed(key, aad, plaintext)
  }

  function Open<D>(key: Key, sealed: Sealed<D>, aad: string): Result<Plaintext<D>> {
    if sealed.key == key && sealed.aad == aad then Ok(sealed.plaintext) else Err(Internal)
  }
}
