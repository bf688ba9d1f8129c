/**
 Versions and digests (passd/authority.py). SHA-256 and HMAC-SHA-256 are free symbolic terms,
 rendered as text: a digest determines what was hashed. What is proved here is that the text
 that is hashed determines the domain and the value.
 */
module Authority {
  import opened Json
  import opened Wrappers

  function Sha256Hex(text: string): string {
    "sha256:" + text
  }

  function HmacHex(key: string, text: string): string {
    "hmac:" + PrintString(key) + text
  }

  function CanonicalJson(value: Value): string {
    Print(value)
  }

  function Material(domain: string, value: Value): string {
    domain + [NUL] + CanonicalJson(value)
  }

  function KeyedVersion(rootKey: string, domain: string, value: Value, prefix: string): string {
    prefix + HmacHex(rootKey, Material(domain, value))
  }

  function CapabilityVersion(rootKey: string, definition: Value): string {
    KeyedVersion(rootKey, "passd/capability/version/v1", definition, "cv1_")
  }

  function CredentialVersion(rootKey: string, itemId: string, field: string, value: Value): string {
    KeyedVersion(rootKey, "passd/credential/version/v1", CredentialMaterial(itemId, field, value), "sv1_")
  }

  function CredentialMaterial(itemId: string, field: string, value: Value): Value {
    Obj(map["item_id" := Str(itemId), "field" := Str(field), "value" := value])
  }

  function AuthorityDigest(value: Value): string {
    "ad1_" + Sha256Hex(CanonicalJson(value))
  }

  /** Two values with the same canonical text are the same value. */
  lemma CanonicalJsonInjective(v: Value, w: Value)
    requires CanonicalJson(v) == CanonicalJson(w)
    ensures v == w
  {
    LoadsPrint(v);
    LoadsPrint(w);
  }

  /** The canonical text holds no NUL, so the last NUL of the material ends the domain. */
  lemma MaterialLastNul(domain: string, v: Value)
    ensures var m := Material(domain, v);
            m[|domain|] == NUL && forall k :: |domain| < k < |m| ==> m[k] != NUL
  {
    PrintPrintable(v);
  }

  lemma MaterialInjective(domain: string, v: Value, domain': string, v': Value)
    requires Material(domain, v) == Material(domain', v')
    ensures domain == domain' && v == v'
  {
    MaterialLastNul(domain, v);
    MaterialLastNul(domain', v');
    var m := Material(domain, v);
    assert |domain| == |domain'|;
    assert domain == m[..|domain|] && domain' == m[..|domain|];
    assert CanonicalJson(v) == m[|domain| + 1..] && CanonicalJson(v') == m[|domain| + 1..];
    CanonicalJsonInjective(v, v');
  }

  lemma PrefixCancel(prefix: string, a: string, b: string)
    requires prefix + a == prefix + b
    ensures a == b
  {
    assert (prefix + a)[|prefix|..] == a && (prefix + b)[|prefix|..] == b;
  }

  lemma QuotedInjective(key: string, text: string, key': string, text': string)
    requires PrintString(key) + text == PrintString(key') + text'
    ensures key == key' && text == text'
  {
    ReadQuoted(key, text);
    ReadQuoted(key', text');
  }

  lemma HmacInjective(key: string, text: string, key': string, text': string)
    requires HmacHex(key, text) == HmacHex(key', text')
    ensures key == key' && text == text'
  {
    assert HmacHex(key, text) == "hmac:" + (PrintString(key) + text);
    assert HmacHex(key', text') == "hmac:" + (PrintString(key') + text');
    PrefixCancel("hmac:", PrintString(key) + text, PrintString(key') + text');
    QuotedInjective(key, text, key', text');
  }

  /** A version determines the root key, the domain and the value it was computed from. */
  lemma KeyedVersionInjective(key: string, domain: string, v: Value, key': string, domain': string, v': Value, prefix: string)
    requires KeyedVersion(key, domain, v, prefix) == KeyedVersion(key', domain', v', prefix)
    ensures key == key' && domain == domain' && v == v'
  {
    PrefixCancel(prefix, HmacHex(key, Material(domain, v)), HmacHex(key', Material(domain', v')));
    HmacInjective(key, Material(domain, v), key', Material(domain', v'));
    MaterialInjective(domain, v, domain', v');
  }

  lemma CredentialVersionInjective(key: string, itemId: string, field: string, v: Value, itemId': string, field': string, v': Value)
    requires CredentialVersion(key, itemId, field, v) == CredentialVersion(key, itemId', field', v')
    ensures itemId == itemId' && field == field' && v == v'
  {
    var m, m' := CredentialMaterial(itemId, field, v), CredentialMaterial(itemId', field', v');
    KeyedVersionInjective(key, "passd/credential/version/v1", m, key, "passd/credential/version/v1", m', "sv1_");
    assert m.members["item_id"] == m'.members["item_id"];
    assert m.members["field"] == m'.members["field"];
    assert m.members["value"] == m'.members["value"];
  }

  /** A digest determines the record it was computed from, whatever order its dictionary was built in. */
  lemma AuthorityDigestInjective(v: Value, v': Value)
    requires AuthorityDigest(v) == AuthorityDigest(v')
    ensures v == v'
  {
    PrefixCancel("ad1_", Sha256Hex(CanonicalJson(v)), Sha256Hex(CanonicalJson(v')));
    PrefixCancel("sha256:", CanonicalJson(v), CanonicalJson(v'));
    CanonicalJsonInjective(v, v');
  }
}
